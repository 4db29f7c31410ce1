/** What each of the sixteen operator texts asks of a row. */
module ConditionTexts {
  import opened Wrappers
  import opened GoStrings
  import opened Conditions
  import opened ConditionRoundTrip
  import opened WhereSql
  import opened RawFilters

  /** The column that the key left of the operator stands for. */
  function ColumnOf(fMap: map<string, Field>, lhs: string): string
    requires TrimSpace(lhs) in fMap
  {
    var f := fMap[TrimSpace(lhs)];
    f.objKey + "." + f.col
  }

  /** A clear text is read as its operator applied to its operand. */
  lemma Reads(db: Db, row: Row, pf: ParseFloat, fMap: map<string, Field>, lhs: string, op: Op, rhs: string, v: Value)
    requires Clear(lhs, op, rhs) && TrimSpace(lhs) in fMap
    requires Operand(pf, fMap[TrimSpace(lhs)].kind, op, rhs) == Ok(v)
    ensures TextHolds(db, row, pf, fMap, lhs + Pattern(op) + rhs)
         == ConditionHolds(db, row, Condition(fMap[TrimSpace(lhs)], op, v))
  {
    var s := lhs + Pattern(op) + rhs;
    assert s[..|lhs|] == lhs && s[|lhs| + |Pattern(op)|..] == rhs;
    hide Clear, Pick, ToUpper, ParseCondition, TrimSpace, Pattern, Operand, ConditionHolds;
    OperatorFound(lhs, op, rhs);
    ParseIsBranch(pf, fMap, s);
  }

  // ------------------------------------------------------------------ comparisons

  /** What the text right of a comparison is compared as. */
  predicate Scalar(kind: Kind, rhs: string, v: Value) {
    match v
    case Text(s) => kind == StringKind && s == TrimSpace(rhs)
    case Number(n) => (kind == IntKind || kind == FloatKind) && Atoi(TrimSpace(rhs)) == Some(n)
    case Flag(b) => kind == BoolKind && b == (TrimSpace(ToUpper(rhs)) == "TRUE")
    case _ => false
  }

  lemma OperandIsScalar(pf: ParseFloat, kind: Kind, op: Op, rhs: string, v: Value)
    requires Scalar(kind, rhs, v) && Symbolic(op) && (v.Flag? ==> op == Eq || op == Ne)
    ensures Operand(pf, kind, op, rhs) == Ok(v)
  {
    hide TrimSpace, Atoi, ToUpper;
  }

  lemma ReadsScalar(db: Db, row: Row, pf: ParseFloat, fMap: map<string, Field>, lhs: string, op: Op, rhs: string,
                    v: Value)
    requires TrimSpace(lhs) in fMap && Scalar(fMap[TrimSpace(lhs)].kind, rhs, v)
    requires Symbolic(op) && (v.Flag? ==> op == Eq || op == Ne)
    ensures Clear(lhs, op, rhs) ==>
              TextHolds(db, row, pf, fMap, lhs + Pattern(op) + rhs)
              == ConditionHolds(db, row, Condition(fMap[TrimSpace(lhs)], op, v))
  {
    hide *;
    OperandIsScalar(pf, fMap[TrimSpace(lhs)].kind, op, rhs, v);
    if Clear(lhs, op, rhs) {
      Reads(db, row, pf, fMap, lhs, op, rhs, v);
    }
  }

  /** "==" and "!=" compare for equality. */
  lemma EqualityTexts(db: Db, row: Row, pf: ParseFloat, fMap: map<string, Field>, lhs: string, rhs: string, v: Value)
    requires TrimSpace(lhs) in fMap && Scalar(fMap[TrimSpace(lhs)].kind, rhs, v)
    ensures var x := row(ColumnOf(fMap, lhs));
            && (Clear(lhs, Eq, rhs) ==> TextHolds(db, row, pf, fMap, lhs + "==" + rhs) == db.eq(x, v))
            && (Clear(lhs, Ne, rhs) ==> TextHolds(db, row, pf, fMap, lhs + "!=" + rhs) == !db.eq(x, v))
  {
    hide Clear, TextHolds, TrimSpace, Scalar;
    ReadsScalar(db, row, pf, fMap, lhs, Eq, rhs, v);
    ReadsScalar(db, row, pf, fMap, lhs, Ne, rhs, v);
  }

  /** "<", ">", "<=" and ">=" compare by the database's order. */
  lemma OrderTexts(db: Db, row: Row, pf: ParseFloat, fMap: map<string, Field>, lhs: string, rhs: string, v: Value)
    requires TrimSpace(lhs) in fMap && Scalar(fMap[TrimSpace(lhs)].kind, rhs, v) && !v.Flag?
    ensures var x := row(ColumnOf(fMap, lhs));
            && (Clear(lhs, Lt, rhs) ==> TextHolds(db, row, pf, fMap, lhs + "<" + rhs) == db.less(x, v))
            && (Clear(lhs, Gt, rhs) ==> TextHolds(db, row, pf, fMap, lhs + ">" + rhs) == db.less(v, x))
            && (Clear(lhs, Le, rhs) ==> TextHolds(db, row, pf, fMap, lhs + "<=" + rhs) == !db.less(v, x))
            && (Clear(lhs, Ge, rhs) ==> TextHolds(db, row, pf, fMap, lhs + ">=" + rhs) == !db.less(x, v))
  {
    hide Clear, TextHolds, TrimSpace, Scalar;
    ReadsScalar(db, row, pf, fMap, lhs, Lt, rhs, v);
    ReadsScalar(db, row, pf, fMap, lhs, Gt, rhs, v);
    ReadsScalar(db, row, pf, fMap, lhs, Le, rhs, v);
    ReadsScalar(db, row, pf, fMap, lhs, Ge, rhs, v);
  }

  // ------------------------------------------------------------------ text matching

  lemma ReadsText(db: Db, row: Row, pf: ParseFloat, fMap: map<string, Field>, lhs: string, op: Op, rhs: string)
    requires TrimSpace(lhs) in fMap && fMap[TrimSpace(lhs)].kind == StringKind && !Symbolic(op) && !ListOp(op)
    ensures Clear(lhs, op, rhs) ==>
              TextHolds(db, row, pf, fMap, lhs + Pattern(op) + rhs)
              == ConditionHolds(db, row, Condition(fMap[TrimSpace(lhs)], op, Text(TrimSpace(rhs))))
  {
    assert Operand(pf, fMap[TrimSpace(lhs)].kind, op, rhs) == Ok(Text(TrimSpace(rhs)));
    hide *;
    if Clear(lhs, op, rhs) {
      Reads(db, row, pf, fMap, lhs, op, rhs, Text(TrimSpace(rhs)));
    }
  }

  /** The value of a text column matches a LIKE pattern. */
  predicate Matches(x: Value, pattern: string) {
    x.Text? && LikeMatch(pattern, x.s)
  }

  lemma MatchingTexts(db: Db, row: Row, pf: ParseFloat, fMap: map<string, Field>, lhs: string, rhs: string)
    requires TrimSpace(lhs) in fMap && fMap[TrimSpace(lhs)].kind == StringKind
    ensures var x, t := row(ColumnOf(fMap, lhs)), TrimSpace(rhs);
            && (Clear(lhs, Like, rhs) ==>
                  TextHolds(db, row, pf, fMap, lhs + " LIKE " + rhs) == Matches(x, "%" + t + "%"))
            && (Clear(lhs, NotLike, rhs) ==>
                  TextHolds(db, row, pf, fMap, lhs + " !LIKE " + rhs) == !Matches(x, "%" + t + "%"))
            && (Clear(lhs, Prefix, rhs) ==>
                  TextHolds(db, row, pf, fMap, lhs + " HAS_PREFIX " + rhs) == Matches(x, t + "%"))
            && (Clear(lhs, NotPrefix, rhs) ==>
                  TextHolds(db, row, pf, fMap, lhs + " !HAS_PREFIX " + rhs) == !Matches(x, t + "%"))
            && (Clear(lhs, Suffix, rhs) ==>
                  TextHolds(db, row, pf, fMap, lhs + " HAS_SUFFIX " + rhs) == Matches(x, "%" + t))
            && (Clear(lhs, NotSuffix, rhs) ==>
                  TextHolds(db, row, pf, fMap, lhs + " !HAS_SUFFIX " + rhs) == !Matches(x, "%" + t))
  {
    hide Clear, TextHolds, TrimSpace, LikeMatch;
    ReadsText(db, row, pf, fMap, lhs, Like, rhs);
    ReadsText(db, row, pf, fMap, lhs, NotLike, rhs);
    ReadsText(db, row, pf, fMap, lhs, Prefix, rhs);
    ReadsText(db, row, pf, fMap, lhs, NotPrefix, rhs);
    ReadsText(db, row, pf, fMap, lhs, Suffix, rhs);
    ReadsText(db, row, pf, fMap, lhs, NotSuffix, rhs);
  }

  // ------------------------------------------------------------------ lists

  lemma ReadsList(db: Db, row: Row, pf: ParseFloat, fMap: map<string, Field>, lhs: string, op: Op, rhs: string,
                  v: Value)
    requires TrimSpace(lhs) in fMap && ListOp(op)
    requires match v
             case Texts(ts) => fMap[TrimSpace(lhs)].kind == StringKind && StringPair(TrimSpace(rhs)) == Ok(ts)
             case Numbers(rs) =>
               && Numeric(fMap[TrimSpace(lhs)].kind)
               && (if op == In || op == NotIn then NumberArray(pf, TrimSpace(rhs)) == Ok(rs)
                   else NumberRange(pf, TrimSpace(rhs)) == Ok(rs))
             case _ => false
    ensures Clear(lhs, op, rhs) ==>
              TextHolds(db, row, pf, fMap, lhs + Pattern(op) + rhs)
              == ConditionHolds(db, row, Condition(fMap[TrimSpace(lhs)], op, v))
  {
    hide TrimSpace, StringPair, NumberArray, NumberRange, Clear, Pattern, TextHolds, ConditionHolds;
    assert Operand(pf, fMap[TrimSpace(lhs)].kind, op, rhs) == Ok(v);
    if Clear(lhs, op, rhs) {
      Reads(db, row, pf, fMap, lhs, op, rhs, v);
    }
  }

  /** The four list conditions on the column of the key. */
  lemma ListHolds(db: Db, row: Row, fMap: map<string, Field>, lhs: string, v: Value)
    requires TrimSpace(lhs) in fMap
    ensures Pattern(In) == " IN " && Pattern(NotIn) == " !IN "
    ensures Pattern(Between) == " BETWEEN " && Pattern(NotBetween) == " !BETWEEN "
    ensures ListOp(In) && ListOp(NotIn) && ListOp(Between) && ListOp(NotBetween)
    ensures var f, x := fMap[TrimSpace(lhs)], row(ColumnOf(fMap, lhs));
            && ConditionHolds(db, row, Condition(f, In, v)) == IsMember(db, x, v)
            && ConditionHolds(db, row, Condition(f, NotIn, v)) == !IsMember(db, x, v)
            && ConditionHolds(db, row, Condition(f, Between, v)) == IsBetween(db, x, v)
            && ConditionHolds(db, row, Condition(f, NotBetween, v)) == !IsBetween(db, x, v)
  {
    hide TrimSpace, IsMember, IsBetween;
  }

  lemma PairOf(a: string, b: string)
    requires ',' !in a && ',' !in b
    ensures StringPair("[" + a + "," + b + "]") == Ok([TrimSpace(a), TrimSpace(b)])
  {
    var s := "[" + a + "," + b + "]";
    assert s[1..|s| - 1] == a + "," + b;
    SplitPart(a, b);
    SplitPart(b, []);
    hide TrimSpace, Split;
    assert [a] + [b] == [a, b];
    assert [a, b][1..] == [b] && [b][1..] == [];
    assert Trims([b]) == [TrimSpace(b)] + Trims([]) == [TrimSpace(b)];
    assert Trims([a, b]) == [TrimSpace(a)] + Trims([b]) == [TrimSpace(a), TrimSpace(b)];
  }

  lemma OfTwo(db: Db, x: Value, a: string, b: string)
    ensures IsMember(db, x, Texts([a, b])) == (db.eq(x, Text(a)) || db.eq(x, Text(b)))
    ensures IsBetween(db, x, Texts([a, b])) == (!db.less(x, Text(a)) && !db.less(Text(b), x))
  {
    assert [a, b][0] == a && [a, b][1] == b;
  }

  lemma OfNumbers(db: Db, x: Value, rs: seq<real>)
    ensures IsMember(db, x, Numbers(rs)) == exists k :: 0 <= k < |rs| && db.eq(x, Float(rs[k]))
    ensures |rs| == 2 ==>
              IsBetween(db, x, Numbers(rs)) == (!db.less(x, Float(rs[0])) && !db.less(Float(rs[1]), x))
  {
  }

  /** " IN " asks for one of two texts, " BETWEEN " for a text from the first to the second. */
  lemma TextListTexts(db: Db, row: Row, pf: ParseFloat, fMap: map<string, Field>, lhs: string, rhs: string,
                      a: string, b: string)
    requires TrimSpace(lhs) in fMap && fMap[TrimSpace(lhs)].kind == StringKind
    requires TrimSpace(rhs) == "[" + a + "," + b + "]" && ',' !in a && ',' !in b
    ensures var x, u, v := row(ColumnOf(fMap, lhs)), Text(TrimSpace(a)), Text(TrimSpace(b));
            && (Clear(lhs, In, rhs) ==>
                  TextHolds(db, row, pf, fMap, lhs + " IN " + rhs) == (db.eq(x, u) || db.eq(x, v)))
            && (Clear(lhs, NotIn, rhs) ==>
                  TextHolds(db, row, pf, fMap, lhs + " !IN " + rhs) == !(db.eq(x, u) || db.eq(x, v)))
            && (Clear(lhs, Between, rhs) ==>
                  TextHolds(db, row, pf, fMap, lhs + " BETWEEN " + rhs) == (!db.less(x, u) && !db.less(v, x)))
            && (Clear(lhs, NotBetween, rhs) ==>
                  TextHolds(db, row, pf, fMap, lhs + " !BETWEEN " + rhs) == !(!db.less(x, u) && !db.less(v, x)))
  {
    PairOf(a, b);
    var v := Texts([TrimSpace(a), TrimSpace(b)]);
    hide *;
    OfTwo(db, row(ColumnOf(fMap, lhs)), TrimSpace(a), TrimSpace(b));
    ListHolds(db, row, fMap, lhs, v);
    ReadsList(db, row, pf, fMap, lhs, In, rhs, v);
    ReadsList(db, row, pf, fMap, lhs, NotIn, rhs, v);
    ReadsList(db, row, pf, fMap, lhs, Between, rhs, v);
    ReadsList(db, row, pf, fMap, lhs, NotBetween, rhs, v);
  }

  lemma {:induction false} FloatsOf(pf: ParseFloat, parts: seq<string>, rs: seq<real>)
    requires |parts| == |rs| && forall k :: 0 <= k < |rs| ==> pf(TrimSpace(parts[k])) == Some(rs[k])
    ensures Floats(pf, parts) == Some(rs)
  {
    hide TrimSpace;
    if parts == [] {
    } else {
      FloatsOf(pf, parts[1..], rs[1..]);
      assert [rs[0]] + rs[1..] == rs;
    }
  }

  lemma NumbersOf(pf: ParseFloat, parts: seq<string>, rs: seq<real>)
    requires parts != [] && |parts| == |rs|
    requires forall k :: 0 <= k < |rs| ==> ',' !in parts[k] && pf(TrimSpace(parts[k])) == Some(rs[k])
    ensures NumberArray(pf, "[" + Join(parts) + "]") == Ok(rs)
    ensures |rs| == 2 ==> NumberRange(pf, "[" + Join(parts) + "]") == Ok(rs)
  {
    Brackets(parts);
    FloatsOf(pf, parts, rs);
    hide Join, Split, Floats, TrimSpace;
  }

  /** For numbers " IN " takes any number of values, " BETWEEN " two. */
  lemma NumberListTexts(db: Db, row: Row, pf: ParseFloat, fMap: map<string, Field>, lhs: string, rhs: string,
                        parts: seq<string>, rs: seq<real>)
    requires TrimSpace(lhs) in fMap && Numeric(fMap[TrimSpace(lhs)].kind)
    requires TrimSpace(rhs) == "[" + Join(parts) + "]" && parts != [] && |parts| == |rs|
    requires forall k :: 0 <= k < |rs| ==> ',' !in parts[k] && pf(TrimSpace(parts[k])) == Some(rs[k])
    ensures var x := row(ColumnOf(fMap, lhs));
            var some := exists k :: 0 <= k < |rs| && db.eq(x, Float(rs[k]));
            && (Clear(lhs, In, rhs) ==> TextHolds(db, row, pf, fMap, lhs + " IN " + rhs) == some)
            && (Clear(lhs, NotIn, rhs) ==> TextHolds(db, row, pf, fMap, lhs + " !IN " + rhs) == !some)
    ensures |rs| == 2 ==>
              var x := row(ColumnOf(fMap, lhs));
              var within := !db.less(x, Float(rs[0])) && !db.less(Float(rs[1]), x);
              && (Clear(lhs, Between, rhs) ==> TextHolds(db, row, pf, fMap, lhs + " BETWEEN " + rhs) == within)
              && (Clear(lhs, NotBetween, rhs) ==> TextHolds(db, row, pf, fMap, lhs + " !BETWEEN " + rhs) == !within)
  {
    NumbersOf(pf, parts, rs);
    hide *;
    ListHolds(db, row, fMap, lhs, Numbers(rs));
    OfNumbers(db, row(ColumnOf(fMap, lhs)), rs);
    ReadsList(db, row, pf, fMap, lhs, In, rhs, Numbers(rs));
    ReadsList(db, row, pf, fMap, lhs, NotIn, rhs, Numbers(rs));
    if |rs| == 2 {
      ReadsList(db, row, pf, fMap, lhs, Between, rhs, Numbers(rs));
      ReadsList(db, row, pf, fMap, lhs, NotBetween, rhs, Numbers(rs));
    }
  }

  // ------------------------------------------------------------------ plain texts

  /** No blank, and none of the characters of the symbols. */
  predicate Plain(t: string) {
    forall k :: 0 <= k < |t| ==> !Blank(t[k]) && !SymbolChar(t[k])
  }

  lemma PlainLeft(lhs: string, op: Op, q: Op, j: nat)
    requires Plain(lhs) && !Symbolic(op)
    ensures MatchAt(ToUpper(lhs) + Pattern(op), Pattern(q), j) ==> j >= |lhs|
  {
    WordFacts(op);
    var l, p := ToUpper(lhs) + Pattern(op), Pattern(q);
    assert forall k :: 0 <= k < |lhs| ==> l[k] == Upper(lhs[k]) && l[k] != ' ' && !SymbolChar(l[k]);
    StartsWith(q);
    hide Pattern, ToUpper;
    if MatchAt(l, p, j) && j < |lhs| {
      MatchChars(l, p, j, 0);
    }
  }

  lemma StartsWith(q: Op)
    ensures |Pattern(q)| > 0 && (Pattern(q)[0] == ' ' || SymbolChar(Pattern(q)[0]))
  {
  }

  lemma PlainRight(op: Op, rhs: string, q: Op, j: nat)
    requires Plain(rhs) && !Symbolic(op)
    ensures MatchAt(Pattern(op) + ToUpper(rhs), Pattern(q), j) ==> q == op
  {
    WordFacts(op);
    PatternsEqual(op, q);
    if Symbolic(q) {
      SymbolFacts(q);
    } else {
      WordFacts(q);
    }
    UpperPlain(rhs);
    hide Pattern, ToUpper, Plain;
    if MatchAt(Pattern(op) + ToUpper(rhs), Pattern(q), j) {
      OnlyWord(Pattern(op), ToUpper(rhs), Pattern(q), j);
    }
  }

  lemma UpperPlain(t: string)
    requires Plain(t)
    ensures Plain(ToUpper(t))
  {
  }

  /** In a word and a plain text behind it there is no symbol and no other word. */
  lemma OnlyWord(m: string, t: string, p: string, j: nat)
    requires Word(m) && Plain(t) && forall k :: 0 <= k < |m| ==> m[k] != '<' && m[k] != '>' && m[k] != '='
    requires p != [] && MatchAt(m + t, p, j)
    requires Word(p) || p[|p| - 1] == '=' || p[|p| - 1] == '<' || p[|p| - 1] == '>'
    ensures p == m
  {
    var s := m + t;
    MatchChars(s, p, j, 0);
    MatchChars(s, p, j, |p| - 1);
    assert forall k :: 0 <= k < |m| ==> s[k] == m[k];
    assert forall k :: |m| <= k < |s| ==> s[k] == t[k - |m|] && s[k] != ' ';
    if Word(p) {
      assert j == 0 && |p| == |m|;
      assert s[..|m|] == m;
    }
  }

  lemma PatternsEqual(op: Op, q: Op)
    ensures Pattern(op) == Pattern(q) ==> op == q
  {
    if Pattern(op) == Pattern(q) {
      PatternsDiffer(op, q);
    }
  }

  /** Plain texts are clear around every operator, so the laws above hold for them as they stand. */
  lemma PlainIsClear(lhs: string, op: Op, rhs: string)
    requires Plain(lhs) && Plain(rhs)
    ensures Clear(lhs, op, rhs)
  {
    if Symbolic(op) {
      ShortIsFree(lhs, op);
      ShortIsFree(rhs, op);
      hide OperatorFree, Clear, ToUpper, Pattern;
      FreeIsClear(lhs, op, rhs);
    } else {
      hide Pattern, ToUpper, MatchAt, Place, Plain, Symbolic;
      forall q, j: nat
        ensures MatchAt(ToUpper(lhs) + Pattern(op), Pattern(q), j) ==> j >= |lhs|
        ensures MatchAt(Pattern(op) + ToUpper(rhs), Pattern(q), j) ==> q == op
      {
        PlainLeft(lhs, op, q, j);
        PlainRight(op, rhs, q, j);
      }
    }
  }
}
