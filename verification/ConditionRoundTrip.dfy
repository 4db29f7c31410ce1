/** A condition that is printed as key, operator, value is parsed back, whatever the search order. */
module ConditionRoundTrip {
  import opened Wrappers
  import opened GoStrings
  import opened Conditions

  // ------------------------------------------------------------------ which operator is found

  predicate SymbolChar(c: char) {
    c == '<' || c == '>' || c == '=' || c == '!'
  }

  function Place(op: Op): (k: nat)
    ensures k < |ORDER| && ORDER[k] == op
  {
    match op
    case Ge => 0
    case Le => 1
    case Ne => 2
    case Lt => 3
    case Gt => 4
    case Eq => 5
    case NotIn => 6
    case In => 7
    case NotBetween => 8
    case Between => 9
    case NotLike => 10
    case Like => 11
    case NotPrefix => 12
    case Prefix => 13
    case NotSuffix => 14
    case Suffix => 15
  }

  lemma PlaceOf(k: nat)
    requires k < |ORDER|
    ensures Place(ORDER[k]) == k
  {
  }

  lemma PatternUpper(op: Op)
    ensures ToUpper(Pattern(op)) == Pattern(op)
  {
  }

  /** Symbols: one or two symbol characters, the second always '='. */
  lemma SymbolFacts(op: Op)
    requires Symbolic(op)
    ensures 1 <= |Pattern(op)| <= 2
    ensures SymbolChar(Pattern(op)[0])
    ensures |Pattern(op)| == 2 ==> Pattern(op)[1] == '='
    ensures |Pattern(op)| == 1 ==> Pattern(op)[0] == '<' || Pattern(op)[0] == '>'
  {
  }

  /** Words: a blank at either end and nowhere else, and none of '<', '>', '='. */
  lemma WordFacts(op: Op)
    requires !Symbolic(op)
    ensures Word(Pattern(op))
    ensures forall k :: 0 <= k < |Pattern(op)| ==>
                          Pattern(op)[k] != '<' && Pattern(op)[k] != '>' && Pattern(op)[k] != '='
  {
  }

  predicate Word(p: string) {
    && |p| >= 4 && p[0] == ' ' && p[|p| - 1] == ' '
    && forall k :: 0 < k < |p| - 1 ==> p[k] != ' '
  }

  lemma PatternsDiffer(op: Op, op': Op)
    requires Pattern(op) == Pattern(op')
    ensures op == op'
  {
    var p := Pattern(op);
    if Symbolic(op) {
      assert p[0] != ' ';
    } else {
      WordFacts(op);
      assert |p| >= 4 && p[1] == Pattern(op')[1] && p[2] == Pattern(op')[2];
      assert |p| > 12 ==> p[6] == Pattern(op')[6] && p[7] == Pattern(op')[7];
      assert |p| == 12 ==> p[5] == Pattern(op')[5];
    }
  }

  lemma MatchChars(s: string, p: string, j: nat, k: nat)
    requires MatchAt(s, p, j) && k < |p|
    ensures s[j + k] == p[k]
  {
    assert s[j..j + |p|][k] == p[k];
  }

  lemma MatchMoved(s: string, p: string, j: nat, s': string, j': nat)
    requires MatchAt(s, p, j) && j' + |p| <= |s'|
    requires forall k :: j' <= k < j' + |p| ==> s'[k] == s[j + (k - j')]
    ensures MatchAt(s', p, j')
  {
    forall k | 0 <= k < |p|
      ensures s'[j'..j' + |p|][k] == p[k]
    {
      MatchChars(s, p, j, k);
      assert s'[j' + k] == s[j + (j' + k - j')];
    }
  }

  // ------------------------------------------------------------------ the exact condition

  /**
   * What each side must not do to op: no operator that is looked for no later than op starts in the
   * left text, op behind it included, and none that is looked for before op occurs from op on.
   */
  ghost predicate Clear(lhs: string, op: Op, rhs: string) {
    && (forall q, j: nat :: Place(q) <= Place(op) && j < |lhs| ==>
                              !MatchAt(ToUpper(lhs) + Pattern(op), Pattern(q), j))
    && (forall q, j: nat :: Place(q) < Place(op) ==> !MatchAt(Pattern(op) + ToUpper(rhs), Pattern(q), j))
  }

  /** No operator text reaches over the whole of another, with something on either side. */
  lemma NoSpan(s: string, mid: Op, i: nat, q: Op, j: nat)
    requires MatchAt(s, Pattern(mid), i) && MatchAt(s, Pattern(q), j)
    ensures !(j < i && i + |Pattern(mid)| < j + |Pattern(q)|)
  {
    if Symbolic(q) {
      SymbolFacts(q);
    } else {
      WordFacts(q);
    }
    if Symbolic(mid) {
      SymbolFacts(mid);
    } else {
      WordFacts(mid);
    }
    hide Pattern, MatchAt;
    if !Symbolic(q) && j < i && i + |Pattern(mid)| < j + |Pattern(q)| {
      MatchChars(s, Pattern(mid), i, 0);
      MatchChars(s, Pattern(q), j, i - j);
      if Pattern(mid)[0] == '!' {
        MatchChars(s, Pattern(mid), i, 1);
        MatchChars(s, Pattern(q), j, i - j + 1);
      }
    }
  }

  lemma Sides(l: string, m: string, r: string, p: string, j: nat)
    requires MatchAt(l + m + r, p, j) && j < |l| ==> j + |p| <= |l| + |m|
    ensures MatchAt(l + m + r, p, j) <==>
            if j < |l| then MatchAt(l + m, p, j) else MatchAt(m + r, p, j - |l|)
  {
    var s := l + m + r;
    assert forall k :: 0 <= k < |l + m| ==> s[k] == (l + m)[k];
    assert forall k :: 0 <= k < |m + r| ==> s[|l| + k] == (m + r)[k];
    hide MatchAt;
    if MatchAt(s, p, j) {
      MatchInside(s, p, j);
      if j < |l| {
        MatchMoved(s, p, j, l + m, j);
      } else {
        MatchMoved(s, p, j, m + r, j - |l|);
      }
    } else if j < |l| {
      if MatchAt(l + m, p, j) {
        MatchInside(l + m, p, j);
        MatchMoved(l + m, p, j, s, j);
      }
    } else if MatchAt(m + r, p, j - |l|) {
      MatchInside(m + r, p, j - |l|);
      MatchMoved(m + r, p, j - |l|, s, j);
    }
  }

  lemma MatchInside(s: string, p: string, j: nat)
    requires MatchAt(s, p, j)
    ensures j + |p| <= |s|
  {
  }

  /** What occurs in the text occurs in its left or in its right part. */
  lemma MatchSide(lhs: string, op: Op, rhs: string, q: Op, j: nat)
    ensures var l, m, r := ToUpper(lhs), Pattern(op), ToUpper(rhs);
            MatchAt(l + m + r, Pattern(q), j) <==>
            if j < |lhs| then MatchAt(l + m, Pattern(q), j) else MatchAt(m + r, Pattern(q), j - |lhs|)
  {
    var l, m, r := ToUpper(lhs), Pattern(op), ToUpper(rhs);
    hide Pattern, ToUpper, MatchAt;
    HereMatches(lhs, op, rhs);
    if MatchAt(l + m + r, Pattern(q), j) {
      NoSpan(l + m + r, op, |lhs|, q, j);
      MatchInside(l + m + r, Pattern(q), j);
    }
    Sides(l, m, r, Pattern(q), j);
  }

  lemma HereMatches(lhs: string, op: Op, rhs: string)
    ensures MatchAt(ToUpper(lhs) + Pattern(op) + ToUpper(rhs), Pattern(op), |lhs|)
  {
    var s := ToUpper(lhs) + Pattern(op) + ToUpper(rhs);
    assert s[|lhs|..|lhs| + |Pattern(op)|] == Pattern(op);
  }

  /** Clear texts: op stands where it was written, no earlier, and nothing else is found before it. */
  lemma ClearDecides(lhs: string, op: Op, rhs: string, q: Op, j: nat)
    requires Clear(lhs, op, rhs) && Place(q) <= Place(op)
    requires MatchAt(ToUpper(lhs) + Pattern(op) + ToUpper(rhs), Pattern(q), j)
    ensures q == op && j >= |lhs|
  {
    MatchSide(lhs, op, rhs, q, j);
    assert ORDER[Place(q)] == q && ORDER[Place(op)] == op;
  }

  lemma {:induction false} PickIs(s: string, k: nat, n: nat)
    requires k <= n < |ORDER| && Index(s, Pattern(ORDER[n])) >= 0
    requires forall m :: k <= m < n ==> Index(s, Pattern(ORDER[m])) < 0
    ensures Pick(s, k) == Some((ORDER[n], Index(s, Pattern(ORDER[n]))))
    decreases n - k
  {
    hide Index, Pattern;
    if k == n {
    } else {
      PickIs(s, k + 1, n);
    }
  }

  lemma {:induction false} PickSays(s: string, k: nat, op: Op, i: nat)
    requires k <= |ORDER| && Pick(s, k) == Some((op, i))
    ensures Index(s, Pattern(op)) == i
    ensures forall m :: k <= m < Place(op) ==> Index(s, Pattern(ORDER[m])) < 0
    decreases |ORDER| - k
  {
    hide Index, Pattern, Place;
    assert k < |ORDER|;
    PlaceOf(k);
    if Index(s, Pattern(ORDER[k])) < 0 {
      PickSays(s, k + 1, op, i);
    }
  }

  lemma PickFinds(lhs: string, op: Op, rhs: string)
    requires Clear(lhs, op, rhs)
    ensures Pick(ToUpper(lhs) + Pattern(op) + ToUpper(rhs), 0) == Some((op, |lhs|))
  {
    var s := ToUpper(lhs) + Pattern(op) + ToUpper(rhs);
    hide Pick, Pattern, Clear, MatchAt, ToUpper, Place, Index;
    HereMatches(lhs, op, rhs);
    forall j | 0 <= j < |lhs|
      ensures !MatchAt(s, Pattern(op), j)
    {
      if MatchAt(s, Pattern(op), j) {
        ClearDecides(lhs, op, rhs, op, j);
      }
    }
    IndexIs(s, Pattern(op), |lhs|);
    forall m | 0 <= m < Place(op)
      ensures Index(s, Pattern(ORDER[m])) < 0
    {
      PlaceOf(m);
      if Index(s, Pattern(ORDER[m])) >= 0 {
        ClearDecides(lhs, op, rhs, ORDER[m], Index(s, Pattern(ORDER[m])));
      }
    }
    PickIs(s, 0, Place(op));
  }

  lemma PickedIsClear(lhs: string, op: Op, rhs: string)
    requires Pick(ToUpper(lhs) + Pattern(op) + ToUpper(rhs), 0) == Some((op, |lhs|))
    ensures Clear(lhs, op, rhs)
  {
    var s := ToUpper(lhs) + Pattern(op) + ToUpper(rhs);
    hide Pick, Pattern, MatchAt, ToUpper, Place, Index;
    PickSays(s, 0, op, |lhs|);
    forall q, j: nat | Place(q) <= Place(op) && j < |lhs|
      ensures !MatchAt(ToUpper(lhs) + Pattern(op), Pattern(q), j)
    {
      MatchSide(lhs, op, rhs, q, j);
      assert ORDER[Place(q)] == q && ORDER[Place(op)] == op;
    }
    forall q, j: nat | Place(q) < Place(op)
      ensures !MatchAt(Pattern(op) + ToUpper(rhs), Pattern(q), j)
    {
      MatchSide(lhs, op, rhs, q, |lhs| + j);
      assert ORDER[Place(q)] == q;
    }
  }

  lemma TextUpper(lhs: string, op: Op, rhs: string)
    ensures ToUpper(lhs + Pattern(op) + rhs) == ToUpper(lhs) + Pattern(op) + ToUpper(rhs)
  {
    UpperConcat(lhs + Pattern(op), rhs);
    UpperConcat(lhs, Pattern(op));
    PatternUpper(op);
  }

  /** The fixed search order finds the operator that was written, where it was written, on clear texts only. */
  lemma OperatorFound(lhs: string, op: Op, rhs: string)
    ensures Pick(ToUpper(lhs + Pattern(op) + rhs), 0) == Some((op, |lhs|)) <==> Clear(lhs, op, rhs)
  {
    hide *;
    TextUpper(lhs, op, rhs);
    if Clear(lhs, op, rhs) {
      PickFinds(lhs, op, rhs);
    } else if Pick(ToUpper(lhs) + Pattern(op) + ToUpper(rhs), 0) == Some((op, |lhs|)) {
      PickedIsClear(lhs, op, rhs);
    }
  }

  // ------------------------------------------------------------------ texts that are clear

  /** No text of an operator looked for no later than op in t, blanks around it included. */
  ghost predicate OperatorFree(t: string, op: Op) {
    forall q, j: nat :: Place(q) <= Place(op) ==> !MatchAt(ToUpper(" " + t + " "), Pattern(q), j)
  }

  /** The ends next to op do not complete it: before "==" no symbol, behind "<" and ">" no "=". */
  predicate Apart(lhs: string, op: Op, rhs: string) {
    && (op == Eq && lhs != [] ==> !SymbolChar(lhs[|lhs| - 1]))
    && ((op == Lt || op == Gt) && rhs != [] ==> rhs[0] != '=')
  }

  /** An occurrence inside lhs or inside rhs, one neighbouring blank included, is ruled out. */
  lemma NotBeside(lhs: string, mid: string, rhs: string, s: string, p: string, j: nat, q: Op, op: Op)
    requires OperatorFree(lhs, op) && OperatorFree(rhs, op) && p == Pattern(q) && Place(q) <= Place(op)
    requires s == ToUpper(lhs) + mid + ToUpper(rhs) && mid != [] && MatchAt(s, p, j)
    ensures j + |p| > |lhs| && (mid[0] == ' ' ==> j + |p| > |lhs| + 1)
    ensures j < |lhs| + |mid| && (mid[|mid| - 1] == ' ' ==> j < |lhs| + |mid| - 1)
  {
    NotLeft(lhs, mid, rhs, s, p, j, q, op);
    NotRight(lhs, mid, rhs, s, p, j, q, op);
  }

  lemma NotLeft(lhs: string, mid: string, rhs: string, s: string, p: string, j: nat, q: Op, op: Op)
    requires OperatorFree(lhs, op) && p == Pattern(q) && Place(q) <= Place(op)
    requires s == ToUpper(lhs) + mid + ToUpper(rhs) && mid != [] && MatchAt(s, p, j)
    ensures j + |p| > |lhs| && (mid[0] == ' ' ==> j + |p| > |lhs| + 1)
  {
    hide Pattern, Place;
    var su := ToUpper(" " + lhs + " ");
    if j + |p| <= |lhs| || (mid[0] == ' ' && j + |p| <= |lhs| + 1) {
      MatchMoved(s, p, j, su, j + 1);
    }
  }

  lemma NotRight(lhs: string, mid: string, rhs: string, s: string, p: string, j: nat, q: Op, op: Op)
    requires OperatorFree(rhs, op) && p == Pattern(q) && Place(q) <= Place(op)
    requires s == ToUpper(lhs) + mid + ToUpper(rhs) && mid != [] && MatchAt(s, p, j)
    ensures j < |lhs| + |mid| && (mid[|mid| - 1] == ' ' ==> j < |lhs| + |mid| - 1)
  {
    hide Pattern, Place;
    var sw := ToUpper(" " + rhs + " ");
    var e := |lhs| + |mid| - 1;
    if j >= e + 1 || (mid[|mid| - 1] == ' ' && j >= e) {
      assert forall x :: e < x < |s| ==> s[x] == sw[x - e];
      assert mid[|mid| - 1] == ' ' ==> s[e] == sw[0];
      MatchMoved(s, p, j, sw, j - e);
    }
  }

  /** The characters of the upper-cased text, part by part. */
  lemma TextChars(lhs: string, mid: string, rhs: string, s: string)
    requires s == ToUpper(lhs) + mid + ToUpper(rhs)
    ensures |s| == |lhs| + |mid| + |rhs|
    ensures lhs != [] ==> s[|lhs| - 1] == Upper(lhs[|lhs| - 1])
    ensures rhs != [] ==> s[|lhs| + |mid|] == Upper(rhs[0])
    ensures forall k :: |lhs| <= k < |lhs| + |mid| ==> s[k] == mid[k - |lhs|]
  {
  }

  /** How two symbols can begin alike. */
  lemma SymbolPairs(op: Op, q: Op)
    requires Symbolic(op) && Symbolic(q) && Place(q) <= Place(op)
    ensures q != op && Pattern(q)[0] == Pattern(op)[0] ==> (op == Lt || op == Gt) && Pattern(q)[1..] == "="
    ensures Pattern(q)[0] == '=' ==> q == Eq && op == Eq
    ensures Pattern(op)[0] == '=' ==> op == Eq
  {
  }

  /** A symbol that is looked for before op occurs nowhere, and op itself nowhere before its place. */
  lemma SymbolMatches(lhs: string, op: Op, rhs: string, q: Op, j: nat)
    requires OperatorFree(lhs, op) && OperatorFree(rhs, op) && Apart(lhs, op, rhs)
    requires Symbolic(q) && Place(q) <= Place(op)
    requires MatchAt(ToUpper(lhs) + Pattern(op) + ToUpper(rhs), Pattern(q), j)
    ensures q == op && j >= |lhs|
  {
    var s := ToUpper(lhs) + Pattern(op) + ToUpper(rhs);
    if Symbolic(op) {
      SymbolFacts(op);
      SymbolPairs(op, q);
    } else {
      WordFacts(op);
    }
    SymbolFacts(q);
    NotBeside(lhs, Pattern(op), rhs, s, Pattern(q), j, q, op);
    hide OperatorFree, ToUpper, Pattern, Place, Symbolic, MatchAt;
    TextChars(lhs, Pattern(op), rhs, s);
    MatchChars(s, Pattern(q), j, |Pattern(q)| - 1);
    MatchChars(s, Pattern(q), j, 0);
  }

  lemma WordMatches(lhs: string, op: Op, rhs: string, q: Op, j: nat)
    requires OperatorFree(lhs, op) && OperatorFree(rhs, op) && !Symbolic(q) && Place(q) <= Place(op)
    requires MatchAt(ToUpper(lhs) + Pattern(op) + ToUpper(rhs), Pattern(q), j)
    ensures q == op && j == |lhs|
  {
    assert !Symbolic(op);
    WordFacts(op);
    WordFacts(q);
    WordsDecide(lhs, op, rhs, ToUpper(lhs) + Pattern(op) + ToUpper(rhs), q, j);
    PatternsDiffer(op, q);
  }

  lemma WordsDecide(lhs: string, op: Op, rhs: string, s: string, q: Op, j: nat)
    requires OperatorFree(lhs, op) && OperatorFree(rhs, op) && Place(q) <= Place(op)
    requires Word(Pattern(op)) && Word(Pattern(q))
    requires s == ToUpper(lhs) + Pattern(op) + ToUpper(rhs) && MatchAt(s, Pattern(q), j)
    ensures Pattern(q) == Pattern(op) && j == |lhs|
  {
    hide Pattern, OperatorFree, MatchAt, ToUpper, Place;
    NotBeside(lhs, Pattern(op), rhs, s, Pattern(q), j, q, op);
    TextChars(lhs, Pattern(op), rhs, s);
    WordInside(s, Pattern(op), Pattern(q), |lhs|, j);
  }

  /** Of two words, one occurring in the reach of the other is the other. */
  lemma WordInside(s: string, mid: string, p: string, i: nat, j: nat)
    requires Word(mid) && Word(p)
    requires i + |mid| <= |s| && forall k :: i <= k < i + |mid| ==> s[k] == mid[k - i]
    requires MatchAt(s, p, j) && j + |p| > i + 1 && j < i + |mid| - 1
    ensures p == mid && j == i
  {
    var t := s[j..j + |p|];
    assert forall k :: 0 <= k < |p| ==> s[j + k] == t[k] == p[k];
    assert forall k :: j <= k < j + |p| ==> s[k] == p[k - j];
    assert s[i] == ' ' && s[i + |mid| - 1] == ' ' && s[j] == ' ' && s[j + |p| - 1] == ' ';
    assert j == i;
    assert |p| == |mid|;
    assert s[i..i + |mid|] == mid;
  }

  lemma OnlyMatch(lhs: string, op: Op, rhs: string, q: Op, j: nat)
    requires OperatorFree(lhs, op) && OperatorFree(rhs, op) && Apart(lhs, op, rhs) && Place(q) <= Place(op)
    requires MatchAt(ToUpper(lhs) + Pattern(op) + ToUpper(rhs), Pattern(q), j)
    ensures q == op && j >= |lhs|
  {
    if Symbolic(q) {
      SymbolMatches(lhs, op, rhs, q, j);
    } else {
      WordMatches(lhs, op, rhs, q, j);
    }
  }

  /** Operator-free texts whose ends do not complete the operator are clear. */
  lemma FreeIsClear(lhs: string, op: Op, rhs: string)
    requires OperatorFree(lhs, op) && OperatorFree(rhs, op) && Apart(lhs, op, rhs)
    ensures Clear(lhs, op, rhs)
  {
    hide OperatorFree, Apart, ToUpper, Pattern, MatchAt, Place;
    forall q, j: nat | Place(q) <= Place(op) && j < |lhs|
      ensures !MatchAt(ToUpper(lhs) + Pattern(op), Pattern(q), j)
    {
      MatchSide(lhs, op, rhs, q, j);
      if MatchAt(ToUpper(lhs) + Pattern(op), Pattern(q), j) {
        OnlyMatch(lhs, op, rhs, q, j);
      }
    }
    forall q, j: nat | Place(q) < Place(op)
      ensures !MatchAt(Pattern(op) + ToUpper(rhs), Pattern(q), j)
    {
      MatchSide(lhs, op, rhs, q, |lhs| + j);
      if MatchAt(Pattern(op) + ToUpper(rhs), Pattern(q), j) {
        OnlyMatch(lhs, op, rhs, q, |lhs| + j);
      }
    }
  }

  // ------------------------------------------------------------------ values

  type ShowFloat = real -> string

  function Shows(show: ShowFloat, rs: seq<real>): (r: seq<string>)
    ensures |r| == |rs|
    ensures forall k :: 0 <= k < |rs| ==> r[k] == show(rs[k])
  {
    if rs == [] then [] else [show(rs[0])] + Shows(show, rs[1..])
  }

  function Show(show: ShowFloat, v: Value): string {
    match v
    case Text(s) => s
    case Number(n) => Itoa(n)
    case Flag(b) => if b then "true" else "false"
    case Float(r) => show(r)
    case Texts(ts) => "[" + Join(ts) + "]"
    case Numbers(rs) => "[" + Join(Shows(show, rs)) + "]"
  }

  /** Texts that survive trimming, int64 numbers, list elements without commas. */
  predicate Printable(pf: ParseFloat, show: ShowFloat, v: Value) {
    match v
    case Text(s) => Trimmed(s)
    case Number(n) => -INT64_LIMIT <= n < INT64_LIMIT
    case Flag(_) => true
    case Float(_) => false
    case Texts(ts) => forall k :: 0 <= k < |ts| ==> Trimmed(ts[k]) && ',' !in ts[k]
    case Numbers(rs) =>
      forall k :: 0 <= k < |rs| ==>
                    Trimmed(show(rs[k])) && ',' !in show(rs[k]) && pf(show(rs[k])) == Some(rs[k])
  }

  lemma TrimmedIs(s: string)
    requires Trimmed(s)
    ensures TrimSpace(s) == s
  {
    TrimPadded([], s, []);
    assert [] + s + [] == s;
  }

  lemma {:induction false} TrimsTrimmed(ts: seq<string>)
    requires forall k :: 0 <= k < |ts| ==> Trimmed(ts[k])
    ensures Trims(ts) == ts
  {
    if ts == [] {
    } else {
      TrimmedIs(ts[0]);
      TrimsTrimmed(ts[1..]);
    }
  }

  lemma {:induction false} FloatsShown(pf: ParseFloat, show: ShowFloat, rs: seq<real>)
    requires Printable(pf, show, Numbers(rs))
    ensures Floats(pf, Shows(show, rs)) == Some(rs)
  {
    if rs == [] {
    } else {
      TrimmedIs(show(rs[0]));
      assert Shows(show, rs)[1..] == Shows(show, rs[1..]);
      assert Shows(show, rs)[0] == show(rs[0]);
      forall k | 0 <= k < |rs[1..]|
        ensures Trimmed(show(rs[1..][k])) && ',' !in show(rs[1..][k]) && pf(show(rs[1..][k])) == Some(rs[1..][k])
      {
        assert rs[1..][k] == rs[k + 1];
      }
      FloatsShown(pf, show, rs[1..]);
      assert [rs[0]] + rs[1..] == rs;
    }
  }

  lemma Brackets(parts: seq<string>)
    requires parts != [] && forall k :: 0 <= k < |parts| ==> ',' !in parts[k]
    ensures Bracketed("[" + Join(parts) + "]") && Trimmed("[" + Join(parts) + "]")
    ensures Split(("[" + Join(parts) + "]")[1..|"[" + Join(parts) + "]"| - 1]) == parts
  {
    var s := "[" + Join(parts) + "]";
    assert s[1..|s| - 1] == Join(parts);
    SplitJoin(parts);
  }

  /** A printed value is read back by the branch of its operator, blanks around it ignored. */
  lemma OperandRoundTrip(pf: ParseFloat, show: ShowFloat, c: Condition, left: string, right: string)
    requires Shaped(c) && Printable(pf, show, c.value) && AllBlank(left) && AllBlank(right)
    ensures Operand(pf, c.field.kind, c.op, left + Show(show, c.value) + right) == Ok(c.value)
  {
    hide StringPair, NumberArray, NumberRange, TrimSpace, Atoi, Itoa, Join, Trimmed;
    var t := Show(show, c.value);
    match c.value {
      case Text(s) =>
        TrimPadded(left, t, right);
      case Number(n) =>
        ItoaTrimmed(n);
        TrimPadded(left, t, right);
        AtoiItoa(n);
      case Flag(b) =>
        FlagRoundTrip(b, left, right);
      case Texts(ts) =>
        PairRoundTrip(ts);
        TrimPadded(left, t, right);
      case Numbers(rs) =>
        NumbersRoundTrip(pf, show, rs);
        TrimPadded(left, t, right);
    }
  }

  lemma PairRoundTrip(ts: seq<string>)
    requires |ts| == 2 && forall k :: 0 <= k < |ts| ==> Trimmed(ts[k]) && ',' !in ts[k]
    ensures Trimmed("[" + Join(ts) + "]") && StringPair("[" + Join(ts) + "]") == Ok(ts)
  {
    hide Join, Split;
    Brackets(ts);
    TrimsTrimmed(ts);
  }

  lemma NumbersRoundTrip(pf: ParseFloat, show: ShowFloat, rs: seq<real>)
    requires rs != [] && Printable(pf, show, Numbers(rs))
    ensures Trimmed("[" + Join(Shows(show, rs)) + "]")
    ensures NumberArray(pf, "[" + Join(Shows(show, rs)) + "]") == Ok(rs)
    ensures |rs| == 2 ==> NumberRange(pf, "[" + Join(Shows(show, rs)) + "]") == Ok(rs)
  {
    hide Join, Split, Floats;
    Brackets(Shows(show, rs));
    FloatsShown(pf, show, rs);
  }

  lemma FlagRoundTrip(b: bool, left: string, right: string)
    requires AllBlank(left) && AllBlank(right)
    ensures (TrimSpace(ToUpper(left + (if b then "true" else "false") + right)) == "TRUE") == b
  {
    var t := if b then "true" else "false";
    UpperConcat(left + t, right);
    UpperConcat(left, t);
    assert ToUpper(left) == left && ToUpper(right) == right;
    assert ToUpper("true") == "TRUE" && ToUpper("false") == "FALSE";
    TrimPadded(left, ToUpper(t), right);
  }

  // ------------------------------------------------------------------ the round trip

  lemma {:induction false} TrimShorter(s: string)
    ensures |TrimLeft(s)| <= |s| && |TrimRight(s)| <= |s|
    decreases |s|
  {
    if s == [] {
    } else {
      TrimShorter(s[1..]);
      TrimShorter(s[..|s| - 1]);
    }
  }

  /** A part of the padded key that already trims to the key leaves only blanks behind it. */
  lemma KeyEnds(b0: string, key: string, b1: string, i: nat)
    requires AllBlank(b0) && AllBlank(b1) && Trimmed(key) && i < |b0 + key + b1|
    requires TrimSpace((b0 + key + b1)[..i]) == key
    ensures forall k :: i <= k < |b0 + key + b1| ==> Blank((b0 + key + b1)[k])
  {
    var lhs := b0 + key + b1;
    if key != [] && i < |b0| + |key| {
      if i <= |b0| {
        assert lhs[..i] == b0[..i] + [];
        TrimLeftPad(b0[..i], []);
      } else {
        var part := key[..i - |b0|];
        assert lhs[..i] == b0 + part;
        TrimLeftPad(b0, part);
        TrimShorter(part);
        TrimShorter(TrimLeft(part));
      }
    }
  }

  /** No operator starts in blanks that stand before it. */
  lemma NoBlankStart(op: Op)
    ensures Symbolic(op) ==> !Blank(Pattern(op)[0])
    ensures !Symbolic(op) ==> |Pattern(op)| > 1 && Pattern(op)[0] == ' ' && !Blank(Pattern(op)[1])
  {
  }

  lemma NotInBlanks(lhs: string, op: Op, rhs: string, i: nat)
    requires i < |lhs| && forall k :: i <= k < |lhs| ==> Blank(lhs[k])
    ensures !MatchAt(ToUpper(lhs) + Pattern(op) + ToUpper(rhs), Pattern(op), i)
  {
    NoBlankStart(op);
    var s, p := ToUpper(lhs) + Pattern(op) + ToUpper(rhs), Pattern(op);
    HereMatches(lhs, op, rhs);
    MatchChars(s, p, |lhs|, 0);
    assert s[i] == Upper(lhs[i]);
    assert i + 1 < |lhs| ==> s[i + 1] == Upper(lhs[i + 1]);
    hide Pattern, ToUpper;
    if MatchAt(s, p, i) {
      MatchChars(s, p, i, if Symbolic(op) then 0 else 1);
    }
  }

  /** Every field is entered under its own key. */
  predicate Keyed(fMap: map<string, Field>) {
    forall k :: k in fMap ==> fMap[k].key == k
  }

  lemma ParsedAt(pf: ParseFloat, fMap: map<string, Field>, s: string, c: Condition)
    requires Keyed(fMap) && ParseCondition(pf, fMap, s) == Ok(c)
    ensures Pick(ToUpper(s), 0).Some? && Pick(ToUpper(s), 0).value.0 == c.op
    ensures var i := Pick(ToUpper(s), 0).value.1; i <= |s| && TrimSpace(s[..i]) == c.field.key
  {
    hide Pick, Pattern, ToUpper, Operand, TrimSpace;
    ParseIsBranch(pf, fMap, s);
    var (op, i) := Pick(ToUpper(s), 0).value;
    assert Branch(pf, fMap, s[..i], op, s[i + |Pattern(op)|..]) == Ok(c);
  }

  /** If the printed text is parsed to its own key and operator, the operator was found in its place. */
  lemma FoundInPlace(b0: string, key: string, b1: string, op: Op, rhs: string, i: nat)
    requires AllBlank(b0) && AllBlank(b1) && Trimmed(key)
    requires var s := (b0 + key + b1) + Pattern(op) + rhs;
             Pick(ToUpper(s), 0) == Some((op, i)) && i <= |s| && TrimSpace(s[..i]) == key
    ensures i == |b0 + key + b1|
  {
    var lhs := b0 + key + b1;
    var s, u := lhs + Pattern(op) + rhs, ToUpper(lhs) + Pattern(op) + ToUpper(rhs);
    hide Pick, Pattern, ToUpper, Place, Index, MatchAt, TrimSpace, AllBlank, Trimmed;
    TextUpper(lhs, op, rhs);
    PickSays(u, 0, op, i);
    HereMatches(lhs, op, rhs);
    assert i <= |lhs|;
    if i < |lhs| {
      assert s[..i] == lhs[..i];
      KeyEnds(b0, key, b1, i);
      NotInBlanks(lhs, op, rhs, i);
    }
  }

  /** The branch of the operator reads key and value back. */
  lemma PrintedBranch(pf: ParseFloat, show: ShowFloat, fMap: map<string, Field>, c: Condition,
                      b0: string, b1: string, b2: string, b3: string)
    requires AllBlank(b0) && AllBlank(b1) && AllBlank(b2) && AllBlank(b3)
    requires Trimmed(c.field.key) && c.field.key in fMap && fMap[c.field.key] == c.field
    requires Shaped(c) && Printable(pf, show, c.value)
    ensures Branch(pf, fMap, b0 + c.field.key + b1, c.op, b2 + Show(show, c.value) + b3) == Ok(c)
  {
    hide Operand, TrimSpace, AllBlank, Trimmed, Shaped, Printable, Show;
    TrimPadded(b0, c.field.key, b1);
    OperandRoundTrip(pf, show, c, b2, b3);
  }

  /**
   * The round trip: a condition that is fit for its field's kind, printed with any blanks around key
   * and value, is parsed to exactly that field, operator and value exactly when both sides are clear
   * of the operators that are looked for first.
   */
  lemma RoundTrip(pf: ParseFloat, show: ShowFloat, fMap: map<string, Field>, c: Condition,
                  b0: string, b1: string, b2: string, b3: string)
    requires AllBlank(b0) && AllBlank(b1) && AllBlank(b2) && AllBlank(b3)
    requires Trimmed(c.field.key) && c.field.key in fMap && fMap[c.field.key] == c.field && Keyed(fMap)
    requires Shaped(c) && Printable(pf, show, c.value)
    ensures var lhs, rhs := b0 + c.field.key + b1, b2 + Show(show, c.value) + b3;
            ParseCondition(pf, fMap, lhs + Pattern(c.op) + rhs) == Ok(c) <==> Clear(lhs, c.op, rhs)
  {
    var lhs, rhs := b0 + c.field.key + b1, b2 + Show(show, c.value) + b3;
    var s := lhs + Pattern(c.op) + rhs;
    hide *;
    PrintedBranch(pf, show, fMap, c, b0, b1, b2, b3);
    OperatorFound(lhs, c.op, rhs);
    ParseIsBranch(pf, fMap, s);
    assert s[..|lhs|] == lhs && s[|lhs| + |Pattern(c.op)|..] == rhs;
    if ParseCondition(pf, fMap, s) == Ok(c) {
      ParsedAt(pf, fMap, s, c);
      FoundInPlace(b0, c.field.key, b1, c.op, rhs, Pick(ToUpper(s), 0).value.1);
    }
  }

  /** Operators are recognised in lower and mixed case alike. */
  lemma AnyCase(pf: ParseFloat, fMap: map<string, Field>, lhs: string, op: Op, t: string, rhs: string)
    requires Clear(lhs, op, rhs) && ToUpper(t) == Pattern(op)
    ensures ParseCondition(pf, fMap, lhs + t + rhs) == ParseCondition(pf, fMap, lhs + Pattern(op) + rhs)
  {
    var s, s' := lhs + t + rhs, lhs + Pattern(op) + rhs;
    UpperConcat(lhs + t, rhs);
    UpperConcat(lhs, t);
    TextUpper(lhs, op, rhs);
    assert |t| == |Pattern(op)|;
    assert s[..|lhs|] == lhs == s'[..|lhs|] && s[|lhs| + |t|..] == rhs == s'[|lhs| + |t|..];
    hide Clear, Pick, ToUpper, ParseCondition, Pattern, Branch;
    OperatorFound(lhs, op, rhs);
    ParseIsBranch(pf, fMap, s);
    ParseIsBranch(pf, fMap, s');
  }

  // ------------------------------------------------------------------ where it fails

  lemma NotFound(s: string, q: Op, j: nat)
    requires if Symbolic(q) then forall k :: 0 <= k < |s| ==> !SymbolChar(s[k]) else |s| < 4
    ensures !MatchAt(s, Pattern(q), j)
  {
    if Symbolic(q) {
      SymbolFacts(q);
      hide Pattern;
      if MatchAt(s, Pattern(q), j) {
        MatchChars(s, Pattern(q), j, 0);
      }
    } else {
      WordFacts(q);
    }
  }

  lemma SymbolsFirst(op: Op, q: Op)
    requires Symbolic(op) && Place(q) <= Place(op)
    ensures Symbolic(q)
  {
  }

  /** Texts without symbols hold no symbolic operator, and in one character and its blanks there is no word. */
  lemma ShortIsFree(t: string, op: Op)
    requires (Symbolic(op) || |t| < 2) && forall k :: 0 <= k < |t| ==> !SymbolChar(t[k])
    ensures OperatorFree(t, op)
  {
    var s := ToUpper(" " + t + " ");
    hide Pattern, MatchAt, Place, Symbolic;
    forall q, j: nat | Place(q) <= Place(op)
      ensures !MatchAt(s, Pattern(q), j)
    {
      if Symbolic(op) {
        SymbolsFirst(op, q);
      }
      NotFound(s, q, j);
    }
  }

  /** A text field asked for a list, with nothing behind the operator. */
  lemma BlankListCrashes(pf: ParseFloat)
    ensures ParseCondition(pf, map["k" := K_FIELD], "k IN ") == Crash
  {
    var fMap := map["k" := K_FIELD];
    ShortIsFree("k", In);
    ShortIsFree("", In);
    assert "k" + Pattern(In) + "" == "k IN " && "k IN "[..1] == "k" && "k IN "[5..] == "";
    hide ParseCondition, Pick, ToUpper, OperatorFree, Clear;
    FreeIsClear("k", In, "");
    OperatorFound("k", In, "");
    CrashesOn(pf, fMap, "k IN ");
  }

  lemma HidingText()
    ensures !Clear("k ", Eq, " a>=b")
    ensures Clear("k == a", Ge, "b")
  {
    assert "==" + ToUpper(" a>=b") == "== A>=B" && "== A>=B"[4..6] == ">=";
    assert MatchAt(Pattern(Eq) + ToUpper(" a>=b"), Pattern(Ge), 4) && Place(Ge) < Place(Eq);
    assert ToUpper("k == a") == "K == A";
    forall q, j: nat | Place(q) <= Place(Ge) && j < 6
      ensures !MatchAt("K == A" + Pattern(Ge), Pattern(q), j)
    {
      assert q == Ge;
      if MatchAt("K == A>=", ">=", j) {
        MatchChars("K == A>=", ">=", j, 0);
      }
    }
  }

  /**
   * A value that holds an operator looked for earlier hides the one that was written: ">=" is found in
   * the value, and what stands before it is no field, so k == "a>=b" cannot be asked for.
   */
  lemma HiddenOperator(pf: ParseFloat)
    ensures !Clear("k ", Eq, " a>=b")
    ensures ParseCondition(pf, map["k" := K_FIELD], "k == a>=b") == Rejected
  {
    var fMap := map["k" := K_FIELD];
    assert "k == a" + Pattern(Ge) + "b" == "k == a>=b" && |Pattern(Ge)| == 2;
    assert "k == a>=b"[..6] == "k == a" && "k == a>=b"[8..] == "b" && |"k"| != |"k == a"|;
    assert Trimmed("k == a");
    hide Clear, ToUpper, Pick, MatchAt, Pattern, Operand, ParseCondition, TrimSpace, Trimmed;
    HidingText();
    OperatorFound("k == a", Ge, "b");
    ParseIsBranch(pf, fMap, "k == a>=b");
    TrimmedIs("k == a");
  }
}
