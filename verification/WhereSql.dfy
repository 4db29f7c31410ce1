/** What a WHERE text means to SQL, and that the compiled text means the filter. */
module WhereSql {
  import opened Wrappers
  import opened GoStrings
  import opened Conditions
  import opened Filters

  // ------------------------------------------------------------------ rows and atoms

  /** How the database compares values; the laws below hold for every collation and order. */
  datatype Db = Db(eq: (Value, Value) -> bool, less: (Value, Value) -> bool)

  /** A row without NULLs: a value for every column. */
  type Row = string -> Value

  /** LIKE: '%' matches any text, '_' any character. */
  predicate LikeMatch(p: string, s: string)
    decreases |p| + |s|
  {
    if p == [] then s == []
    else if p[0] == '%' then LikeMatch(p[1..], s) || (s != [] && LikeMatch(p, s[1..]))
    else s != [] && (p[0] == '_' || p[0] == s[0]) && LikeMatch(p[1..], s[1..])
  }

  predicate LikeHolds(v: Value, pattern: Value) {
    v.Text? && pattern.Text? && LikeMatch(pattern.s, v.s)
  }

  predicate CompareHolds(db: Db, op: Op, a: Value, b: Value) {
    match op
    case Ge => !db.less(a, b)
    case Le => !db.less(b, a)
    case Lt => db.less(a, b)
    case Gt => db.less(b, a)
    case Ne => !db.eq(a, b)
    case _ => db.eq(a, b)
  }

  predicate InRange(db: Db, v: Value, lo: Value, hi: Value) {
    !db.less(v, lo) && !db.less(hi, v)
  }

  /** An atom with the values bound to its '?' marks. */
  predicate AtomHolds(db: Db, v: Value, rel: Rel, args: seq<Value>) {
    match rel
    case Compare(op) => |args| == 1 && CompareHolds(db, op, v, args[0])
    case BetweenRel(neg) => |args| == 2 && InRange(db, v, args[0], args[1]) != neg
    case InRel(neg) => (exists k :: 0 <= k < |args| && db.eq(v, args[k])) != neg
    case LikeRel(neg) => |args| == 1 && LikeHolds(v, args[0]) != neg
  }

  // ------------------------------------------------------------------ SQL's reading of the text

  /** A parse of part of the text: its truth, the next token and the next value. */
  datatype Read = Bad | Good(b: bool, i: nat, k: nat)

  /** <search condition>: terms joined by OR, so OR binds weakest. */
  function Search(db: Db, row: Row, ts: seq<Token>, vs: seq<Value>, i: nat, k: nat): (r: Read)
    ensures r.Good? ==> i < r.i <= |ts|
    decreases |ts| - i, 2
  {
    match Term(db, row, ts, vs, i, k)
    case Bad => Bad
    case Good(b, j, k1) =>
      if j < |ts| && ts[j] == Or then
        match Search(db, row, ts, vs, j + 1, k1)
        case Bad => Bad
        case Good(b', j', k') => Good(b || b', j', k')
      else Good(b, j, k1)
  }

  /** <boolean term>: factors joined by AND. */
  function Term(db: Db, row: Row, ts: seq<Token>, vs: seq<Value>, i: nat, k: nat): (r: Read)
    ensures r.Good? ==> i < r.i <= |ts|
    decreases |ts| - i, 1
  {
    match Factor(db, row, ts, vs, i, k)
    case Bad => Bad
    case Good(b, j, k1) =>
      if j < |ts| && ts[j] == And then
        match Term(db, row, ts, vs, j + 1, k1)
        case Bad => Bad
        case Good(b', j', k') => Good(b && b', j', k')
      else Good(b, j, k1)
  }

  /** An atom, binding its marks to the next values, or a parenthesised search condition. */
  function Factor(db: Db, row: Row, ts: seq<Token>, vs: seq<Value>, i: nat, k: nat): (r: Read)
    ensures r.Good? ==> i < r.i <= |ts|
    decreases |ts| - i, 0
  {
    if i >= |ts| then Bad
    else
      match ts[i]
      case Atom(col, rel, marks) =>
        if k + marks > |vs| then Bad
        else Good(AtomHolds(db, row(col), rel, vs[k..k + marks]), i + 1, k + marks)
      case Open =>
        (match Search(db, row, ts, vs, i + 1, k)
         case Bad => Bad
         case Good(b, j, k') => if j < |ts| && ts[j] == Close then Good(b, j + 1, k') else Bad)
      case _ => Bad
  }

  /** The truth of a whole text; None if it is no search condition or a value is left over. */
  function Evaluate(db: Db, row: Row, c: Clause): Option<bool> {
    match Search(db, row, c.where, c.vals, 0, 0)
    case Bad => None
    case Good(b, i, k) => if i == |c.where| && k == |c.vals| then Some(b) else None
  }

  // ------------------------------------------------------------------ the filter's own meaning

  predicate ConditionHolds(db: Db, row: Row, c: Condition) {
    var v := row(Column(c.field));
    match c.op
    case Between => IsBetween(db, v, c.value)
    case NotBetween => !IsBetween(db, v, c.value)
    case In => IsMember(db, v, c.value)
    case NotIn => !IsMember(db, v, c.value)
    case Like => c.value.Text? && LikeHolds(v, Text("%" + c.value.s + "%"))
    case NotLike => !(c.value.Text? && LikeHolds(v, Text("%" + c.value.s + "%")))
    case Prefix => c.value.Text? && LikeHolds(v, Text(c.value.s + "%"))
    case NotPrefix => !(c.value.Text? && LikeHolds(v, Text(c.value.s + "%")))
    case Suffix => c.value.Text? && LikeHolds(v, Text("%" + c.value.s))
    case NotSuffix => !(c.value.Text? && LikeHolds(v, Text("%" + c.value.s)))
    case Ge => !db.less(v, c.value)
    case Le => !db.less(c.value, v)
    case Lt => db.less(v, c.value)
    case Gt => db.less(c.value, v)
    case Ne => !db.eq(v, c.value)
    case Eq => db.eq(v, c.value)
  }

  predicate IsBetween(db: Db, v: Value, range: Value) {
    match range
    case Texts(ts) => |ts| == 2 && !db.less(v, Text(ts[0])) && !db.less(Text(ts[1]), v)
    case Numbers(rs) => |rs| == 2 && !db.less(v, Float(rs[0])) && !db.less(Float(rs[1]), v)
    case _ => false
  }

  predicate IsMember(db: Db, v: Value, list: Value) {
    match list
    case Texts(ts) => exists k :: 0 <= k < |ts| && db.eq(v, Text(ts[k]))
    case Numbers(rs) => exists k :: 0 <= k < |rs| && db.eq(v, Float(rs[k]))
    case _ => false
  }

  /**
   * The meaning of a filter when its conditions have the given truth: all own conditions hold; with
   * `or` that or some subfilter, without it that and every subfilter.
   */
  predicate MeaningUnder(holds: Condition -> bool, f: Filter) {
    var own := forall k :: 0 <= k < |f.conditions| ==> holds(f.conditions[k]);
    if f.or then
      own || exists k :: 0 <= k < |f.filters| && f.filters[k].Some? && MeaningUnder(holds, f.filters[k].value)
    else
      own && forall k :: 0 <= k < |f.filters| ==> f.filters[k].Some? ==> MeaningUnder(holds, f.filters[k].value)
  }

  /** The truth of conditions on a row. */
  function TruthOn(db: Db, row: Row): (r: Condition -> bool)
    ensures forall c :: r(c) == ConditionHolds(db, row, c)
  {
    c => ConditionHolds(db, row, c)
  }

  /** The meaning of a filter on a row. */
  predicate Meaning(db: Db, row: Row, f: Filter) {
    MeaningUnder(TruthOn(db, row), f)
  }

  // ------------------------------------------------------------------ blocks

  /** A stretch of text with the values it binds and the truth it should have. */
  datatype Block = Block(text: seq<Token>, vals: seq<Value>, b: bool)

  predicate Stands(ts: seq<Token>, vs: seq<Value>, i: nat, k: nat, text: seq<Token>, vals: seq<Value>) {
    && i + |text| <= |ts| && ts[i..i + |text|] == text
    && k + |vals| <= |vs| && vs[k..k + |vals|] == vals
  }

  /** Wherever the block stands, SQL reads it as one factor with its truth. */
  ghost predicate IsFactor(db: Db, row: Row, x: Block) {
    && x.text != []
    && forall ts, vs, i: nat, k: nat :: Stands(ts, vs, i, k, x.text, x.vals) ==>
                                   Factor(db, row, ts, vs, i, k) == Good(x.b, i + |x.text|, k + |x.vals|)
  }

  ghost predicate AllFactors(db: Db, row: Row, xs: seq<Block>) {
    forall n :: 0 <= n < |xs| ==> IsFactor(db, row, xs[n])
  }

  /** Blocks joined by AND or OR. */
  function JoinText(logic: Token, xs: seq<Block>): seq<Token> {
    if xs == [] then []
    else if |xs| == 1 then xs[0].text
    else xs[0].text + [logic] + JoinText(logic, xs[1..])
  }

  function JoinVals(xs: seq<Block>): seq<Value> {
    if xs == [] then [] else xs[0].vals + JoinVals(xs[1..])
  }

  predicate AllTrue(xs: seq<Block>) {
    forall n :: 0 <= n < |xs| ==> xs[n].b
  }

  predicate SomeTrue(xs: seq<Block>) {
    exists n :: 0 <= n < |xs| && xs[n].b
  }

  lemma StandsSplit(ts: seq<Token>, vs: seq<Value>, i: nat, k: nat,
                    t1: seq<Token>, v1: seq<Value>, t2: seq<Token>, v2: seq<Value>)
    requires Stands(ts, vs, i, k, t1 + t2, v1 + v2)
    ensures Stands(ts, vs, i, k, t1, v1)
    ensures Stands(ts, vs, i + |t1|, k + |v1|, t2, v2)
  {
    var t, v := ts[i..i + |t1 + t2|], vs[k..k + |v1 + v2|];
    assert ts[i..i + |t1|] == t[..|t1|] == t1;
    assert ts[i + |t1|..i + |t1| + |t2|] == t[|t1|..] == t2;
    assert vs[k..k + |v1|] == v[..|v1|] == v1;
    assert vs[k + |v1|..k + |v1| + |v2|] == v[|v1|..] == v2;
  }

  lemma HeadStands(logic: Token, xs: seq<Block>, ts: seq<Token>, vs: seq<Value>, i: nat, k: nat)
    requires |xs| > 1 && Stands(ts, vs, i, k, JoinText(logic, xs), JoinVals(xs))
    ensures Stands(ts, vs, i, k, xs[0].text, xs[0].vals)
    ensures i + |xs[0].text| < |ts| && ts[i + |xs[0].text|] == logic
    ensures Stands(ts, vs, i + |xs[0].text| + 1, k + |xs[0].vals|, JoinText(logic, xs[1..]), JoinVals(xs[1..]))
    ensures |JoinText(logic, xs)| == |xs[0].text| + 1 + |JoinText(logic, xs[1..])|
    ensures |JoinVals(xs)| == |xs[0].vals| + |JoinVals(xs[1..])|
  {
    ThreeStand(ts, vs, i, k, xs[0].text, xs[0].vals, logic, JoinText(logic, xs[1..]), JoinVals(xs[1..]));
  }

  lemma ThreeStand(ts: seq<Token>, vs: seq<Value>, i: nat, k: nat,
                   t1: seq<Token>, v1: seq<Value>, x: Token, t2: seq<Token>, v2: seq<Value>)
    requires Stands(ts, vs, i, k, t1 + [x] + t2, v1 + v2)
    ensures Stands(ts, vs, i, k, t1, v1)
    ensures i + |t1| < |ts| && ts[i + |t1|] == x
    ensures Stands(ts, vs, i + |t1| + 1, k + |v1|, t2, v2)
  {
    assert v1 + [] == v1;
    StandsSplit(ts, vs, i, k, t1 + [x], v1, t2, v2);
    StandsSplit(ts, vs, i, k, t1, v1, [x], []);
    assert ts[i + |t1|..i + |t1| + 1][0] == x;
  }

  lemma TermStep(db: Db, row: Row, ts: seq<Token>, vs: seq<Value>, i: nat, k: nat, x: Read, y: Read)
    requires Factor(db, row, ts, vs, i, k) == x && x.Good?
    requires x.i < |ts| && ts[x.i] == And
    requires Term(db, row, ts, vs, x.i + 1, x.k) == y && y.Good?
    ensures Term(db, row, ts, vs, i, k) == Good(x.b && y.b, y.i, y.k)
  {
  }

  lemma SearchStep(db: Db, row: Row, ts: seq<Token>, vs: seq<Value>, i: nat, k: nat, x: Read, y: Read)
    requires Factor(db, row, ts, vs, i, k) == x && x.Good?
    requires x.i < |ts| && ts[x.i] == Or
    requires Search(db, row, ts, vs, x.i + 1, x.k) == y && y.Good?
    ensures Search(db, row, ts, vs, i, k) == Good(x.b || y.b, y.i, y.k)
  {
  }

  lemma SearchEnd(db: Db, row: Row, ts: seq<Token>, vs: seq<Value>, i: nat, k: nat, x: Read)
    requires Factor(db, row, ts, vs, i, k) == x && x.Good?
    requires x.i < |ts| ==> ts[x.i] == Close
    ensures Term(db, row, ts, vs, i, k) == x && Search(db, row, ts, vs, i, k) == x
  {
  }

  lemma TailTruth(xs: seq<Block>)
    requires xs != []
    ensures AllTrue(xs) == (xs[0].b && AllTrue(xs[1..]))
    ensures SomeTrue(xs) == (xs[0].b || SomeTrue(xs[1..]))
  {
    assert forall n :: 0 <= n < |xs| ==> n == 0 || xs[n] == xs[1..][n - 1];
    assert forall n :: 0 <= n < |xs[1..]| ==> xs[1..][n] == xs[n + 1];
  }

  lemma JoinOne(logic: Token, x: Block)
    ensures JoinText(logic, [x]) == x.text && JoinVals([x]) == x.vals
    ensures AllTrue([x]) == SomeTrue([x]) == x.b
  {
    assert [x][0] == x;
    assert JoinVals([x][1..]) == [];
  }

  /** Factors joined by AND are one term, true when all are. */
  lemma {:induction false} AndReads(db: Db, row: Row, xs: seq<Block>, ts: seq<Token>, vs: seq<Value>, i: nat, k: nat)
    requires xs != [] && AllFactors(db, row, xs)
    requires Stands(ts, vs, i, k, JoinText(And, xs), JoinVals(xs))
    requires i + |JoinText(And, xs)| < |ts| ==> ts[i + |JoinText(And, xs)|] == Close
    ensures Term(db, row, ts, vs, i, k) == Good(AllTrue(xs), i + |JoinText(And, xs)|, k + |JoinVals(xs)|)
    decreases |xs|
  {
    hide Search, Term, Factor, JoinText, JoinVals, AllTrue, SomeTrue, Stands;
    var x := xs[0];
    var r := Good(x.b, i + |x.text|, k + |x.vals|);
    if |xs| == 1 {
      assert xs == [x];
      JoinOne(And, x);
      SearchEnd(db, row, ts, vs, i, k, r);
    } else {
      HeadStands(And, xs, ts, vs, i, k);
      AndReads(db, row, xs[1..], ts, vs, r.i + 1, r.k);
      TermStep(db, row, ts, vs, i, k, r, Term(db, row, ts, vs, r.i + 1, r.k));
      TailTruth(xs);
    }
  }

  /** Factors joined by OR are one search condition, true when some is. */
  lemma {:induction false} OrReads(db: Db, row: Row, xs: seq<Block>, ts: seq<Token>, vs: seq<Value>, i: nat, k: nat)
    requires xs != [] && AllFactors(db, row, xs)
    requires Stands(ts, vs, i, k, JoinText(Or, xs), JoinVals(xs))
    requires i + |JoinText(Or, xs)| < |ts| ==> ts[i + |JoinText(Or, xs)|] == Close
    ensures Search(db, row, ts, vs, i, k) == Good(SomeTrue(xs), i + |JoinText(Or, xs)|, k + |JoinVals(xs)|)
    decreases |xs|
  {
    hide Search, Term, Factor, JoinText, JoinVals, AllTrue, SomeTrue, Stands;
    var x := xs[0];
    var r := Good(x.b, i + |x.text|, k + |x.vals|);
    if |xs| == 1 {
      assert xs == [x];
      JoinOne(Or, x);
      SearchEnd(db, row, ts, vs, i, k, r);
    } else {
      HeadStands(Or, xs, ts, vs, i, k);
      OrReads(db, row, xs[1..], ts, vs, r.i + 1, r.k);
      SearchStep(db, row, ts, vs, i, k, r, Search(db, row, ts, vs, r.i + 1, r.k));
      TailTruth(xs);
    }
  }

  /** The truth of blocks joined by AND or OR. */
  predicate Joined(or: bool, xs: seq<Block>) {
    if or then SomeTrue(xs) else AllTrue(xs)
  }

  function Parens(or: bool, xs: seq<Block>): Block {
    Block([Open] + JoinText(Logic(or), xs) + [Close], JoinVals(xs), Joined(or, xs))
  }

  /** Parentheses make a join a factor again, so nesting needs no precedence. */
  lemma ParensFactor(db: Db, row: Row, or: bool, xs: seq<Block>)
    requires xs != [] && AllFactors(db, row, xs)
    ensures IsFactor(db, row, Parens(or, xs))
  {
    var x := Parens(or, xs);
    forall ts, vs, i: nat, k: nat | Stands(ts, vs, i, k, x.text, x.vals)
      ensures Factor(db, row, ts, vs, i, k) == Good(x.b, i + |x.text|, k + |x.vals|)
    {
      ParensRead(db, row, or, xs, ts, vs, i, k);
    }
  }

  lemma ParensRead(db: Db, row: Row, or: bool, xs: seq<Block>, ts: seq<Token>, vs: seq<Value>, i: nat, k: nat)
    requires xs != [] && AllFactors(db, row, xs)
    requires Stands(ts, vs, i, k, Parens(or, xs).text, Parens(or, xs).vals)
    ensures Factor(db, row, ts, vs, i, k)
         == Good(Parens(or, xs).b, i + |Parens(or, xs).text|, k + |Parens(or, xs).vals|)
  {
    hide AllFactors, JoinText, JoinVals, AllTrue, SomeTrue;
    var t, v := JoinText(Logic(or), xs), JoinVals(xs);
    InParens(ts, vs, i, k, t, v);
    if or {
      OrReads(db, row, xs, ts, vs, i + 1, k);
    } else {
      AndReads(db, row, xs, ts, vs, i + 1, k);
    }
    var r := Good(Joined(or, xs), i + 1 + |t|, k + |v|);
    assert Search(db, row, ts, vs, i + 1, k) == r;
    ParensStep(db, row, ts, vs, i, k, r);
  }

  lemma ParensStep(db: Db, row: Row, ts: seq<Token>, vs: seq<Value>, i: nat, k: nat, x: Read)
    requires i < |ts| && ts[i] == Open
    requires Search(db, row, ts, vs, i + 1, k) == x && x.Good?
    requires x.i < |ts| && ts[x.i] == Close
    ensures Factor(db, row, ts, vs, i, k) == Good(x.b, x.i + 1, x.k)
  {
  }

  lemma InParens(ts: seq<Token>, vs: seq<Value>, i: nat, k: nat, t: seq<Token>, v: seq<Value>)
    requires Stands(ts, vs, i, k, [Open] + t + [Close], v)
    ensures i + 1 + |t| < |ts| && ts[i] == Open && ts[i + 1 + |t|] == Close
    ensures Stands(ts, vs, i + 1, k, t, v)
  {
    assert [Open] + t + [Close] == [] + [Open] + (t + [Close]) && [] + v == v && v + [] == v;
    ThreeStand(ts, vs, i, k, [], [], Open, t + [Close], v);
    assert t + [Close] == t + [Close] + [];
    ThreeStand(ts, vs, i + 1, k, t, v, Close, [], []);
  }

  lemma {:induction false} JoinSnoc(logic: Token, xs: seq<Block>, x: Block)
    ensures JoinText(logic, xs + [x]) == (if xs == [] then x.text else JoinText(logic, xs) + [logic] + x.text)
    ensures JoinVals(xs + [x]) == JoinVals(xs) + x.vals
    decreases |xs|
  {
    if xs == [] {
      assert xs + [x] == [x];
    } else {
      assert (xs + [x])[1..] == xs[1..] + [x];
      JoinSnoc(logic, xs[1..], x);
      if |xs| > 1 {
        assert xs[0].text + [logic] + (JoinText(logic, xs[1..]) + [logic] + x.text)
            == xs[0].text + [logic] + JoinText(logic, xs[1..]) + [logic] + x.text;
      }
      assert xs[0].vals + (JoinVals(xs[1..]) + x.vals) == xs[0].vals + JoinVals(xs[1..]) + x.vals;
    }
  }

  lemma {:induction false} JoinNonEmpty(db: Db, row: Row, logic: Token, xs: seq<Block>)
    requires xs != [] && AllFactors(db, row, xs)
    ensures JoinText(logic, xs) != []
  {
    assert IsFactor(db, row, xs[0]);
  }

  // ------------------------------------------------------------------ the compiled text

  function ConditionBlock(db: Db, row: Row, c: Condition): Block
    requires Shaped(c)
  {
    var clause := ConditionClause(c);
    Block(clause.where, clause.vals, ConditionHolds(db, row, c))
  }

  /** One atom is read with as many values as it has marks. */
  lemma AtomReads(db: Db, row: Row, x: Block, atom: Token, ts: seq<Token>, vs: seq<Value>, i: nat, k: nat)
    requires x.text == [atom] && atom.Atom? && atom.marks == |x.vals|
    requires AtomHolds(db, row(atom.col), atom.rel, x.vals) == x.b && Stands(ts, vs, i, k, x.text, x.vals)
    ensures Factor(db, row, ts, vs, i, k) == Good(x.b, i + |x.text|, k + |x.vals|)
  {
    hide AtomHolds;
    assert ts[i..i + 1][0] == atom;
    assert vs[k..k + atom.marks] == x.vals;
  }

  /** A condition's atom, with its own values bound to its marks, says what the condition says. */
  lemma ConditionFactor(db: Db, row: Row, c: Condition)
    requires Shaped(c)
    ensures IsFactor(db, row, ConditionBlock(db, row, c))
  {
    var x := ConditionBlock(db, row, c);
    AtomMeans(db, row, c);
    assert x.text == [x.text[0]];
    hide ConditionClause, ConditionHolds, AtomHolds, Shaped, Factor, Stands;
    forall ts, vs, i: nat, k: nat | Stands(ts, vs, i, k, x.text, x.vals)
      ensures Factor(db, row, ts, vs, i, k) == Good(x.b, i + |x.text|, k + |x.vals|)
    {
      AtomReads(db, row, x, x.text[0], ts, vs, i, k);
    }
  }

  lemma AtomMeans(db: Db, row: Row, c: Condition)
    requires Shaped(c)
    ensures var clause := ConditionClause(c);
            && |clause.where| == 1 && clause.where[0].Atom?
            && clause.where[0].marks == |clause.vals|
            && AtomHolds(db, row(clause.where[0].col), clause.where[0].rel, clause.vals)
            == ConditionHolds(db, row, c)
  {
    if ListOp(c.op) {
      match c.value {
        case Texts(ts) => assert forall k :: 0 <= k < |ts| ==> Spread(c.value)[k] == Text(ts[k]);
        case Numbers(rs) => assert forall k :: 0 <= k < |rs| ==> Spread(c.value)[k] == Float(rs[k]);
        case _ =>
      }
    } else {
      hide Spread, LikeMatch;
    }
  }

  function ConditionBlocks(db: Db, row: Row, cs: seq<Condition>, k: nat): (r: seq<Block>)
    requires k <= |cs| && forall j :: 0 <= j < |cs| ==> Shaped(cs[j])
    ensures |r| == k
  {
    seq(k, j requires 0 <= j < k => ConditionBlock(db, row, cs[j]))
  }

  lemma BlocksSnoc(db: Db, row: Row, cs: seq<Condition>, k: nat)
    requires 0 < k <= |cs| && forall j :: 0 <= j < |cs| ==> Shaped(cs[j])
    ensures ConditionBlocks(db, row, cs, k)
         == ConditionBlocks(db, row, cs, k - 1) + [ConditionBlock(db, row, cs[k - 1])]
  {
    hide ConditionBlock;
  }

  lemma {:induction false} ConditionsJoin(db: Db, row: Row, cs: seq<Condition>, k: nat)
    requires k <= |cs| && forall j :: 0 <= j < |cs| ==> Shaped(cs[j]) && AssertionsHold(cs[j])
    ensures ConditionsClause(cs, k).where == JoinText(And, ConditionBlocks(db, row, cs, k))
    ensures ConditionsClause(cs, k).vals == JoinVals(ConditionBlocks(db, row, cs, k))
  {
    hide *;
    if k == 0 {
      NoConditions(db, row, cs);
    } else {
      ConditionsJoin(db, row, cs, k - 1);
      BlocksSnoc(db, row, cs, k);
      ClauseSnoc(db, row, cs, k);
      ClauseJoin(ConditionsClause(cs, k - 1), ConditionsClause(cs, k),
                 ConditionBlocks(db, row, cs, k - 1), ConditionBlock(db, row, cs[k - 1]));
    }
  }

  lemma NoConditions(db: Db, row: Row, cs: seq<Condition>)
    requires forall j :: 0 <= j < |cs| ==> Shaped(cs[j]) && AssertionsHold(cs[j])
    ensures ConditionBlocks(db, row, cs, 0) == []
    ensures ConditionsClause(cs, 0) == Clause(JoinText(And, []), JoinVals([]))
  {
  }

  lemma ClauseJoin(before: Clause, after: Clause, xs: seq<Block>, x: Block)
    requires before.where == JoinText(And, xs) && before.vals == JoinVals(xs)
    requires after.where == (if |xs| == 0 then x.text else before.where + [And] + x.text)
    requires after.vals == before.vals + x.vals
    ensures after.where == JoinText(And, xs + [x]) && after.vals == JoinVals(xs + [x])
  {
    hide *;
    JoinSnoc(And, xs, x);
  }

  lemma ClauseSnoc(db: Db, row: Row, cs: seq<Condition>, k: nat)
    requires 0 < k <= |cs| && forall j :: 0 <= j < |cs| ==> Shaped(cs[j]) && AssertionsHold(cs[j])
    ensures var x := ConditionBlock(db, row, cs[k - 1]);
            var before := ConditionsClause(cs, k - 1);
            && ConditionsClause(cs, k).where == (if k == 1 then x.text else before.where + [And] + x.text)
            && ConditionsClause(cs, k).vals == before.vals + x.vals
  {
    hide ConditionClause, ConditionHolds;
  }

  /** The own conditions in parentheses. */
  lemma OwnFactor(db: Db, row: Row, f: Filter) returns (x: Block)
    requires WellFormed(f) && Renderable(f)
    ensures IsFactor(db, row, x)
    ensures x.text == SubClauses(f, 0).where && x.vals == SubClauses(f, 0).vals
    ensures x.b == OwnHolds(db, row, f)
  {
    var cs := f.conditions;
    var xs := ConditionBlocks(db, row, cs, |cs|);
    forall n | 0 <= n < |xs|
      ensures IsFactor(db, row, xs[n])
    {
      ConditionFactor(db, row, cs[n]);
    }
    ConditionsJoin(db, row, cs, |cs|);
    ParensFactor(db, row, false, xs);
    x := Parens(false, xs);
    assert forall k :: 0 <= k < |cs| ==> xs[k].b == ConditionHolds(db, row, cs[k]);
  }

  lemma SnocTruth(db: Db, row: Row, xs: seq<Block>, x: Block)
    requires AllFactors(db, row, xs) && IsFactor(db, row, x)
    ensures AllFactors(db, row, xs + [x])
    ensures SomeTrue(xs + [x]) == (SomeTrue(xs) || x.b)
    ensures AllTrue(xs + [x]) == (AllTrue(xs) && x.b)
  {
    hide IsFactor;
    var ys := xs + [x];
    assert ys[|xs|] == x && forall n :: 0 <= n < |xs| ==> ys[n] == xs[n];
  }

  /** xs are the own block and the first k subfilters, as the loop of buildWhereClause joins them. */
  ghost predicate SubsAre(db: Db, row: Row, f: Filter, k: nat, xs: seq<Block>)
    requires Renderable(f) && k <= |f.filters|
  {
    && xs != [] && AllFactors(db, row, xs)
    && SubClauses(f, k).where == JoinText(Logic(f.or), xs) && SubClauses(f, k).vals == JoinVals(xs)
    && xs[0].b == OwnHolds(db, row, f)
    && SomeTrue(xs) == (xs[0].b || SomeSub(db, row, f, k))
    && AllTrue(xs) == (xs[0].b && EverySub(db, row, f, k))
  }

  predicate OwnHolds(db: Db, row: Row, f: Filter) {
    forall j :: 0 <= j < |f.conditions| ==> ConditionHolds(db, row, f.conditions[j])
  }

  predicate SomeSub(db: Db, row: Row, f: Filter, k: nat)
    requires k <= |f.filters|
  {
    exists j :: 0 <= j < k && f.filters[j].Some? && Meaning(db, row, f.filters[j].value)
  }

  predicate EverySub(db: Db, row: Row, f: Filter, k: nat)
    requires k <= |f.filters|
  {
    forall j :: 0 <= j < k && f.filters[j].Some? ==> Meaning(db, row, f.filters[j].value)
  }

  lemma SubsNext(db: Db, row: Row, f: Filter, k: nat)
    requires 0 < k <= |f.filters|
    ensures f.filters[k - 1].None? ==>
              && SomeSub(db, row, f, k) == SomeSub(db, row, f, k - 1)
              && EverySub(db, row, f, k) == EverySub(db, row, f, k - 1)
    ensures f.filters[k - 1].Some? ==>
              var b := Meaning(db, row, f.filters[k - 1].value);
              && SomeSub(db, row, f, k) == (SomeSub(db, row, f, k - 1) || b)
              && EverySub(db, row, f, k) == (EverySub(db, row, f, k - 1) && b)
  {
    hide Meaning;
  }

  lemma SubsSnoc(db: Db, row: Row, f: Filter, k: nat, before: seq<Block>, x: Block)
    requires Renderable(f) && 0 < k <= |f.filters| && f.filters[k - 1].Some?
    requires SubsAre(db, row, f, k - 1, before) && IsFactor(db, row, x)
    requires x == Block(Build(f.filters[k - 1].value).where, Build(f.filters[k - 1].value).vals,
                        Meaning(db, row, f.filters[k - 1].value))
    ensures SubsAre(db, row, f, k, before + [x])
  {
    JoinNonEmpty(db, row, Logic(f.or), before);
    JoinSnoc(Logic(f.or), before, x);
    SnocTruth(db, row, before, x);
    SubsNext(db, row, f, k);
    hide JoinText, JoinVals, AllFactors, SomeTrue, AllTrue, OwnHolds, SomeSub, EverySub, Meaning, Build;
  }

  lemma {:induction false} SubFactors(db: Db, row: Row, f: Filter, k: nat) returns (xs: seq<Block>)
    requires WellFormed(f) && Renderable(f) && k <= |f.filters|
    ensures SubsAre(db, row, f, k, xs)
    decreases f, 0, k
  {
    hide Meaning, IsFactor, Build, ConditionsClause, OwnHolds;
    if k == 0 {
      var x := OwnFactor(db, row, f);
      JoinOne(Logic(f.or), x);
      xs := [x];
    } else {
      var before := SubFactors(db, row, f, k - 1);
      SubsNext(db, row, f, k);
      if f.filters[k - 1].None? {
        xs := before;
      } else {
        var x := BuildFactor(db, row, f.filters[k - 1].value);
        xs := before + [x];
        SubsSnoc(db, row, f, k, before, x);
      }
    }
  }

  /** Wherever a compiled filter stands, it is one factor with the filter's meaning. */
  lemma {:induction false} BuildFactor(db: Db, row: Row, f: Filter) returns (x: Block)
    requires WellFormed(f) && Renderable(f)
    ensures x == Block(Build(f).where, Build(f).vals, Meaning(db, row, f)) && IsFactor(db, row, x)
    decreases f, 1
  {
    var xs := SubFactors(db, row, f, |f.filters|);
    JoinNonEmpty(db, row, Logic(f.or), xs);
    ParensFactor(db, row, f.or, xs);
    x := Parens(f.or, xs);
  }

  /**
   * The compiled WHERE text means the filter: SQL, with AND binding tighter than OR and the values
   * bound to the marks from left to right, reads all of it, uses every value once, and gives the
   * filter's meaning.
   */
  lemma CompiledMeansFilter(db: Db, row: Row, f: Filter)
    requires WellFormed(f)
    ensures Renderable(f) && Evaluate(db, row, Build(f)) == Some(Meaning(db, row, f))
  {
    WellFormedIsRenderable(f);
    var x := BuildFactor(db, row, f);
    var c := Build(f);
    hide Build, Meaning, Search, Term, Factor;
    assert Stands(c.where, c.vals, 0, 0, x.text, x.vals);
    SearchEnd(db, row, c.where, c.vals, 0, 0, Good(x.b, |c.where|, |c.vals|));
  }

  /** From the request to the database: what is accepted compiles, and selects the rows it means. */
  lemma AcceptedMeansFilter(db: Db, row: Row, pf: ParseFloat, fMap: map<string, Field>, raw: RawFilter)
    requires ParseFilter(pf, fMap, raw).Ok? && ParseFilter(pf, fMap, raw).value.Some?
    ensures var f := ParseFilter(pf, fMap, raw).value.value;
            Renderable(f) && Evaluate(db, row, Build(f)) == Some(Meaning(db, row, f))
  {
    ParsedIsWellFormed(pf, fMap, raw);
    CompiledMeansFilter(db, row, ParseFilter(pf, fMap, raw).value.value);
  }

  // ------------------------------------------------------------------ some texts

  /** AND binds tighter than OR, and parentheses override it; what is left over makes the text no condition. */
  lemma Precedence(db: Db, row: Row, a: Value, b: Value, c: Value)
    ensures var x, y, z := Atom("x", Compare(Eq), 1), Atom("y", Compare(Eq), 1), Atom("z", Compare(Eq), 1);
            var p, q, r := db.eq(row("x"), a), db.eq(row("y"), b), db.eq(row("z"), c);
            && Evaluate(db, row, Clause([x, Or, y, And, z], [a, b, c])) == Some(p || (q && r))
            && Evaluate(db, row, Clause([x, And, y, Or, z], [a, b, c])) == Some((p && q) || r)
            && Evaluate(db, row, Clause([Open, x, Or, y, Close, And, z], [a, b, c])) == Some((p || q) && r)
            && Evaluate(db, row, Clause([x, y], [a, b])) == None
            && Evaluate(db, row, Clause([x], [a, b])) == None
            && Evaluate(db, row, Clause([x, And], [a])) == None
            && Evaluate(db, row, Clause([], [])) == None
  {
    var x, y, z := Atom("x", Compare(Eq), 1), Atom("y", Compare(Eq), 1), Atom("z", Compare(Eq), 1);
    hide Evaluate;
    FlatReads(db, row, x, y, z, a, b, c);
    GroupReads(db, row, x, y, z, a, b, c);
    Leftovers(db, row, x, y, a, b);
  }

  lemma Leftovers(db: Db, row: Row, x: Token, y: Token, a: Value, b: Value)
    requires x == Atom("x", Compare(Eq), 1) && y == Atom("y", Compare(Eq), 1)
    ensures Evaluate(db, row, Clause([x, y], [a, b])) == None
    ensures Evaluate(db, row, Clause([x], [a, b])) == None
    ensures Evaluate(db, row, Clause([x, And], [a])) == None
    ensures Evaluate(db, row, Clause([], [])) == None
  {
    var p := db.eq(row("x"), a);
    assert [a, b][0..1] == [a] && [a][0..1] == [a];
    assert Factor(db, row, [x, y], [a, b], 0, 0) == Good(p, 1, 1);
    assert Term(db, row, [x, y], [a, b], 0, 0) == Good(p, 1, 1);
    assert Factor(db, row, [x], [a, b], 0, 0) == Good(p, 1, 1);
    assert Term(db, row, [x], [a, b], 0, 0) == Good(p, 1, 1);
    assert Term(db, row, [x, And], [a], 2, 1) == Bad;
    assert Term(db, row, [x, And], [a], 0, 0) == Bad;
  }

  lemma FlatReads(db: Db, row: Row, x: Token, y: Token, z: Token, a: Value, b: Value, c: Value)
    requires x == Atom("x", Compare(Eq), 1) && y == Atom("y", Compare(Eq), 1) && z == Atom("z", Compare(Eq), 1)
    ensures var p, q, r := db.eq(row("x"), a), db.eq(row("y"), b), db.eq(row("z"), c);
            && Evaluate(db, row, Clause([x, Or, y, And, z], [a, b, c])) == Some(p || (q && r))
            && Evaluate(db, row, Clause([x, And, y, Or, z], [a, b, c])) == Some((p && q) || r)
  {
    var p, q, r := db.eq(row("x"), a), db.eq(row("y"), b), db.eq(row("z"), c);
    var vs := [a, b, c];
    assert vs[0..1] == [a] && vs[1..2] == [b] && vs[2..3] == [c];
    var t := [x, Or, y, And, z];
    assert Factor(db, row, t, vs, 0, 0) == Good(p, 1, 1) && Factor(db, row, t, vs, 2, 1) == Good(q, 3, 2);
    assert Factor(db, row, t, vs, 4, 2) == Good(r, 5, 3);
    assert Term(db, row, t, vs, 4, 2) == Good(r, 5, 3) && Term(db, row, t, vs, 2, 1) == Good(q && r, 5, 3);
    assert Term(db, row, t, vs, 0, 0) == Good(p, 1, 1) && Search(db, row, t, vs, 2, 1) == Good(q && r, 5, 3);
    var u := [x, And, y, Or, z];
    assert Factor(db, row, u, vs, 0, 0) == Good(p, 1, 1) && Factor(db, row, u, vs, 2, 1) == Good(q, 3, 2);
    assert Factor(db, row, u, vs, 4, 2) == Good(r, 5, 3);
    assert Term(db, row, u, vs, 2, 1) == Good(q, 3, 2) && Term(db, row, u, vs, 0, 0) == Good(p && q, 3, 2);
    assert Search(db, row, u, vs, 4, 2) == Good(r, 5, 3);
  }

  lemma GroupReads(db: Db, row: Row, x: Token, y: Token, z: Token, a: Value, b: Value, c: Value)
    requires x == Atom("x", Compare(Eq), 1) && y == Atom("y", Compare(Eq), 1) && z == Atom("z", Compare(Eq), 1)
    ensures var p, q, r := db.eq(row("x"), a), db.eq(row("y"), b), db.eq(row("z"), c);
            Evaluate(db, row, Clause([Open, x, Or, y, Close, And, z], [a, b, c])) == Some((p || q) && r)
  {
    var p, q, r := db.eq(row("x"), a), db.eq(row("y"), b), db.eq(row("z"), c);
    var vs, t := [a, b, c], [Open, x, Or, y, Close, And, z];
    assert vs[0..1] == [a] && vs[1..2] == [b] && vs[2..3] == [c];
    assert Factor(db, row, t, vs, 1, 0) == Good(p, 2, 1) && Factor(db, row, t, vs, 3, 1) == Good(q, 4, 2);
    assert Search(db, row, t, vs, 3, 1) == Good(q, 4, 2) && Search(db, row, t, vs, 1, 0) == Good(p || q, 4, 2);
    assert Factor(db, row, t, vs, 0, 0) == Good(p || q, 5, 2) && Factor(db, row, t, vs, 6, 2) == Good(r, 7, 3);
    assert Term(db, row, t, vs, 6, 2) == Good(r, 7, 3) && Term(db, row, t, vs, 0, 0) == Good((p || q) && r, 7, 3);
  }

  /** A filter without anything to say leaves no text; one without own conditions is its subfilter. */
  lemma BareFilters(g: Filter, or: bool)
    requires Renderable(g)
    ensures Renderable(Filter(or, [], [])) && Build(Filter(or, [], [])) == Clause([], [])
    ensures Renderable(Filter(or, [], [Some(g)]))
    ensures var w := Build(g);
            Build(Filter(or, [], [Some(g)]))
            == Clause(if w.where == [] then [] else [Open] + w.where + [Close], w.vals)
  {
    hide Renderable, ConditionClause;
    BareRenderable(g, or);
    var f := Filter(or, [], [Some(g)]);
    assert f.filters[0] == Some(g);
    assert SubClauses(f, 0) == Clause([], []) && [] + Build(g).vals == Build(g).vals;
    assert SubClauses(f, 1) == Build(g);
    assert SubClauses(Filter(or, [], []), 0) == Clause([], []);
  }

  lemma BareRenderable(g: Filter, or: bool)
    requires Renderable(g)
    ensures Renderable(Filter(or, [], [])) && Renderable(Filter(or, [], [Some(g)]))
  {
  }

  // ------------------------------------------------------------------ literal LIKE forms

  /** No wildcard, and no backslash, which escapes one. */
  predicate Literal(s: string) {
    '%' !in s && '_' !in s && '\\' !in s
  }

  lemma {:induction false} LikeAnything(s: string)
    ensures LikeMatch("%", s)
  {
    assert "%"[1..] == "";
    if s == [] {
    } else {
      LikeAnything(s[1..]);
    }
  }

  lemma {:induction false} LikePrefix(v: string, s: string)
    requires Literal(v)
    ensures LikeMatch(v + "%", s) <==> v <= s
  {
    if v == [] {
      assert v + "%" == "%";
      LikeAnything(s);
    } else if s != [] {
      assert (v + "%")[1..] == v[1..] + "%";
      LikePrefix(v[1..], s[1..]);
      assert v <= s <==> v[0] == s[0] && v[1..] <= s[1..];
    }
  }

  lemma {:induction false} LikeLiteral(v: string, s: string)
    requires Literal(v)
    ensures LikeMatch(v, s) <==> s == v
  {
    if v == [] || s == [] {
    } else {
      LikeLiteral(v[1..], s[1..]);
      assert s == v <==> s[0] == v[0] && s[1..] == v[1..];
    }
  }

  lemma LikeUnfold(v: string, s: string)
    ensures LikeMatch("%" + v, s) <==> LikeMatch(v, s) || (s != [] && LikeMatch("%" + v, s[1..]))
  {
    assert ("%" + v)[1..] == v;
  }

  lemma {:induction false} LikeSuffix(v: string, s: string)
    requires Literal(v)
    ensures LikeMatch("%" + v, s) <==> |v| <= |s| && s[|s| - |v|..] == v
    decreases |s|
  {
    LikeUnfold(v, s);
    LikeLiteral(v, s);
    hide LikeMatch;
    if s == [] {
    } else {
      LikeSuffix(v, s[1..]);
      if |v| < |s| {
        var k := |s| - |v|;
        assert s[k..] == s[1..][k - 1..];
      }
    }
    if |v| == |s| {
      assert s[0..] == s;
    }
  }

  lemma MatchTail(v: string, s: string, i: nat)
    requires s != []
    ensures MatchAt(s, v, i + 1) <==> MatchAt(s[1..], v, i)
  {
    if i + 1 + |v| <= |s| {
      var t, u := s[i + 1..i + 1 + |v|], s[1..][i..i + |v|];
      assert forall k :: 0 <= k < |v| ==> t[k] == s[i + 1 + k] == u[k];
      assert t == u;
    }
  }

  lemma {:induction false} LikeContains(v: string, s: string)
    requires Literal(v)
    ensures LikeMatch("%" + v + "%", s) <==> exists i: nat :: MatchAt(s, v, i)
    decreases |s|
  {
    assert "%" + v + "%" == "%" + (v + "%");
    LikeUnfold(v + "%", s);
    LikePrefix(v, s);
    hide LikeMatch;
    assert v <= s <==> MatchAt(s, v, 0);
    if s == [] {
    } else {
      LikeContains(v, s[1..]);
      forall i: nat
        ensures MatchAt(s, v, i + 1) <==> MatchAt(s[1..], v, i)
      {
        MatchTail(v, s, i);
      }
      assert forall i: nat :: MatchAt(s, v, i) ==> i == 0 || MatchAt(s[1..], v, i - 1);
    }
  }

  /** "_" stands for exactly one character, "%" for any text. */
  lemma Wildcards(p: string, s: string)
    ensures LikeMatch("_" + p, s) <==> s != [] && LikeMatch(p, s[1..])
    ensures LikeMatch("%" + p, s) <==> exists k :: 0 <= k <= |s| && LikeMatch(p, s[k..])
    decreases |s|
  {
    assert ("_" + p)[1..] == p;
    AnyText(p, s);
  }

  lemma {:induction false} AnyText(p: string, s: string)
    ensures LikeMatch("%" + p, s) <==> exists k :: 0 <= k <= |s| && LikeMatch(p, s[k..])
    decreases |s|
  {
    LikeUnfold(p, s);
    hide LikeMatch;
    assert s[0..] == s;
    if s == [] {
    } else {
      AnyText(p, s[1..]);
      assert forall k :: 0 < k <= |s| ==> s[k..] == s[1..][k - 1..];
      if LikeMatch("%" + p, s[1..]) {
        var k :| 0 <= k <= |s[1..]| && LikeMatch(p, s[1..][k..]);
        assert s[k + 1..] == s[1..][k..];
      }
    }
  }

  /** For texts without wildcards the LIKE forms are containment, prefix and suffix. */
  lemma LikeForms(v: string, s: string)
    requires Literal(v)
    ensures LikeMatch(LikePattern(Like, v), s) <==> exists i: nat :: MatchAt(s, v, i)
    ensures LikeMatch(LikePattern(Prefix, v), s) <==> v <= s
    ensures LikeMatch(LikePattern(Suffix, v), s) <==> |v| <= |s| && s[|s| - |v|..] == v
  {
    hide LikeMatch, Literal, MatchAt;
    LikeContains(v, s);
    LikePrefix(v, s);
    LikeSuffix(v, s);
  }
}
