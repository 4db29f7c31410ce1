/** Filter trees of the data service: parseRawFilter and buildWhereClause. */
module Filters {
  import opened Wrappers
  import opened Conditions

  datatype RawFilter = RawFilter(or: bool, conditions: seq<string>, filters: seq<RawFilter>)

  /** A nil subfilter, left by a raw subfilter without conditions, is None. */
  datatype Filter = Filter(or: bool, conditions: seq<Condition>, filters: seq<Option<Filter>>)

  // ------------------------------------------------------------------ parseRawFilter

  function ParseConditions(pf: ParseFloat, fMap: map<string, Field>, ss: seq<string>): (r: Result<seq<Condition>>)
    ensures r.Ok? ==> |r.value| == |ss|
  {
    if ss == [] then Ok([])
    else
      match ParseCondition(pf, fMap, ss[0])
      case Rejected => Rejected
      case Crash => Crash
      case Ok(c) =>
        match ParseConditions(pf, fMap, ss[1..])
        case Rejected => Rejected
        case Crash => Crash
        case Ok(cs) => Ok([c] + cs)
  }

  function ParseFilters(pf: ParseFloat, fMap: map<string, Field>, fs: seq<RawFilter>): (r: Result<seq<Option<Filter>>>)
    ensures r.Ok? ==> |r.value| == |fs|
    decreases fs, 0
  {
    if fs == [] then Ok([])
    else
      match ParseFilter(pf, fMap, fs[0])
      case Rejected => Rejected
      case Crash => Crash
      case Ok(f) =>
        match ParseFilters(pf, fMap, fs[1..])
        case Rejected => Rejected
        case Crash => Crash
        case Ok(rest) => Ok([f] + rest)
  }

  /** A raw filter without conditions becomes nil, whatever its subfilters say. */
  function ParseFilter(pf: ParseFloat, fMap: map<string, Field>, f: RawFilter): Result<Option<Filter>>
    decreases f, 1
  {
    if f.conditions == [] then Ok(None)
    else
      match ParseConditions(pf, fMap, f.conditions)
      case Rejected => Rejected
      case Crash => Crash
      case Ok(cs) =>
        match ParseFilters(pf, fMap, f.filters)
        case Rejected => Rejected
        case Crash => Crash
        case Ok(fs) => Ok(Some(Filter(f.or, cs, fs)))
  }

  /** parseRawFilter; the crash of a converter is passed on as a result. */
  method ParseRawFilter(pf: ParseFloat, fMap: map<string, Field>, f: RawFilter) returns (r: Result<Option<Filter>>)
    ensures r == ParseFilter(pf, fMap, f)
    decreases f, 1
  {
    hide ParseConditions, ParseFilters;
    if |f.conditions| == 0 {
      return Ok(None);
    }
    var conditions := ParseRawConditions(pf, fMap, f.conditions);
    if conditions.Rejected? {
      return Rejected;
    }
    if conditions.Crash? {
      return Crash;
    }
    var filters := ParseRawFilters(pf, fMap, f.filters);
    if filters.Rejected? {
      return Rejected;
    }
    if filters.Crash? {
      return Crash;
    }
    return Ok(Some(Filter(f.or, conditions.value, filters.value)));
  }

  /** Its first loop. */
  method ParseRawConditions(pf: ParseFloat, fMap: map<string, Field>, ss: seq<string>)
    returns (r: Result<seq<Condition>>)
    ensures r == ParseConditions(pf, fMap, ss)
  {
    hide ParseCondition;
    var conditions := [];
    ConditionsStart(pf, fMap, ss);
    for i := 0 to |ss|
      invariant ParseConditions(pf, fMap, ss) == Prepend(conditions, ParseConditions(pf, fMap, ss[i..]))
    {
      ConditionsStep(pf, fMap, ss, i, conditions);
      var cond := ParseCondition(pf, fMap, ss[i]);
      if cond.Rejected? {
        return Rejected;
      }
      if cond.Crash? {
        return Crash;
      }
      conditions := conditions + [cond.value];
    }
    assert ss[|ss|..] == [] && conditions + [] == conditions;
    return Ok(conditions);
  }

  /** Its second loop, over the subfilters. */
  method ParseRawFilters(pf: ParseFloat, fMap: map<string, Field>, fs: seq<RawFilter>)
    returns (r: Result<seq<Option<Filter>>>)
    ensures r == ParseFilters(pf, fMap, fs)
    decreases fs, 0
  {
    var filters := [];
    FiltersStart(pf, fMap, fs);
    for i := 0 to |fs|
      invariant ParseFilters(pf, fMap, fs) == Prepend(filters, ParseFilters(pf, fMap, fs[i..]))
    {
      FiltersStep(pf, fMap, fs, i, filters);
      var v := ParseRawFilter(pf, fMap, fs[i]);
      if v.Rejected? {
        return Rejected;
      }
      if v.Crash? {
        return Crash;
      }
      filters := filters + [v.value];
    }
    assert fs[|fs|..] == [] && filters + [] == filters;
    return Ok(filters);
  }

  lemma ConditionsStart(pf: ParseFloat, fMap: map<string, Field>, ss: seq<string>)
    ensures ParseConditions(pf, fMap, ss) == Prepend([], ParseConditions(pf, fMap, ss[0..]))
  {
    hide ParseConditions;
    assert ss[0..] == ss;
    var r := ParseConditions(pf, fMap, ss);
    assert r.Ok? ==> [] + r.value == r.value;
  }

  lemma FiltersStart(pf: ParseFloat, fMap: map<string, Field>, fs: seq<RawFilter>)
    ensures ParseFilters(pf, fMap, fs) == Prepend([], ParseFilters(pf, fMap, fs[0..]))
  {
    hide ParseFilters;
    assert fs[0..] == fs;
    var r := ParseFilters(pf, fMap, fs);
    assert r.Ok? ==> [] + r.value == r.value;
  }

  lemma ConditionsStep(pf: ParseFloat, fMap: map<string, Field>, ss: seq<string>, i: nat, done: seq<Condition>)
    requires i < |ss|
    requires ParseConditions(pf, fMap, ss) == Prepend(done, ParseConditions(pf, fMap, ss[i..]))
    ensures match ParseCondition(pf, fMap, ss[i])
            case Rejected => ParseConditions(pf, fMap, ss) == Rejected
            case Crash => ParseConditions(pf, fMap, ss) == Crash
            case Ok(c) =>
              ParseConditions(pf, fMap, ss) == Prepend(done + [c], ParseConditions(pf, fMap, ss[i + 1..]))
  {
    assert ss[i..][1..] == ss[i + 1..];
    var c := ParseCondition(pf, fMap, ss[i]);
    if c.Ok? {
      PrependMore(done, c.value, ParseConditions(pf, fMap, ss[i + 1..]));
    }
  }

  lemma FiltersStep(pf: ParseFloat, fMap: map<string, Field>, fs: seq<RawFilter>, i: nat, done: seq<Option<Filter>>)
    requires i < |fs|
    requires ParseFilters(pf, fMap, fs) == Prepend(done, ParseFilters(pf, fMap, fs[i..]))
    ensures match ParseFilter(pf, fMap, fs[i])
            case Rejected => ParseFilters(pf, fMap, fs) == Rejected
            case Crash => ParseFilters(pf, fMap, fs) == Crash
            case Ok(f) =>
              ParseFilters(pf, fMap, fs) == Prepend(done + [f], ParseFilters(pf, fMap, fs[i + 1..]))
  {
    hide ParseFilter;
    assert fs[i..][1..] == fs[i + 1..];
    var f := ParseFilter(pf, fMap, fs[i]);
    if f.Ok? {
      PrependMore(done, f.value, ParseFilters(pf, fMap, fs[i + 1..]));
    }
  }

  function Prepend<T>(done: seq<T>, r: Result<seq<T>>): Result<seq<T>> {
    match r
    case Ok(rest) => Ok(done + rest)
    case Rejected => Rejected
    case Crash => Crash
  }

  lemma PrependMore<T>(done: seq<T>, x: T, r: Result<seq<T>>)
    ensures Prepend(done, Prepend([x], r)) == Prepend(done + [x], r)
  {
    if r.Ok? {
      assert done + ([x] + r.value) == done + [x] + r.value;
    }
  }

  /** Parsing stops at the first condition that fails, and fails as it does. */
  lemma {:induction false} FirstConditionFails(pf: ParseFloat, fMap: map<string, Field>, ss: seq<string>, k: nat)
    requires k < |ss| && !ParseCondition(pf, fMap, ss[k]).Ok?
    requires forall j :: 0 <= j < k ==> ParseCondition(pf, fMap, ss[j]).Ok?
    ensures ParseConditions(pf, fMap, ss) == if ParseCondition(pf, fMap, ss[k]).Crash? then Crash else Rejected
  {
    hide ParseCondition;
    if k == 0 {
    } else {
      assert ss[1..][k - 1] == ss[k];
      FirstConditionFails(pf, fMap, ss[1..], k - 1);
    }
  }

  /** The same for subfilters. */
  lemma {:induction false} FirstFilterFails(pf: ParseFloat, fMap: map<string, Field>, fs: seq<RawFilter>, k: nat)
    requires k < |fs| && !ParseFilter(pf, fMap, fs[k]).Ok?
    requires forall j :: 0 <= j < k ==> ParseFilter(pf, fMap, fs[j]).Ok?
    ensures ParseFilters(pf, fMap, fs) == if ParseFilter(pf, fMap, fs[k]).Crash? then Crash else Rejected
  {
    hide ParseFilter;
    if k == 0 {
    } else {
      assert fs[1..][k - 1] == fs[k];
      FirstFilterFails(pf, fMap, fs[1..], k - 1);
    }
  }

  /** Own conditions are parsed before subfilters; a filter is accepted exactly when all of them are. */
  lemma FilterFails(pf: ParseFloat, fMap: map<string, Field>, f: RawFilter)
    requires f.conditions != []
    ensures var own, subs := ParseConditions(pf, fMap, f.conditions), ParseFilters(pf, fMap, f.filters);
            match ParseFilter(pf, fMap, f)
            case Ok(g) => own.Ok? && subs.Ok? && g == Some(Filter(f.or, own.value, subs.value))
            case Crash => own.Crash? || (own.Ok? && subs.Crash?)
            case Rejected => own.Rejected? || (own.Ok? && subs.Rejected?)
  {
    hide ParseConditions, ParseFilters;
  }

  // ------------------------------------------------------------------ the WHERE text

  datatype Rel = Compare(op: Op) | BetweenRel(neg: bool) | InRel(neg: bool) | LikeRel(neg: bool)

  /** The WHERE text as tokens; an atom carries its column and how many '?' it has. */
  datatype Token = Open | Close | And | Or | Atom(col: string, rel: Rel, marks: nat)

  datatype Clause = Clause(where: seq<Token>, vals: seq<Value>)

  function Column(f: Field): string {
    f.objKey + "." + f.col
  }

  /** One value for each element of a list, one for anything else. */
  function Spread(v: Value): seq<Value> {
    match v
    case Texts(ts) => TextValues(ts)
    case Numbers(rs) => FloatValues(rs)
    case _ => [v]
  }

  function TextValues(ts: seq<string>): (r: seq<Value>)
    ensures |r| == |ts| && forall k :: 0 <= k < |ts| ==> r[k] == Text(ts[k])
  {
    if ts == [] then [] else [Text(ts[0])] + TextValues(ts[1..])
  }

  function FloatValues(rs: seq<real>): (r: seq<Value>)
    ensures |r| == |rs| && forall k :: 0 <= k < |rs| ==> r[k] == Float(rs[k])
  {
    if rs == [] then [] else [Float(rs[0])] + FloatValues(rs[1..])
  }

  /** The pattern bound for a LIKE form; the wildcard is put where the form wants it. */
  function LikePattern(op: Op, s: string): string {
    match op
    case Like => "%" + s + "%"
    case NotLike => "%" + s + "%"
    case Prefix => s + "%"
    case NotPrefix => s + "%"
    case _ => "%" + s
  }

  /** The type assertions of buildWhereClause hold. */
  predicate AssertionsHold(c: Condition) {
    c.field.kind != NestedKind ==>
      && (ListOp(c.op) ==> if c.field.kind == StringKind then c.value.Texts? else c.value.Numbers?)
      && (!Symbolic(c.op) && !ListOp(c.op) ==> c.value.Text?)
  }

  predicate Renderable(f: Filter) {
    && (forall k :: 0 <= k < |f.conditions| ==> AssertionsHold(f.conditions[k]))
    && (forall k :: 0 <= k < |f.filters| ==> f.filters[k].Some? ==> Renderable(f.filters[k].value))
  }

  function ConditionClause(c: Condition): Clause
    requires AssertionsHold(c) && c.field.kind != NestedKind
  {
    var col := Column(c.field);
    match c.op
    case Between => Clause([Atom(col, BetweenRel(false), 2)], Spread(c.value))
    case NotBetween => Clause([Atom(col, BetweenRel(true), 2)], Spread(c.value))
    case In => Clause([Atom(col, InRel(false), |Spread(c.value)|)], Spread(c.value))
    case NotIn => Clause([Atom(col, InRel(true), |Spread(c.value)|)], Spread(c.value))
    case Like => Clause([Atom(col, LikeRel(false), 1)], [Text(LikePattern(c.op, c.value.s))])
    case Prefix => Clause([Atom(col, LikeRel(false), 1)], [Text(LikePattern(c.op, c.value.s))])
    case Suffix => Clause([Atom(col, LikeRel(false), 1)], [Text(LikePattern(c.op, c.value.s))])
    case NotLike => Clause([Atom(col, LikeRel(true), 1)], [Text(LikePattern(c.op, c.value.s))])
    case NotPrefix => Clause([Atom(col, LikeRel(true), 1)], [Text(LikePattern(c.op, c.value.s))])
    case NotSuffix => Clause([Atom(col, LikeRel(true), 1)], [Text(LikePattern(c.op, c.value.s))])
    case _ => Clause([Atom(col, Compare(c.op), 1)], [c.value])
  }

  /** The first k conditions, joined by AND; conditions on nested kinds leave no text. */
  function ConditionsClause(cs: seq<Condition>, k: nat): Clause
    requires k <= |cs| && forall j :: 0 <= j < |cs| ==> AssertionsHold(cs[j])
  {
    if k == 0 then Clause([], [])
    else
      var before := ConditionsClause(cs, k - 1);
      if cs[k - 1].field.kind == NestedKind then before
      else
        var c := ConditionClause(cs[k - 1]);
        Clause(if k == 1 then c.where else before.where + [And] + c.where, before.vals + c.vals)
  }

  function Logic(or: bool): Token {
    if or then Or else And
  }

  /** The own conditions in parentheses, then the first k subfilters. */
  function SubClauses(f: Filter, k: nat): Clause
    requires k <= |f.filters| && Renderable(f)
    decreases f, 0, k
  {
    if k == 0 then
      var own := ConditionsClause(f.conditions, |f.conditions|);
      Clause(if |f.conditions| > 0 then [Open] + own.where + [Close] else own.where, own.vals)
    else
      var before := SubClauses(f, k - 1);
      match f.filters[k - 1]
      case None => before
      case Some(g) =>
        var w := Build(g);
        Clause(if before.where == [] then w.where else before.where + [Logic(f.or)] + w.where,
               before.vals + w.vals)
  }

  function Build(f: Filter): Clause
    requires Renderable(f)
    decreases f, 1
  {
    var c := SubClauses(f, |f.filters|);
    if |c.where| > 0 then Clause([Open] + c.where + [Close], c.vals) else Clause([], c.vals)
  }

  /** buildWhereClause. */
  method BuildWhereClause(fs: Filter) returns (where: seq<Token>, vals: seq<Value>)
    requires Renderable(fs)
    ensures Clause(where, vals) == Build(fs)
    decreases fs
  {
    where, vals := [], [];
    var logic := And;
    for i := 0 to |fs.conditions|
      invariant Clause(where, vals) == ConditionsClause(fs.conditions, i)
    {
      var f := fs.conditions[i];
      if f.field.kind == NestedKind {
        continue;
      }
      var w, vs := RenderCondition(f);
      vals := vals + vs;
      if i == 0 {
        where := w;
      } else {
        where := where + [logic] + w;
      }
    }
    if |fs.conditions| > 0 {
      where := [Open] + where + [Close];
    }
    if fs.or {
      logic := Or;
    }
    for i := 0 to |fs.filters|
      invariant Clause(where, vals) == SubClauses(fs, i)
    {
      if fs.filters[i].None? {
        continue;
      }
      var w, vs := BuildWhereClause(fs.filters[i].value);
      if where == [] {
        where := w;
      } else {
        where := where + [logic] + w;
      }
      vals := vals + vs;
    }
    if |where| > 0 {
      where := [Open] + where + [Close];
    }
  }

  /** The switch on the upper-cased operator, with its loops over list values. */
  method RenderCondition(c: Condition) returns (w: seq<Token>, vals: seq<Value>)
    requires AssertionsHold(c) && c.field.kind != NestedKind
    ensures Clause(w, vals) == ConditionClause(c)
  {
    var col := Column(c.field);
    vals := [];
    var marks: nat := 0;
    if ListOp(c.op) {
      if c.field.kind == StringKind {
        var ts := c.value.ts;
        for i := 0 to |ts|
          invariant marks == i && vals == TextValues(ts)[..i]
        {
          vals := vals + [Text(ts[i])];
          marks := marks + 1;
        }
      } else {
        var rs := c.value.rs;
        for i := 0 to |rs|
          invariant marks == i && vals == FloatValues(rs)[..i]
        {
          vals := vals + [Float(rs[i])];
          marks := marks + 1;
        }
      }
      if c.op == Between || c.op == NotBetween {
        w := [Atom(col, BetweenRel(c.op == NotBetween), 2)];
      } else {
        w := [Atom(col, InRel(c.op == NotIn), marks)];
      }
    } else if Symbolic(c.op) {
      w := [Atom(col, Compare(c.op), 1)];
      vals := [c.value];
    } else {
      w := [Atom(col, LikeRel(c.op in [NotLike, NotPrefix, NotSuffix]), 1)];
      vals := [Text(LikePattern(c.op, c.value.s))];
    }
  }

  // ------------------------------------------------------------------ what parsing guarantees

  /** Own conditions are present and shaped, at every level. */
  predicate WellFormed(f: Filter) {
    && f.conditions != []
    && (forall k :: 0 <= k < |f.conditions| ==> Shaped(f.conditions[k]))
    && (forall k :: 0 <= k < |f.filters| ==> f.filters[k].Some? ==> WellFormed(f.filters[k].value))
  }

  lemma {:induction false} ConditionsShaped(pf: ParseFloat, fMap: map<string, Field>, ss: seq<string>)
    requires ParseConditions(pf, fMap, ss).Ok?
    ensures forall k :: 0 <= k < |ss| ==> Shaped(ParseConditions(pf, fMap, ss).value[k])
  {
    if ss == [] {
    } else {
      AcceptedIsShaped(pf, fMap, ss[0]);
      ConditionsShaped(pf, fMap, ss[1..]);
    }
  }

  lemma {:induction false} FiltersWellFormed(pf: ParseFloat, fMap: map<string, Field>, fs: seq<RawFilter>)
    requires ParseFilters(pf, fMap, fs).Ok?
    ensures forall k :: 0 <= k < |fs| ==>
              var f := ParseFilters(pf, fMap, fs).value[k];
              f.Some? ==> WellFormed(f.value)
    decreases fs, 0
  {
    if fs == [] {
    } else {
      ParsedIsWellFormed(pf, fMap, fs[0]);
      FiltersWellFormed(pf, fMap, fs[1..]);
    }
  }

  /** Every filter accepted by parseRawFilter has shaped conditions at every level. */
  lemma {:induction false} ParsedIsWellFormed(pf: ParseFloat, fMap: map<string, Field>, f: RawFilter)
    ensures var r := ParseFilter(pf, fMap, f);
            r.Ok? && r.value.Some? ==> WellFormed(r.value.value)
    decreases f, 1
  {
    var r := ParseFilter(pf, fMap, f);
    if r.Ok? && r.value.Some? {
      ConditionsShaped(pf, fMap, f.conditions);
      FiltersWellFormed(pf, fMap, f.filters);
    }
  }

  /** Accepted filters never fail a type assertion of buildWhereClause. */
  lemma {:induction false} WellFormedIsRenderable(f: Filter)
    requires WellFormed(f)
    ensures Renderable(f)
    decreases f
  {
    forall k | 0 <= k < |f.filters| && f.filters[k].Some?
      ensures Renderable(f.filters[k].value)
    {
      WellFormedIsRenderable(f.filters[k].value);
    }
  }
}
