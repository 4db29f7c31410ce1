/** What a request's own filter tree says, and when the parsed tree says the same. */
module RawFilters {
  import opened Wrappers
  import opened GoStrings
  import opened Conditions
  import opened ConditionRoundTrip
  import opened Filters
  import opened WhereSql
  import opened Routing

  // ------------------------------------------------------------------ the meaning of the raw tree

  /** For every group of a raw tree, whether its own conditions hold. */
  datatype Truth = Truth(own: bool, subs: seq<Truth>)

  predicate Fits(raw: RawFilter, t: Truth) {
    && |t.subs| == |raw.filters|
    && forall k :: 0 <= k < |raw.filters| ==> Fits(raw.filters[k], t.subs[k])
  }

  /** No condition anywhere. */
  predicate Empty(raw: RawFilter) {
    raw.conditions == [] && forall k :: 0 <= k < |raw.filters| ==> Empty(raw.filters[k])
  }

  /**
   * The request: own conditions and subfilters joined by `or`; without own conditions the subfilters
   * alone; groups without any condition restrict nothing.
   */
  predicate Requested(raw: RawFilter, t: Truth)
    requires Fits(raw, t)
  {
    var some := exists k :: 0 <= k < |raw.filters| && !Empty(raw.filters[k]) && Requested(raw.filters[k], t.subs[k]);
    var every := forall k :: 0 <= k < |raw.filters| && !Empty(raw.filters[k]) ==> Requested(raw.filters[k], t.subs[k]);
    if Empty(raw) then true
    else if raw.conditions == [] then (if raw.or then some else every)
    else if raw.or then t.own || some
    else t.own && every
  }

  /** What parseRawFilter keeps of it: groups with own conditions under groups with own conditions. */
  predicate Kept(raw: RawFilter, t: Truth)
    requires Fits(raw, t)
  {
    if raw.conditions == [] then true
    else if raw.or then
      || t.own
      || exists k :: 0 <= k < |raw.filters| && raw.filters[k].conditions != [] && Kept(raw.filters[k], t.subs[k])
    else
      && t.own
      && forall k :: 0 <= k < |raw.filters| && raw.filters[k].conditions != [] ==> Kept(raw.filters[k], t.subs[k])
  }

  /** Every group without own conditions has none below it either. */
  predicate Complete(raw: RawFilter) {
    && (raw.conditions == [] ==> Empty(raw))
    && forall k :: 0 <= k < |raw.filters| ==> Complete(raw.filters[k])
  }

  // ------------------------------------------------------------------ when nothing is lost

  lemma {:induction false} CompleteKeeps(raw: RawFilter, t: Truth)
    requires Complete(raw) && Fits(raw, t)
    ensures Requested(raw, t) == Kept(raw, t)
    decreases raw
  {
    forall k | 0 <= k < |raw.filters|
      ensures Requested(raw.filters[k], t.subs[k]) == Kept(raw.filters[k], t.subs[k])
      ensures Empty(raw.filters[k]) <==> raw.filters[k].conditions == []
    {
      CompleteKeeps(raw.filters[k], t.subs[k]);
    }
  }

  /** All conditions true, or all false. */
  function Constant(raw: RawFilter, b: bool): (t: Truth)
    ensures Fits(raw, t) && t.own == b
    ensures forall k :: 0 <= k < |raw.filters| ==> t.subs[k] == Constant(raw.filters[k], b)
  {
    Truth(b, seq(|raw.filters|, k requires 0 <= k < |raw.filters| => Constant(raw.filters[k], b)))
  }

  lemma {:induction false} ConstantSays(raw: RawFilter, b: bool)
    ensures !Empty(raw) ==> Requested(raw, Constant(raw, b)) == b
    ensures raw.conditions != [] ==> Kept(raw, Constant(raw, b)) == b
    decreases raw
  {
    forall k | 0 <= k < |raw.filters|
      ensures !Empty(raw.filters[k]) ==> Requested(raw.filters[k], Constant(raw.filters[k], b)) == b
      ensures raw.filters[k].conditions != [] ==> Kept(raw.filters[k], Constant(raw.filters[k], b)) == b
    {
      ConstantSays(raw.filters[k], b);
    }
  }

  /** Subfilter k alone decides: everything else true under AND, false under OR. */
  function Decides(raw: RawFilter, k: nat, t: Truth): (r: Truth)
    requires k < |raw.filters| && Fits(raw.filters[k], t)
    ensures Fits(raw, r)
  {
    var c := Constant(raw, !raw.or);
    Truth(c.own, c.subs[k := t])
  }

  lemma DecidesSays(raw: RawFilter, k: nat, t: Truth)
    requires raw.conditions != [] && k < |raw.filters| && Fits(raw.filters[k], t) && !Empty(raw.filters[k])
    ensures Requested(raw, Decides(raw, k, t)) == Requested(raw.filters[k], t)
    ensures Kept(raw, Decides(raw, k, t))
         == if raw.filters[k].conditions == [] then !raw.or else Kept(raw.filters[k], t)
  {
    var r := Decides(raw, k, t);
    forall j | 0 <= j < |raw.filters| && j != k
      ensures !Empty(raw.filters[j]) ==> Requested(raw.filters[j], r.subs[j]) == !raw.or
      ensures raw.filters[j].conditions != [] ==> Kept(raw.filters[j], r.subs[j]) == !raw.or
    {
      ConstantSays(raw.filters[j], !raw.or);
    }
    assert r.subs[k] == t;
  }

  /** A group without own conditions but with some below it can be told apart from what is kept. */
  lemma {:induction false} Differs(raw: RawFilter) returns (t: Truth)
    requires !Complete(raw)
    ensures Fits(raw, t) && Requested(raw, t) != Kept(raw, t)
    decreases raw
  {
    if raw.conditions == [] && !Empty(raw) {
      t := Constant(raw, false);
      ConstantSays(raw, false);
    } else {
      var k :| 0 <= k < |raw.filters| && !Complete(raw.filters[k]);
      EmptyIsComplete(raw);
      EmptyIsComplete(raw.filters[k]);
      var sub;
      if raw.filters[k].conditions == [] {
        sub := Constant(raw.filters[k], raw.or);
        ConstantSays(raw.filters[k], raw.or);
      } else {
        sub := Differs(raw.filters[k]);
      }
      t := Decides(raw, k, sub);
      DecidesSays(raw, k, sub);
    }
  }

  lemma {:induction false} EmptyIsComplete(raw: RawFilter)
    ensures Empty(raw) ==> Complete(raw)
    decreases raw
  {
    forall k | 0 <= k < |raw.filters|
      ensures Empty(raw.filters[k]) ==> Complete(raw.filters[k])
    {
      EmptyIsComplete(raw.filters[k]);
    }
  }

  /** Parsing keeps the request, whatever its conditions say, exactly when the tree is complete. */
  lemma CompleteIsExact(raw: RawFilter)
    ensures Complete(raw) <==> forall t :: Fits(raw, t) ==> Requested(raw, t) == Kept(raw, t)
  {
    if Complete(raw) {
      forall t | Fits(raw, t)
        ensures Requested(raw, t) == Kept(raw, t)
      {
        CompleteKeeps(raw, t);
      }
    } else {
      var t := Differs(raw);
    }
  }

  // ------------------------------------------------------------------ on a row

  predicate TextHolds(db: Db, row: Row, pf: ParseFloat, fMap: map<string, Field>, s: string) {
    match ParseCondition(pf, fMap, s)
    case Ok(c) => ConditionHolds(db, row, c)
    case _ => false
  }

  predicate TextsHold(db: Db, row: Row, pf: ParseFloat, fMap: map<string, Field>, ss: seq<string>) {
    forall k :: 0 <= k < |ss| ==> TextHolds(db, row, pf, fMap, ss[k])
  }

  /** The truth of the request's conditions on a row. */
  function TruthAt(db: Db, row: Row, pf: ParseFloat, fMap: map<string, Field>, raw: RawFilter): (t: Truth)
    ensures Fits(raw, t) && t.own == TextsHold(db, row, pf, fMap, raw.conditions)
    ensures forall k :: 0 <= k < |raw.filters| ==> t.subs[k] == TruthAt(db, row, pf, fMap, raw.filters[k])
  {
    Truth(TextsHold(db, row, pf, fMap, raw.conditions),
          seq(|raw.filters|, k requires 0 <= k < |raw.filters| => TruthAt(db, row, pf, fMap, raw.filters[k])))
  }

  lemma {:induction false} ConditionsMean(db: Db, row: Row, pf: ParseFloat, fMap: map<string, Field>, ss: seq<string>)
    requires ParseConditions(pf, fMap, ss).Ok?
    ensures forall k :: 0 <= k < |ss| ==>
              ConditionHolds(db, row, ParseConditions(pf, fMap, ss).value[k]) == TextHolds(db, row, pf, fMap, ss[k])
  {
    hide ParseCondition, ConditionHolds;
    if ss == [] {
    } else {
      ConditionsMean(db, row, pf, fMap, ss[1..]);
    }
  }

  lemma {:induction false} FiltersMean(db: Db, row: Row, pf: ParseFloat, fMap: map<string, Field>, fs: seq<RawFilter>)
    requires ParseFilters(pf, fMap, fs).Ok?
    ensures forall k :: 0 <= k < |fs| ==>
              var f := ParseFilters(pf, fMap, fs).value[k];
              && (f.Some? <==> fs[k].conditions != [])
              && (f.Some? ==> Meaning(db, row, f.value) == Kept(fs[k], TruthAt(db, row, pf, fMap, fs[k])))
    decreases fs, 0
  {
    hide Meaning, Kept, TruthAt;
    if fs == [] {
    } else {
      ParsedMeansKept(db, row, pf, fMap, fs[0]);
      FiltersMean(db, row, pf, fMap, fs[1..]);
    }
  }

  lemma NodeMeans(holds: Condition -> bool, f: Filter, raw: RawFilter, t: Truth)
    requires raw.conditions != [] && Fits(raw, t) && f.or == raw.or && |f.filters| == |raw.filters|
    requires t.own == forall k :: 0 <= k < |f.conditions| ==> holds(f.conditions[k])
    requires forall k :: 0 <= k < |raw.filters| ==> f.filters[k].Some? == (raw.filters[k].conditions != [])
    requires forall k :: 0 <= k < |raw.filters| && f.filters[k].Some? ==>
               MeaningUnder(holds, f.filters[k].value) == Kept(raw.filters[k], t.subs[k])
    ensures MeaningUnder(holds, f) == Kept(raw, t)
  {
  }

  /** The parsed tree means what is kept of the request; nil, what is kept of a root without conditions. */
  lemma {:induction false} ParsedMeansKept(db: Db, row: Row, pf: ParseFloat, fMap: map<string, Field>, raw: RawFilter)
    requires ParseFilter(pf, fMap, raw).Ok?
    ensures var f := ParseFilter(pf, fMap, raw).value;
            && (f.Some? <==> raw.conditions != [])
            && Kept(raw, TruthAt(db, row, pf, fMap, raw)) == (f.Some? ==> Meaning(db, row, f.value))
    decreases raw, 1
  {
    assert raw.conditions == [] ==> Kept(raw, TruthAt(db, row, pf, fMap, raw));
    hide ParseConditions, ParseFilters, ConditionHolds, TextHolds, MeaningUnder, Kept;
    if raw.conditions == [] {
    } else {
      ConditionsMean(db, row, pf, fMap, raw.conditions);
      FiltersMean(db, row, pf, fMap, raw.filters);
      NodeMeans(TruthOn(db, row), ParseFilter(pf, fMap, raw).value.value, raw, TruthAt(db, row, pf, fMap, raw));
    }
  }

  /**
   * From the request to the database: the compiled text selects the rows on which what is kept of the
   * request holds, and for complete requests those on which the request holds.
   */
  lemma AcceptedMeansRequest(db: Db, row: Row, pf: ParseFloat, fMap: map<string, Field>, raw: RawFilter)
    requires ParseFilter(pf, fMap, raw).Ok?
    ensures var t := TruthAt(db, row, pf, fMap, raw);
            && (match ParseFilter(pf, fMap, raw).value
                case None => Kept(raw, t)
                case Some(f) => Renderable(f) && Evaluate(db, row, Build(f)) == Some(Kept(raw, t)))
            && (Complete(raw) ==> Kept(raw, t) == Requested(raw, t))
  {
    hide *;
    ParsedMeansKept(db, row, pf, fMap, raw);
    if Complete(raw) {
      CompleteKeeps(raw, TruthAt(db, row, pf, fMap, raw));
    }
    if ParseFilter(pf, fMap, raw).value.Some? {
      AcceptedMeansFilter(db, row, pf, fMap, raw);
    }
  }

  // ------------------------------------------------------------------ where it is lost

  const K_IS_1 := RawFilter(false, ["k == 1"], [])
  const NO_OWN := RawFilter(false, [], [K_IS_1])

  /**
   * A root that has no conditions of its own but asks for k == 1 in a subfilter is parsed to nil, so
   * Query returns the whole table, rows with another k included.
   */
  lemma RootIsLost(db: Db, row: Row, pf: ParseFloat)
    requires ExactDb(db) && row("o.k") == Text("2")
    ensures var fMap := map["k" := K_FIELD];
            && ParseFilter(pf, fMap, K_IS_1).Ok? && ParseFilter(pf, fMap, NO_OWN) == Ok(None)
            && !Requested(NO_OWN, TruthAt(db, row, pf, fMap, NO_OWN))
  {
    var fMap := map["k" := K_FIELD];
    ExampleParses(pf, fMap);
    OneParses(pf, fMap, "k == 1");
    NotRequested(db, row, pf, fMap);
    hide ParseCondition, ConditionHolds, TextHolds, Requested, ParseConditions;
  }

  lemma OneParses(pf: ParseFloat, fMap: map<string, Field>, s: string)
    requires ParseCondition(pf, fMap, s).Ok?
    ensures ParseFilter(pf, fMap, RawFilter(false, [s], [])).Ok?
  {
    hide ParseCondition;
    assert [s][1..] == [];
    assert ParseConditions(pf, fMap, []) == Ok([]);
  }

  lemma NotRequested(db: Db, row: Row, pf: ParseFloat, fMap: map<string, Field>)
    requires ExactDb(db) && row("o.k") == Text("2")
    requires ParseCondition(pf, fMap, "k == 1") == Ok(Condition(K_FIELD, Eq, Text("1")))
    ensures !Requested(NO_OWN, TruthAt(db, row, pf, fMap, NO_OWN))
  {
    hide ParseCondition;
    assert Column(K_FIELD) == "o.k" && "1"[0] != "2"[0];
    assert !TextHolds(db, row, pf, fMap, K_IS_1.conditions[0]);
    hide TextHolds, ExactDb, Column, ConditionHolds;
    assert !Requested(K_IS_1, TruthAt(db, row, pf, fMap, K_IS_1));
    assert NO_OWN.filters[0] == K_IS_1 && !Empty(K_IS_1);
  }

  lemma ExampleParses(pf: ParseFloat, fMap: map<string, Field>)
    requires fMap == map["k" := K_FIELD]
    ensures ParseCondition(pf, fMap, "k == 1") == Ok(Condition(K_FIELD, Eq, Text("1")))
  {
    var s := "k == 1";
    assert "k " + Pattern(Eq) + " 1" == s && |Pattern(Eq)| == 2 && s[..2] == "k " && s[4..] == " 1";
    assert "" + "k" + " " == "k " && " " + "1" + "" == " 1" && Trimmed("k") && Trimmed("1");
    hide Clear, ToUpper, Pick, ParseCondition, TrimSpace, Pattern, Trimmed;
    ExampleClear();
    OperatorFound("k ", Eq, " 1");
    ParseIsBranch(pf, fMap, s);
    TrimPadded("", "k", " ");
    TrimPadded(" ", "1", "");
  }

  lemma ExampleClear()
    ensures Clear("k ", Eq, " 1")
  {
    hide Clear, OperatorFree, ToUpper, MatchAt;
    ShortIsFree("k ", Eq);
    ShortIsFree(" 1", Eq);
    FreeIsClear("k ", Eq, " 1");
  }
}
