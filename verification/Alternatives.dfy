/** The ways to satisfy a filter: its alternatives, each a set of conditions that all hold. */
module Alternatives {
  import opened Conditions
  import opened Filters
  import opened WhereSql
  import opened Routing

  function Own(f: Filter): set<Condition> {
    set k | 0 <= k < |f.conditions| :: f.conditions[k]
  }

  /** All conditions of the tree. */
  function Conds(f: Filter): set<Condition> {
    Own(f) + set k, c | 0 <= k < |f.filters| && f.filters[k].Some? && c in Conds(f.filters[k].value) :: c
  }

  /** One of a together with one of b. */
  function Cross(a: set<set<Condition>>, b: set<set<Condition>>): set<set<Condition>> {
    set x, y | x in a && y in b :: x + y
  }

  /** The ways of the own conditions and the first k subfilters. */
  function WaysUpTo(f: Filter, k: nat): set<set<Condition>>
    requires k <= |f.filters|
    decreases f, 0, k
  {
    if k == 0 then {Own(f)}
    else
      var before := WaysUpTo(f, k - 1);
      match f.filters[k - 1]
      case None => before
      case Some(g) => if f.or then before + Ways(g) else Cross(before, Ways(g))
  }

  function Ways(f: Filter): set<set<Condition>>
    decreases f, 1
  {
    WaysUpTo(f, |f.filters|)
  }

  predicate AllHold(holds: Condition -> bool, w: set<Condition>) {
    forall c :: c in w ==> holds(c)
  }

  ghost predicate SomeHolds(holds: Condition -> bool, ws: set<set<Condition>>) {
    exists w :: w in ws && AllHold(holds, w)
  }

  // ------------------------------------------------------------------ a filter is its ways

  lemma CrossHolds(holds: Condition -> bool, a: set<set<Condition>>, b: set<set<Condition>>)
    ensures SomeHolds(holds, Cross(a, b)) <==> SomeHolds(holds, a) && SomeHolds(holds, b)
  {
    if SomeHolds(holds, Cross(a, b)) {
      var w :| w in Cross(a, b) && AllHold(holds, w);
      var x, y :| x in a && y in b && w == x + y;
      assert AllHold(holds, x) && AllHold(holds, y);
    }
    if SomeHolds(holds, a) && SomeHolds(holds, b) {
      var x :| x in a && AllHold(holds, x);
      var y :| y in b && AllHold(holds, y);
      assert x + y in Cross(a, b) && AllHold(holds, x + y);
    }
  }

  lemma UnionHolds(holds: Condition -> bool, a: set<set<Condition>>, b: set<set<Condition>>)
    ensures SomeHolds(holds, a + b) <==> SomeHolds(holds, a) || SomeHolds(holds, b)
  {
    hide AllHold;
  }

  predicate OwnUnder(holds: Condition -> bool, f: Filter) {
    forall k :: 0 <= k < |f.conditions| ==> holds(f.conditions[k])
  }

  predicate SomeUpTo(holds: Condition -> bool, f: Filter, k: nat)
    requires k <= |f.filters|
  {
    exists j :: 0 <= j < k && f.filters[j].Some? && MeaningUnder(holds, f.filters[j].value)
  }

  predicate EveryUpTo(holds: Condition -> bool, f: Filter, k: nat)
    requires k <= |f.filters|
  {
    forall j :: 0 <= j < k && f.filters[j].Some? ==> MeaningUnder(holds, f.filters[j].value)
  }

  lemma OwnWay(holds: Condition -> bool, f: Filter)
    ensures AllHold(holds, Own(f)) <==> OwnUnder(holds, f)
  {
    assert forall k :: 0 <= k < |f.conditions| ==> f.conditions[k] in Own(f);
  }

  lemma UpToNext(holds: Condition -> bool, f: Filter, k: nat)
    requires 0 < k <= |f.filters|
    ensures var g := f.filters[k - 1];
            && SomeUpTo(holds, f, k) == (SomeUpTo(holds, f, k - 1) || (g.Some? && MeaningUnder(holds, g.value)))
            && EveryUpTo(holds, f, k) == (EveryUpTo(holds, f, k - 1) && (g.Some? ==> MeaningUnder(holds, g.value)))
  {
    hide MeaningUnder;
  }

  lemma {:induction false} WaysUpToMean(holds: Condition -> bool, f: Filter, k: nat)
    requires k <= |f.filters|
    ensures SomeHolds(holds, WaysUpTo(f, k)) <==>
            if f.or then OwnUnder(holds, f) || SomeUpTo(holds, f, k)
            else OwnUnder(holds, f) && EveryUpTo(holds, f, k)
    decreases f, 0, k
  {
    hide MeaningUnder, AllHold, Own, Cross, OwnUnder;
    if k == 0 {
      OwnWay(holds, f);
      assert Own(f) in WaysUpTo(f, 0);
    } else {
      WaysUpToMean(holds, f, k - 1);
      UpToNext(holds, f, k);
      hide SomeUpTo, EveryUpTo, SomeHolds;
      if f.filters[k - 1].Some? {
        var g := f.filters[k - 1].value;
        WaysMean(holds, g);
        UnionHolds(holds, WaysUpTo(f, k - 1), Ways(g));
        CrossHolds(holds, WaysUpTo(f, k - 1), Ways(g));
      }
    }
  }

  /** A filter holds exactly when all conditions of one of its ways do. */
  lemma {:induction false} WaysMean(holds: Condition -> bool, f: Filter)
    ensures MeaningUnder(holds, f) <==> SomeHolds(holds, Ways(f))
    decreases f, 1
  {
    hide SomeHolds;
    WaysUpToMean(holds, f, |f.filters|);
  }

  lemma {:induction false} WaysUpToWithin(f: Filter, k: nat)
    requires k <= |f.filters|
    ensures forall w :: w in WaysUpTo(f, k) ==> w <= Conds(f)
    decreases f, 0, k
  {
    if k == 0 {
    } else {
      WaysUpToWithin(f, k - 1);
      if f.filters[k - 1].Some? {
        WaysWithin(f.filters[k - 1].value);
        assert Conds(f.filters[k - 1].value) <= Conds(f);
      }
    }
  }

  /** Ways are made of the tree's conditions. */
  lemma {:induction false} WaysWithin(f: Filter)
    ensures forall w :: w in Ways(f) ==> w <= Conds(f)
    decreases f, 1
  {
    WaysUpToWithin(f, |f.filters|);
  }

  lemma {:induction false} CondsShaped(f: Filter)
    requires WellFormed(f)
    ensures forall c :: c in Conds(f) ==> Shaped(c)
    decreases f
  {
    hide Shaped;
    forall k | 0 <= k < |f.filters| && f.filters[k].Some?
      ensures forall c :: c in Conds(f.filters[k].value) ==> Shaped(c)
    {
      CondsShaped(f.filters[k].value);
    }
  }

  lemma {:induction false} CondsOwn(o: Object, f: Filter)
    requires OwnFields(o, f)
    ensures forall c :: c in Conds(f) ==> c.field in o.fields.Values
    decreases f
  {
    forall k | 0 <= k < |f.filters| && f.filters[k].Some?
      ensures forall c :: c in Conds(f.filters[k].value) ==> c.field in o.fields.Values
    {
      CondsOwn(o, f.filters[k].value);
    }
  }

  // ------------------------------------------------------------------ forcing

  /** Some condition of the way is field = v. */
  predicate Equated(w: set<Condition>, obj: string, field: string, v: Value) {
    exists c :: c in w && Equates(c, obj, field, v)
  }

  lemma {:induction false} SomeEquatesIs(holds: Condition -> bool, f: Filter, obj: string, field: string, v: Value)
    ensures SomeEquates(holds, f, obj, field, v) <==>
            exists c :: c in Conds(f) && Equates(c, obj, field, v) && holds(c)
    decreases f
  {
    hide Equates;
    forall k | 0 <= k < |f.filters| && f.filters[k].Some?
      ensures SomeEquates(holds, f.filters[k].value, obj, field, v) <==>
              exists c :: c in Conds(f.filters[k].value) && Equates(c, obj, field, v) && holds(c)
      ensures Conds(f.filters[k].value) <= Conds(f)
    {
      SomeEquatesIs(holds, f.filters[k].value, obj, field, v);
    }
    assert forall k :: 0 <= k < |f.conditions| ==> f.conditions[k] in Own(f);
  }

  /** A filter forces field = v exactly when every one of its ways asks for it. */
  lemma ForcedInEveryWay(f: Filter, obj: string, field: string, v: Value)
    ensures Forces(f, obj, field, v) <==> forall w :: w in Ways(f) ==> Equated(w, obj, field, v)
  {
    hide Forces, Conds, Equates, Ways;
    ForcesIsExact(f, obj, field, v);
    WaysWithin(f);
    if Forces(f, obj, field, v) {
      forall w | w in Ways(f)
        ensures Equated(w, obj, field, v)
      {
        var holds: Condition -> bool := c => c in w;
        WaysMean(holds, f);
        assert AllHold(holds, w);
        SomeEquatesIs(holds, f, obj, field, v);
      }
    } else {
      var holds: Condition -> bool :| MeaningUnder(holds, f) && !SomeEquates(holds, f, obj, field, v);
      WaysMean(holds, f);
      SomeEquatesIs(holds, f, obj, field, v);
      var w :| w in Ways(f) && AllHold(holds, w);
      assert !Equated(w, obj, field, v);
    }
  }

  // ------------------------------------------------------------------ single ways

  lemma LeafWay(f: Filter)
    requires f.filters == []
    ensures Own(f) in Ways(f)
  {
  }

  lemma {:induction false} OrWaysUpTo(f: Filter, k: nat, n: nat)
    requires f.or && k <= n <= |f.filters|
    ensures WaysUpTo(f, k) <= WaysUpTo(f, n)
    decreases n - k
  {
    if k == n {
    } else {
      OrWaysUpTo(f, k, n - 1);
    }
  }

  /** Under OR the own conditions are one way, and the ways of a subfilter are ways. */
  lemma OrWays(f: Filter)
    requires f.or
    ensures Own(f) in Ways(f)
    ensures forall k :: 0 <= k < |f.filters| && f.filters[k].Some? ==> Ways(f.filters[k].value) <= Ways(f)
  {
    OrWaysUpTo(f, 0, |f.filters|);
    assert Own(f) in WaysUpTo(f, 0);
    forall k | 0 <= k < |f.filters| && f.filters[k].Some?
      ensures Ways(f.filters[k].value) <= Ways(f)
    {
      OrWaysUpTo(f, k + 1, |f.filters|);
      assert Ways(f.filters[k].value) <= WaysUpTo(f, k + 1);
    }
  }
}
