/** Filters with OR for which the query goes to the wrong table. */
module RoutingFailures {
  import opened Wrappers
  import opened Conditions
  import opened Filters
  import opened WhereSql
  import opened Routing
  import opened Alternatives
  import opened RoutingLimits

  const X_FIELD := Field("x", StringKind, "o", "x", "x")
  const SHARDED := Object("o", "t", ["k"], map["k" := K_FIELD, "x" := X_FIELD])

  function KIs(s: string): Condition {
    Condition(K_FIELD, Eq, Text(s))
  }

  function XIs(s: string): Condition {
    Condition(X_FIELD, Eq, Text(s))
  }

  function Leaf(cs: seq<Condition>): Filter {
    Filter(false, cs, [])
  }

  /** The own conditions, or all of those of the subfilter. */
  function OneOrOther(cs: seq<Condition>, ds: seq<Condition>): Filter {
    Filter(true, cs, [Some(Leaf(ds))])
  }

  function KxRow(k: string, x: string): (r: Row)
    ensures forall col :: r(col) == if col == "o.x" then Text(x) else Text(k)
  {
    col => if col == "o.x" then Text(x) else Text(k)
  }

  lemma Setting()
    ensures Column(K_FIELD) == "o.k" && Column(X_FIELD) == "o.x" && "o.k" != "o.x" && "k" != "x"
    ensures K_FIELD == SHARDED.fields["k"] && X_FIELD == SHARDED.fields["x"] && SHARDED.tabNaming[0] == "k"
    ensures PlainShards(SHARDED) && KeyedFields(SHARDED) && DistinctColumns(SHARDED) && LastText(SHARDED)
  {
    assert "o.k"[2] == 'k' && "o.x"[2] == 'x' && "k"[0] != "x"[0];
    assert Column(K_FIELD) == "o.k" && Column(X_FIELD) == "o.x";
  }

  lemma NamesOne(show: ShowAny, data: FieldVals, t: string)
    requires "k" in data && data["k"] == Text(t)
    ensures TableName(show, SHARDED, data) == Ok("t_k" + t)
  {
    var tab := "t" + "_" + "k" + t;
    assert tab == "t_k" + t;
    assert SHARDED.tabNaming[0] == "k" && SHARDED.fields["k"] == K_FIELD;
    assert NameFrom(show, SHARDED, data, tab, 1) == Ok(tab);
    assert NameFrom(show, SHARDED, data, "t", 0) == NameFrom(show, SHARDED, data, tab, 1);
  }

  /** The conditions are equalities of k and x. */
  predicate Plain(cs: seq<Condition>) {
    cs != [] && forall c :: c in cs ==> c.value.Text? && (c == KIs(c.value.s) || c == XIs(c.value.s))
  }

  lemma Accepted(cs: seq<Condition>, ds: seq<Condition>)
    requires Plain(cs) && Plain(ds)
    ensures var f := OneOrOther(cs, ds);
            WellFormed(f) && OwnFields(SHARDED, f) && Equalities(Conds(f))
  {
    Setting();
    hide Column;
    var f := OneOrOther(cs, ds);
    assert f.filters[0] == Some(Leaf(ds));
    assert WellFormed(Leaf(ds)) && OwnFields(SHARDED, Leaf(ds)) && Equalities(Conds(Leaf(ds)));
  }

  /** An alternative that a row can satisfy but that does not ask for the mined k makes routing unsound. */
  lemma Unsound(show: ShowAny, db: Db, cs: seq<Condition>, ds: seq<Condition>, w: set<Condition>, v: string)
    requires ExactDb(db) && Plain(cs) && Plain(ds) && w in Ways(OneOrOther(cs, ds)) && Storable(SHARDED, w)
    requires var mined := ValsOf(Mine(OneOrOther(cs, ds)), "o"); "k" in mined && mined["k"] == Text(v)
    requires KIs(v) !in w
    ensures !Sound(show, db, SHARDED, OneOrOther(cs, ds))
  {
    Setting();
    var f := OneOrOther(cs, ds);
    Accepted(cs, ds);
    WaysParsed(SHARDED, f);
    hide Mine, Ways, Conds, Storable, WellFormed, OwnFields, Sound, Shaped, Column;
    forall c | c in w
      ensures !Equates(c, "o", "k", Text(v))
    {
      assert c.field in SHARDED.fields.Values;
    }
    assert !Equated(w, "o", "k", Text(v));
    assert !Pinned(SHARDED, f, w);
    PinnedRouting(show, db, SHARDED, f);
  }

  lemma Mining(cs: seq<Condition>, ds: seq<Condition>)
    ensures Mine(OneOrOther(cs, ds)) == Merge(MineConditions(cs, |cs|), MineConditions(ds, |ds|))
  {
    var f := OneOrOther(cs, ds);
    hide Merge, MineConditions;
    assert Mine(Leaf(ds)) == MineFilters(Leaf(ds), 0) == MineConditions(ds, |ds|);
    assert f.filters[0] == Some(Leaf(ds));
    assert Mine(f) == MineFilters(f, 1) == Merge(MineFilters(f, 0), Mine(Leaf(ds)));
  }

  lemma RowMeans(db: Db, cs: seq<Condition>, ds: seq<Condition>, row: Row)
    ensures Meaning(db, row, OneOrOther(cs, ds)) <==>
            || (forall i :: 0 <= i < |cs| ==> ConditionHolds(db, row, cs[i]))
            || (forall i :: 0 <= i < |ds| ==> ConditionHolds(db, row, ds[i]))
  {
    hide ConditionHolds;
    var f := OneOrOther(cs, ds);
    assert f.filters[0] == Some(Leaf(ds));
    assert Meaning(db, row, Leaf(ds)) <==> forall i :: 0 <= i < |ds| ==> ConditionHolds(db, row, ds[i]);
  }

  /** The row (k = 1, x) was created in table t_k1. */
  lemma Created(show: ShowAny, x: string)
    ensures PlainShards(SHARDED)
    ensures Stores(SHARDED, map["k" := Text("1")], KxRow("1", x)) && TypedRow(SHARDED, KxRow("1", x))
    ensures TableName(show, SHARDED, map["k" := Text("1")]) == Ok("t_k1")
  {
    Setting();
    NamesOne(show, map["k" := Text("1")], "1");
    assert "t_k" + "1" == "t_k1";
  }

  /** What the query for a filter that mines k = 2 reads. */
  lemma Queried(show: ShowAny, f: Filter)
    requires "k" in ValsOf(Mine(f), "o") && ValsOf(Mine(f), "o")["k"] == Text("2")
    ensures PlainShards(SHARDED)
    ensures QueriedTable(show, SHARDED, f) == Ok("t_k2")
  {
    hide Mine;
    Setting();
    NamesOne(show, ValsOf(Mine(f), "o"), "2");
    assert "t_k" + "2" == "t_k2";
  }

  /**
   * An accepted filter that a stored row satisfies, with the row in table t_k1 and the query going to
   * table t_k2.
   */
  ghost predicate Loses(show: ShowAny, db: Db, f: Filter, data: FieldVals, row: Row) {
    && PlainShards(SHARDED) && KeyedFields(SHARDED) && DistinctColumns(SHARDED)
    && WellFormed(f) && OwnFields(SHARDED, f) && !Sound(show, db, SHARDED, f)
    && Stores(SHARDED, data, row) && TypedRow(SHARDED, row) && Meaning(db, row, f)
    && TableName(show, SHARDED, data) == Ok("t_k1") && QueriedTable(show, SHARDED, f) == Ok("t_k2")
  }

  lemma LosesRow(show: ShowAny, db: Db, cs: seq<Condition>, ds: seq<Condition>, w: set<Condition>, x: string)
    requires ExactDb(db) && Plain(cs) && Plain(ds) && w in Ways(OneOrOther(cs, ds)) && Storable(SHARDED, w)
    requires var mined := ValsOf(Mine(OneOrOther(cs, ds)), "o"); "k" in mined && mined["k"] == Text("2")
    requires KIs("2") !in w && Meaning(db, KxRow("1", x), OneOrOther(cs, ds))
    ensures Loses(show, db, OneOrOther(cs, ds), map["k" := Text("1")], KxRow("1", x))
  {
    hide *;
    var f := OneOrOther(cs, ds);
    Setting();
    Accepted(cs, ds);
    Created(show, x);
    Queried(show, f);
    Unsound(show, db, cs, ds, w, "2");
    LosesIs(show, db, f, map["k" := Text("1")], KxRow("1", x));
  }

  lemma LosesIs(show: ShowAny, db: Db, f: Filter, data: FieldVals, row: Row)
    requires PlainShards(SHARDED) && KeyedFields(SHARDED) && DistinctColumns(SHARDED)
    requires WellFormed(f) && OwnFields(SHARDED, f) && !Sound(show, db, SHARDED, f)
    requires Stores(SHARDED, data, row) && TypedRow(SHARDED, row) && Meaning(db, row, f)
    requires TableName(show, SHARDED, data) == Ok("t_k1") && QueriedTable(show, SHARDED, f) == Ok("t_k2")
    ensures Loses(show, db, f, data, row)
  {
  }

  /** "k == 2 or x == 5" and the row (k = 1, x = 5). */
  lemma OrLosesRows(show: ShowAny, db: Db)
    requires ExactDb(db)
    ensures Loses(show, db, OneOrOther([KIs("2")], [XIs("5")]), map["k" := Text("1")], KxRow("1", "5"))
  {
    var cs, ds := [KIs("2")], [XIs("5")];
    hide *;
    PlainOnes();
    OrMines();
    OrMeans(db);
    OrWay();
    LosesRow(show, db, cs, ds, {XIs("5")}, "5");
  }

  lemma PlainOnes()
    ensures Plain([KIs("2")]) && Plain([XIs("5")])
  {
  }

  lemma OrMeans(db: Db)
    requires ExactDb(db)
    ensures Meaning(db, KxRow("1", "5"), OneOrOther([KIs("2")], [XIs("5")]))
  {
    var row, ds := KxRow("1", "5"), [XIs("5")];
    hide Meaning;
    Setting();
    RowMeans(db, [KIs("2")], ds, row);
    assert ds[0] == XIs("5") && ConditionHolds(db, row, ds[0]);
  }

  lemma OrWay()
    ensures {XIs("5")} in Ways(OneOrOther([KIs("2")], [XIs("5")]))
    ensures PlainShards(SHARDED) && Storable(SHARDED, {XIs("5")}) && KIs("2") !in {XIs("5")}
  {
    Setting();
    hide Column, Ways;
    var f, ds := OneOrOther([KIs("2")], [XIs("5")]), [XIs("5")];
    OrWays(f);
    LeafWay(Leaf(ds));
    assert f.filters[0] == Some(Leaf(ds)) && ds[0] == XIs("5");
    assert Own(Leaf(ds)) == {XIs("5")};
  }

  lemma OrMines()
    ensures var mined := ValsOf(Mine(OneOrOther([KIs("2")], [XIs("5")])), "o");
            "k" in mined && mined["k"] == Text("2")
  {
    var cs, ds := [KIs("2")], [XIs("5")];
    Mining(cs, ds);
    MinesLast(cs, 1);
    MinesLast(ds, 1);
    assert "k"[0] != "x"[0];
  }

  /** The last equality of a list is mined. */
  lemma MinesLast(cs: seq<Condition>, k: nat)
    requires 0 < k <= |cs| && cs[k - 1].op == Eq
    ensures var c := cs[k - 1];
            MineConditions(cs, k) ==
            MineConditions(cs, k - 1)[c.field.objKey :=
              ValsOf(MineConditions(cs, k - 1), c.field.objKey)[c.field.objField := c.value]]
  {
  }

  /** "(k == 1 and x == 1) or (k == 2 and x == 2)", whose alternatives exclude each other, and the row (1, 1). */
  lemma ExclusiveLosesRows(show: ShowAny, db: Db)
    requires ExactDb(db)
    ensures Loses(show, db, OneOrOther([KIs("1"), XIs("1")], [KIs("2"), XIs("2")]),
                  map["k" := Text("1")], KxRow("1", "1"))
  {
    var cs, ds := [KIs("1"), XIs("1")], [KIs("2"), XIs("2")];
    hide *;
    PlainPairs();
    ExclusiveMines();
    ExclusiveMeans(db);
    ExclusiveWay();
    LosesRow(show, db, cs, ds, {KIs("1"), XIs("1")}, "1");
  }

  lemma PlainPairs()
    ensures Plain([KIs("1"), XIs("1")]) && Plain([KIs("2"), XIs("2")])
  {
  }

  lemma ExclusiveMeans(db: Db)
    requires ExactDb(db)
    ensures Meaning(db, KxRow("1", "1"), OneOrOther([KIs("1"), XIs("1")], [KIs("2"), XIs("2")]))
  {
    var row, cs := KxRow("1", "1"), [KIs("1"), XIs("1")];
    hide Meaning;
    Setting();
    RowMeans(db, cs, [KIs("2"), XIs("2")], row);
    assert cs[0] == KIs("1") && ConditionHolds(db, row, cs[0]);
    assert cs[1] == XIs("1") && ConditionHolds(db, row, cs[1]);
  }

  lemma ExclusiveWay()
    ensures var w := {KIs("1"), XIs("1")};
            && w in Ways(OneOrOther([KIs("1"), XIs("1")], [KIs("2"), XIs("2")]))
            && PlainShards(SHARDED) && Storable(SHARDED, w) && KIs("2") !in w
  {
    Setting();
    hide Column, Ways;
    var f := OneOrOther([KIs("1"), XIs("1")], [KIs("2"), XIs("2")]);
    OrWays(f);
    assert f.conditions[0] == KIs("1") && f.conditions[1] == XIs("1");
    assert Own(f) == {KIs("1"), XIs("1")};
    assert "1"[0] != "2"[0];
  }

  lemma ExclusiveMines()
    ensures var mined := ValsOf(Mine(OneOrOther([KIs("1"), XIs("1")], [KIs("2"), XIs("2")])), "o");
            "k" in mined && mined["k"] == Text("2")
  {
    var cs, ds := [KIs("1"), XIs("1")], [KIs("2"), XIs("2")];
    Mining(cs, ds);
    MinesLast(cs, 1);
    MinesLast(cs, 2);
    MinesLast(ds, 1);
    MinesLast(ds, 2);
    assert "k"[0] != "x"[0];
  }
}
