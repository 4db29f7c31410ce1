/** When exactly a query reads the right shard table. */
module RoutingLimits {
  import opened GoStrings
  import opened Conditions
  import opened Filters
  import opened WhereSql
  import opened Routing
  import opened Alternatives
  import opened TableNames

  // ------------------------------------------------------------------ stored rows and tables

  /** What a column of that kind can hold. */
  predicate OfKind(kind: Kind, v: Value) {
    match kind
    case IntKind => v.Number?
    case FloatKind => v.Number? || v.Float?
    case StringKind => v.Text?
    case BoolKind => v.Flag?
    case _ => true
  }

  predicate TypedRow(o: Object, row: Row) {
    forall k :: k in o.fields ==> OfKind(o.fields[k].kind, row(Column(o.fields[k])))
  }

  /** Every stored row that satisfies the filter is in the table that Query reads. */
  ghost predicate Sound(show: ShowAny, db: Db, o: Object, f: Filter)
    requires PlainShards(o)
  {
    forall data: FieldVals, row: Row ::
      Stores(o, data, row) && TypedRow(o, row) && Meaning(db, row, f) ==>
        TableName(show, o, data) == QueriedTable(show, o, f)
  }

  /** A stored row on which all conditions of the way hold. */
  ghost predicate Found(db: Db, o: Object, w: set<Condition>, data: FieldVals, row: Row)
    requires PlainShards(o)
  {
    Stores(o, data, row) && TypedRow(o, row) && AllHold(TruthOn(db, row), w)
  }

  ghost predicate Satisfiable(db: Db, o: Object, w: set<Condition>)
    requires PlainShards(o)
  {
    exists data, row :: Found(db, o, w, data, row)
  }

  /** Soundness is a matter of single ways. */
  lemma SoundByWays(show: ShowAny, db: Db, o: Object, f: Filter)
    requires PlainShards(o)
    ensures Sound(show, db, o, f) <==>
            forall w, data, row :: w in Ways(f) && Found(db, o, w, data, row) ==>
              TableName(show, o, data) == QueriedTable(show, o, f)
  {
    hide Stores, TypedRow, TableName, QueriedTable, AllHold, Ways, MeaningUnder;
    forall row: Row
      ensures Meaning(db, row, f) <==> exists w :: w in Ways(f) && AllHold(TruthOn(db, row), w)
    {
      WaysMean(TruthOn(db, row), f);
    }
    hide Meaning;
    if Sound(show, db, o, f) {
      forall w, data, row | w in Ways(f) && Found(db, o, w, data, row)
        ensures TableName(show, o, data) == QueriedTable(show, o, f)
      {
        assert Meaning(db, row, f);
      }
    } else {
      var data, row :| Stores(o, data, row) && TypedRow(o, row) && Meaning(db, row, f) &&
                       TableName(show, o, data) != QueriedTable(show, o, f);
      var w :| w in Ways(f) && AllHold(TruthOn(db, row), w);
      assert Found(db, o, w, data, row);
    }
  }

  // ------------------------------------------------------------------ what a way says of the table

  /** The way equates every naming field, with these values. */
  ghost predicate Fixes(o: Object, w: set<Condition>, vals: FieldVals) {
    forall k :: k in o.tabNaming ==> k in vals && Equated(w, o.key, k, vals[k])
  }

  /** The way equates every naming field and the values name that table. */
  ghost predicate Names(show: ShowAny, o: Object, w: set<Condition>, table: Result<string>)
    requires PlainShards(o)
  {
    exists vals: FieldVals :: Fixes(o, w, vals) && TableName(show, o, vals) == table
  }

  predicate Unequated(o: Object, w: set<Condition>, k: string) {
    forall c :: c in w && c.op == Eq ==> !(c.field.objKey == o.key && c.field.objField == k)
  }

  /** The way is made of conditions on o's fields, shaped as the parser shapes them. */
  predicate Parsed(o: Object, w: set<Condition>) {
    forall c :: c in w ==> Shaped(c) && c.field in o.fields.Values
  }

  lemma WaysParsed(o: Object, f: Filter)
    requires WellFormed(f) && OwnFields(o, f)
    ensures forall w :: w in Ways(f) ==> Parsed(o, w)
  {
    hide Shaped, Conds, Ways, WellFormed, OwnFields;
    WaysWithin(f);
    CondsShaped(f);
    CondsOwn(o, f);
  }

  /** A stored row carries what its way equates. */
  lemma EquatedIsHeld(db: Db, o: Object, w: set<Condition>, data: FieldVals, row: Row, k: string, v: Value)
    requires ExactDb(db) && PlainShards(o) && KeyedFields(o) && Parsed(o, w)
    requires Found(db, o, w, data, row) && k in o.tabNaming && Equated(w, o.key, k, v)
    ensures row(Column(o.fields[k])) == v && Typed(o.fields[k].kind, v)
  {
    hide Column;
    var c :| c in w && Equates(c, o.key, k, v);
    assert Shaped(c) && c.field == o.fields[k];
    assert ConditionHolds(db, row, c) == db.eq(row(Column(c.field)), v);
    StoredIsTyped(o, data, row, k);
    hide Shaped, ConditionHolds, TypedRow, Parsed, Stored, Nameable;
  }

  lemma StoredIsTyped(o: Object, data: FieldVals, row: Row, k: string)
    requires PlainShards(o) && Stores(o, data, row) && k in o.tabNaming
    ensures Typed(o.fields[k].kind, row(Column(o.fields[k])))
  {
    hide Column;
  }

  /** The values that name the row's table. */
  function Values(o: Object, row: Row): (r: FieldVals)
    requires PlainShards(o)
    ensures forall k :: k in o.tabNaming ==> k in r && r[k] == row(Column(o.fields[k]))
  {
    map k | k in o.tabNaming :: row(Column(o.fields[k]))
  }

  /** An object is stored in the table that its row's values name. */
  lemma StoredTable(show: ShowAny, o: Object, data: FieldVals, row: Row)
    requires PlainShards(o) && Stores(o, data, row)
    ensures Named(show, o, data) && Named(show, o, Values(o, row))
    ensures forall k :: k in o.tabNaming ==> Typed(o.fields[k].kind, Values(o, row)[k])
    ensures TableName(show, o, data) == TableName(show, o, Values(o, row)) && TableName(show, o, data).Ok?
  {
    hide Column, Stored, Nameable;
    forall k | k in o.tabNaming
      ensures ShardText(show, o.fields[k].kind, data[k]) == ShardText(show, o.fields[k].kind, Values(o, row)[k])
      ensures ShardText(show, o.fields[k].kind, data[k]).Ok? && Typed(o.fields[k].kind, Values(o, row)[k])
    {
      StoredText(show, o.fields[k].kind, data[k]);
      TypedTexts(show, o.fields[k].kind, Values(o, row)[k], Values(o, row)[k]);
    }
    hide ShardText, NameFrom, Typed;
    NameIs(show, o, data, o.tableName, 0, NamingTexts(show, o, data));
    NameIs(show, o, Values(o, row), o.tableName, 0, NamingTexts(show, o, data));
  }

  lemma {:induction false} SameValuesName(show: ShowAny, o: Object, a: FieldVals, b: FieldVals, tab: string, k: nat)
    requires k <= |o.tabNaming| && forall f :: f in o.tabNaming ==> f in o.fields
    requires forall f :: f in o.tabNaming ==> f in a && f in b && a[f] == b[f]
    ensures NameFrom(show, o, a, tab, k) == NameFrom(show, o, b, tab, k)
    decreases |o.tabNaming| - k
  {
    hide ShardText;
    if k == |o.tabNaming| {
    } else {
      var t := ShardText(show, o.fields[o.tabNaming[k]].kind, a[o.tabNaming[k]]);
      if t.Ok? {
        SameValuesName(show, o, a, b, tab + "_" + o.tabNaming[k] + t.value, k + 1);
      }
    }
  }

  /** All rows of a way that equates every naming field are in one table. */
  lemma FixedTable(show: ShowAny, db: Db, o: Object, w: set<Condition>, vals: FieldVals, data: FieldVals, row: Row)
    requires ExactDb(db) && PlainShards(o) && KeyedFields(o) && Parsed(o, w)
    requires Found(db, o, w, data, row) && Fixes(o, w, vals)
    ensures TableName(show, o, data) == TableName(show, o, vals)
  {
    hide ExactDb, KeyedFields, Parsed, Equated, Column, NameFrom, AllHold, TypedRow;
    StoredTable(show, o, data, row);
    forall k | k in o.tabNaming
      ensures Values(o, row)[k] == vals[k]
    {
      EquatedIsHeld(db, o, w, data, row, k, vals[k]);
    }
    SameValuesName(show, o, Values(o, row), vals, o.tableName, 0);
  }

  // ------------------------------------------------------------------ the exact condition

  /** The row has other values than these in naming field k, and only there. */
  predicate Parts(o: Object, row: Row, vals: FieldVals, k: string)
    requires PlainShards(o)
  {
    forall j :: j in o.tabNaming ==> j in vals && (row(Column(o.fields[j])) == vals[j] <==> j != k)
  }

  /**
   * The way leaves naming field k free: some row of it parts in k alone from the mined values, or from
   * another row of the way.
   */
  ghost predicate Free(db: Db, o: Object, f: Filter, w: set<Condition>, k: string)
    requires PlainShards(o)
  {
    exists data, row ::
      && Found(db, o, w, data, row)
      && (|| Parts(o, row, ValsOf(Mine(f), o.key), k)
          || exists data', row' :: Found(db, o, w, data', row') && Parts(o, row, Values(o, row'), k))
  }

  /** Conditions other than equalities do not decide a naming field by themselves. */
  ghost predicate Independent(db: Db, o: Object, f: Filter)
    requires PlainShards(o)
  {
    forall w, k :: w in Ways(f) && Satisfiable(db, o, w) && k in o.tabNaming && Unequated(o, w, k) ==>
                     Free(db, o, f, w, k)
  }

  lemma PartedTables(show: ShowAny, o: Object, data: FieldVals, row: Row, vals: FieldVals, k: string)
    requires PlainShards(o) && Stores(o, data, row) && Parts(o, row, vals, k) && k in o.tabNaming
    requires forall j :: j in o.tabNaming ==> Typed(o.fields[j].kind, vals[j])
    ensures TableName(show, o, data) != TableName(show, o, vals)
  {
    hide Column, TableName;
    StoredTable(show, o, data, row);
    forall j | j in o.tabNaming
      ensures ShardText(show, o.fields[j].kind, vals[j]).Ok?
      ensures ShardText(show, o.fields[j].kind, Values(o, row)[j]) == ShardText(show, o.fields[j].kind, vals[j])
              <==> j != k
    {
      TypedTexts(show, o.fields[j].kind, Values(o, row)[j], vals[j]);
    }
    hide ShardText, Stores, Typed, Parts;
    NamesDiffer(show, o, Values(o, row), vals, k);
  }

  /** What is mined for a naming field is typed. */
  lemma MinedIsTyped(o: Object, f: Filter)
    requires PlainShards(o) && KeyedFields(o) && WellFormed(f) && OwnFields(o, f)
    ensures forall j :: j in o.tabNaming && j in ValsOf(Mine(f), o.key) ==>
              Typed(o.fields[j].kind, ValsOf(Mine(f), o.key)[j])
  {
    var mined := ValsOf(Mine(f), o.key);
    hide Mine, WellFormed, OwnFields;
    forall j | j in o.tabNaming && j in mined
      ensures Typed(o.fields[j].kind, mined[j])
    {
      assert Mined(Mine(f), o.key, j, mined[j]);
      MinedIsMentioned(f, o.key, j, mined[j]);
      MentionShaped(o, f, j, mined[j]);
    }
  }

  /** A free naming field sends some row of the way to another table. */
  lemma FreeIsLost(show: ShowAny, db: Db, o: Object, f: Filter, w: set<Condition>, k: string)
    requires PlainShards(o) && KeyedFields(o) && WellFormed(f) && OwnFields(o, f)
    requires w in Ways(f) && k in o.tabNaming && Free(db, o, f, w, k)
    ensures !Sound(show, db, o, f)
  {
    MinedIsTyped(o, f);
    SoundByWays(show, db, o, f);
    var mined := ValsOf(Mine(f), o.key);
    hide Sound, Mine, Ways, WellFormed, OwnFields, TableName, Typed, AllHold, Column, KeyedFields;
    var data, row :|
      && Found(db, o, w, data, row)
      && (|| Parts(o, row, mined, k)
          || exists data', row' :: Found(db, o, w, data', row') && Parts(o, row, Values(o, row'), k));
    if Parts(o, row, mined, k) {
      PartedTables(show, o, data, row, mined, k);
    } else {
      var data', row' :| Found(db, o, w, data', row') && Parts(o, row, Values(o, row'), k);
      StoredTable(show, o, data', row');
      PartedTables(show, o, data, row, Values(o, row'), k);
    }
  }

  lemma UnfixedField(o: Object, w: set<Condition>) returns (k: string, vals: FieldVals)
    ensures Fixes(o, w, vals) || (k in o.tabNaming && Unequated(o, w, k))
  {
    if exists j :: j in o.tabNaming && Unequated(o, w, j) {
      k :| k in o.tabNaming && Unequated(o, w, k);
      vals := map[];
    } else {
      k := "";
      vals := map j | j in o.tabNaming :: EquatedValue(o, w, j);
    }
  }

  /** A value that the way equates the field with. */
  ghost function EquatedValue(o: Object, w: set<Condition>, k: string): (v: Value)
    requires !Unequated(o, w, k)
    ensures Equated(w, o.key, k, v)
  {
    var c :| c in w && c.op == Eq && c.field.objKey == o.key && c.field.objField == k;
    assert Equates(c, o.key, k, c.value);
    c.value
  }

  /**
   * Routing is sound exactly when every alternative of the filter that some stored row satisfies
   * equates every naming field, with values that name the table the query reads.
   */
  lemma RoutingExact(show: ShowAny, db: Db, o: Object, f: Filter)
    requires ExactDb(db) && PlainShards(o) && KeyedFields(o)
    requires WellFormed(f) && OwnFields(o, f) && Independent(db, o, f)
    ensures Sound(show, db, o, f) <==>
            forall w :: w in Ways(f) && Satisfiable(db, o, w) ==> Names(show, o, w, QueriedTable(show, o, f))
  {
    WaysParsed(o, f);
    SoundByWays(show, db, o, f);
    var table := QueriedTable(show, o, f);
    hide Ways, Found, Fixes, WellFormed, OwnFields, TableName, Parsed, Free, Unequated, ExactDb, KeyedFields;
    hide Sound, QueriedTable, PlainShards;
    if Sound(show, db, o, f) {
      forall w | w in Ways(f) && Satisfiable(db, o, w)
        ensures Names(show, o, w, table)
      {
        var data, row :| Found(db, o, w, data, row);
        var k, vals := UnfixedField(o, w);
        if Fixes(o, w, vals) {
          FixedTable(show, db, o, w, vals, data, row);
        } else {
          FreeIsLost(show, db, o, f, w, k);
        }
      }
    } else {
      var w, data, row :| w in Ways(f) && Found(db, o, w, data, row) && TableName(show, o, data) != table;
      if Names(show, o, w, table) {
        var vals: FieldVals :| Fixes(o, w, vals) && TableName(show, o, vals) == table;
        FixedTable(show, db, o, w, vals, data, row);
      }
    }
  }

  // ------------------------------------------------------------------ equality filters

  predicate Equalities(w: set<Condition>) {
    forall c :: c in w ==> c.op == Eq
  }

  /** Different fields are different columns. */
  predicate DistinctColumns(o: Object) {
    forall j, k :: j in o.fields && k in o.fields && Column(o.fields[j]) == Column(o.fields[k]) ==> j == k
  }

  /** One value for each column, in range where it names the shard. */
  predicate Storable(o: Object, w: set<Condition>)
    requires PlainShards(o)
  {
    && (forall c, d :: c in w && d in w && Column(c.field) == Column(d.field) ==> c.value == d.value)
    && (forall c, k :: c in w && k in o.tabNaming && Column(c.field) == Column(o.fields[k]) ==>
                         Nameable(o.fields[k].kind, c.value))
  }

  function Default(kind: Kind): (v: Value)
    ensures OfKind(kind, v)
  {
    match kind
    case IntKind => Number(0)
    case FloatKind => Number(0)
    case BoolKind => Flag(false)
    case _ => Text("")
  }

  /** Another value of the same type that may name a shard. */
  function Another(v: Value): Value {
    match v
    case Number(n) => Number(if n == 0 then 1 else 0)
    case _ => Text(if v == Text("") then "x" else "")
  }

  /** The way's value for a column; for columns it does not mention, a value of the column's kind. */
  ghost function ValueAt(o: Object, w: set<Condition>, col: string): Value {
    if exists c :: c in w && Column(c.field) == col then
      var c :| c in w && Column(c.field) == col;
      c.value
    else if exists k :: k in o.fields && Column(o.fields[k]) == col then
      var k :| k in o.fields && Column(o.fields[k]) == col;
      Default(o.fields[k].kind)
    else Text("")
  }

  lemma ConditionKind(o: Object, c: Condition, k: string)
    requires DistinctColumns(o) && k in o.fields && c.field in o.fields.Values
    requires Shaped(c) && c.op == Eq && Column(c.field) == Column(o.fields[k])
    ensures c.field == o.fields[k] && OfKind(o.fields[k].kind, c.value)
  {
    hide Column;
    var j :| j in o.fields && o.fields[j] == c.field;
    assert j == k;
  }

  lemma ValueAtLaws(o: Object, w: set<Condition>)
    requires PlainShards(o) && DistinctColumns(o) && Parsed(o, w) && Equalities(w) && Storable(o, w)
    ensures forall c :: c in w ==> ValueAt(o, w, Column(c.field)) == c.value
    ensures forall k :: k in o.fields ==> OfKind(o.fields[k].kind, ValueAt(o, w, Column(o.fields[k])))
    ensures forall k :: k in o.tabNaming ==> Nameable(o.fields[k].kind, ValueAt(o, w, Column(o.fields[k])))
  {
    hide Column, Shaped, OfKind, Nameable;
    forall k | k in o.fields
      ensures OfKind(o.fields[k].kind, ValueAt(o, w, Column(o.fields[k])))
      ensures k in o.tabNaming ==> Nameable(o.fields[k].kind, ValueAt(o, w, Column(o.fields[k])))
    {
      var col := Column(o.fields[k]);
      if exists c :: c in w && Column(c.field) == col {
        var c :| c in w && Column(c.field) == col && ValueAt(o, w, col) == c.value;
        ConditionKind(o, c, k);
      } else {
        assert ValueAt(o, w, col) == Default(o.fields[k].kind);
        NameableDefault(o, k);
      }
    }
  }

  lemma NameableDefault(o: Object, k: string)
    requires PlainShards(o) && k in o.fields
    ensures k in o.tabNaming ==> Nameable(o.fields[k].kind, Default(o.fields[k].kind))
  {
  }

  /** A row of the right types with the way's values is stored from its own naming values. */
  lemma RowIsFound(db: Db, o: Object, w: set<Condition>, row: Row)
    requires ExactDb(db) && PlainShards(o) && Parsed(o, w) && Equalities(w) && TypedRow(o, row)
    requires forall c :: c in w ==> row(Column(c.field)) == c.value
    requires forall k :: k in o.tabNaming ==> Nameable(o.fields[k].kind, row(Column(o.fields[k])))
    ensures Found(db, o, w, Values(o, row), row)
  {
    hide Column, Nameable;
    forall c | c in w
      ensures ConditionHolds(db, row, c)
    {
      assert Shaped(c) && c.op == Eq;
      assert ConditionHolds(db, row, c) == db.eq(c.value, c.value);
    }
    hide ConditionHolds, Parsed, ExactDb;
    forall k | k in o.tabNaming
      ensures row(Column(o.fields[k])) == Stored(o.fields[k].kind, row(Column(o.fields[k])))
    {
      assert OfKind(o.fields[k].kind, row(Column(o.fields[k])));
    }
  }

  /** The way's own row. */
  ghost function WayRow(o: Object, w: set<Condition>): (r: Row)
    ensures forall col :: r(col) == ValueAt(o, w, col)
  {
    col => ValueAt(o, w, col)
  }

  /** The same with another value in one column. */
  ghost function WayRowBut(o: Object, w: set<Condition>, but: string): (r: Row)
    ensures forall col :: r(col) == if col == but then Another(ValueAt(o, w, col)) else ValueAt(o, w, col)
  {
    col => if col == but then Another(ValueAt(o, w, col)) else ValueAt(o, w, col)
  }

  lemma StorableIsFound(db: Db, o: Object, w: set<Condition>)
    requires ExactDb(db) && PlainShards(o) && DistinctColumns(o) && Parsed(o, w) && Equalities(w) && Storable(o, w)
    ensures Found(db, o, w, Values(o, WayRow(o, w)), WayRow(o, w))
  {
    ValueAtLaws(o, w);
    hide ExactDb, Parsed, Storable, DistinctColumns, Column, Nameable, ValueAt;
    RowIsFound(db, o, w, WayRow(o, w));
  }

  /** A naming field that the way does not equate can be changed on its own. */
  lemma StorableIsFree(db: Db, o: Object, f: Filter, w: set<Condition>, k: string)
    requires ExactDb(db) && PlainShards(o) && DistinctColumns(o) && KeyedFields(o)
    requires Parsed(o, w) && Equalities(w) && Storable(o, w) && k in o.tabNaming && Unequated(o, w, k)
    ensures Free(db, o, f, w, k)
  {
    var col := Column(o.fields[k]);
    StorableIsFound(db, o, w);
    ButRowFits(o, w, k);
    hide *;
    RowIsFound(db, o, w, WayRowBut(o, w, col));
    FreeBetween(db, o, f, w, k, WayRowBut(o, w, col), WayRow(o, w));
  }

  lemma FreeBetween(db: Db, o: Object, f: Filter, w: set<Condition>, k: string, row: Row, row': Row)
    requires PlainShards(o) && Parts(o, row, Values(o, row'), k)
    requires Found(db, o, w, Values(o, row), row) && Found(db, o, w, Values(o, row'), row')
    ensures Free(db, o, f, w, k)
  {
    hide Found, Parts, Mine;
  }

  lemma ButRowFits(o: Object, w: set<Condition>, k: string)
    requires PlainShards(o) && DistinctColumns(o) && KeyedFields(o)
    requires Parsed(o, w) && Equalities(w) && Storable(o, w) && k in o.tabNaming && Unequated(o, w, k)
    ensures var row := WayRowBut(o, w, Column(o.fields[k]));
            && (forall c :: c in w ==> row(Column(c.field)) == c.value)
            && TypedRow(o, row)
            && (forall j :: j in o.tabNaming ==> Nameable(o.fields[j].kind, row(Column(o.fields[j]))))
            && Parts(o, row, Values(o, WayRow(o, w)), k)
  {
    var col := Column(o.fields[k]);
    ValueAtLaws(o, w);
    AnotherFits(o, k, ValueAt(o, w, col));
    NotItsColumn(o, w, k);
    hide Storable, Parsed, Unequated, Equalities, Column, ValueAt, Nameable, OfKind, Another;
  }

  lemma NotItsColumn(o: Object, w: set<Condition>, k: string)
    requires PlainShards(o) && DistinctColumns(o) && KeyedFields(o)
    requires Parsed(o, w) && Equalities(w) && k in o.tabNaming && Unequated(o, w, k)
    ensures forall c :: c in w ==> Column(c.field) != Column(o.fields[k])
  {
    hide Column, Shaped;
    forall c | c in w
      ensures Column(c.field) != Column(o.fields[k])
    {
      if Column(c.field) == Column(o.fields[k]) {
        ConditionKind(o, c, k);
      }
    }
  }

  lemma AnotherFits(o: Object, k: string, v: Value)
    requires PlainShards(o) && k in o.tabNaming && OfKind(o.fields[k].kind, v)
    ensures Another(v) != v && OfKind(o.fields[k].kind, Another(v)) && Nameable(o.fields[k].kind, Another(v))
  {
  }

  /** One row has one value for each column, so a way that some row satisfies is storable. */
  lemma FoundIsStorable(db: Db, o: Object, w: set<Condition>, data: FieldVals, row: Row)
    requires ExactDb(db) && PlainShards(o) && DistinctColumns(o) && Parsed(o, w) && Equalities(w)
    requires Found(db, o, w, data, row)
    ensures Storable(o, w)
  {
    forall c, d | c in w && d in w && Column(c.field) == Column(d.field)
      ensures c.value == d.value
    {
      SameColumn(db, o, c, d, row);
    }
    forall c, k | c in w && k in o.tabNaming && Column(c.field) == Column(o.fields[k])
      ensures Nameable(o.fields[k].kind, c.value)
    {
      ConditionKind(o, c, k);
      assert ConditionHolds(db, row, c) == db.eq(row(Column(c.field)), c.value);
    }
  }

  lemma SameColumn(db: Db, o: Object, c: Condition, d: Condition, row: Row)
    requires ExactDb(db) && DistinctColumns(o) && TypedRow(o, row)
    requires Shaped(c) && c.op == Eq && c.field in o.fields.Values && ConditionHolds(db, row, c)
    requires Shaped(d) && d.op == Eq && d.field in o.fields.Values && ConditionHolds(db, row, d)
    requires Column(c.field) == Column(d.field)
    ensures c.value == d.value
  {
    hide Column;
    var k :| k in o.fields && o.fields[k] == c.field;
    ConditionKind(o, d, k);
    var v := row(Column(c.field));
    assert db.eq(v, c.value) && db.eq(v, d.value) && OfKind(c.field.kind, v);
  }

  /**
   * For filters of equalities nothing needs to be assumed: the query reads the right table for all
   * stored rows exactly when every alternative that asks for one value in each column equates every
   * naming field, with values that name the table read.
   */
  lemma EqualityRouting(show: ShowAny, db: Db, o: Object, f: Filter)
    requires ExactDb(db) && PlainShards(o) && KeyedFields(o) && DistinctColumns(o)
    requires WellFormed(f) && OwnFields(o, f) && Equalities(Conds(f))
    ensures Sound(show, db, o, f) <==>
            forall w :: w in Ways(f) && Storable(o, w) ==> Names(show, o, w, QueriedTable(show, o, f))
  {
    WaysParsed(o, f);
    WaysWithin(f);
    forall w | w in Ways(f)
      ensures Equalities(w)
    {
    }
    hide Ways, Conds, Equalities, Storable, Found, Unequated, Free, Parsed, WellFormed, OwnFields, Sound, Names;
    hide ExactDb, DistinctColumns, KeyedFields, QueriedTable;
    forall w | w in Ways(f)
      ensures Satisfiable(db, o, w) <==> Storable(o, w)
      ensures Storable(o, w) ==> forall k :: k in o.tabNaming && Unequated(o, w, k) ==> Free(db, o, f, w, k)
    {
      if Storable(o, w) {
        StorableIsFound(db, o, w);
        forall k | k in o.tabNaming && Unequated(o, w, k)
          ensures Free(db, o, f, w, k)
        {
          StorableIsFree(db, o, f, w, k);
        }
      } else if Satisfiable(db, o, w) {
        var data, row :| Found(db, o, w, data, row);
        FoundIsStorable(db, o, w, data, row);
      }
    }
    hide Satisfiable;
    RoutingExact(show, db, o, f);
  }

  // ------------------------------------------------------------------ tables that tell values apart

  /** Only the last naming field may be a text. */
  predicate LastText(o: Object)
    requires PlainShards(o)
  {
    forall i :: 0 <= i < |o.tabNaming| - 1 ==> o.fields[o.tabNaming[i]].kind == IntKind
  }

  /** The way asks for the mined value in every naming field. */
  predicate Pinned(o: Object, f: Filter, w: set<Condition>) {
    var mined := ValsOf(Mine(f), o.key);
    forall k :: k in o.tabNaming ==> k in mined && Equated(w, o.key, k, mined[k])
  }

  lemma TypedTame(show: ShowAny, o: Object, vals: FieldVals)
    requires PlainShards(o) && LastText(o)
    requires forall k :: k in o.tabNaming ==> k in vals && Typed(o.fields[k].kind, vals[k])
    ensures Named(show, o, vals) && AllTame(o.tabNaming, NamingTexts(show, o, vals))
  {
    hide Tame, Itoa;
    forall i | 0 <= i < |o.tabNaming| - 1
      ensures Tame(NamingTexts(show, o, vals)[o.tabNaming[i]], o.tabNaming[i + 1])
    {
      IntegersTame(vals[o.tabNaming[i]].n, o.tabNaming[i + 1]);
    }
  }

  lemma EquatedTyped(o: Object, w: set<Condition>, k: string, v: Value)
    requires PlainShards(o) && KeyedFields(o) && Parsed(o, w) && k in o.tabNaming && Equated(w, o.key, k, v)
    ensures Typed(o.fields[k].kind, v)
  {
    var c :| c in w && Equates(c, o.key, k, v);
    assert Shaped(c) && c.field == o.fields[k];
  }

  lemma NamesIsPinned(show: ShowAny, o: Object, f: Filter, w: set<Condition>)
    requires PlainShards(o) && KeyedFields(o) && LastText(o)
    requires WellFormed(f) && OwnFields(o, f) && Parsed(o, w)
    ensures Names(show, o, w, QueriedTable(show, o, f)) <==> Pinned(o, f, w)
  {
    var mined := ValsOf(Mine(f), o.key);
    MinedIsTyped(o, f);
    hide Mine, WellFormed, OwnFields, KeyedFields, Equated, Typed, Parsed, LastText;
    if Pinned(o, f, w) {
      assert Fixes(o, w, mined);
    } else if Names(show, o, w, TableName(show, o, mined)) {
      var vals: FieldVals :| Fixes(o, w, vals) && TableName(show, o, vals) == TableName(show, o, mined);
      forall k | k in o.tabNaming
        ensures Typed(o.fields[k].kind, vals[k])
      {
        EquatedTyped(o, w, k, vals[k]);
      }
      OneTable(show, o, vals, mined);
    }
  }

  /** Typed values that name one table are the same. */
  lemma OneTable(show: ShowAny, o: Object, a: FieldVals, b: FieldVals)
    requires PlainShards(o) && LastText(o)
    requires forall k :: k in o.tabNaming ==> k in a && Typed(o.fields[k].kind, a[k])
    requires forall k :: k in o.tabNaming && k in b ==> Typed(o.fields[k].kind, b[k])
    requires TableName(show, o, a) == TableName(show, o, b)
    ensures forall k :: k in o.tabNaming ==> k in b && a[k] == b[k]
  {
    TypedTame(show, o, a);
    hide LastText, NameFrom, ShardText, Typed;
    NameIs(show, o, a, o.tableName, 0, NamingTexts(show, o, a));
    NamedIsMined(show, o, b, o.tableName, 0);
    TypedTame(show, o, b);
    NamesInjective(show, o, a, b);
    forall k | k in o.tabNaming
      ensures a[k] == b[k]
    {
      TypedTexts(show, o.fields[k].kind, a[k], b[k]);
    }
  }

  /**
   * With integer naming fields, or a text last, routing of an equality filter is sound exactly when
   * every alternative that a row can satisfy asks for all the mined values.
   */
  lemma PinnedRouting(show: ShowAny, db: Db, o: Object, f: Filter)
    requires ExactDb(db) && PlainShards(o) && KeyedFields(o) && DistinctColumns(o) && LastText(o)
    requires WellFormed(f) && OwnFields(o, f) && Equalities(Conds(f))
    ensures Sound(show, db, o, f) <==> forall w :: w in Ways(f) && Storable(o, w) ==> Pinned(o, f, w)
  {
    EqualityRouting(show, db, o, f);
    WaysParsed(o, f);
    hide Sound, Ways, Conds, Storable, Names, Pinned, Equalities, Parsed, WellFormed, OwnFields, KeyedFields;
    hide DistinctColumns, LastText, ExactDb, QueriedTable;
    forall w | w in Ways(f)
      ensures Names(show, o, w, QueriedTable(show, o, f)) <==> Pinned(o, f, w)
    {
      NamesIsPinned(show, o, f, w);
    }
  }

  /** A routable filter asks for the mined values in every alternative, those no row satisfies included. */
  lemma RoutableIsPinned(show: ShowAny, o: Object, f: Filter)
    requires PlainShards(o) && QueriedTable(show, o, f).Ok?
    ensures Routable(o, f) <==> forall w :: w in Ways(f) ==> Pinned(o, f, w)
  {
    var mined := ValsOf(Mine(f), o.key);
    NamedIsMined(show, o, mined, o.tableName, 0);
    hide Mine, Forces, Ways, Equated, QueriedTable, PlainShards;
    forall k | k in o.tabNaming
      ensures k in mined
      ensures Forces(f, o.key, k, mined[k]) <==> forall w :: w in Ways(f) ==> Equated(w, o.key, k, mined[k])
    {
      ForcedInEveryWay(f, o.key, k, mined[k]);
    }
    if forall w :: w in Ways(f) ==> Pinned(o, f, w) {
      forall k | k in o.tabNaming && k in mined
        ensures Forces(f, o.key, k, mined[k])
      {
        forall w | w in Ways(f)
          ensures Equated(w, o.key, k, mined[k])
        {
          assert Pinned(o, f, w);
        }
      }
    } else {
      var w :| w in Ways(f) && !Pinned(o, f, w);
      var k :| k in o.tabNaming && !(k in mined && Equated(w, o.key, k, mined[k]));
      assert !Forces(f, o.key, k, mined[k]);
    }
  }
}
