/** The Create, Query and Update slots over shard tables: sharding is invisible to routable filters. */
module DataService {
  import opened Wrappers
  import opened Conditions
  import opened Filters
  import opened WhereSql
  import opened Routing
  import opened MinedValues

  /** A row with some columns set to new values. */
  function Patch(row: Row, vals: map<string, Value>): Row {
    col => if col in vals then vals[col] else row(col)
  }

  /** What one UPDATE does to a row. */
  function After(db: Db, f: Filter, vals: map<string, Value>, row: Row): Row {
    if Meaning(db, row, f) then Patch(row, vals) else row
  }

  /** What it does to a table. */
  function Patched(db: Db, f: Filter, vals: map<string, Value>, table: seq<Row>): (r: seq<Row>)
    ensures |r| == |table| && forall i :: 0 <= i < |r| ==> r[i] == After(db, f, vals, table[i])
  {
    seq(|table|, i requires 0 <= i < |table| => After(db, f, vals, table[i]))
  }

  /** The rows of a table that the filter means, in their order. */
  function Matching(db: Db, f: Filter, table: seq<Row>): (r: seq<Row>)
    ensures forall row :: row in r <==> row in table && Meaning(db, row, f)
  {
    if |table| == 0 then []
    else
      var last := table[|table| - 1];
      Matching(db, f, table[..|table| - 1]) + (if Meaning(db, last, f) then [last] else [])
  }

  /** The rows found in two parts are those of the first, then those of the second. */
  lemma {:induction false} MatchingAppends(db: Db, f: Filter, a: seq<Row>, b: seq<Row>)
    ensures Matching(db, f, a + b) == Matching(db, f, a) + Matching(db, f, b)
    decreases |b|
  {
    if |b| == 0 {
      assert a + b == a && Matching(db, f, a) + [] == Matching(db, f, a);
    } else {
      var c, last := b[..|b| - 1], b[|b| - 1];
      MatchingAppends(db, f, a, c);
      hide *;
      assert (a + b)[..|a + b| - 1] == a + c && (a + b)[|a + b| - 1] == last;
      LastMatches(db, f, a + b);
      LastMatches(db, f, b);
      Regroup(Matching(db, f, a), Matching(db, f, c), Matching(db, f, [last]));
    }
  }

  lemma Regroup(a: seq<Row>, b: seq<Row>, c: seq<Row>)
    ensures a + b + c == a + (b + c)
  {
  }

  /** Every row that the filter means is found as often as it is stored. */
  lemma {:induction false} MatchingCounts(db: Db, f: Filter, table: seq<Row>, row: Row)
    ensures multiset(Matching(db, f, table))[row] == if Meaning(db, row, f) then multiset(table)[row] else 0
  {
    hide Meaning;
    if |table| == 0 {
    } else {
      var front, last := table[..|table| - 1], table[|table| - 1];
      assert table == front + [last];
      LastMatches(db, f, table);
      hide Matching;
      MatchingCounts(db, f, front, row);
    }
  }

  lemma LastMatches(db: Db, f: Filter, table: seq<Row>)
    requires |table| > 0
    ensures var last := table[|table| - 1];
            && Matching(db, f, [last]) == (if Meaning(db, last, f) then [last] else [])
            && Matching(db, f, table) == Matching(db, f, table[..|table| - 1]) + Matching(db, f, [last])
  {
    hide Meaning;
    var last := table[|table| - 1];
    assert [last][..0] == [] && [last][0] == last;
    assert Matching(db, f, []) == [];
  }

  lemma {:induction false} NoMatches(db: Db, f: Filter, table: seq<Row>)
    requires forall row :: row in table ==> !Meaning(db, row, f)
    ensures Matching(db, f, table) == []
  {
    hide Meaning;
    if |table| == 0 {
    } else {
      assert table[|table| - 1] in table;
      NoMatches(db, f, table[..|table| - 1]);
    }
  }

  /** The rows that the filter means get the new values in their columns; everything else stays. */
  ghost predicate Updated(db: Db, f: Filter, vals: map<string, Value>, table: seq<Row>, table': seq<Row>) {
    && |table'| == |table|
    && forall i, col :: 0 <= i < |table| ==>
         table'[i](col) == if Meaning(db, table[i], f) && col in vals then vals[col] else table[i](col)
  }

  lemma PatchedIsUpdated(db: Db, f: Filter, vals: map<string, Value>, table: seq<Row>)
    ensures Updated(db, f, vals, table, Patched(db, f, vals, table))
  {
    hide Meaning;
    var table' := Patched(db, f, vals, table);
    forall i, col | 0 <= i < |table|
      ensures table'[i](col) == if Meaning(db, table[i], f) && col in vals then vals[col] else table[i](col)
    {
      assert table'[i] == After(db, f, vals, table[i]);
    }
  }

  /** What it does to one table after another, the whole of an unsharded table. */
  function PatchedAll(db: Db, f: Filter, vals: map<string, Value>, tables: map<string, seq<Row>>)
    : map<string, seq<Row>>
  {
    map t | t in tables :: Patched(db, f, vals, tables[t])
  }

  /** One object's tables in the database, by name. */
  class Service {
    const o: Object
    const primary: string
    const show: ShowAny
    const pf: ParseFloat
    const db: Db
    var tables: map<string, seq<Row>>

    /** The row is in some table, as it would be in an unsharded one. */
    ghost predicate Holds(row: Row)
      reads this
    {
      exists t :: t in tables && row in tables[t]
    }

    /** The row is what some object stored, and t is the table that object's values name. */
    ghost predicate Placed(t: string, row: Row) {
      PlainShards(o) && exists data :: Stores(o, data, row) && TableName(show, o, data) == Ok(t)
    }

    ghost predicate Configured() {
      PlainShards(o) && KeyedFields(o) && ExactDb(db)
    }

    /** Every row is in the table its naming values name. */
    ghost predicate Valid()
      reads this
    {
      Configured() && forall t, row :: t in tables && row in tables[t] ==> Placed(t, row)
    }

    constructor (o: Object, primary: string, show: ShowAny, pf: ParseFloat, db: Db)
      requires PlainShards(o) && KeyedFields(o) && ExactDb(db)
      ensures Valid() && tables == map[]
      ensures this.o == o && this.primary == primary && this.show == show && this.pf == pf && this.db == db
    {
      this.o, this.primary, this.show, this.pf, this.db := o, primary, show, pf, db;
      tables := map[];
    }

    /**
     * row is what the database makes of data; the insert may fail. Every row stays placed as long as
     * row carries the naming values exactly: whole numbers up to 2^53, and texts.
     */
    method Create(data: FieldVals, row: Row, inserted: bool) returns (ok: bool)
      requires Configured()
      modifies this
      ensures old(Valid()) && (!ok || Stores(o, data, row)) ==> Valid()
      ensures ok == (inserted && TableName(show, o, data).Ok?)
      ensures forall x: Row :: Holds(x) <==> old(Holds(x)) || (ok && x == row)
      ensures tables == if ok then
                          var t := TableName(show, o, data).value;
                          old(tables)[t := (if t in old(tables) then old(tables)[t] else []) + [row]]
                        else old(tables)
    {
      var name := CheckTableName(show, o, data);
      if !name.Ok? || !inserted {
        return false;
      }
      var t := name.value;
      assert Stores(o, data, row) ==> Placed(t, row);
      ghost var was := tables;
      tables := tables[t := (if t in tables then tables[t] else []) + [row]];
      forall x: Row
        ensures Holds(x) <==> old(Holds(x)) || x == row
      {
        if x == row {
          assert x in tables[t];
        } else if old(Holds(x)) {
          var u :| u in was && x in was[u];
          assert x in tables[u];
        }
      }
      return true;
    }

    /** The table that a parsed filter is read from; nil mines nothing. */
    function RoutedTo(f: Option<Filter>): Result<string>
      requires PlainShards(o)
    {
      match f
      case None => TableName(show, o, map[])
      case Some(g) => QueriedTable(show, o, g)
    }

    /**
     * Parse, route, compile, and let the database select by the WHERE text. When the filter forces
     * the mined values (always, unless OR stands over subfilters), the answer is what one unsharded
     * table would give, each row as often as it is stored.
     */
    method Query(raw: RawFilter) returns (r: Result<seq<Row>>)
      requires Configured()
      ensures r.Ok? <==> ParseFilter(pf, o.fields, raw).Ok? && RoutedTo(ParseFilter(pf, o.fields, raw).value).Ok?
      ensures r.Ok? && ParseFilter(pf, o.fields, raw).value.None? ==>
                var t := TableName(show, o, map[]).value;
                r.value == if t in tables then tables[t] else []
      ensures r.Ok? && ParseFilter(pf, o.fields, raw).value.Some? ==>
                var f := ParseFilter(pf, o.fields, raw).value.value;
                var t := QueriedTable(show, o, f).value;
                && r.value == Matching(db, f, if t in tables then tables[t] else [])
                && (forall row :: row in r.value ==> Holds(row) && Meaning(db, row, f))
                && (Valid() && Routable(o, f) ==>
                      && (forall u :: u in tables && u != t ==> Matching(db, f, tables[u]) == [])
                      && (forall row: Row :: Holds(row) && Meaning(db, row, f) ==> row in r.value))
    {
      hide ParseFilter, Meaning, WellFormed, Renderable, Build, Mine, TableName, OwnFields, Routable;
      var parsed := ParseRawFilter(pf, o.fields, raw);
      if !parsed.Ok? {
        return if parsed.Crash? then Crash else Rejected;
      }
      var mined := GetFieldValuesSetByFilters(parsed.value);
      var name := CheckTableName(show, o, ValsOf(mined, o.key));
      assert name == RoutedTo(parsed.value);
      if !name.Ok? {
        return if name.Crash? then Crash else Rejected;
      }
      var table := if name.value in tables then tables[name.value] else [];
      if parsed.value.None? {
        return Ok(table);
      }
      ParsedIsWellFormed(pf, o.fields, raw);
      ParsedOwnFields(pf, o, raw);
      WellFormedIsRenderable(parsed.value.value);
      var where, vals := BuildWhereClause(parsed.value.value);
      var found := Select(db, table, Clause(where, vals), parsed.value.value);
      if Valid() {
        AllRouted(parsed.value.value, name.value);
        NothingElsewhere(parsed.value.value, name.value);
      }
      return Ok(found);
    }

    /** No column that names the shard is set. */
    predicate Unnaming(values: map<string, Value>)
      requires PlainShards(o)
    {
      forall k :: k in o.tabNaming ==> Column(o.fields[k]) !in values
    }

    /** The filter was accepted and is not nil, the primary key is mined, and a table is named. */
    predicate CanUpdate(parsed: Result<Option<Filter>>)
      requires PlainShards(o)
    {
      && parsed.Ok? && parsed.value.Some?
      && primary in ValsOf(Mine(parsed.value.value), o.key)
      && QueriedTable(show, o, parsed.value.value).Ok?
    }

    /** An update needs an equality of the primary key somewhere in the filter, and a table name. */
    lemma UpdateNeedsKey(f: Filter)
      requires PlainShards(o)
      ensures CanUpdate(Ok(Some(f))) <==>
              && (exists k :: 0 <= k < |InOrder(f)| && EqualityOf(InOrder(f)[k], o.key, primary))
              && QueriedTable(show, o, f).Ok?
      ensures !CanUpdate(Ok(None)) && !CanUpdate(Rejected) && !CanUpdate(Crash)
    {
      hide Mine, InOrder, QueriedTable, LastEquality, EqualityOf;
      MinedIsLast(f, o.key, primary);
      LastExists(InOrder(f), o.key, primary);
    }

    /**
     * Update needs a filter that fixes the primary key, and the database to apply it. It patches the
     * rows of the routed table that the filter means; for routable filters this is what it would do to
     * every table, row by row, as to one unsharded table. Rows stay placed as long as no column that
     * names the shard is set.
     */
    method Update(raw: RawFilter, values: map<string, Value>, applied: bool) returns (ok: bool)
      requires Configured()
      modifies this
      ensures old(Valid()) && (!ok || Unnaming(values)) ==> Valid()
      ensures ok <==> applied && CanUpdate(ParseFilter(pf, o.fields, raw))
      ensures !ok ==> tables == old(tables)
      ensures ok ==>
                var f := ParseFilter(pf, o.fields, raw).value.value;
                var t := QueriedTable(show, o, f).value;
                && tables.Keys == old(tables).Keys
                && (forall u :: u in tables && u != t ==> tables[u] == old(tables)[u])
                && (t in tables ==> Updated(db, f, values, old(tables)[t], tables[t]))
      ensures old(Valid()) && ok && Routable(o, ParseFilter(pf, o.fields, raw).value.value) ==>
                tables == PatchedAll(db, ParseFilter(pf, o.fields, raw).value.value, values, old(tables))
    {
      hide ParseFilter, Meaning, WellFormed, Renderable, Build, Mine, TableName, OwnFields, Routable, Patched, After;
      hide PatchedAll, Updated;
      var parsed := ParseRawFilter(pf, o.fields, raw);
      if !parsed.Ok? || parsed.value.None? {
        return false;
      }
      var mined := GetFieldValuesSetByFilters(parsed.value);
      if o.key !in mined || primary !in mined[o.key] {
        return false;
      }
      var name := CheckTableName(show, o, mined[o.key]);
      if !name.Ok? {
        return false;
      }
      ParsedIsWellFormed(pf, o.fields, raw);
      ParsedOwnFields(pf, o, raw);
      WellFormedIsRenderable(parsed.value.value);
      var where, vals := BuildWhereClause(parsed.value.value);
      if !applied {
        return false;
      }
      var t := name.value;
      ghost var f := parsed.value.value;
      if Valid() {
        AllRouted(f, t);
      }
      PatchedOnly(t, f, values);
      if t in tables {
        var table := PatchAll(db, tables[t], Clause(where, vals), f, values);
        PatchedIsUpdated(db, f, values, tables[t]);
        if Valid() && Unnaming(values) {
          PatchedPlaced(t, f, values, table);
        }
        tables := tables[t := table];
      }
      return true;
    }

    /** Patching keeps rows in the table their shard values name. */
    lemma PatchedPlaced(t: string, f: Filter, values: map<string, Value>, table: seq<Row>)
      requires Valid() && t in tables && table == Patched(db, f, values, tables[t]) && Unnaming(values)
      ensures forall row :: row in table ==> Placed(t, row)
    {
      forall row | row in table
        ensures Placed(t, row)
      {
        var i :| 0 <= i < |table| && table[i] == row;
        var before := tables[t][i];
        assert Placed(t, before);
        var data :| Stores(o, data, before) && TableName(show, o, data) == Ok(t);
        assert Stores(o, data, row);
      }
    }

    /** When nothing else means the filter, patching one table is patching all of them. */
    lemma PatchedOnly(t: string, f: Filter, values: map<string, Value>)
      ensures OnlyIn(tables, t, f) ==>
                PatchedAll(db, f, values, tables) ==
                if t in tables then tables[t := Patched(db, f, values, tables[t])] else tables
    {
      hide Meaning, Patch;
      if OnlyIn(tables, t, f) {
        forall u | u in tables && u != t
          ensures Patched(db, f, values, tables[u]) == tables[u]
        {
        }
      }
    }

    /** Rows that mean the filter are in table t and in no other. */
    ghost predicate OnlyIn(ts: map<string, seq<Row>>, t: string, f: Filter) {
      forall u, row :: u in ts && row in ts[u] && Meaning(db, row, f) ==> u == t
    }

    lemma NothingElsewhere(f: Filter, t: string)
      ensures OnlyIn(tables, t, f) ==> forall u :: u in tables && u != t ==> Matching(db, f, tables[u]) == []
    {
      hide Meaning;
      forall u | OnlyIn(tables, t, f) && u in tables && u != t
        ensures Matching(db, f, tables[u]) == []
      {
        NoMatches(db, f, tables[u]);
      }
    }

    /** Rows that mean a routable filter are in the table it routes to, and in no other. */
    lemma AllRouted(f: Filter, t: string)
      requires Valid() && WellFormed(f) && OwnFields(o, f)
      requires QueriedTable(show, o, f) == Ok(t)
      ensures Routable(o, f) ==> OnlyIn(tables, t, f)
    {
      forall u, row | Routable(o, f) && u in tables && row in tables[u] && Meaning(db, row, f)
        ensures u == t
      {
        assert Placed(u, row);
        var data :| Stores(o, data, row) && TableName(show, o, data) == Ok(u);
        RoutingSound(show, db, o, f, data, row);
      }
    }
  }

  /** UPDATE ... WHERE as the database carries it out. */
  method PatchAll(db: Db, table: seq<Row>, c: Clause, ghost f: Filter, values: map<string, Value>)
    returns (r: seq<Row>)
    requires WellFormed(f) && Renderable(f) && c == Build(f)
    ensures r == Patched(db, f, values, table)
  {
    r := [];
    for i := 0 to |table|
      invariant r == Patched(db, f, values, table[..i])
    {
      CompiledMeansFilter(db, table[i], f);
      assert table[..i + 1] == table[..i] + [table[i]];
      r := r + [if Evaluate(db, table[i], c) == Some(true) then Patch(table[i], values) else table[i]];
      assert r == Patched(db, f, values, table[..i + 1]);
    }
    assert table[..|table|] == table;
  }

  /** What the database does with a WHERE text and its values. */
  method Select(db: Db, table: seq<Row>, c: Clause, ghost f: Filter) returns (found: seq<Row>)
    requires WellFormed(f) && Renderable(f) && c == Build(f)
    ensures found == Matching(db, f, table)
  {
    hide Meaning, Build, Evaluate;
    found := [];
    for i := 0 to |table|
      invariant found == Matching(db, f, table[..i])
    {
      CompiledMeansFilter(db, table[i], f);
      assert table[..i + 1][..i] == table[..i];
      if Evaluate(db, table[i], c) == Some(true) {
        found := found + [table[i]];
      }
      assert found == Matching(db, f, table[..i + 1]);
    }
    assert table[..|table|] == table;
  }

  lemma {:induction false} ParsedOwnFields(pf: ParseFloat, o: Object, raw: RawFilter)
    ensures var r := ParseFilter(pf, o.fields, raw); r.Ok? && r.value.Some? ==> OwnFields(o, r.value.value)
    decreases raw, 1
  {
    var r := ParseFilter(pf, o.fields, raw);
    if r.Ok? && r.value.Some? {
      ConditionsOwn(pf, o, raw.conditions);
      FiltersOwn(pf, o, raw.filters);
    }
  }

  lemma {:induction false} ConditionsOwn(pf: ParseFloat, o: Object, ss: seq<string>)
    requires ParseConditions(pf, o.fields, ss).Ok?
    ensures forall k :: 0 <= k < |ss| ==> ParseConditions(pf, o.fields, ss).value[k].field in o.fields.Values
  {
    if ss == [] {
    } else {
      AcceptedIsShaped(pf, o.fields, ss[0]);
      ConditionsOwn(pf, o, ss[1..]);
    }
  }

  lemma {:induction false} FiltersOwn(pf: ParseFloat, o: Object, fs: seq<RawFilter>)
    requires ParseFilters(pf, o.fields, fs).Ok?
    ensures forall k :: 0 <= k < |fs| ==>
              var f := ParseFilters(pf, o.fields, fs).value[k]; f.Some? ==> OwnFields(o, f.value)
    decreases fs, 0
  {
    if fs == [] {
    } else {
      ParsedOwnFields(pf, o, fs[0]);
      FiltersOwn(pf, o, fs[1..]);
    }
  }
}
