/** Sharding in the data service: getFieldValuesSetByFilters, CheckTableName, Create and Query. */
module Routing {
  import opened Wrappers
  import opened GoStrings
  import opened Conditions
  import opened Filters
  import opened WhereSql

  // ------------------------------------------------------------------ values mined from a filter

  type FieldVals = map<string, Value>
  type ObjectVals = map<string, FieldVals>

  function ValsOf(m: ObjectVals, obj: string): FieldVals {
    if obj in m then m[obj] else map[]
  }

  function Merge(m: ObjectVals, m': ObjectVals): ObjectVals {
    map o | o in m.Keys + m'.Keys :: ValsOf(m, o) + ValsOf(m', o)
  }

  function MineConditions(cs: seq<Condition>, k: nat): ObjectVals
    requires k <= |cs|
  {
    if k == 0 then map[]
    else
      var m := MineConditions(cs, k - 1);
      var c := cs[k - 1];
      if c.op != Eq then m
      else m[c.field.objKey := ValsOf(m, c.field.objKey)[c.field.objField := c.value]]
  }

  function MineFilters(f: Filter, k: nat): ObjectVals
    requires k <= |f.filters|
    decreases f, 0, k
  {
    if k == 0 then MineConditions(f.conditions, |f.conditions|)
    else
      match f.filters[k - 1]
      case None => Merge(MineFilters(f, k - 1), map[])
      case Some(g) => Merge(MineFilters(f, k - 1), Mine(g))
  }

  /** getFieldValuesSetByFilters of a filter that is not nil. */
  function Mine(f: Filter): ObjectVals
    decreases f, 1
  {
    MineFilters(f, |f.filters|)
  }

  /** The inner range loop: one object's values. */
  method FoldFields(fields: FieldVals, vs: FieldVals) returns (r: FieldVals)
    ensures r == fields + vs
  {
    r := fields;
    var keys := vs.Keys;
    while keys != {}
      invariant keys <= vs.Keys
      invariant r.Keys == fields.Keys + (vs.Keys - keys)
      invariant forall k :: k in vs && k !in keys ==> r[k] == vs[k]
      invariant forall k :: k in fields && (k !in vs || k in keys) ==> r[k] == fields[k]
      decreases keys
    {
      var k :| k in keys;
      r := r[k := vs[k]];
      keys := keys - {k};
    }
    assert r.Keys == fields.Keys + vs.Keys;
  }

  /** The outer range loop that folds one subfilter's values into the result. */
  method MergeInto(objFieldVals: ObjectVals, vals: ObjectVals) returns (r: ObjectVals)
    ensures r == Merge(objFieldVals, vals)
  {
    r := objFieldVals;
    var objs := vals.Keys;
    assert objFieldVals == Merge(objFieldVals, vals - objs) by {
      MergeEmpty(objFieldVals);
      assert vals - objs == map[];
    }
    while objs != {}
      invariant objs <= vals.Keys
      invariant r == Merge(objFieldVals, vals - objs)
      decreases objs
    {
      var o :| o in objs;
      var inner := FoldFields(ValsOf(r, o), vals[o]);
      MergeOne(objFieldVals, vals, objs, o);
      r := r[o := inner];
      objs := objs - {o};
    }
    assert vals - {} == vals;
  }

  lemma MergeEmpty(m: ObjectVals)
    ensures Merge(m, map[]) == m
  {
    forall o | o in m
      ensures ValsOf(m, o) + ValsOf(map[], o) == m[o]
    {
    }
  }

  lemma MergeOne(m: ObjectVals, vals: ObjectVals, objs: set<string>, o: string)
    requires o in objs && objs <= vals.Keys
    ensures Merge(m, vals - (objs - {o}))
         == Merge(m, vals - objs)[o := ValsOf(Merge(m, vals - objs), o) + vals[o]]
  {
    assert vals - (objs - {o}) == (vals - objs)[o := vals[o]];
    MergeUpdate(m, vals - objs, o, vals[o]);
  }

  lemma MergeAbsent(m: ObjectVals, v: ObjectVals, o: string)
    requires o !in v
    ensures ValsOf(Merge(m, v), o) == ValsOf(m, o)
  {
    assert o in m ==> Merge(m, v)[o] == m[o] + map[];
  }

  lemma MergeUpdate(m: ObjectVals, v: ObjectVals, o: string, x: FieldVals)
    requires o !in v
    ensures Merge(m, v[o := x]) == Merge(m, v)[o := ValsOf(Merge(m, v), o) + x]
  {
    var l, r := Merge(m, v[o := x]), Merge(m, v)[o := ValsOf(Merge(m, v), o) + x];
    assert l.Keys == r.Keys;
    MergeAbsent(m, v, o);
    forall p | p in l
      ensures l[p] == r[p]
    {
      assert p != o ==> ValsOf(v[o := x], p) == ValsOf(v, p);
    }
  }

  /** The loop over the own conditions. */
  method MineOwn(cs: seq<Condition>) returns (r: ObjectVals)
    ensures r == MineConditions(cs, |cs|)
  {
    r := map[];
    for i := 0 to |cs|
      invariant r == MineConditions(cs, i)
    {
      var cond := cs[i];
      if cond.op == Eq {
        var obj := cond.field.objKey;
        var vals: FieldVals := if obj in r then r[obj] else map[];
        r := r[obj := vals[cond.field.objField := cond.value]];
      }
    }
  }

  method GetFieldValuesSetByFilters(fs: Option<Filter>) returns (r: ObjectVals)
    ensures r == match fs case None => map[] case Some(f) => Mine(f)
    decreases fs
  {
    hide Merge, MineConditions;
    if fs.None? {
      return map[];
    }
    var f := fs.value;
    r := MineOwn(f.conditions);
    for i := 0 to |f.filters|
      invariant r == MineFilters(f, i)
    {
      var vals := GetFieldValuesSetByFilters(f.filters[i]);
      r := MergeInto(r, vals);
    }
  }

  // ------------------------------------------------------------------ when the mined values are forced

  /** Some condition of the tree is field = v. */
  predicate Mentions(f: Filter, obj: string, field: string, v: Value) {
    || (exists k :: 0 <= k < |f.conditions| && Equates(f.conditions[k], obj, field, v))
    || (exists k :: 0 <= k < |f.filters| && f.filters[k].Some? && Mentions(f.filters[k].value, obj, field, v))
  }

  predicate Equates(c: Condition, obj: string, field: string, v: Value) {
    c.op == Eq && c.field.objKey == obj && c.field.objField == field && c.value == v
  }

  /** No node with a subfilter joins by OR. */
  predicate Conjunctive(f: Filter) {
    && (f.or ==> forall k :: 0 <= k < |f.filters| ==> f.filters[k].None?)
    && (forall k :: 0 <= k < |f.filters| ==> f.filters[k].Some? ==> Conjunctive(f.filters[k].value))
  }

  /** The filter forces field = v: by an own condition or a subfilter; under OR, by both sides. */
  predicate Forces(f: Filter, obj: string, field: string, v: Value) {
    var own := exists k :: 0 <= k < |f.conditions| && Equates(f.conditions[k], obj, field, v);
    if f.or then
      own && forall k :: 0 <= k < |f.filters| ==> f.filters[k].Some? ==> Forces(f.filters[k].value, obj, field, v)
    else
      own || exists k :: 0 <= k < |f.filters| && f.filters[k].Some? && Forces(f.filters[k].value, obj, field, v)
  }

  predicate Mined(m: ObjectVals, obj: string, field: string, v: Value) {
    obj in m && field in m[obj] && m[obj][field] == v
  }

  lemma {:induction false} MinedCondition(cs: seq<Condition>, k: nat, obj: string, field: string, v: Value)
    requires k <= |cs| && Mined(MineConditions(cs, k), obj, field, v)
    ensures exists j :: 0 <= j < k && Equates(cs[j], obj, field, v)
  {
    if !Equates(cs[k - 1], obj, field, v) {
      MinedCondition(cs, k - 1, obj, field, v);
    }
  }

  lemma MergedMined(m: ObjectVals, m': ObjectVals, obj: string, field: string, v: Value)
    ensures Mined(Merge(m, m'), obj, field, v) ==> Mined(m, obj, field, v) || Mined(m', obj, field, v)
  {
  }

  lemma {:induction false} MinedFilters(f: Filter, k: nat, obj: string, field: string, v: Value)
    requires k <= |f.filters| && Mined(MineFilters(f, k), obj, field, v)
    ensures || (exists j :: 0 <= j < |f.conditions| && Equates(f.conditions[j], obj, field, v))
            || (exists j :: 0 <= j < k && f.filters[j].Some? && Mentions(f.filters[j].value, obj, field, v))
    decreases f, 0, k
  {
    if k == 0 {
      MinedCondition(f.conditions, |f.conditions|, obj, field, v);
    } else {
      var before := MineFilters(f, k - 1);
      var sub: ObjectVals := match f.filters[k - 1] case None => map[] case Some(g) => Mine(g);
      MergedMined(before, sub, obj, field, v);
      hide Merge, Equates, Mentions;
      if Mined(sub, obj, field, v) {
        MinedIsMentioned(f.filters[k - 1].value, obj, field, v);
      } else {
        MinedFilters(f, k - 1, obj, field, v);
      }
    }
  }

  /** Every mined value comes from an equality of the tree. */
  lemma {:induction false} MinedIsMentioned(f: Filter, obj: string, field: string, v: Value)
    requires Mined(Mine(f), obj, field, v)
    ensures Mentions(f, obj, field, v)
    decreases f, 1
  {
    MinedFilters(f, |f.filters|, obj, field, v);
  }

  /** Without OR over subfilters, every equality of the tree is forced. */
  lemma {:induction false} ConjunctiveForces(f: Filter, obj: string, field: string, v: Value)
    requires Conjunctive(f) && Mentions(f, obj, field, v)
    ensures Forces(f, obj, field, v)
    decreases f
  {
    if !exists k :: 0 <= k < |f.conditions| && Equates(f.conditions[k], obj, field, v) {
      var k :| 0 <= k < |f.filters| && f.filters[k].Some? && Mentions(f.filters[k].value, obj, field, v);
      ConjunctiveForces(f.filters[k].value, obj, field, v);
    }
  }

  /** Every field that obj.field names in the tree is stored in the column col. */
  predicate InColumn(f: Filter, obj: string, field: string, col: string) {
    && (forall k :: 0 <= k < |f.conditions| ==>
          f.conditions[k].field.objKey == obj && f.conditions[k].field.objField == field ==>
            Column(f.conditions[k].field) == col)
    && (forall k :: 0 <= k < |f.filters| ==> f.filters[k].Some? ==> InColumn(f.filters[k].value, obj, field, col))
  }

  /** A row that satisfies a filter carries every value the filter forces. */
  lemma ForcedIsCarried(db: Db, row: Row, f: Filter, obj: string, field: string, v: Value, col: string)
    requires Meaning(db, row, f) && Forces(f, obj, field, v) && InColumn(f, obj, field, col)
    ensures db.eq(row(col), v)
  {
    ForcesSuffices(TruthOn(db, row), f, obj, field, v);
    EquatedIsCarried(db, row, f, obj, field, v, col);
  }

  lemma {:induction false} EquatedIsCarried(db: Db, row: Row, f: Filter, obj: string, field: string, v: Value,
                                            col: string)
    requires SomeEquates(TruthOn(db, row), f, obj, field, v) && InColumn(f, obj, field, col)
    ensures db.eq(row(col), v)
    decreases f
  {
    if !exists k :: 0 <= k < |f.conditions| && Equates(f.conditions[k], obj, field, v)
                    && ConditionHolds(db, row, f.conditions[k]) {
      var k :| 0 <= k < |f.filters| && f.filters[k].Some? &&
               SomeEquates(TruthOn(db, row), f.filters[k].value, obj, field, v);
      EquatedIsCarried(db, row, f.filters[k].value, obj, field, v, col);
    }
  }

  /** Some equality field = v of the tree is true. */
  predicate SomeEquates(holds: Condition -> bool, f: Filter, obj: string, field: string, v: Value) {
    || (exists k :: 0 <= k < |f.conditions| && Equates(f.conditions[k], obj, field, v) && holds(f.conditions[k]))
    || (exists k :: 0 <= k < |f.filters| && f.filters[k].Some? && SomeEquates(holds, f.filters[k].value, obj, field, v))
  }

  lemma {:induction false} ForcesSuffices(holds: Condition -> bool, f: Filter, obj: string, field: string, v: Value)
    requires Forces(f, obj, field, v) && MeaningUnder(holds, f)
    ensures SomeEquates(holds, f, obj, field, v)
    decreases f
  {
    var own := forall k :: 0 <= k < |f.conditions| ==> holds(f.conditions[k]);
    if own && exists k :: 0 <= k < |f.conditions| && Equates(f.conditions[k], obj, field, v) {
      var k :| 0 <= k < |f.conditions| && Equates(f.conditions[k], obj, field, v);
      assert holds(f.conditions[k]);
    } else if f.or {
      var k :| 0 <= k < |f.filters| && f.filters[k].Some? && MeaningUnder(holds, f.filters[k].value);
      ForcesSuffices(holds, f.filters[k].value, obj, field, v);
    } else {
      var k :| 0 <= k < |f.filters| && f.filters[k].Some? && Forces(f.filters[k].value, obj, field, v);
      ForcesSuffices(holds, f.filters[k].value, obj, field, v);
    }
  }

  /** Every condition true but the equalities field = v. */
  function AllBut(obj: string, field: string, v: Value): (r: Condition -> bool)
    ensures forall c :: r(c) == !Equates(c, obj, field, v)
  {
    c => !Equates(c, obj, field, v)
  }

  /** Everything true but the equalities field = v: that satisfies a filter which does not force it. */
  lemma {:induction false} UnforcedEscapes(f: Filter, obj: string, field: string, v: Value)
    ensures !Forces(f, obj, field, v) ==> MeaningUnder(AllBut(obj, field, v), f)
    ensures !SomeEquates(AllBut(obj, field, v), f, obj, field, v)
    decreases f
  {
    forall k | 0 <= k < |f.filters| && f.filters[k].Some?
      ensures !Forces(f.filters[k].value, obj, field, v) ==>
                MeaningUnder(AllBut(obj, field, v), f.filters[k].value)
      ensures !SomeEquates(AllBut(obj, field, v), f.filters[k].value, obj, field, v)
    {
      UnforcedEscapes(f.filters[k].value, obj, field, v);
    }
  }

  /**
   * Forcing is exact: a filter forces field = v exactly when, whatever its conditions say, it cannot
   * be satisfied without one of its equalities field = v being true.
   */
  lemma ForcesIsExact(f: Filter, obj: string, field: string, v: Value)
    ensures Forces(f, obj, field, v) <==>
            forall holds: Condition -> bool :: MeaningUnder(holds, f) ==> SomeEquates(holds, f, obj, field, v)
  {
    forall holds: Condition -> bool | Forces(f, obj, field, v) && MeaningUnder(holds, f)
      ensures SomeEquates(holds, f, obj, field, v)
    {
      ForcesSuffices(holds, f, obj, field, v);
    }
    UnforcedEscapes(f, obj, field, v);
  }

  /** Without OR over subfilters, a satisfying row carries every mined value. */
  lemma MinedIsCarried(db: Db, row: Row, f: Filter, obj: string, field: string, v: Value, col: string)
    requires Conjunctive(f) && Meaning(db, row, f) && InColumn(f, obj, field, col)
    requires Mined(Mine(f), obj, field, v)
    ensures db.eq(row(col), v)
  {
    MinedIsMentioned(f, obj, field, v);
    ConjunctiveForces(f, obj, field, v);
    ForcedIsCarried(db, row, f, obj, field, v, col);
  }

  // ------------------------------------------------------------------ CheckTableName

  /** An object: its table name prefix and the keys of the fields whose values name the shard. */
  datatype Object = Object(key: string, tableName: string, tabNaming: seq<string>, fields: map<string, Field>)

  /** fmt's "%v", which is outside this model. */
  type ShowAny = Value -> string

  /** Round half to even, as "%.0f" does. */
  function RoundEven(r: real): int {
    var n := r.Floor;
    var d := r - n as real;
    if d < 0.5 then n
    else if d > 0.5 then n + 1
    else if n % 2 == 0 then n else n + 1
  }

  function ShardText(show: ShowAny, kind: Kind, v: Value): Result<string> {
    match kind
    case IntKind =>
      (match v
       case Number(n) => Ok(Itoa(n))
       case Float(r) => Ok(Itoa(RoundEven(r)))
       case _ => Crash)
    case StringKind => if v.Text? then Ok(v.s) else Crash
    case _ => Ok(show(v))
  }

  function NameFrom(show: ShowAny, o: Object, data: FieldVals, tab: string, k: nat): Result<string>
    requires k <= |o.tabNaming| && forall f :: f in o.tabNaming ==> f in o.fields
    decreases |o.tabNaming| - k
  {
    if k == |o.tabNaming| then Ok(tab)
    else
      var f := o.tabNaming[k];
      if f !in data then Rejected
      else
        match ShardText(show, o.fields[f].kind, data[f])
        case Ok(t) => NameFrom(show, o, data, tab + "_" + f + t, k + 1)
        case Rejected => Rejected
        case Crash => Crash
  }

  /** The name CheckTableName computes; Crash is a failed type assertion. */
  function TableName(show: ShowAny, o: Object, data: FieldVals): Result<string>
    requires forall f :: f in o.tabNaming ==> f in o.fields
  {
    NameFrom(show, o, data, o.tableName, 0)
  }

  method CheckTableName(show: ShowAny, o: Object, data: FieldVals) returns (r: Result<string>)
    requires forall f :: f in o.tabNaming ==> f in o.fields
    ensures r == TableName(show, o, data)
  {
    var tab := o.tableName;
    if |o.tabNaming| == 0 {
      return Ok(tab);
    }
    for k := 0 to |o.tabNaming|
      invariant TableName(show, o, data) == NameFrom(show, o, data, tab, k)
    {
      var f := o.tabNaming[k];
      if f !in data {
        return Rejected;
      }
      var result := ShardText(show, o.fields[f].kind, data[f]);
      if result.Crash? {
        return Crash;
      }
      if result.Rejected? {
        return Rejected;
      }
      tab := tab + "_" + f + result.value;
    }
    return Ok(tab);
  }

  // ------------------------------------------------------------------ Create and Query agree on the shard

  const EXACT: int := 0x20_0000_0000_0000

  /** What a naming field may be given: an exact integer for integer kinds, text for strings. */
  predicate Nameable(kind: Kind, v: Value) {
    match kind
    case IntKind =>
      (match v
       case Number(n) => -EXACT <= n <= EXACT
       case Float(r) => r == r.Floor as real && -EXACT <= r.Floor <= EXACT
       case _ => false)
    case StringKind => v.Text?
    case _ => false
  }

  /** The value the database holds for data of that kind. */
  function Stored(kind: Kind, v: Value): Value {
    if kind == IntKind && v.Float? then Number(v.r.Floor) else v
  }

  /** The shard keys of o are plain fields of o of a kind that both sides print alike. */
  predicate PlainShards(o: Object) {
    forall f :: f in o.tabNaming ==>
      && f in o.fields
      && o.fields[f].objKey == o.key && o.fields[f].objField == f
      && (o.fields[f].kind == IntKind || o.fields[f].kind == StringKind)
  }

  /** The database compares numbers, texts and truth values exactly. */
  ghost predicate ExactDb(db: Db) {
    && (forall a, b :: db.eq(Number(a), Number(b)) <==> a == b)
    && (forall a, b :: db.eq(Text(a), Text(b)) <==> a == b)
    && (forall a, b :: db.eq(Flag(a), Flag(b)) <==> a == b)
    && (forall r: real, a: int :: db.eq(Float(r), Number(a)) <==> r == a as real)
  }

  /** row is what Create stored for data. */
  predicate Stores(o: Object, data: FieldVals, row: Row)
    requires PlainShards(o)
  {
    forall f :: f in o.tabNaming ==>
      f in data && Nameable(o.fields[f].kind, data[f]) &&
      row(Column(o.fields[f])) == Stored(o.fields[f].kind, data[f])
  }

  /** Every condition's field is one of o's own fields. */
  predicate OwnFields(o: Object, f: Filter) {
    && (forall k :: 0 <= k < |f.conditions| ==> f.conditions[k].field in o.fields.Values)
    && (forall k :: 0 <= k < |f.filters| ==> f.filters[k].Some? ==> OwnFields(o, f.filters[k].value))
  }

  /** Distinct fields of o have distinct owner keys. */
  predicate KeyedFields(o: Object) {
    forall k :: k in o.fields ==> o.fields[k].objField == k
  }

  lemma {:induction false} OwnColumn(o: Object, f: Filter, key: string)
    requires KeyedFields(o) && OwnFields(o, f) && key in o.fields
    ensures InColumn(f, o.key, key, Column(o.fields[key]))
    decreases f
  {
    forall k | 0 <= k < |f.filters| && f.filters[k].Some?
      ensures InColumn(f.filters[k].value, o.key, key, Column(o.fields[key]))
    {
      OwnColumn(o, f.filters[k].value, key);
    }
  }

  /** The mined value of a shard key is typed by the field's kind. */
  lemma {:induction false} MentionShaped(o: Object, f: Filter, key: string, v: Value)
    requires WellFormed(f) && KeyedFields(o) && OwnFields(o, f) && key in o.fields
    requires o.fields[key].objKey == o.key
    requires Mentions(f, o.key, key, v)
    ensures o.fields[key].kind == IntKind ==> v.Number?
    ensures o.fields[key].kind == StringKind ==> v.Text?
    decreases f
  {
    if exists k :: 0 <= k < |f.conditions| && Equates(f.conditions[k], o.key, key, v) {
      var k :| 0 <= k < |f.conditions| && Equates(f.conditions[k], o.key, key, v);
      assert Shaped(f.conditions[k]);
      assert f.conditions[k].field == o.fields[key];
    } else {
      var k :| 0 <= k < |f.filters| && f.filters[k].Some? && Mentions(f.filters[k].value, o.key, key, v);
      MentionShaped(o, f.filters[k].value, key, v);
    }
  }

  /** "%d" of the filter's integer and "%.0f" of the stored float print the same shard text. */
  lemma SameShardText(show: ShowAny, db: Db, kind: Kind, data: Value, mined: Value)
    requires ExactDb(db) && Nameable(kind, data)
    requires if kind == IntKind then mined.Number? else mined.Text?
    requires db.eq(Stored(kind, data), mined)
    ensures ShardText(show, kind, mined) == ShardText(show, kind, data)
  {
    if data.Float? {
      assert RoundEven(data.r) == data.r.Floor;
    }
  }

  lemma {:induction false} SameName(show: ShowAny, o: Object, a: FieldVals, b: FieldVals, tab: string, k: nat)
    requires k <= |o.tabNaming| && forall f :: f in o.tabNaming ==> f in o.fields
    requires forall f :: f in o.tabNaming && f in a && f in b ==>
               ShardText(show, o.fields[f].kind, a[f]) == ShardText(show, o.fields[f].kind, b[f])
    requires forall f :: f in o.tabNaming ==> f in a
    requires NameFrom(show, o, b, tab, k).Ok?
    ensures NameFrom(show, o, a, tab, k) == NameFrom(show, o, b, tab, k)
    decreases |o.tabNaming| - k
  {
    if k == |o.tabNaming| {
    } else {
      var f := o.tabNaming[k];
      var t := ShardText(show, o.fields[f].kind, b[f]);
      SameName(show, o, a, b, tab + "_" + f + t.value, k + 1);
    }
  }

  /** A filter without conditions is nil to Query; otherwise its mined values name the table. */
  function QueriedTable(show: ShowAny, o: Object, f: Filter): Result<string>
    requires forall k :: k in o.tabNaming ==> k in o.fields
  {
    TableName(show, o, ValsOf(Mine(f), o.key))
  }

  /** Every value the shard name is made of is forced by the filter. */
  predicate Routable(o: Object, f: Filter) {
    forall k :: k in o.tabNaming && k in ValsOf(Mine(f), o.key) ==> Forces(f, o.key, k, ValsOf(Mine(f), o.key)[k])
  }

  /** Filters without OR over subfilters are routable. */
  lemma ConjunctiveIsRoutable(o: Object, f: Filter)
    requires Conjunctive(f)
    ensures Routable(o, f)
  {
    forall k | k in o.tabNaming && k in ValsOf(Mine(f), o.key)
      ensures Forces(f, o.key, k, ValsOf(Mine(f), o.key)[k])
    {
      var v := ValsOf(Mine(f), o.key)[k];
      assert Mined(Mine(f), o.key, k, v);
      MinedIsMentioned(f, o.key, k, v);
      ConjunctiveForces(f, o.key, k, v);
    }
  }

  /**
   * Routing is sound: the table Query reads for a routable filter is the table Create wrote every row
   * to that satisfies the filter.
   */
  lemma RoutingSound(show: ShowAny, db: Db, o: Object, f: Filter, data: FieldVals, row: Row)
    requires ExactDb(db) && PlainShards(o) && KeyedFields(o)
    requires WellFormed(f) && OwnFields(o, f) && Routable(o, f)
    requires Stores(o, data, row) && Meaning(db, row, f)
    requires QueriedTable(show, o, f).Ok?
    ensures TableName(show, o, data) == QueriedTable(show, o, f)
  {
    var mined := ValsOf(Mine(f), o.key);
    forall k | k in o.tabNaming && k in data && k in mined
      ensures ShardText(show, o.fields[k].kind, data[k]) == ShardText(show, o.fields[k].kind, mined[k])
    {
      var v := mined[k];
      assert Mined(Mine(f), o.key, k, v);
      OwnColumn(o, f, k);
      ForcedIsCarried(db, row, f, o.key, k, v, Column(o.fields[k]));
      MinedIsMentioned(f, o.key, k, v);
      MentionShaped(o, f, k, v);
      SameShardText(show, db, o.fields[k].kind, data[k], v);
    }
    SameName(show, o, data, mined, o.tableName, 0);
  }
}
