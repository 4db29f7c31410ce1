/** Which value getFieldValuesSetByFilters takes for a field: that of the last equality, reading the tree in order. */
module MinedValues {
  import opened Wrappers
  import opened Conditions
  import opened Filters
  import opened Routing

  /** The conditions of a filter in order: its own, then those of its subfilters. */
  function UpTo(f: Filter, k: nat): seq<Condition>
    requires k <= |f.filters|
    decreases f, 0, k
  {
    if k == 0 then f.conditions
    else
      match f.filters[k - 1]
      case None => UpTo(f, k - 1)
      case Some(g) => UpTo(f, k - 1) + InOrder(g)
  }

  function InOrder(f: Filter): seq<Condition>
    decreases f, 1
  {
    UpTo(f, |f.filters|)
  }

  predicate EqualityOf(c: Condition, obj: string, field: string) {
    c.op == Eq && c.field.objKey == obj && c.field.objField == field
  }

  /** The value of the last equality of a field. */
  function LastEquality(cs: seq<Condition>, obj: string, field: string): Option<Value> {
    if cs == [] then None
    else if EqualityOf(cs[|cs| - 1], obj, field) then Some(cs[|cs| - 1].value)
    else LastEquality(cs[..|cs| - 1], obj, field)
  }

  function Lookup(m: ObjectVals, obj: string, field: string): Option<Value> {
    if obj in m && field in m[obj] then Some(m[obj][field]) else None
  }

  lemma {:induction false} LastOfConcat(a: seq<Condition>, b: seq<Condition>, obj: string, field: string)
    ensures LastEquality(a + b, obj, field)
         == if LastEquality(b, obj, field).Some? then LastEquality(b, obj, field) else LastEquality(a, obj, field)
    decreases |b|
  {
    if b == [] {
      assert a + b == a;
    } else {
      assert (a + b)[..|a + b| - 1] == a + b[..|b| - 1];
      LastOfConcat(a, b[..|b| - 1], obj, field);
    }
  }

  lemma {:induction false} ConditionsLast(cs: seq<Condition>, k: nat, obj: string, field: string)
    requires k <= |cs|
    ensures Lookup(MineConditions(cs, k), obj, field) == LastEquality(cs[..k], obj, field)
  {
    if k == 0 {
    } else {
      assert cs[..k][..k - 1] == cs[..k - 1];
      ConditionsLast(cs, k - 1, obj, field);
    }
  }

  lemma MergedLookup(m: ObjectVals, m': ObjectVals, obj: string, field: string)
    ensures Lookup(Merge(m, m'), obj, field)
         == if Lookup(m', obj, field).Some? then Lookup(m', obj, field) else Lookup(m, obj, field)
  {
  }

  lemma {:induction false} UpToLast(f: Filter, k: nat, obj: string, field: string)
    requires k <= |f.filters|
    ensures Lookup(MineFilters(f, k), obj, field) == LastEquality(UpTo(f, k), obj, field)
    decreases f, 0, k
  {
    hide Merge, MineConditions, LastEquality, Lookup;
    if k == 0 {
      ConditionsLast(f.conditions, |f.conditions|, obj, field);
      assert f.conditions[..|f.conditions|] == f.conditions;
    } else {
      UpToLast(f, k - 1, obj, field);
      match f.filters[k - 1] {
        case None =>
          MergedLookup(MineFilters(f, k - 1), map[], obj, field);
          NothingIn(obj, field);
        case Some(g) =>
          MinedIsLast(g, obj, field);
          MergedLookup(MineFilters(f, k - 1), Mine(g), obj, field);
          LastOfConcat(UpTo(f, k - 1), InOrder(g), obj, field);
      }
    }
  }

  lemma NothingIn(obj: string, field: string)
    ensures Lookup(map[], obj, field) == None
  {
  }

  /** A field's mined value is that of its last equality in the tree; without one nothing is mined for it. */
  lemma {:induction false} MinedIsLast(f: Filter, obj: string, field: string)
    ensures Lookup(Mine(f), obj, field) == LastEquality(InOrder(f), obj, field)
    decreases f, 1
  {
    UpToLast(f, |f.filters|, obj, field);
  }

  lemma {:induction false} LastExists(cs: seq<Condition>, obj: string, field: string)
    ensures LastEquality(cs, obj, field).Some? <==> exists k :: 0 <= k < |cs| && EqualityOf(cs[k], obj, field)
  {
    if cs == [] {
    } else {
      LastExists(cs[..|cs| - 1], obj, field);
    }
  }
}
