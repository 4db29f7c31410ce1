/** Condition texts of the data service: parseCondition and the list converters it uses. */
module Conditions {
  import opened Wrappers
  import opened GoStrings

  // ------------------------------------------------------------------ data

  /** reflect.Kind as far as the service tells kinds apart; NestedKind is slice, map, struct, pointer. */
  datatype Kind = BoolKind | IntKind | FloatKind | StringKind | NestedKind | OtherKind

  /** A field with its owner: objKey and objField are the owner's keys, col its column. */
  datatype Field = Field(key: string, kind: Kind, objKey: string, objField: string, col: string)

  /** A text field for examples. */
  const K_FIELD := Field("k", StringKind, "o", "k", "k")

  datatype Op =
    | Ge | Le | Ne | Lt | Gt | Eq
    | NotIn | In | NotBetween | Between
    | NotLike | Like | NotPrefix | Prefix | NotSuffix | Suffix

  /** A condition value, typed as the parser leaves it; Float also for values that arrive as JSON. */
  datatype Value =
    | Text(s: string)
    | Number(n: int)
    | Flag(b: bool)
    | Float(r: real)
    | Texts(ts: seq<string>)
    | Numbers(rs: seq<real>)

  datatype Condition = Condition(field: Field, op: Op, value: Value)

  /** Crash: the Go code indexes an empty string. */
  datatype Result<+T> = Ok(value: T) | Rejected | Crash

  /** strconv.ParseFloat, which is outside this model. */
  type ParseFloat = string -> Option<real>

  function Pattern(op: Op): string {
    match op
    case Ge => ">="
    case Le => "<="
    case Ne => "!="
    case Lt => "<"
    case Gt => ">"
    case Eq => "=="
    case NotIn => " !IN "
    case In => " IN "
    case NotBetween => " !BETWEEN "
    case Between => " BETWEEN "
    case NotLike => " !LIKE "
    case Like => " LIKE "
    case NotPrefix => " !HAS_PREFIX "
    case Prefix => " HAS_PREFIX "
    case NotSuffix => " !HAS_SUFFIX "
    case Suffix => " HAS_SUFFIX "
  }

  /** The order in which the operators are looked for. */
  const ORDER: seq<Op> :=
    [Ge, Le, Ne, Lt, Gt, Eq, NotIn, In, NotBetween, Between, NotLike, Like, NotPrefix, Prefix, NotSuffix, Suffix]

  predicate Symbolic(op: Op) {
    op in [Ge, Le, Ne, Lt, Gt, Eq]
  }

  predicate ListOp(op: Op) {
    op in [NotIn, In, NotBetween, Between]
  }

  predicate Numeric(k: Kind) {
    k == IntKind || k == FloatKind
  }

  // ------------------------------------------------------------------ list operands

  predicate Bracketed(s: string) {
    s != [] && s[0] == '[' && s[|s| - 1] == ']' && |s| > 1
  }

  function Trims(parts: seq<string>): (r: seq<string>)
    ensures |r| == |parts|
  {
    if parts == [] then [] else [TrimSpace(parts[0])] + Trims(parts[1..])
  }

  function Floats(pf: ParseFloat, parts: seq<string>): (r: Option<seq<real>>)
    ensures r.Some? ==> |r.value| == |parts|
  {
    if parts == [] then Some([])
    else
      match pf(TrimSpace(parts[0]))
      case None => None
      case Some(v) =>
        match Floats(pf, parts[1..])
        case None => None
        case Some(vs) => Some([v] + vs)
  }

  /** String2StringArray and String2StringRange: both insist on two elements. */
  function StringPair(s: string): Result<seq<string>> {
    if s == [] then Crash
    else if !Bracketed(s) then Rejected
    else
      var ss := Split(s[1..|s| - 1]);
      if |ss| != 2 then Rejected else Ok(Trims(ss))
  }

  /** String2NumberArray. */
  function NumberArray(pf: ParseFloat, s: string): Result<seq<real>> {
    if s == [] then Crash
    else if !Bracketed(s) then Rejected
    else
      match Floats(pf, Split(s[1..|s| - 1]))
      case None => Rejected
      case Some(vs) => Ok(vs)
  }

  /** String2NumberRange. */
  function NumberRange(pf: ParseFloat, s: string): Result<seq<real>> {
    if s == [] then Crash
    else if !Bracketed(s) then Rejected
    else
      var ss := Split(s[1..|s| - 1]);
      if |ss| != 2 then Rejected
      else
        match Floats(pf, ss)
        case None => Rejected
        case Some(vs) => Ok(vs)
  }

  method String2StringArray(s: string) returns (ret: seq<string>, ok: bool)
    requires s != []
    ensures StringPair(s) == if ok then Ok(ret) else Rejected
  {
    ret := [];
    if s[0] != '[' || s[|s| - 1] != ']' {
      return [], false;
    }
    var ss := Split(s[1..|s| - 1]);
    if |ss| != 2 {
      return [], false;
    }
    assert ss[0..] == ss;
    for i := 0 to |ss|
      invariant ret + Trims(ss[i..]) == Trims(ss)
    {
      assert ss[i..][1..] == ss[i + 1..];
      ret := ret + [TrimSpace(ss[i])];
    }
    assert ss[|ss|..] == [] && ret + [] == ret;
    return ret, true;
  }

  method String2NumberArray(pf: ParseFloat, s: string) returns (ret: seq<real>, ok: bool)
    requires s != []
    ensures NumberArray(pf, s) == if ok then Ok(ret) else Rejected
  {
    ret := [];
    if s[0] != '[' || s[|s| - 1] != ']' {
      return [], false;
    }
    var ss := Split(s[1..|s| - 1]);
    assert ss[0..] == ss;
    assert forall vs: seq<real> :: [] + vs == vs;
    for i := 0 to |ss|
      invariant Floats(pf, ss)
             == if Floats(pf, ss[i..]).None? then None else Some(ret + Floats(pf, ss[i..]).value)
    {
      assert ss[i..][1..] == ss[i + 1..];
      var v := pf(TrimSpace(ss[i]));
      if v.None? {
        return [], false;
      }
      assert forall vs: seq<real> :: ret + ([v.value] + vs) == ret + [v.value] + vs;
      ret := ret + [v.value];
    }
    assert ss[|ss|..] == [] && ret + [] == ret;
    return ret, true;
  }

  // ------------------------------------------------------------------ parseCondition

  /** The first operator of ORDER[k..] that occurs in ss, with its position. */
  function Pick(ss: string, k: nat): Option<(Op, nat)>
    requires k <= |ORDER|
    decreases |ORDER| - k
  {
    if k == |ORDER| then None
    else
      var i := Index(ss, Pattern(ORDER[k]));
      if i >= 0 then Some((ORDER[k], i)) else Pick(ss, k + 1)
  }

  /** The value that a branch of parseCondition makes of the text after its operator. */
  function Operand(pf: ParseFloat, kind: Kind, op: Op, rest: string): Result<Value> {
    var s := TrimSpace(rest);
    if Symbolic(op) then
      if kind == BoolKind && (op == Eq || op == Ne) then Ok(Flag(TrimSpace(ToUpper(rest)) == "TRUE"))
      else if kind == StringKind then Ok(Text(s))
      else if Numeric(kind) then
        match Atoi(s)
        case None => Rejected
        case Some(n) => Ok(Number(n))
      else Rejected
    else if ListOp(op) then
      if kind == StringKind then
        match StringPair(s)
        case Ok(ts) => Ok(Texts(ts))
        case Rejected => Rejected
        case Crash => Crash
      else if Numeric(kind) then
        match (if op == In || op == NotIn then NumberArray(pf, s) else NumberRange(pf, s))
        case Ok(rs) => Ok(Numbers(rs))
        case Rejected => Rejected
        case Crash => Crash
      else Rejected
    else if kind == StringKind then Ok(Text(s))
    else Rejected
  }

  /** The branch for op: field lookup, then the operand. */
  function Branch(pf: ParseFloat, fMap: map<string, Field>, left: string, op: Op, rest: string): Result<Condition> {
    var key := TrimSpace(left);
    if key !in fMap then Rejected
    else
      match Operand(pf, fMap[key].kind, op, rest)
      case Ok(v) => Ok(Condition(fMap[key], op, v))
      case Rejected => Rejected
      case Crash => Crash
  }

  function ParseCondition(pf: ParseFloat, fMap: map<string, Field>, s: string): Result<Condition> {
    match Pick(ToUpper(s), 0)
    case None => Rejected
    case Some((op, i)) => PickInside(ToUpper(s), 0); Branch(pf, fMap, s[..i], op, s[i + |Pattern(op)|..])
  }

  lemma {:induction false} PickInside(ss: string, k: nat)
    requires k <= |ORDER|
    ensures Pick(ss, k).Some? ==>
              Pick(ss, k).value.1 + |Pattern(Pick(ss, k).value.0)| <= |ss|
    decreases |ORDER| - k
  {
    if k == |ORDER| {
    } else {
      PickInside(ss, k + 1);
    }
  }

  // ------------------------------------------------------------------ what is accepted

  /** The value types that the WHERE compiler relies on. */
  predicate Shaped(c: Condition) {
    && c.field.kind in {BoolKind, IntKind, FloatKind, StringKind}
    && if Symbolic(c.op) then
         match c.field.kind
         case BoolKind => c.value.Flag? && (c.op == Eq || c.op == Ne)
         case StringKind => c.value.Text?
         case _ => c.value.Number?
       else if ListOp(c.op) then
         && (if c.field.kind == StringKind then c.value.Texts? && |c.value.ts| == 2
             else c.value.Numbers? && c.value.rs != [])
         && (c.value.Numbers? && (c.op == Between || c.op == NotBetween) ==> |c.value.rs| == 2)
         && c.field.kind != BoolKind
       else c.field.kind == StringKind && c.value.Text?
  }

  /** Every condition that is accepted has a field of the map and a value fit for its operator. */
  lemma AcceptedIsShaped(pf: ParseFloat, fMap: map<string, Field>, s: string)
    ensures ParseCondition(pf, fMap, s).Ok? ==>
              && Shaped(ParseCondition(pf, fMap, s).value)
              && ParseCondition(pf, fMap, s).value.field in fMap.Values
  {
    var r := ParseCondition(pf, fMap, s);
    if r.Ok? {
      PickInside(ToUpper(s), 0);
      var (op, i) := Pick(ToUpper(s), 0).value;
      var key := TrimSpace(s[..i]);
      assert key in fMap && r.value.field == fMap[key];
    }
  }

  /** parseCondition crashes exactly on a list operator of a text or number field with a blank operand. */
  lemma CrashesOn(pf: ParseFloat, fMap: map<string, Field>, s: string)
    ensures ParseCondition(pf, fMap, s).Crash? <==>
            match Pick(ToUpper(s), 0)
            case None => false
            case Some((op, i)) =>
              && ListOp(op)
              && i + |Pattern(op)| <= |s|
              && TrimSpace(s[..i]) in fMap
              && (fMap[TrimSpace(s[..i])].kind == StringKind || Numeric(fMap[TrimSpace(s[..i])].kind))
              && TrimSpace(s[i + |Pattern(op)|..]) == []
  {
    hide *;
    PickInside(ToUpper(s), 0);
    ParseIsBranch(pf, fMap, s);
    match Pick(ToUpper(s), 0) {
      case None =>
      case Some((op, i)) => BranchCrashes(pf, fMap, s[..i], op, s[i + |Pattern(op)|..]);
    }
  }

  lemma ParseIsBranch(pf: ParseFloat, fMap: map<string, Field>, s: string)
    ensures match Pick(ToUpper(s), 0)
            case None => ParseCondition(pf, fMap, s) == Rejected
            case Some((op, i)) =>
              && i + |Pattern(op)| <= |s|
              && ParseCondition(pf, fMap, s) == Branch(pf, fMap, s[..i], op, s[i + |Pattern(op)|..])
  {
    hide Pick, Pattern, Branch, ToUpper;
    PickInside(ToUpper(s), 0);
  }

  lemma BranchCrashes(pf: ParseFloat, fMap: map<string, Field>, left: string, op: Op, rest: string)
    ensures Branch(pf, fMap, left, op, rest).Crash? <==>
            && ListOp(op)
            && TrimSpace(left) in fMap
            && (fMap[TrimSpace(left)].kind == StringKind || Numeric(fMap[TrimSpace(left)].kind))
            && TrimSpace(rest) == []
  {
    hide Operand;
    if TrimSpace(left) in fMap {
      OperandCrashes(pf, fMap[TrimSpace(left)].kind, op, rest);
    }
  }

  lemma OperandCrashes(pf: ParseFloat, kind: Kind, op: Op, rest: string)
    ensures Operand(pf, kind, op, rest).Crash? <==>
            ListOp(op) && (kind == StringKind || Numeric(kind)) && TrimSpace(rest) == []
  {
  }
}
