/** What the codec of core/server.pb.go promises: concatenation, round trips, exact acceptance. */
module ServerPbLaws {
  import opened Bits
  import opened Varint
  import opened ServerPb
  import opened Skip

  // ------------------------------------------------------------------ locality

  /** d' repeats at i' what d holds at [i..j]. */
  predicate Same(d: bytes, i: nat, j: nat, d': bytes, i': nat) {
    i <= j <= |d| && i' + (j - i) <= |d'| && d[i..j] == d'[i'..i' + (j - i)]
  }

  lemma SameWithin(d: bytes, i: nat, j: nat, d': bytes, i': nat, a: nat, b: nat)
    requires Same(d, i, j, d', i') && i <= a <= b <= j
    ensures Same(d, a, b, d', i' + (a - i))
  {
    var x, y := a - i, b - i;
    SliceOfSlice(d, i, j, x, y);
    SliceOfSlice(d', i', i' + (j - i), x, y);
  }

  lemma SliceOfSlice(s: bytes, lo: nat, hi: nat, x: nat, y: nat)
    requires lo <= hi <= |s| && x <= y <= hi - lo
    ensures s[lo..hi][x..y] == s[lo + x..lo + y]
  {
    var t, u := s[lo..hi][x..y], s[lo + x..lo + y];
    forall k | 0 <= k < y - x
      ensures t[k] == u[k]
    {
      assert t[k] == s[lo..hi][x + k] == s[lo + (x + k)];
    }
    assert t == u;
  }

  // ------------------------------------------------------------------ the grammar of a message

  /** Everything of a field after its tag. */
  function Rest(f: Field): bytes {
    match f
    case VarintField(_, body) => body
    case Fixed64(_, body) => body
    case LenField(_, len, body) => len + body
    case Group(_, items, end) => AllText(items) + end
    case Fixed32(_, body) => body
  }

  lemma TagThenRest(f: Field)
    ensures FieldText(f) == f.tag + Rest(f)
  {
    match f {
      case LenField(tag, len, body) => assert tag + (len + body) == tag + len + body;
      case Group(tag, items, end) => assert tag + (AllText(items) + end) == tag + AllText(items) + end;
      case _ =>
    }
  }

  function WireType(f: Field): nat {
    match f
    case VarintField(_, _) => 0
    case Fixed64(_, _) => 1
    case LenField(_, _, _) => 2
    case Group(_, _, _) => 3
    case Fixed32(_, _) => 5
  }

  function FieldNum(f: Field): int
    requires WellFormed(f)
  {
    ToInt32(Decode(f.tag, 0).v / 8)
  }

  /** A field that stands at i is read as its tag followed by the rest. */
  lemma TagAt(f: Field, d: bytes, i: nat)
    requires WellFormed(f) && At(d, i, FieldText(f))
    ensures IsTag(f.tag, WireType(f))
    ensures Decode(d, i) == Value(Decode(f.tag, 0).v, i + |f.tag|)
    ensures At(d, i + |f.tag|, Rest(f)) && |FieldText(f)| == |f.tag| + |Rest(f)|
  {
    TagThenRest(f);
    AtSplit(d, i, f.tag, Rest(f));
    VarintAt(d, i, f.tag);
  }

  predicate Allowed(m: Message, f: Field)
    requires WellFormed(f)
  {
    var fieldNum := FieldNum(f);
    && fieldNum > 0
    && (ShapeOf(m, fieldNum).BoolField? ==> f.VarintField?)
    && (ShapeOf(m, fieldNum).BytesField? ==> f.LenField?)
  }

  predicate AllAllowed(m: Message, fs: Fields)
    requires AllWellFormed(fs)
  {
    match fs
    case Nil => true
    case Cons(f, rest) => Allowed(m, f) && AllAllowed(m, rest)
  }

  /** The field that a successful round consumed. */
  lemma StepField(m: Message, d: bytes, i: nat) returns (f: Field, j: nat)
    requires i < |d| < TWO_63 && Step(m, d, i).Next?
    ensures WellFormed(f) && Allowed(m, f) && j == Step(m, d, i).j
    ensures At(d, i, FieldText(f)) && At(d, i, f.tag + Rest(f)) && j == i + |FieldText(f)|
  {
    j := Step(m, d, i).j;
    var tag := VarintHere(d, i);
    match ShapeOf(m, ToInt32(Decode(d, i).v / 8)) {
      case BoolField =>
        var body := VarintHere(d, i + |tag|);
        f := VarintField(tag, body);
        AtSplit(d, i, tag, body);
      case BytesField =>
        f := SpanField(d, i, tag);
      case UnknownField =>
        f := RawField(m, d, i);
    }
    TagThenRest(f);
    AtSplit(d, i, f.tag, Rest(f));
    VarintAt(d, i, f.tag);
  }

  lemma ThreeAt(a: bytes, b: bytes, c: bytes, d: bytes, i: nat)
    requires At(d, i, a) && At(d, i + |a|, b) && At(d, i + |a| + |b|, c)
    ensures At(d, i, a + b + c)
  {
    AtSplit(d, i, a, b);
    AtSplit(d, i, a + b, c);
  }

  lemma SpanField(d: bytes, i: nat, tag: bytes) returns (f: Field)
    requires |d| < TWO_63
    requires IsTag(tag, 2) && At(d, i, tag) && LenSpan(d, i + |tag|).Span?
    ensures f.LenField? && f.tag == tag && WellFormed(f) && At(d, i, FieldText(f))
    ensures i + |FieldText(f)| == LenSpan(d, i + |tag|).to
    ensures f.body == d[LenSpan(d, i + |tag|).from..LenSpan(d, i + |tag|).to]
  {
    var len := VarintHere(d, i + |tag|);
    DecodeBound(d, i + |tag|);
    var span := LenSpan(d, i + |tag|);
    var body := d[span.from..span.to];
    f := LenField(tag, len, body);
    ThreeAt(tag, len, body, d, i);
  }

  lemma RawField(m: Message, d: bytes, i: nat) returns (f: Field)
    requires i < |d| < TWO_63 && UnknownStep(m, d, i).Next?
    ensures WellFormed(f) && At(d, i, FieldText(f))
    ensures i + |FieldText(f)| == UnknownStep(m, d, i).j
  {
    SkipInt64(d[i..], 0, 0);
    f := SkippedField(d[i..]);
    var n := |FieldText(f)|;
    SliceOfSlice(d, i, |d|, 0, n);
  }

  /** What one field does to a message. */
  function Apply(m: Message, f: Field): Message
    requires WellFormed(f) && Allowed(m, f)
  {
    var fieldNum := FieldNum(f);
    match ShapeOf(m, fieldNum)
    case BoolField => m.(success := ToInt64(Decode(f.body, 0).v) != 0)
    case BytesField => WithBytes(m, fieldNum, f.body)
    case UnknownField => WithUnrecognized(m, m.unrecognized + FieldText(f))
  }

  predicate SameKind(m: Message, m': Message) {
    m.Request? <==> m'.Request?
  }

  /** An allowed field makes one round of Unmarshal succeed, whatever stands around it. */
  lemma FieldSteps(m: Message, f: Field, d: bytes, i: nat)
    requires |d| < TWO_63 && WellFormed(f) && Allowed(m, f) && At(d, i, FieldText(f))
    ensures i < |d| && Step(m, d, i) == Next(Apply(m, f), i + |FieldText(f)|)
  {
    hide BytesStep, UnknownStep, WithBytes, WithUnrecognized, Decode, FieldText;
    TagAt(f, d, i);
    match ShapeOf(m, FieldNum(f)) {
      case BoolField =>
        BoolSteps(m, f.body, d, i + |f.tag|);
      case BytesField =>
        BytesSteps(m, FieldNum(f), f.len, f.body, d, i + |f.tag|);
      case UnknownField =>
        RawSteps(m, f, d, i);
    }
  }

  lemma BoolSteps(m: Message, body: bytes, d: bytes, i: nat)
    requires m.Response? && IsVarint(body) && At(d, i, body)
    ensures BoolStep(m, d, i) == Next(m.(success := ToInt64(Decode(body, 0).v) != 0), i + |body|)
  {
    VarintAt(d, i, body);
  }

  lemma BytesSteps(m: Message, fieldNum: int, len: bytes, body: bytes, d: bytes, i: nat)
    requires |d| < TWO_63 && ShapeOf(m, fieldNum).BytesField?
    requires IsVarint(len) && |body| == Decode(len, 0).v && At(d, i, len + body)
    ensures BytesStep(m, fieldNum, d, i) == Next(WithBytes(m, fieldNum, body), i + |len + body|)
  {
    AtSplit(d, i, len, body);
    VarintAt(d, i, len);
    assert LenSpan(d, i) == Span(i + |len|, i + |len| + |body|);
  }

  lemma RawSteps(m: Message, f: Field, d: bytes, i: nat)
    requires |d| < TWO_63 && WellFormed(f) && At(d, i, FieldText(f)) && i < |d|
    ensures UnknownStep(m, d, i)
         == Next(WithUnrecognized(m, m.unrecognized + FieldText(f)), i + |FieldText(f)|)
  {
    SliceOfSlice(d, i, |d|, 0, |FieldText(f)|);
    FieldSkips(f, d[i..], 0, 0);
  }

  /** A round that succeeds reads only the bytes it consumes. */
  lemma StepRelocate(m: Message, d: bytes, i: nat, d': bytes, i': nat)
    requires i < |d| < TWO_63 && |d'| < TWO_63
    requires Step(m, d, i).Next? && Same(d, i, Step(m, d, i).j, d', i')
    ensures i' < |d'|
    ensures Step(m, d', i') == Step(m, d, i).(j := i' + (Step(m, d, i).j - i))
  {
    var f, j := StepField(m, d, i);
    hide Step, Rest, FieldText, Apply;
    FieldSteps(m, f, d, i);
    FieldSteps(m, f, d', i');
  }

  // ------------------------------------------------------------------ concatenation

  lemma {:induction false} ParseRelocate(m: Message, d: bytes, i: nat, d': bytes, i': nat)
    requires i <= |d| < TWO_63 && |d'| < TWO_63
    requires Parse(m, d, i).err == NoError && Same(d, i, |d|, d', i')
    ensures Parse(m, d', i') == Parse(Parse(m, d, i).m, d', i' + (|d| - i))
    decreases |d| - i
  {
    hide Step;
    if i < |d| {
      var j := Step(m, d, i).j;
      SameWithin(d, i, |d|, d', i', i, j);
      SameWithin(d, i, |d|, d', i', j, |d|);
      StepRelocate(m, d, i, d', i');
      ParseRelocate(Step(m, d, i).m, d, j, d', i' + (j - i));
    }
  }

  /**
   * Unmarshalling a ++ b is unmarshalling a and then b into the same message: accepted together
   * exactly when b is accepted, with the same resulting message ("last one wins").
   */
  lemma Concatenation(m: Message, a: bytes, b: bytes)
    requires |a| + |b| < TWO_63 && Accepts(m, a)
    ensures Accepts(m, a + b) <==> Accepts(Parse(m, a, 0).m, b)
    ensures Accepts(m, a + b) ==> Parse(m, a + b, 0) == Parse(Parse(m, a, 0).m, b, 0)
  {
    hide Step;
    var ab := a + b;
    var m1 := Parse(m, a, 0).m;
    assert ab[0..|a|] == a && a[0..|a|] == a;
    ParseRelocate(m, a, 0, ab, 0);
    assert ab[|a|..|ab|] == b && b[0..|b|] == b;
    if Accepts(m1, b) {
      ParseRelocate(m1, b, 0, ab, |a|);
    }
    if Parse(m1, ab, |a|).err == NoError {
      ParseRelocate(m1, ab, |a|, b, 0);
    }
  }

  // ------------------------------------------------------------------ acceptance

  lemma {:induction false} AllowedKind(m: Message, m': Message, fs: Fields)
    requires AllWellFormed(fs) && SameKind(m, m')
    ensures AllAllowed(m, fs) <==> AllAllowed(m', fs)
  {
    if fs.Nil? {
    } else {
      AllowedKind(m, m', fs.tail);
    }
  }

  lemma ApplyKind(m: Message, f: Field)
    requires WellFormed(f) && Allowed(m, f)
    ensures SameKind(m, Apply(m, f))
  {
  }

  function ApplyAll(m: Message, fs: Fields): (r: Message)
    requires AllWellFormed(fs) && AllAllowed(m, fs)
    ensures SameKind(m, r)
    decreases fs
  {
    match fs
    case Nil => m
    case Cons(f, rest) => AllowedKind(m, Apply(m, f), rest); ApplyAll(Apply(m, f), rest)
  }

  lemma FirstAt(f: Field, rest: Fields, d: bytes, i: nat)
    requires i <= |d| && AllText(Cons(f, rest)) == d[i..]
    ensures At(d, i, FieldText(f)) && i + |FieldText(f)| <= |d| && AllText(rest) == d[i + |FieldText(f)|..]
  {
    hide FieldText;
    var n := |FieldText(f)|;
    SliceOfSlice(d, i, |d|, 0, n);
    SliceOfSlice(d, i, |d|, n, |d| - i);
    assert d[i..|d|] == d[i..] && d[i + n..|d|] == d[i + n..];
    assert d[i..][..n] == FieldText(f) && d[i..][n..] == AllText(rest);
  }

  lemma LastAt(f: Field, rest: Fields, d: bytes, i: nat)
    requires At(d, i, FieldText(f)) && AllText(rest) == d[i + |FieldText(f)|..]
    ensures AllText(Cons(f, rest)) == d[i..]
  {
    hide FieldText;
    var j := i + |FieldText(f)|;
    assert d[i..] == d[i..j] + d[j..];
  }

  lemma {:induction false} FieldsParse(m: Message, fs: Fields, d: bytes, i: nat)
    requires i <= |d| < TWO_63 && AllWellFormed(fs) && AllAllowed(m, fs) && AllText(fs) == d[i..]
    ensures Parse(m, d, i) == Outcome(ApplyAll(m, fs), NoError)
    decreases fs
  {
    match fs {
      case Nil =>
        assert |d[i..]| == 0;
      case Cons(f, rest) =>
        var j := i + |FieldText(f)|;
        FirstAt(f, rest, d, i);
        FieldSteps(m, f, d, i);
        ApplyKind(m, f);
        AllowedKind(m, Apply(m, f), rest);
        hide Step, Apply, FieldText, Decode;
        FieldsParse(Apply(m, f), rest, d, j);
    }
  }

  lemma {:induction false} ParsedFields(m: Message, d: bytes, i: nat) returns (fs: Fields)
    requires i <= |d| < TWO_63 && Parse(m, d, i).err == NoError
    ensures AllWellFormed(fs) && AllAllowed(m, fs) && AllText(fs) == d[i..]
    decreases |d| - i
  {
    if i == |d| {
      fs := Nil;
    } else {
      var f, j := StepField(m, d, i);
      FieldSteps(m, f, d, i);
      ApplyKind(m, f);
      hide Step, Apply, FieldText, Decode, Rest, At;
      var rest := ParsedFields(Apply(m, f), d, j);
      AllowedKind(m, Apply(m, f), rest);
      fs := Cons(f, rest);
      LastAt(f, rest, d, i);
    }
  }

  /**
   * Unmarshal accepts exactly the sequences of balanced fields whose field numbers are positive
   * and whose known fields carry their own wire type, and then applies them in order.
   */
  lemma AcceptsIsGrammar(m: Message, d: bytes)
    requires |d| < TWO_63
    ensures Accepts(m, d) <==> exists fs :: AllWellFormed(fs) && AllAllowed(m, fs) && AllText(fs) == d
    ensures forall fs :: AllWellFormed(fs) && AllAllowed(m, fs) && AllText(fs) == d ==>
                         Parse(m, d, 0) == Outcome(ApplyAll(m, fs), NoError)
  {
    assert d[0..] == d;
    if Accepts(m, d) {
      var fs := ParsedFields(m, d, 0);
      assert AllWellFormed(fs) && AllAllowed(m, fs) && AllText(fs) == d;
    }
    forall fs | AllWellFormed(fs) && AllAllowed(m, fs) && AllText(fs) == d
      ensures Parse(m, d, 0) == Outcome(ApplyAll(m, fs), NoError)
    {
      FieldsParse(m, fs, d, 0);
    }
  }

  // ------------------------------------------------------------------ round trips

  function Append(a: Fields, b: Fields): Fields {
    match a
    case Nil => b
    case Cons(f, rest) => Cons(f, Append(rest, b))
  }

  lemma {:induction false} AppendLaws(m: Message, a: Fields, b: Fields)
    requires AllWellFormed(a) && AllWellFormed(b) && AllAllowed(m, a) && AllAllowed(m, b)
    ensures AllWellFormed(Append(a, b)) && AllAllowed(m, Append(a, b))
    ensures AllText(Append(a, b)) == AllText(a) + AllText(b)
    ensures AllAllowed(ApplyAll(m, a), b)
    ensures ApplyAll(m, Append(a, b)) == ApplyAll(ApplyAll(m, a), b)
    decreases a
  {
    AllowedKind(m, ApplyAll(m, a), b);
    match a {
      case Nil =>
      case Cons(f, rest) =>
        var m' := Apply(m, f);
        AllowedKind(m, m', rest);
        AllowedKind(m, m', b);
        AppendLaws(m', rest, b);
        AllowedKind(m, m', Append(rest, b));
        assert FieldText(f) + (AllText(rest) + AllText(b)) == FieldText(f) + AllText(rest) + AllText(b);
    }
  }

  /** All fields are unknown to messages of m's kind. */
  predicate AllUnknown(m: Message, fs: Fields)
    requires AllWellFormed(fs)
  {
    match fs
    case Nil => true
    case Cons(f, rest) =>
      var fieldNum := FieldNum(f);
      fieldNum > 0 && ShapeOf(m, fieldNum).UnknownField? && AllUnknown(m, rest)
  }

  lemma {:induction false} UnknownsApply(m: Message, us: Fields)
    requires AllWellFormed(us) && AllUnknown(m, us)
    ensures AllAllowed(m, us)
    ensures ApplyAll(m, us) == WithUnrecognized(m, m.unrecognized + AllText(us))
    decreases us
  {
    match us {
      case Nil =>
        assert m.unrecognized + [] == m.unrecognized;
      case Cons(f, rest) =>
        var m' := WithUnrecognized(m, m.unrecognized + FieldText(f));
        UnknownKind(m, m', rest);
        UnknownsApply(m', rest);
        AllowedKind(m, m', rest);
        assert m.unrecognized + FieldText(f) + AllText(rest) == m.unrecognized + (FieldText(f) + AllText(rest));
    }
  }

  lemma {:induction false} UnknownKind(m: Message, m': Message, us: Fields)
    requires AllWellFormed(us) && SameKind(m, m')
    ensures AllUnknown(m, us) <==> AllUnknown(m', us)
  {
    if us.Nil? {
    } else {
      UnknownKind(m, m', us.tail);
    }
  }

  /** The unrecognised bytes are balanced fields with numbers that m's kind does not define. */
  ghost predicate CleanUnknowns(m: Message) {
    exists us :: AllWellFormed(us) && AllUnknown(m, us) && AllText(us) == m.unrecognized
  }

  lemma {:induction false} ApplyKeepsClean(m: Message, fs: Fields)
    requires AllWellFormed(fs) && AllAllowed(m, fs) && CleanUnknowns(m)
    ensures CleanUnknowns(ApplyAll(m, fs))
    decreases fs
  {
    match fs {
      case Nil =>
      case Cons(f, rest) =>
        var m' := Apply(m, f);
        var us :| AllWellFormed(us) && AllUnknown(m, us) && AllText(us) == m.unrecognized;
        if ShapeOf(m, FieldNum(f)).UnknownField? {
          AppendUnknown(m, us, f);
          UnknownKind(m, m', Append(us, Cons(f, Nil)));
        } else {
          UnknownKind(m, m', us);
        }
        assert CleanUnknowns(m');
        AllowedKind(m, m', rest);
        ApplyKeepsClean(m', rest);
    }
  }

  lemma {:induction false} AppendUnknown(m: Message, us: Fields, f: Field)
    requires AllWellFormed(us) && AllUnknown(m, us) && WellFormed(f) && AllUnknown(m, Cons(f, Nil))
    ensures AllWellFormed(Append(us, Cons(f, Nil))) && AllUnknown(m, Append(us, Cons(f, Nil)))
    ensures AllText(Append(us, Cons(f, Nil))) == AllText(us) + FieldText(f)
  {
    match us {
      case Nil =>
        assert FieldText(f) + [] == [] + FieldText(f);
      case Cons(u, rest) =>
        AppendUnknown(m, rest, f);
        assert FieldText(u) + (AllText(rest) + FieldText(f)) == FieldText(u) + AllText(rest) + FieldText(f);
    }
  }
}
