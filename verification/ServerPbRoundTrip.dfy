/** Marshalling and unmarshalling undo each other, and re-marshalling never grows a message. */
module ServerPbRoundTrip {
  import opened Bits
  import opened Varint
  import opened ServerPb
  import opened Skip
  import opened ServerPbLaws

  function Empty(m: Message): Message {
    if m.Request? then EMPTY_REQUEST else EMPTY_RESPONSE
  }

  // ------------------------------------------------------------------ the fields Marshal writes

  function BytesFields(tag: byte, p: bytes): Fields {
    if p == [] then Nil else Cons(LenField([tag], Encoding(|p|), p), Nil)
  }

  function BoolFields(b: bool): Fields {
    if b then Cons(VarintField([0x8], [1]), Nil) else Nil
  }

  lemma OneByte(b: byte)
    requires b < 128
    ensures IsVarint([b]) && Decode([b], 0).v == b
  {
    assert Encoding(b) == [b];
    assert [b][0..1] == [b];
    DecodeEncoding(b, [b], 0);
  }

  lemma BytesFieldsApply(m: Message, num: int, p: bytes)
    requires ShapeOf(m, num).BytesField? && |p| < TWO_63
    ensures AllWellFormed(BytesFields(8 * num + 2, p)) && AllAllowed(m, BytesFields(8 * num + 2, p))
    ensures AllText(BytesFields(8 * num + 2, p)) == LenText(8 * num + 2, p)
    ensures ApplyAll(m, BytesFields(8 * num + 2, p)) == (if p == [] then m else WithBytes(m, num, p))
  {
    if p != [] {
      var tag: byte := 8 * num + 2;
      var len := Encoding(|p|);
      OneByte(tag);
      assert len[0..|len|] == len;
      DecodeEncoding(|p|, len, 0);
      var f := LenField([tag], len, p);
      assert WellFormed(f) && FieldNum(f) == num;
      assert AllText(Cons(f, Nil)) == [tag] + len + p + [];
    }
  }

  lemma BoolFieldsApply(m: Message, b: bool)
    requires m.Response?
    ensures AllWellFormed(BoolFields(b)) && AllAllowed(m, BoolFields(b))
    ensures AllText(BoolFields(b)) == BoolText(b)
    ensures ApplyAll(m, BoolFields(b)) == (if b then m.(success := true) else m)
  {
    if b {
      OneByte(8);
      OneByte(1);
      var f := VarintField([0x8], [1]);
      assert WellFormed(f) && FieldNum(f) == 1;
      assert AllText(Cons(f, Nil)) == [0x8] + [1] + [];
    }
  }

  /** fs leads from m to m' and reads t. */
  ghost predicate Leads(m: Message, fs: Fields, m': Message, t: bytes) {
    AllWellFormed(fs) && AllAllowed(m, fs) && ApplyAll(m, fs) == m' && AllText(fs) == t
  }

  lemma LeadsOn(m: Message, fs: Fields, m1: Message, t: bytes, gs: Fields, m2: Message, u: bytes)
    requires Leads(m, fs, m1, t) && Leads(m1, gs, m2, u)
    ensures Leads(m, Append(fs, gs), m2, t + u)
  {
    AllowedKind(m, m1, gs);
    AppendLaws(m, fs, gs);
  }

  lemma BytesLead(m: Message, num: int, p: bytes) returns (fs: Fields)
    requires ShapeOf(m, num).BytesField? && |p| < TWO_63
    ensures Leads(m, fs, if p == [] then m else WithBytes(m, num, p), LenText(8 * num + 2, p))
  {
    fs := BytesFields(8 * num + 2, p);
    BytesFieldsApply(m, num, p);
  }

  /** The bytes Marshal writes for the known fields are fields that set them. */
  lemma KnownFields(m: Message) returns (fs: Fields)
    requires |KnownText(m)| < TWO_63
    ensures Leads(Empty(m), fs, WithUnrecognized(m, []), KnownText(m))
  {
    hide Leads, LenText;
    var m0 := Empty(m);
    match m {
      case Request(name, slot, encoding, params, _) =>
        var m1 := m0.(name := name);
        var m2 := m1.(slot := slot);
        var m3 := m2.(encoding := encoding);
        var m4 := m3.(params := params);
        fs := BytesLead(m0, 1, name);
        var g := BytesLead(m1, 2, slot);
        LeadsOn(m0, fs, m1, LenText(0xa, name), g, m2, LenText(0x12, slot));
        fs := Append(fs, g);
        g := BytesLead(m2, 3, encoding);
        LeadsOn(m0, fs, m2, LenText(0xa, name) + LenText(0x12, slot), g, m3, LenText(0x1a, encoding));
        fs := Append(fs, g);
        g := BytesLead(m3, 4, params);
        LeadsOn(m0, fs, m3, LenText(0xa, name) + LenText(0x12, slot) + LenText(0x1a, encoding),
                g, m4, LenText(0x22, params));
        fs := Append(fs, g);
      case Response(success, message, data, _) =>
        var m1 := m0.(success := success);
        var m2 := m1.(message := message);
        var m3 := m2.(data := data);
        fs := BoolLead(m0, success);
        var g := BytesLead(m1, 2, message);
        LeadsOn(m0, fs, m1, BoolText(success), g, m2, LenText(0x12, message));
        fs := Append(fs, g);
        g := BytesLead(m2, 3, data);
        LeadsOn(m0, fs, m2, BoolText(success) + LenText(0x12, message), g, m3, LenText(0x1a, data));
        fs := Append(fs, g);
    }
  }

  lemma BoolLead(m: Message, b: bool) returns (fs: Fields)
    requires m.Response?
    ensures Leads(m, fs, if b then m.(success := true) else m, BoolText(b))
  {
    fs := BoolFields(b);
    BoolFieldsApply(m, b);
  }

  // ------------------------------------------------------------------ round trips

  lemma EmptyClean(m: Message)
    requires m.unrecognized == []
    ensures CleanUnknowns(m)
  {
    assert AllWellFormed(Nil) && AllUnknown(m, Nil) && AllText(Nil) == m.unrecognized;
  }

  lemma CleanRoundTrips(m: Message)
    requires |MessageText(m)| < TWO_63 && CleanUnknowns(m)
    ensures Parse(Empty(m), MessageText(m), 0) == Outcome(m, NoError)
  {
    var us :| AllWellFormed(us) && AllUnknown(m, us) && AllText(us) == m.unrecognized;
    var fs := KnownFields(m);
    var m0, known := Empty(m), WithUnrecognized(m, []);
    UnknownKind(m, known, us);
    UnknownsApply(known, us);
    assert [] + m.unrecognized == m.unrecognized;
    LeadsOn(m0, fs, known, KnownText(m), us, m, m.unrecognized);
    hide KnownText, AllText, ApplyAll, AllAllowed, AllWellFormed;
    AcceptsIsGrammar(m0, MessageText(m));
  }

  lemma AcceptedIsClean(m0: Message, d: bytes)
    requires |d| < TWO_63 && m0.unrecognized == [] && Accepts(m0, d)
    ensures CleanUnknowns(Parse(m0, d, 0).m)
  {
    hide Parse, AllText, AllAllowed, ApplyAll, CleanUnknowns;
    AcceptsIsGrammar(m0, d);
    var fs :| AllWellFormed(fs) && AllAllowed(m0, fs) && AllText(fs) == d;
    EmptyClean(m0);
    ApplyKeepsClean(m0, fs);
  }

  /**
   * Unmarshal of Marshal gives the message back exactly when its unrecognised bytes are balanced
   * fields that its kind does not define; in particular whenever there are none.
   */
  lemma RoundTrip(m: Message)
    requires |MessageText(m)| < TWO_63
    ensures Parse(Empty(m), MessageText(m), 0) == Outcome(m, NoError) <==> CleanUnknowns(m)
    ensures m.unrecognized == [] ==> CleanUnknowns(m)
  {
    hide Parse, CleanUnknowns, MessageText;
    if CleanUnknowns(m) {
      CleanRoundTrips(m);
    }
    if Parse(Empty(m), MessageText(m), 0) == Outcome(m, NoError) {
      AcceptedIsClean(Empty(m), MessageText(m));
    }
    if m.unrecognized == [] {
      EmptyClean(m);
    }
  }

  lemma LenTextBound(tag: byte, f: Field)
    requires WellFormed(f) && f.LenField?
    ensures |LenText(tag, f.body)| <= |FieldText(f)|
  {
    DecodeBound(f.len, 0);
  }

  /** A field adds no more to the marshalled message than it occupied itself. */
  lemma ApplyBound(m: Message, f: Field)
    requires WellFormed(f) && Allowed(m, f)
    ensures |MessageText(Apply(m, f))| <= |MessageText(m)| + |FieldText(f)|
  {
    match ShapeOf(m, FieldNum(f)) {
      case BoolField =>
      case BytesField =>
        LenTextBound(0xa, f);
        LenTextBound(0x12, f);
        LenTextBound(0x1a, f);
        LenTextBound(0x22, f);
        WithBytesBound(m, FieldNum(f), f.body, |FieldText(f)|);
      case UnknownField =>
    }
  }

  lemma WithBytesBound(m: Message, num: int, p: bytes, n: nat)
    requires ShapeOf(m, num).BytesField?
    requires |LenText(0xa, p)| <= n && |LenText(0x12, p)| <= n
    requires |LenText(0x1a, p)| <= n && |LenText(0x22, p)| <= n
    ensures |MessageText(WithBytes(m, num, p))| <= |MessageText(m)| + n
  {
    hide LenText;
  }

  lemma {:induction false} ApplyAllBound(m: Message, fs: Fields)
    requires AllWellFormed(fs) && AllAllowed(m, fs)
    ensures |MessageText(ApplyAll(m, fs))| <= |MessageText(m)| + |AllText(fs)|
    decreases fs
  {
    hide MessageText, Apply;
    if fs.Nil? {
    } else {
      ApplyBound(m, fs.head);
      ApplyKind(m, fs.head);
      AllowedKind(m, Apply(m, fs.head), fs.tail);
      ApplyAllBound(Apply(m, fs.head), fs.tail);
    }
  }

  /**
   * Normalisation is stable: whatever Unmarshal accepts, marshalling the result takes no more bytes
   * and unmarshals to the same message, unknown fields included byte for byte.
   */
  lemma Normalisation(m0: Message, d: bytes)
    requires |d| < TWO_63 && m0 == Empty(m0) && Accepts(m0, d)
    ensures |MessageText(Parse(m0, d, 0).m)| <= |d|
    ensures Parse(m0, MessageText(Parse(m0, d, 0).m), 0) == Parse(m0, d, 0)
    ensures MessageText(Parse(m0, MessageText(Parse(m0, d, 0).m), 0).m) == MessageText(Parse(m0, d, 0).m)
  {
    AcceptedIsClean(m0, d);
    hide CleanUnknowns, MessageText;
    AcceptsIsGrammar(m0, d);
    var fs :| AllWellFormed(fs) && AllAllowed(m0, fs) && AllText(fs) == d;
    var m := ApplyAll(m0, fs);
    ApplyAllBound(m0, fs);
    assert |MessageText(m0)| == 0 by { EmptyText(m0); }
    RoundTrip(m);
  }

  lemma EmptyText(m0: Message)
    requires m0 == Empty(m0)
    ensures MessageText(m0) == []
  {
  }
}
