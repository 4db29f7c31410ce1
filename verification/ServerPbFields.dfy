/** What unmarshalling leaves, field by field: the last one wins, and an error keeps what was read. */
module ServerPbFields {
  import opened Wrappers
  import opened Bits
  import opened Varint
  import opened ServerPb
  import opened Skip
  import opened ServerPbLaws

  // ------------------------------------------------------------------ last one wins

  /** The body of the last field with that number. */
  function LastBody(fs: Fields, num: int): Option<bytes>
    requires AllWellFormed(fs)
  {
    match fs
    case Nil => None
    case Cons(f, rest) =>
      match LastBody(rest, num)
      case Some(b) => Some(b)
      case None => if FieldNum(f) == num && !f.Group? then Some(f.body) else None
  }

  function Final(fs: Fields, num: int, before: bytes): bytes
    requires AllWellFormed(fs)
  {
    match LastBody(fs, num)
    case Some(b) => b
    case None => before
  }

  /** The fields with numbers above those that the message defines, in order. */
  function TextAbove(fs: Fields, num: int): bytes
    requires AllWellFormed(fs)
  {
    match fs
    case Nil => []
    case Cons(f, rest) => (if FieldNum(f) > num then FieldText(f) else []) + TextAbove(rest, num)
  }

  /** m' is what the fields make of m. */
  predicate Reads(m: Message, fs: Fields, m': Message)
    requires AllWellFormed(fs)
  {
    match m
    case Request(name, slot, encoding, params, unrecognized) =>
      && m'.Request?
      && m'.name == Final(fs, 1, name)
      && m'.slot == Final(fs, 2, slot)
      && m'.encoding == Final(fs, 3, encoding)
      && m'.params == Final(fs, 4, params)
      && m'.unrecognized == unrecognized + TextAbove(fs, 4)
    case Response(success, message, data, unrecognized) =>
      && m'.Response?
      && m'.success == (match LastBody(fs, 1) case Some(b) => Decode(b, 0).Value? && Decode(b, 0).v != 0
                                              case None => success)
      && m'.message == Final(fs, 2, message)
      && m'.data == Final(fs, 3, data)
      && m'.unrecognized == unrecognized + TextAbove(fs, 3)
  }

  lemma NonZero(b: bytes)
    requires IsVarint(b)
    ensures (ToInt64(Decode(b, 0).v) != 0) == (Decode(b, 0).v != 0)
  {
    DecodeBound(b, 0);
  }

  lemma FinalCons(f: Field, rest: Fields, num: int, before: bytes)
    requires WellFormed(f) && AllWellFormed(rest)
    ensures Final(Cons(f, rest), num, before)
         == Final(rest, num, if FieldNum(f) == num && !f.Group? then f.body else before)
  {
    hide FieldNum, WellFormed;
  }

  lemma AboveCons(f: Field, rest: Fields, num: int, u: bytes)
    requires WellFormed(f) && AllWellFormed(rest)
    ensures u + TextAbove(Cons(f, rest), num)
         == (if FieldNum(f) > num then u + FieldText(f) else u) + TextAbove(rest, num)
  {
    hide FieldNum, WellFormed, FieldText;
    assert u + (FieldText(f) + TextAbove(rest, num)) == u + FieldText(f) + TextAbove(rest, num);
    assert u + ([] + TextAbove(rest, num)) == u + TextAbove(rest, num);
  }

  /** One field sets its own slot and leaves the others. */
  lemma OneReads(m: Message, f: Field, rest: Fields, m': Message)
    requires WellFormed(f) && Allowed(m, f) && AllWellFormed(rest)
    requires Reads(Apply(m, f), rest, m')
    ensures Reads(m, Cons(f, rest), m')
  {
    match m {
      case Request(_, _, _, _, _) => RequestReads(m, f, rest, m');
      case Response(_, _, _, _) => ResponseReads(m, f, rest, m');
    }
  }

  lemma RequestReads(m: Message, f: Field, rest: Fields, m': Message)
    requires m.Request? && WellFormed(f) && Allowed(m, f) && AllWellFormed(rest)
    requires Reads(Apply(m, f), rest, m')
    ensures Reads(m, Cons(f, rest), m')
  {
    FinalCons(f, rest, 1, m.name);
    FinalCons(f, rest, 2, m.slot);
    FinalCons(f, rest, 3, m.encoding);
    FinalCons(f, rest, 4, m.params);
    AboveCons(f, rest, 4, m.unrecognized);
    hide Final, LastBody, TextAbove, FieldNum, WellFormed, FieldText, AllWellFormed;
  }

  lemma ResponseReads(m: Message, f: Field, rest: Fields, m': Message)
    requires m.Response? && WellFormed(f) && Allowed(m, f) && AllWellFormed(rest)
    requires Reads(Apply(m, f), rest, m')
    ensures Reads(m, Cons(f, rest), m')
  {
    if f.VarintField? {
      NonZero(f.body);
    }
    FinalCons(f, rest, 2, m.message);
    FinalCons(f, rest, 3, m.data);
    AboveCons(f, rest, 3, m.unrecognized);
    hide Final, TextAbove, FieldNum, FieldText, AllWellFormed, Decode;
  }

  lemma {:induction false} AllRead(m: Message, fs: Fields)
    requires AllWellFormed(fs) && AllAllowed(m, fs)
    ensures Reads(m, fs, ApplyAll(m, fs))
    decreases fs
  {
    match fs {
      case Nil =>
        assert m.unrecognized + [] == m.unrecognized;
      case Cons(f, rest) =>
        AllowedKind(m, Apply(m, f), rest);
        AllRead(Apply(m, f), rest);
        hide Apply, Reads;
        OneReads(m, f, rest, ApplyAll(m, fs));
    }
  }

  /**
   * Last one wins: after an accepted input every field of the message holds the body of the last field
   * with its number, whatever was there before, and its old value if there is none; the fields with
   * other numbers are appended to the unrecognised bytes.
   */
  lemma LastOneWins(m: Message, d: bytes, fs: Fields)
    requires |d| < TWO_63 && AllWellFormed(fs) && AllAllowed(m, fs) && AllText(fs) == d
    ensures Parse(m, d, 0).err == NoError && Reads(m, fs, Parse(m, d, 0).m)
  {
    hide Parse, Reads, AllText, AllAllowed, ApplyAll;
    AcceptsIsGrammar(m, d);
    AllRead(m, fs);
  }

  // ------------------------------------------------------------------ errors

  lemma {:induction false} ReadUpTo(m: Message, d: bytes, i: nat) returns (fs: Fields, k: nat)
    requires i <= |d| < TWO_63
    ensures AllWellFormed(fs) && AllAllowed(m, fs) && i <= k <= |d| && AllText(fs) == d[i..k]
    ensures Parse(m, d, i).m == ApplyAll(m, fs)
    ensures k < |d| ==> Step(ApplyAll(m, fs), d, k) == Stop(Parse(m, d, i).err)
    ensures k == |d| ==> Parse(m, d, i).err == NoError
    decreases |d| - i
  {
    if i == |d| || Step(m, d, i).Stop? {
      hide Step;
      fs, k := Nil, i;
    } else {
      var f, j := StepField(m, d, i);
      FieldSteps(m, f, d, i);
      ApplyKind(m, f);
      hide Step, Apply, FieldText, Decode, Rest, WellFormed, Allowed;
      var rest;
      rest, k := ReadUpTo(Apply(m, f), d, j);
      AllowedKind(m, Apply(m, f), rest);
      fs := Cons(f, rest);
      Joined(f, rest, d, i, j, k);
    }
  }

  lemma Joined(f: Field, rest: Fields, d: bytes, i: nat, j: nat, k: nat)
    requires i <= j <= k <= |d| && At(d, i, FieldText(f)) && j == i + |FieldText(f)| && AllText(rest) == d[j..k]
    ensures AllText(Cons(f, rest)) == d[i..k]
  {
    hide FieldText;
    assert d[i..k] == d[i..j] + d[j..k];
  }

  /**
   * Whatever the input, Unmarshal reads the longest front of it that is a sequence of allowed fields,
   * and the message holds what they make of it, also when an error is returned.
   */
  lemma UnmarshalReads(m: Message, d: bytes) returns (fs: Fields, k: nat)
    requires |d| < TWO_63
    ensures k <= |d| && AllWellFormed(fs) && AllAllowed(m, fs) && AllText(fs) == d[..k]
    ensures Reads(m, fs, Parse(m, d, 0).m)
    ensures Parse(m, d, 0).err == NoError <==> k == |d|
    ensures k < |d| ==> forall f :: WellFormed(f) && Allowed(m, f) ==> !At(d, k, FieldText(f))
  {
    fs, k := ReadUpTo(m, d, 0);
    assert d[0..k] == d[..k];
    AllRead(m, fs);
    var m' := ApplyAll(m, fs);
    hide Parse, Reads, AllText, ApplyAll, FieldText, Step;
    if k < |d| {
      StepIsError(m', d, k);
      forall f | WellFormed(f) && Allowed(m, f)
        ensures !At(d, k, FieldText(f))
      {
        AllowedKind(m, m', Cons(f, Nil));
        if At(d, k, FieldText(f)) {
          FieldSteps(m', f, d, k);
        }
      }
    }
  }

  lemma StepIsError(m: Message, d: bytes, i: nat)
    requires i < |d| < TWO_63
    ensures Step(m, d, i).Stop? ==> Step(m, d, i).e != NoError
  {
  }

  /** The field number on the wire, before it is cut to 32 bits and read as signed. */
  function Number(tag: nat): nat {
    (tag / 8) % 0x1_0000_0000
  }

  /** Which error a field that cannot be read gives, in the order of the checks. */
  lemma TagErrors(m: Message, d: bytes, i: nat)
    requires i < |d| < TWO_63 && Decode(d, i).Value?
    ensures var tag := Decode(d, i).v;
            var known := if m.Request? then 4 else 3;
            && (tag % 8 == 4 ==> Step(m, d, i) == Stop(EndGroupForNonGroup))
            && (tag % 8 != 4 && (Number(tag) == 0 || Number(tag) >= 0x8000_0000) ==> Step(m, d, i) == Stop(IllegalTag))
            && (tag % 8 != 4 && 1 <= Number(tag) <= known ==>
                  (Step(m, d, i) == Stop(WrongWireType) <==>
                   tag % 8 != if m.Response? && Number(tag) == 1 then 0 else 2))
  {
    hide Decode, Skip.Skip;
    NotWireType(m, d, i);
  }

  /** Once the wire type is right, no other check gives that error. */
  lemma NotWireType(m: Message, d: bytes, i: nat)
    requires i < |d| < TWO_63 && Decode(d, i).Value?
    ensures forall num {:trigger ShapeOf(m, num)} ::
              ShapeOf(m, num).BytesField? ==> BytesStep(m, num, d, Decode(d, i).next) != Stop(WrongWireType)
    ensures m.Response? ==> BoolStep(m, d, Decode(d, i).next) != Stop(WrongWireType)
  {
    DecodeNeverType(d, Decode(d, i).next, 0, 0);
    hide Decode;
  }

  lemma {:induction false} DecodeNeverType(d: bytes, i: nat, shift: nat, acc: nat)
    ensures DecodeFrom(d, i, shift, acc) != Bad(WrongWireType)
    decreases |d| - i
  {
    if shift >= 64 || i >= |d| || d[i] < 128 {
    } else {
      DecodeNeverType(d, i + 1, shift + 7, acc + Shl(d[i] % 128, shift));
    }
  }

  /** Which error the length of a string or bytes field gives: negative, or past the end of the input. */
  lemma LengthErrors(d: bytes, i: nat)
    requires |d| < TWO_63 && Decode(d, i).Value?
    ensures var len, from := Decode(d, i).v, Decode(d, i).next;
            LenSpan(d, i) == if len >= TWO_63 || from + len >= TWO_63 then NoSpan(InvalidLength)
                             else if from + len > |d| then NoSpan(UnexpectedEOF)
                             else Span(from, from + len)
  {
    DecodeBound(d, i);
    hide Decode;
  }

  // ------------------------------------------------------------------ the bytes themselves

  /** Number 1 to 4 with wire type 2, a length, the payload; a bool is number 1 with wire type 0. */
  lemma MarshalledBytes(a: byte, b: byte, c: byte, e: byte)
    ensures MessageText(Request([a], [b], [c], [e], []))
         == [0x0a, 1, a, 0x12, 1, b, 0x1a, 1, c, 0x22, 1, e]
    ensures MessageText(Response(true, [a], [b], [])) == [0x08, 1, 0x12, 1, a, 0x1a, 1, b]
    ensures MessageText(Request([], [], [], [], [])) == [] == MessageText(Response(false, [], [], []))
  {
    assert Encoding(1) == [1];
    assert LenText(0xa, [a]) == [0x0a, 1, a] && LenText(0x12, [b]) == [0x12, 1, b];
    assert LenText(0x1a, [c]) == [0x1a, 1, c] && LenText(0x22, [e]) == [0x22, 1, e];
    assert LenText(0x12, [a]) == [0x12, 1, a] && LenText(0x1a, [b]) == [0x1a, 1, b];
  }
}
