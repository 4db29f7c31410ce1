/** PbServiceRequest and PbServiceResponse of core/server.pb.go, and what their codec means. */
module ServerPb {
  import opened Bits
  import opened Varint
  import Skip

  /** The value of a message; nil and empty byte strings are the same value. */
  datatype Message =
    | Request(name: bytes, slot: bytes, encoding: bytes, params: bytes, unrecognized: bytes)
    | Response(success: bool, message: bytes, data: bytes, unrecognized: bytes)

  const EMPTY_REQUEST := Request([], [], [], [], [])
  const EMPTY_RESPONSE := Response(false, [], [], [])

  // ------------------------------------------------------------------ marshalling

  /** A length-delimited field; the default value is left out. */
  function LenText(tag: byte, payload: bytes): (r: bytes)
    ensures |payload| <= |r|
  {
    if payload == [] then [] else [tag] + Encoding(|payload|) + payload
  }

  function BoolText(b: bool): bytes {
    if b then [0x8, 1] else []
  }

  /** The known fields in field order. */
  function KnownText(m: Message): bytes {
    match m
    case Request(name, slot, encoding, params, _) =>
      LenText(0xa, name) + LenText(0x12, slot) + LenText(0x1a, encoding) + LenText(0x22, params)
    case Response(success, message, data, _) =>
      BoolText(success) + LenText(0x12, message) + LenText(0x1a, data)
  }

  /** The bytes of a message: forward concatenation of its fields, then what was not recognised. */
  function MessageText(m: Message): bytes {
    KnownText(m) + m.unrecognized
  }

  // ------------------------------------------------------------------ unmarshalling

  datatype Shape = BoolField | BytesField | UnknownField

  function ShapeOf(m: Message, fieldNum: int): Shape {
    match m
    case Request(_, _, _, _, _) => if 1 <= fieldNum <= 4 then BytesField else UnknownField
    case Response(_, _, _, _) =>
      if fieldNum == 1 then BoolField else if 2 <= fieldNum <= 3 then BytesField else UnknownField
  }

  function WithBytes(m: Message, fieldNum: int, payload: bytes): (r: Message)
    requires ShapeOf(m, fieldNum).BytesField?
  {
    match m
    case Request(_, _, _, _, _) =>
      if fieldNum == 1 then m.(name := payload)
      else if fieldNum == 2 then m.(slot := payload)
      else if fieldNum == 3 then m.(encoding := payload)
      else m.(params := payload)
    case Response(_, _, _, _) =>
      if fieldNum == 2 then m.(message := payload) else m.(data := payload)
  }

  function WithUnrecognized(m: Message, u: bytes): Message {
    m.(unrecognized := u)
  }

  /** A length prefix at i and the span it announces, with the checks on wrapped indexes. */
  datatype Span = Span(from: nat, to: nat) | NoSpan(e: Error)

  function LenSpan(d: bytes, i: nat): (r: Span)
    requires |d| < TWO_63
    ensures r.Span? ==> i < r.from <= r.to <= |d|
  {
    match Decode(d, i)
    case Bad(e) => NoSpan(e)
    case Value(len, i1) =>
      var n := ToInt64(len);
      if n < 0 then NoSpan(InvalidLength)
      else
        var postIndex := ToInt64(i1 + n);
        if postIndex < 0 then NoSpan(InvalidLength)
        else if postIndex > |d| then NoSpan(UnexpectedEOF)
        else Span(i1, postIndex)
  }

  datatype Round = Next(m: Message, j: nat) | Stop(e: Error)

  /** One round of the Unmarshal loop: the field whose tag starts at i. */
  function Step(m: Message, d: bytes, i: nat): (r: Round)
    requires i < |d| < TWO_63
    ensures r.Next? ==> i < r.j <= |d|
    ensures r.Stop? ==> r.e != NoError
  {
    match Decode(d, i)
    case Bad(e) => DecodeErrors(d, i); Stop(e)
    case Value(wire, i1) =>
      var fieldNum := ToInt32(wire / 8);
      var wireType := wire % 8;
      if wireType == 4 then Stop(EndGroupForNonGroup)
      else if fieldNum <= 0 then Stop(IllegalTag)
      else
        match ShapeOf(m, fieldNum)
        case BoolField =>
          if wireType != 0 then Stop(WrongWireType)
          else BoolStep(m, d, i1)
        case BytesField =>
          if wireType != 2 then Stop(WrongWireType)
          else BytesStep(m, fieldNum, d, i1)
        case UnknownField => UnknownStep(m, d, i)
  }

  function BoolStep(m: Message, d: bytes, i: nat): (r: Round)
    requires m.Response?
    ensures r.Next? ==> i < r.j <= |d|
    ensures r.Stop? ==> r.e != NoError
  {
    match Decode(d, i)
    case Bad(e) => DecodeErrors(d, i); Stop(e)
    case Value(v, j) => Next(m.(success := ToInt64(v) != 0), j)
  }

  function BytesStep(m: Message, fieldNum: int, d: bytes, i: nat): (r: Round)
    requires |d| < TWO_63 && ShapeOf(m, fieldNum).BytesField?
    ensures r.Next? ==> i < r.j <= |d|
    ensures r.Stop? ==> r.e != NoError
  {
    DecodeErrors(d, i);
    match LenSpan(d, i)
    case NoSpan(e) => Stop(e)
    case Span(from, to) => Next(WithBytes(m, fieldNum, d[from..to]), to)
  }

  function UnknownStep(m: Message, d: bytes, i: nat): (r: Round)
    requires i < |d| < TWO_63
    ensures r.Next? ==> i < r.j <= |d|
    ensures r.Stop? ==> r.e != NoError
  {
    match Skip.Skip(d[i..])
    case Fails(e) => SkipErrors(d[i..], 0, 0); Stop(e)
    case Skipped(skippy) =>
      if ToInt64(i + skippy) < 0 then Stop(InvalidLength)
      else if ToInt64(i + skippy) > |d| then Stop(UnexpectedEOF)
      else
        var j := ToInt64(i + skippy);
        SkipInt64(d[i..], 0, 0);
        Next(WithUnrecognized(m, m.unrecognized + d[i..j]), j)
  }

  /** What Unmarshal leaves in the message and returns; on an error the fields read so far stay. */
  datatype Outcome = Outcome(m: Message, err: Error)

  function Parse(m: Message, d: bytes, i: nat): Outcome
    requires i <= |d| < TWO_63
    decreases |d| - i
  {
    if i == |d| then Outcome(m, NoError)
    else
      match Step(m, d, i)
      case Stop(e) => Outcome(m, e)
      case Next(m', j) => Parse(m', d, j)
  }

  predicate Accepts(m: Message, d: bytes)
    requires |d| < TWO_63
  {
    Parse(m, d, 0).err == NoError
  }

  lemma {:induction false} DecodeErrorsFrom(d: bytes, i: nat, shift: nat, acc: nat)
    ensures DecodeFrom(d, i, shift, acc).Bad? ==> DecodeFrom(d, i, shift, acc).e != NoError
    decreases |d| - i
  {
    if shift < 64 && i < |d| && d[i] >= 128 {
      DecodeErrorsFrom(d, i + 1, shift + 7, acc + Shl(d[i] % 128, shift));
    }
  }

  lemma DecodeErrors(d: bytes, i: nat)
    ensures Decode(d, i).Bad? ==> Decode(d, i).e != NoError
  {
    DecodeErrorsFrom(d, i, 0, 0);
  }

  lemma {:induction false} SkipErrors(d: bytes, i: nat, depth: nat)
    requires |d| < TWO_63
    ensures Skip.SkipFrom(d, i, depth).Fails? ==> Skip.SkipFrom(d, i, depth).e != NoError
    decreases |d| - i
  {
    if i < |d| {
      DecodeErrors(d, i);
      if Decode(d, i).Value? {
        DecodeErrors(d, Decode(d, i).next);
      }
      match Skip.Item(d, i, depth) {
        case Stuck(e) =>
        case To(j, depth') =>
          if j >= 0 && depth' > 0 {
            SkipErrors(d, j, depth');
          }
      }
    }
  }

  lemma {:induction false} SkipInt64(d: bytes, i: nat, depth: nat)
    requires |d| < TWO_63
    ensures Skip.SkipFrom(d, i, depth).Skipped? ==> Skip.SkipFrom(d, i, depth).n < TWO_63
    decreases |d| - i
  {
    if i < |d| {
      match Skip.Item(d, i, depth) {
        case Stuck(e) =>
        case To(j, depth') =>
          if j >= 0 && depth' > 0 {
            SkipInt64(d, j, depth');
          }
      }
    }
  }
}
