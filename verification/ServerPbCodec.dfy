/** The generated methods of core/server.pb.go: marshalling backwards, unmarshalling forwards. */
module ServerPbCodec {
  import opened Bits
  import opened Varint
  import opened ServerPb
  import Skip

  // ------------------------------------------------------------------ marshalling

  /** copy(dAtA[i:], payload) for the i that makes it end at end. */
  method PutRaw(dAtA: array<byte>, end: nat, payload: bytes) returns (i: nat)
    requires |payload| <= end <= dAtA.Length
    modifies dAtA
    ensures i == end - |payload|
    ensures Wrote(old(dAtA[..]), dAtA[..], i, end, payload)
  {
    i := end - |payload|;
    forall k | 0 <= k < |payload| {
      dAtA[i + k] := payload[k];
    }
  }

  method PutByte(dAtA: array<byte>, end: nat, b: byte) returns (i: nat)
    requires 0 < end <= dAtA.Length
    modifies dAtA
    ensures i == end - 1
    ensures Wrote(old(dAtA[..]), dAtA[..], i, end, [b])
  {
    i := end - 1;
    dAtA[i] := b;
  }

  /** The payload of a field, then its length and tag in front of it; skipped when empty. */
  method PutBytes(dAtA: array<byte>, end: nat, tag: byte, payload: bytes) returns (i: nat)
    requires end <= dAtA.Length
    requires |LenText(tag, payload)| <= end && |payload| < TWO_63
    modifies dAtA
    ensures i == end - |LenText(tag, payload)|
    ensures Wrote(old(dAtA[..]), dAtA[..], i, end, LenText(tag, payload))
  {
    i := end;
    if |payload| > 0 {
      ghost var s0 := dAtA[..];
      i := PutRaw(dAtA, i, payload);
      ghost var s1, i1 := dAtA[..], i;
      SovIsEncodingLength(|payload|);
      i := EncodeVarint(dAtA, i, |payload|);
      ghost var s2, i2 := dAtA[..], i;
      WroteInFront(s0, s1, s2, i2, i1, end, Encoding(|payload|), payload);
      i := PutByte(dAtA, i, tag);
      WroteInFront(s0, s2, dAtA[..], i, i2, end, [tag], Encoding(|payload|) + payload);
      assert [tag] + (Encoding(|payload|) + payload) == LenText(tag, payload);
    }
  }

  /** PutBytes in front of rest, which already ends the slice [..len] of the buffer. */
  method PutField(dAtA: array<byte>, end: nat, tag: byte, payload: bytes,
                  ghost start: bytes, ghost len: nat, ghost rest: bytes) returns (i: nat)
    requires end <= dAtA.Length
    requires |LenText(tag, payload)| <= end && |payload| < TWO_63
    requires Wrote(start, dAtA[..], end, len, rest)
    modifies dAtA
    ensures i == end - |LenText(tag, payload)|
    ensures Wrote(start, dAtA[..], i, len, LenText(tag, payload) + rest)
  {
    ghost var before := dAtA[..];
    i := PutBytes(dAtA, end, tag, payload);
    WroteInFront(start, before, dAtA[..], i, end, len, LenText(tag, payload), rest);
  }

  /** The bool field in front of rest; false is left out. */
  method PutBool(dAtA: array<byte>, end: nat, b: bool, ghost start: bytes, ghost len: nat, ghost rest: bytes)
    returns (i: nat)
    requires |BoolText(b)| <= end <= dAtA.Length
    requires Wrote(start, dAtA[..], end, len, rest)
    modifies dAtA
    ensures i == end - |BoolText(b)|
    ensures Wrote(start, dAtA[..], i, len, BoolText(b) + rest)
  {
    i := end;
    if b {
      hide Wrote;
      ghost var s0 := dAtA[..];
      i := PutByte(dAtA, i, if b then 1 else 0);
      ghost var s1 := dAtA[..];
      WroteInFront(start, s0, s1, i, end, len, [1], rest);
      i := PutByte(dAtA, i, 0x8);
      WroteInFront(start, s1, dAtA[..], i, i + 1, len, [0x8], [1] + rest);
      assert [0x8] + ([1] + rest) == BoolText(b) + rest;
    } else {
      assert BoolText(b) + rest == rest;
    }
  }

  lemma Reassociate(a: bytes, b: bytes, c: bytes, d: bytes, e: bytes)
    ensures a + (b + (c + (d + e))) == a + b + c + d + e
    ensures d == [] ==> a + (b + (c + e)) == a + b + c + e
  {
    assert d == [] ==> a + b + c + d == a + b + c;
  }

  lemma WholeBuffer(before: bytes, after: bytes, n: nat, t: bytes)
    requires Wrote(before, after, 0, n, t)
    ensures after == t + before[n..]
  {
    assert after == after[0..n] + after[n..];
  }

  // ------------------------------------------------------------------ unmarshalling

  /** The length loop of a string or bytes field and the checks on the index after it. */
  method DecodeSpan(d: bytes, i: nat) returns (r: Span)
    requires |d| < TWO_63
    ensures r == LenSpan(d, i)
  {
    var len := DecodeVarint(d, i);
    if len.Bad? {
      return NoSpan(len.e);
    }
    var n := ToInt64(len.v);
    if n < 0 {
      return NoSpan(InvalidLength);
    }
    var postIndex := ToInt64(len.next + n);
    if postIndex < 0 {
      return NoSpan(InvalidLength);
    }
    if postIndex > |d| {
      return NoSpan(UnexpectedEOF);
    }
    return Span(len.next, postIndex);
  }

  /** The default case of both Unmarshal loops: the raw field starting at its tag. */
  method DecodeUnknown(d: bytes, iNdEx: nat) returns (to: nat, err: Error)
    requires iNdEx < |d| < TWO_63
    ensures iNdEx <= to <= |d|
    ensures forall m :: UnknownStep(m, d, iNdEx) ==
                        (if err != NoError then Stop(err)
                         else Next(WithUnrecognized(m, m.unrecognized + d[iNdEx..to]), to))
  {
    to := iNdEx;
    var r := Skip.SkipServer(d[iNdEx..]);
    SkipErrors(d[iNdEx..], 0, 0);
    SkipInt64(d[iNdEx..], 0, 0);
    if r.Fails? {
      return to, r.e;
    }
    if ToInt64(iNdEx + r.n) < 0 {
      return to, InvalidLength;
    }
    if ToInt64(iNdEx + r.n) > |d| {
      return to, UnexpectedEOF;
    }
    return ToInt64(iNdEx + r.n), NoError;
  }

  // ------------------------------------------------------------------ the two messages

  class PbServiceRequest {
    var Name: bytes
    var Slot: bytes
    var Encoding: bytes
    var Params: bytes
    var XXX_unrecognized: bytes

    ghost function Contents(): Message
      reads this
    {
      Request(Name, Slot, Encoding, Params, XXX_unrecognized)
    }

    constructor ()
      ensures Contents() == EMPTY_REQUEST
    {
      Name, Slot, Encoding, Params, XXX_unrecognized := [], [], [], [], [];
    }

    method Size() returns (n: nat)
      ensures n == |MessageText(Contents())|
    {
      n := 0;
      var l := |Name|;
      if l > 0 {
        SovIsEncodingLength(l);
        n := n + 1 + l + Sov(l);
      }
      l := |Slot|;
      if l > 0 {
        SovIsEncodingLength(l);
        n := n + 1 + l + Sov(l);
      }
      l := |Encoding|;
      if l > 0 {
        SovIsEncodingLength(l);
        n := n + 1 + l + Sov(l);
      }
      l := |Params|;
      if l > 0 {
        SovIsEncodingLength(l);
        n := n + 1 + l + Sov(l);
      }
      n := n + |XXX_unrecognized|;
    }

    method Marshal() returns (r: bytes)
      requires |MessageText(Contents())| < TWO_63
      ensures r == MessageText(Contents())
    {
      var size := Size();
      var dAtA := new byte[size](_ => 0);
      var n := MarshalToSizedBuffer(dAtA, size);
      r := dAtA[..n];
    }

    method MarshalTo(dAtA: array<byte>) returns (n: nat)
      requires |MessageText(Contents())| < TWO_63 && |MessageText(Contents())| <= dAtA.Length
      modifies dAtA
      ensures n == |MessageText(Contents())|
      ensures dAtA[..] == MessageText(Contents()) + old(dAtA[..])[n..]
    {
      hide KnownText, Wrote;
      var size := Size();
      n := MarshalToSizedBuffer(dAtA, size);
      WholeBuffer(old(dAtA[..]), dAtA[..], size, MessageText(Contents()));
    }

    /** Fills the slice dAtA[:len] from its end. */
    method MarshalToSizedBuffer(dAtA: array<byte>, len: nat) returns (n: nat)
      requires |MessageText(Contents())| <= len <= dAtA.Length && |MessageText(Contents())| < TWO_63
      modifies dAtA
      ensures n == |MessageText(Contents())|
      ensures Wrote(old(dAtA[..]), dAtA[..], len - n, len, MessageText(Contents()))
    {
      hide Wrote, LenText, Varint.Encoding;
      ghost var start := dAtA[..];
      var i := PutRaw(dAtA, len, XXX_unrecognized);
      ghost var rest := XXX_unrecognized;
      i := PutField(dAtA, i, 0x22, Params, start, len, rest);
      rest := LenText(0x22, Params) + rest;
      i := PutField(dAtA, i, 0x1a, Encoding, start, len, rest);
      rest := LenText(0x1a, Encoding) + rest;
      i := PutField(dAtA, i, 0x12, Slot, start, len, rest);
      rest := LenText(0x12, Slot) + rest;
      i := PutField(dAtA, i, 0xa, Name, start, len, rest);
      rest := LenText(0xa, Name) + rest;
      Reassociate(LenText(0xa, Name), LenText(0x12, Slot), LenText(0x1a, Encoding), LenText(0x22, Params),
                  XXX_unrecognized);
      n := len - i;
    }

    method Unmarshal(dAtA: bytes) returns (err: Error)
      requires |dAtA| < TWO_63
      modifies this
      ensures Outcome(Contents(), err) == Parse(old(Contents()), dAtA, 0)
    {
      var l := |dAtA|;
      var iNdEx: nat := 0;
      while iNdEx < l
        invariant iNdEx <= l
        invariant Parse(old(Contents()), dAtA, 0) == Parse(Contents(), dAtA, iNdEx)
        decreases l - iNdEx
      {
        var preIndex := iNdEx;
        ghost var before := Contents();
        DecodeErrors(dAtA, iNdEx);
        var tag := DecodeVarint(dAtA, iNdEx);
        if tag.Bad? {
          return tag.e;
        }
        iNdEx := tag.next;
        var fieldNum := ToInt32(tag.v / 8);
        var wireType := tag.v % 8;
        if wireType == 4 {
          return EndGroupForNonGroup;
        }
        if fieldNum <= 0 {
          return IllegalTag;
        }
        if 1 <= fieldNum <= 4 {
          if wireType != 2 {
            return WrongWireType;
          }
          var span := DecodeSpan(dAtA, iNdEx);
          if span.NoSpan? {
            return span.e;
          }
          var payload := dAtA[span.from..span.to];
          match fieldNum {
            case 1 => Name := payload;
            case 2 => Slot := payload;
            case 3 => Encoding := payload;
            case _ => Params := payload;
          }
          iNdEx := span.to;
        } else {
          iNdEx := preIndex;
          var to, e := DecodeUnknown(dAtA, iNdEx);
          assert Step(before, dAtA, preIndex) == UnknownStep(before, dAtA, preIndex);
          if e != NoError {
            return e;
          }
          XXX_unrecognized := XXX_unrecognized + dAtA[iNdEx..to];
          iNdEx := to;
        }
        assert Step(before, dAtA, preIndex) == Next(Contents(), iNdEx);
      }
      return NoError;
    }
  }

  class PbServiceResponse {
    var Success: bool
    var Message: bytes
    var Data: bytes
    var XXX_unrecognized: bytes

    ghost function Contents(): Message
      reads this
    {
      Response(Success, Message, Data, XXX_unrecognized)
    }

    constructor ()
      ensures Contents() == EMPTY_RESPONSE
    {
      Success, Message, Data, XXX_unrecognized := false, [], [], [];
    }

    method Size() returns (n: nat)
      ensures n == |MessageText(Contents())|
    {
      n := 0;
      if Success {
        n := n + 2;
      }
      var l := |Message|;
      if l > 0 {
        SovIsEncodingLength(l);
        n := n + 1 + l + Sov(l);
      }
      l := |Data|;
      if l > 0 {
        SovIsEncodingLength(l);
        n := n + 1 + l + Sov(l);
      }
      n := n + |XXX_unrecognized|;
    }

    method Marshal() returns (r: bytes)
      requires |MessageText(Contents())| < TWO_63
      ensures r == MessageText(Contents())
    {
      var size := Size();
      var dAtA := new byte[size](_ => 0);
      var n := MarshalToSizedBuffer(dAtA, size);
      r := dAtA[..n];
    }

    method MarshalTo(dAtA: array<byte>) returns (n: nat)
      requires |MessageText(Contents())| < TWO_63 && |MessageText(Contents())| <= dAtA.Length
      modifies dAtA
      ensures n == |MessageText(Contents())|
      ensures dAtA[..] == MessageText(Contents()) + old(dAtA[..])[n..]
    {
      hide KnownText, Wrote;
      var size := Size();
      n := MarshalToSizedBuffer(dAtA, size);
      WholeBuffer(old(dAtA[..]), dAtA[..], size, MessageText(Contents()));
    }

    /** Fills the slice dAtA[:len] from its end. */
    method MarshalToSizedBuffer(dAtA: array<byte>, len: nat) returns (n: nat)
      requires |MessageText(Contents())| <= len <= dAtA.Length && |MessageText(Contents())| < TWO_63
      modifies dAtA
      ensures n == |MessageText(Contents())|
      ensures Wrote(old(dAtA[..]), dAtA[..], len - n, len, MessageText(Contents()))
    {
      hide Wrote, LenText, BoolText, Varint.Encoding;
      ghost var start := dAtA[..];
      var i := PutRaw(dAtA, len, XXX_unrecognized);
      ghost var rest := XXX_unrecognized;
      i := PutField(dAtA, i, 0x1a, Data, start, len, rest);
      rest := LenText(0x1a, Data) + rest;
      i := PutField(dAtA, i, 0x12, Message, start, len, rest);
      rest := LenText(0x12, Message) + rest;
      i := PutBool(dAtA, i, Success, start, len, rest);
      Reassociate(BoolText(Success), LenText(0x12, Message), LenText(0x1a, Data), [], XXX_unrecognized);
      n := len - i;
    }

    method Unmarshal(dAtA: bytes) returns (err: Error)
      requires |dAtA| < TWO_63
      modifies this
      ensures Outcome(Contents(), err) == Parse(old(Contents()), dAtA, 0)
    {
      var l := |dAtA|;
      var iNdEx: nat := 0;
      while iNdEx < l
        invariant iNdEx <= l
        invariant Parse(old(Contents()), dAtA, 0) == Parse(Contents(), dAtA, iNdEx)
        decreases l - iNdEx
      {
        var preIndex := iNdEx;
        ghost var before := Contents();
        DecodeErrors(dAtA, iNdEx);
        var tag := DecodeVarint(dAtA, iNdEx);
        if tag.Bad? {
          return tag.e;
        }
        iNdEx := tag.next;
        var fieldNum := ToInt32(tag.v / 8);
        var wireType := tag.v % 8;
        if wireType == 4 {
          return EndGroupForNonGroup;
        }
        if fieldNum <= 0 {
          return IllegalTag;
        }
        if fieldNum == 1 {
          if wireType != 0 {
            return WrongWireType;
          }
          DecodeErrors(dAtA, iNdEx);
          var v := DecodeVarint(dAtA, iNdEx);
          if v.Bad? {
            return v.e;
          }
          Success := ToInt64(v.v) != 0;
          iNdEx := v.next;
        } else if 2 <= fieldNum <= 3 {
          if wireType != 2 {
            return WrongWireType;
          }
          var span := DecodeSpan(dAtA, iNdEx);
          if span.NoSpan? {
            return span.e;
          }
          if fieldNum == 2 {
            Message := dAtA[span.from..span.to];
          } else {
            Data := dAtA[span.from..span.to];
          }
          iNdEx := span.to;
        } else {
          iNdEx := preIndex;
          var to, e := DecodeUnknown(dAtA, iNdEx);
          assert Step(before, dAtA, preIndex) == UnknownStep(before, dAtA, preIndex);
          if e != NoError {
            return e;
          }
          XXX_unrecognized := XXX_unrecognized + dAtA[iNdEx..to];
          iNdEx := to;
        }
        assert Step(before, dAtA, preIndex) == Next(Contents(), iNdEx);
      }
      return NoError;
    }
  }
}
