/** Base-128 varints: encodeVarintServer, sovServer and the decoding loop of core/server.pb.go. */
module Varint {
  import opened Bits

  datatype Error =
    | NoError
    | IntOverflow
    | UnexpectedEOF
    | EndGroupForNonGroup
    | IllegalTag
    | WrongWireType
    | InvalidLength
    | UnexpectedEndOfGroup
    | IllegalWireType

  /** What one run of the decoding loop delivers: a uint64 and the index after it, or an error. */
  datatype Decoded = Value(v: nat, next: nat) | Bad(e: Error)

  // ------------------------------------------------------------------ specification

  /** The minimal encoding: seven bits a byte, least significant first. */
  function Encoding(v: nat): (r: bytes)
    ensures |r| > 0
  {
    if v < 128 then [v] else [128 + v % 128] + Encoding(v / 128)
  }

  /** The meaning of the decoding loop at index i, with acc already read from shift / 7 bytes. */
  function DecodeFrom(d: bytes, i: nat, shift: nat, acc: nat): (r: Decoded)
    ensures r.Value? ==> i < r.next <= |d|
    decreases |d| - i
  {
    if shift >= 64 then Bad(IntOverflow)
    else if i >= |d| then Bad(UnexpectedEOF)
    else
      var acc' := acc + Shl(d[i] % 128, shift);
      if d[i] < 128 then Value(acc', i + 1) else DecodeFrom(d, i + 1, shift + 7, acc')
  }

  function Decode(d: bytes, i: nat): (r: Decoded)
    ensures r.Value? ==> i < r.next <= |d|
  {
    DecodeFrom(d, i, 0, 0)
  }

  /** Number of bits needed to write x, as math/bits.Len64. */
  function BitLen(x: nat): nat {
    if x == 0 then 0 else 1 + BitLen(x / 2)
  }

  /** sovServer. */
  function Sov(x: nat): nat {
    (BitLen(Or(x, 1)) + 6) / 7
  }

  /** From before to after, t was written at [i..end] and nothing else changed. */
  predicate Wrote(before: bytes, after: bytes, i: nat, end: nat, t: bytes) {
    && i <= end <= |before| == |after|
    && after[..i] == before[..i]
    && after[i..end] == t
    && after[end..] == before[end..]
  }

  /** Writing backwards: what is written last stands first. */
  lemma WroteInFront(a: bytes, b: bytes, c: bytes, i: nat, mid: nat, end: nat, t: bytes, rest: bytes)
    requires Wrote(a, b, mid, end, rest) && Wrote(b, c, i, mid, t)
    ensures Wrote(a, c, i, end, t + rest)
  {
    assert c[mid..end] == c[mid..][..end - mid] == b[mid..][..end - mid] == b[mid..end];
    assert c[i..end] == c[i..mid] + c[mid..end];
    assert c[end..] == c[mid..][end - mid..] == b[mid..][end - mid..] == b[end..];
    assert c[..i] == b[..i] == b[..mid][..i] == a[..mid][..i] == a[..i];
  }

  /** Writing forwards: one more byte behind what was written. */
  lemma WroteNext(a: bytes, b: bytes, i: nat, o: nat, t: bytes, x: byte)
    requires Wrote(a, b, i, o, t) && o < |b|
    ensures Wrote(a, b[o := x], i, o + 1, t + [x])
  {
    var c := b[o := x];
    assert c[i..o + 1] == b[i..o] + [x];
    assert c[o + 1..] == b[o..][1..] == a[o..][1..] == a[o + 1..];
    assert c[..i] == b[..i];
  }

  // ------------------------------------------------------------------ the two loops

  /** The loop that every tag, length and bool of Unmarshal and skipServer is read with. */
  method DecodeVarint(d: bytes, start: nat) returns (r: Decoded)
    ensures r == Decode(d, start)
  {
    var v: nat := 0;
    var i := start;
    var shift: nat := 0;
    while true
      invariant start <= i && (i <= |d| || i == start)
      invariant shift < 64 ==> v < Pow2(shift)
      invariant Decode(d, start) == DecodeFrom(d, i, shift, v)
      decreases |d| - i
    {
      if shift >= 64 {
        return Bad(IntOverflow);
      }
      if i >= |d| {
        return Bad(UnexpectedEOF);
      }
      var b := d[i];
      i := i + 1;
      OrShl(v, b % 128, shift);
      v := Or(v, Shl(b % 128, shift));
      if b < 128 {
        return Value(v, i);
      }
      shift := shift + 7;
    }
  }

  /** encodeVarintServer: writes v so that it ends at offset and returns where it starts. */
  method EncodeVarint(dAtA: array<byte>, offset: nat, v: nat) returns (base: nat)
    requires v < TWO_64
    requires Sov(v) <= offset <= dAtA.Length
    modifies dAtA
    ensures base == offset - |Encoding(v)|
    ensures Wrote(old(dAtA[..]), dAtA[..], base, offset, Encoding(v))
  {
    SovIsEncodingLength(v);
    base := offset - Sov(v);
    var o := base;
    var w := v;
    ghost var was, done: bytes := dAtA[..], [];
    while w >= 128
      invariant base <= o < offset && o + |Encoding(w)| == offset
      invariant done + Encoding(w) == Encoding(v)
      invariant Wrote(was, dAtA[..], base, o, done)
      decreases w
    {
      WroteNext(was, dAtA[..], base, o, done, 128 + w % 128);
      assert done + ([128 + w % 128] + Encoding(w / 128)) == done + [128 + w % 128] + Encoding(w / 128);
      dAtA[o] := 128 + w % 128;
      done := done + [128 + w % 128];
      w := w / 128;
      o := o + 1;
    }
    WroteNext(was, dAtA[..], base, o, done, w);
    dAtA[o] := w;
  }

  // ------------------------------------------------------------------ laws

  /** While fewer than 64 bits are read, OR-ing the next seven in is adding them. */
  lemma OrShl(v: nat, b: nat, shift: nat)
    requires v < Pow2(shift) && b < 128 && shift < 64
    ensures Or(v, Shl(b, shift)) == v + Shl(b, shift)
    ensures v + Shl(b, shift) < Pow2(shift + 7)
    ensures v + Shl(b, shift) < TWO_64
  {
    Pow2Constants();
    Pow2Add(shift, 64 - shift);
    Pow2Add(shift, 7);
    var p, q := Pow2(shift), Pow2(64 - shift);
    hide Pow2, Or;
    ModScale(b, p, q);
    var x := b % q;
    assert Shl(b, shift) == x * p;
    OrDisjoint(v, x, shift);
    Room(v, x, p, q);
    Room(v, x, p, 128);
  }

  lemma Room(v: nat, x: nat, p: nat, n: nat)
    requires v < p && x < n
    ensures v + x * p < p * n
  {
    MulMono(x + 1, n, p);
  }

  lemma MulMono(a: nat, b: nat, p: nat)
    requires a <= b
    ensures a * p <= b * p
  {
  }

  lemma ModScale(b: nat, p: nat, q: nat)
    requires p > 0 && q > 0
    ensures p * q > 0
    ensures (b * p) % (p * q) == (b % q) * p
    ensures b % q <= b
  {
    var k, r := b / q, b % q;
    assert b == k * q + r;
    assert b * p == k * (p * q) + r * p;
    assert r * p < q * p by { MulMono(r + 1, q, p); }
    DivModUnique(b * p, p * q, k, r * p);
  }

  lemma DivModUnique(n: int, m: int, k: int, r: int)
    requires m > 0 && n == k * m + r && 0 <= r < m
    ensures n % m == r
  {
    var k', r' := n / m, n % m;
    assert n == k' * m + r';
    assert k * m - k' * m == r' - r;
    if k > k' {
      MulStep(k', k, m);
    } else if k < k' {
      MulStep(k, k', m);
    }
  }

  lemma MulStep(a: int, b: int, m: int)
    requires a < b && m > 0
    ensures b * m - a * m >= m
  {
    assert b * m - a * m == (b - a) * m;
    assert (b - a - 1) * m >= 0;
  }

  lemma OrOne(x: nat)
    ensures Or(x, 1) == (if x % 2 == 0 then x + 1 else x)
  {
    if x > 0 {
      assert Or(x / 2, 0) == x / 2;
    }
  }

  lemma BitLenStep7(x: nat)
    requires x >= 128
    ensures BitLen(x) == 7 + BitLen(x / 128)
  {
    assert BitLen(x) == 1 + BitLen(x / 2);
    assert BitLen(x / 2) == 1 + BitLen(x / 4);
    assert BitLen(x / 4) == 1 + BitLen(x / 8);
    assert BitLen(x / 8) == 1 + BitLen(x / 16);
    assert BitLen(x / 16) == 1 + BitLen(x / 32);
    assert BitLen(x / 32) == 1 + BitLen(x / 64);
    assert BitLen(x / 64) == 1 + BitLen(x / 128);
  }

  lemma {:induction false} BitLenSmall(x: nat, n: nat)
    requires x < Pow2(n)
    ensures BitLen(x) <= n
  {
    if x == 0 {
    } else {
      BitLenSmall(x / 2, n - 1);
    }
  }

  lemma BitLenOrOne(x: nat)
    requires x > 0
    ensures BitLen(Or(x, 1)) == BitLen(x)
  {
    OrOne(x);
    assert Or(x, 1) / 2 == x / 2;
  }

  /** sovServer(v) is the length of the minimal encoding of v. */
  lemma {:induction false} SovIsEncodingLength(v: nat)
    ensures Sov(v) == |Encoding(v)|
  {
    OrOne(v);
    if v < 128 {
      Pow2Constants();
      BitLenSmall(Or(v, 1), 7);
    } else {
      SovIsEncodingLength(v / 128);
      BitLenOrOne(v);
      BitLenOrOne(v / 128);
      BitLenStep7(v);
    }
  }

  /** An encoding of at most n bytes exists exactly below 2^(7n). */
  lemma {:induction false} EncodingLength(v: nat, n: nat)
    requires n > 0
    ensures |Encoding(v)| <= n <==> v < Pow2(7 * n)
  {
    Pow2Constants();
    Pow2Add(7 * (n - 1), 7);
    if n == 1 {
    } else if v < 128 {
      Pow2Mono(7, 7 * n);
    } else {
      EncodingLength(v / 128, n - 1);
      var p := Pow2(7 * (n - 1));
      assert Pow2(7 * n) == p * 128;
      assert v / 128 < p <==> v < p * 128;
    }
  }

  /** Every uint64 takes between one and ten bytes. */
  lemma SovRange(v: nat)
    requires v < TWO_64
    ensures 1 <= Sov(v) <= 10
  {
    SovIsEncodingLength(v);
    Pow2Constants();
    Pow2Mono(64, 70);
    EncodingLength(v, 10);
  }

  /** A successful decode reads only the bytes it returns. */
  lemma {:induction false} DecodeFromRelocate(d: bytes, i: nat, d': bytes, i': nat, shift: nat, acc: nat)
    requires DecodeFrom(d, i, shift, acc).Value?
    requires i' + (DecodeFrom(d, i, shift, acc).next - i) <= |d'|
    requires d[i..DecodeFrom(d, i, shift, acc).next]
          == d'[i'..i' + (DecodeFrom(d, i, shift, acc).next - i)]
    ensures DecodeFrom(d', i', shift, acc)
         == Value(DecodeFrom(d, i, shift, acc).v, i' + (DecodeFrom(d, i, shift, acc).next - i))
    decreases |d| - i
  {
    var n := DecodeFrom(d, i, shift, acc).next - i;
    var s, s' := d[i..i + n], d'[i'..i' + n];
    assert d[i] == s[0] == s'[0] == d'[i'];
    if d[i] >= 128 {
      assert d[i + 1..i + n] == s[1..] == s'[1..] == d'[i' + 1..i' + n];
      DecodeFromRelocate(d, i + 1, d', i' + 1, shift + 7, acc + Shl(d[i] % 128, shift));
    }
  }

  lemma DecodeRelocate(d: bytes, i: nat, d': bytes, i': nat)
    requires Decode(d, i).Value?
    requires i' + (Decode(d, i).next - i) <= |d'|
    requires d[i..Decode(d, i).next] == d'[i'..i' + (Decode(d, i).next - i)]
    ensures Decode(d', i') == Value(Decode(d, i).v, i' + (Decode(d, i).next - i))
  {
    DecodeFromRelocate(d, i, d', i', 0, 0);
  }

  lemma {:induction false} DecodeFromBound(d: bytes, i: nat, shift: nat, acc: nat)
    requires shift < 64 ==> acc < Pow2(shift)
    requires DecodeFrom(d, i, shift, acc).Value?
    ensures DecodeFrom(d, i, shift, acc).v < TWO_64
    ensures DecodeFrom(d, i, shift, acc).v < Pow2(shift + 7 * (DecodeFrom(d, i, shift, acc).next - i))
    decreases |d| - i
  {
    OrShl(acc, d[i] % 128, shift);
    if d[i] >= 128 {
      DecodeFromBound(d, i + 1, shift + 7, acc + Shl(d[i] % 128, shift));
      var n := DecodeFrom(d, i, shift, acc).next;
      assert shift + 7 + 7 * (n - (i + 1)) == shift + 7 * (n - i);
    }
  }

  /** What is decoded is a uint64, and no encoding of it is shorter than the minimal one. */
  lemma DecodeBound(d: bytes, i: nat)
    requires Decode(d, i).Value?
    ensures Decode(d, i).v < TWO_64
    ensures |Encoding(Decode(d, i).v)| <= Decode(d, i).next - i
  {
    DecodeFromBound(d, i, 0, 0);
    EncodingLength(Decode(d, i).v, Decode(d, i).next - i);
  }

  lemma {:induction false} DecodeFromEncoding(v: nat, d: bytes, i: nat, shift: nat, acc: nat)
    requires shift < 64 && acc + v * Pow2(shift) < TWO_64
    requires i + |Encoding(v)| <= |d| && d[i..i + |Encoding(v)|] == Encoding(v)
    ensures DecodeFrom(d, i, shift, acc) == Value(acc + v * Pow2(shift), i + |Encoding(v)|)
    decreases v
  {
    var n := |Encoding(v)|;
    var p := Pow2(shift);
    var r := v % 128;
    assert d[i] == d[i..i + n][0] == Encoding(v)[0];
    assert d[i] % 128 == r;
    MulMono(r, v, p);
    assert Shl(r, shift) == r * p;
    if v >= 128 {
      SplitSeven(v, shift);
      assert d[i + 1..i + n] == d[i..i + n][1..] == Encoding(v / 128);
      DecodeFromEncoding(v / 128, d, i + 1, shift + 7, acc + r * p);
    }
  }

  lemma Distribute(q: nat, r: nat, p: nat)
    ensures (q * 128 + r) * p == q * (128 * p) + r * p
  {
  }

  lemma SplitSeven(v: nat, shift: nat)
    ensures v * Pow2(shift) == (v % 128) * Pow2(shift) + (v / 128) * Pow2(shift + 7)
    ensures v >= 128 && v * Pow2(shift) < TWO_64 ==> shift + 7 < 64
  {
    var p, q, r := Pow2(shift), v / 128, v % 128;
    Pow2Constants();
    Pow2Add(shift, 7);
    Distribute(q, r, p);
    if v >= 128 && shift + 7 >= 64 {
      Pow2Mono(64, shift + 7);
      MulMono(1, q, Pow2(shift + 7));
    }
  }

  /** The decoding loop reads back what encodeVarintServer wrote, and stops there. */
  lemma DecodeEncoding(v: nat, d: bytes, i: nat)
    requires v < TWO_64
    requires i + |Encoding(v)| <= |d| && d[i..i + |Encoding(v)|] == Encoding(v)
    ensures Decode(d, i) == Value(v, i + |Encoding(v)|)
  {
    DecodeFromEncoding(v, d, i, 0, 0);
  }

  /** The first byte at or after i without a continuation bit is at i + k. */
  ghost predicate EndsAfter(d: bytes, i: nat, k: nat) {
    && i + k < |d|
    && d[i + k] < 128
    && forall j :: i <= j < i + k ==> d[j] >= 128
  }

  lemma {:induction false} DecodeFromStops(d: bytes, i: nat, shift: nat, acc: nat, k: nat)
    requires EndsAfter(d, i, k)
    ensures DecodeFrom(d, i, shift, acc).Value? <==> shift + 7 * k < 64
    ensures shift + 7 * k < 64 ==> DecodeFrom(d, i, shift, acc).next == i + k + 1
    ensures shift + 7 * k >= 64 ==> DecodeFrom(d, i, shift, acc) == Bad(IntOverflow)
    decreases k
  {
    if shift < 64 && k > 0 {
      DecodeFromStops(d, i + 1, shift + 7, acc + Shl(d[i] % 128, shift), k - 1);
    }
  }

  /** Nothing but continuation bytes up to the end: too short a rest is an unexpected end of input. */
  lemma {:induction false} DecodeFromEnds(d: bytes, i: nat, shift: nat, acc: nat)
    requires i <= |d| && forall j :: i <= j < |d| ==> d[j] >= 128
    ensures DecodeFrom(d, i, shift, acc) == Bad(if shift + 7 * (|d| - i) < 64 then UnexpectedEOF else IntOverflow)
    decreases |d| - i
  {
    if shift < 64 && i < |d| {
      DecodeFromEnds(d, i + 1, shift + 7, acc + Shl(d[i] % 128, shift));
    }
  }

  /** Input that ends inside a varint is an unexpected end, unless ten bytes of it overflow first. */
  lemma TruncatedRejected(d: bytes, i: nat)
    requires i <= |d| && forall j :: i <= j < |d| ==> d[j] >= 128
    ensures Decode(d, i) == Bad(if |d| - i < 10 then UnexpectedEOF else IntOverflow)
  {
    DecodeFromEnds(d, i, 0, 0);
  }

  /** A terminated varint is accepted exactly when it has at most ten bytes; longer ones overflow. */
  lemma OverlongRejected(d: bytes, i: nat, k: nat)
    requires EndsAfter(d, i, k)
    ensures Decode(d, i).Value? <==> k < 10
    ensures k < 10 ==> Decode(d, i).next == i + k + 1
    ensures k >= 10 ==> Decode(d, i) == Bad(IntOverflow)
  {
    DecodeFromStops(d, i, 0, 0, k);
  }
}
