/** Machine integers of core/server.pb.go: bytes, 64-bit wrap-around, shifts and bitwise OR. */
module Bits {

  type byte = b: int | 0 <= b < 256

  type bytes = seq<byte>

  const TWO_31: int := 0x8000_0000
  const TWO_32: int := 0x1_0000_0000
  const TWO_63: int := 0x8000_0000_0000_0000
  const TWO_64: int := 0x1_0000_0000_0000_0000

  /** The Go conversion to int on a 64-bit machine: keep 64 bits, read as two's complement. */
  function ToInt64(v: int): (r: int)
    ensures -TWO_63 <= r < TWO_63
    ensures -TWO_63 <= v < TWO_63 ==> r == v
    ensures (r - v) % TWO_64 == 0
  {
    var u := v % TWO_64;
    if u >= TWO_63 then u - TWO_64 else u
  }

  /** The Go conversion to int32. */
  function ToInt32(v: int): (r: int)
    ensures -TWO_31 <= r < TWO_31
    ensures -TWO_31 <= v < TWO_31 ==> r == v
    ensures (r - v) % TWO_32 == 0
  {
    var u := v % TWO_32;
    if u >= TWO_31 then u - TWO_32 else u
  }

  function Pow2(n: nat): (r: nat)
    ensures r > 0
  {
    if n == 0 then 1 else 2 * Pow2(n - 1)
  }

  /** x << s on uint64: bits pushed past bit 63 are lost. */
  function Shl(x: nat, s: nat): (r: nat)
    ensures r < TWO_64
  {
    (x * Pow2(s)) % TWO_64
  }

  /** Bitwise OR, bit by bit. */
  function Or(x: nat, y: nat): nat
    decreases x + y
  {
    if x == 0 then y
    else if y == 0 then x
    else (if x % 2 == 1 || y % 2 == 1 then 1 else 0) + 2 * Or(x / 2, y / 2)
  }

  lemma Pow2Add(a: nat, b: nat)
    ensures Pow2(a + b) == Pow2(a) * Pow2(b)
  {
    if b == 0 {
    } else {
      Pow2Add(a, b - 1);
      assert Pow2(a + b) == 2 * Pow2(a + (b - 1));
    }
  }

  lemma {:induction false} Pow2Mono(a: nat, b: nat)
    requires a <= b
    ensures Pow2(a) <= Pow2(b)
  {
    if a == b {
    } else {
      Pow2Mono(a, b - 1);
    }
  }

  lemma Pow2Constants()
    ensures Pow2(7) == 128 && Pow2(63) == TWO_63 && Pow2(64) == TWO_64
  {
    assert Pow2(7) == 128;
    Pow2Add(7, 7); Pow2Add(14, 14); Pow2Add(28, 28); Pow2Add(56, 7);
  }

  /** OR of numbers whose bits do not overlap is their sum. */
  lemma {:induction false} OrDisjoint(x: nat, q: nat, k: nat)
    requires x < Pow2(k)
    ensures Or(x, q * Pow2(k)) == x + q * Pow2(k)
  {
    var y := q * Pow2(k);
    if k == 0 || x == 0 || y == 0 {
    } else {
      var p := q * Pow2(k - 1);
      assert y == 2 * p;
      OrDisjoint(x / 2, q, k - 1);
    }
  }
}
