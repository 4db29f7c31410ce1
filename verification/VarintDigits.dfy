/** Varints digit by digit: which bits of the number each byte holds. */
module VarintDigits {
  import opened Bits
  import opened Varint

  lemma DivDiv(v: nat, a: nat, b: nat)
    requires a > 0 && b > 0
    ensures a * b > 0 && (v / a) / b == v / (a * b)
  {
    DivDivOf(v, a, b, v / a, v % a, (v / a) / b, (v / a) % b);
  }

  lemma DivDivOf(v: nat, a: nat, b: nat, q: nat, r: nat, q': nat, r': nat)
    requires a > 0 && b > 0
    requires v == q * a + r && r < a && q == q' * b + r' && r' < b
    ensures a * b > 0 && v / (a * b) == q'
  {
    Distribute3(q', b, r', a);
    MulMono(r' + 1, b, a);
    LastDiv(v, a * b, q', r' * a + r);
  }

  lemma LastDiv(n: nat, m: nat, k: nat, r: nat)
    requires n == k * m + r && r < m
    ensures n / m == k
  {
    DivUnique(n, m, k, r);
  }

  lemma Distribute3(q: nat, b: nat, r: nat, a: nat)
    ensures (q * b + r) * a == q * (a * b) + r * a
  {
  }

  lemma DivUnique(n: int, m: int, k: int, r: int)
    requires m > 0 && n == k * m + r && 0 <= r < m
    ensures n / m == k
  {
    DivModUnique(n, m, k, r);
    var k' := n / m;
    assert n == k' * m + r;
    if k > k' {
      MulStep(k', k, m);
    } else if k < k' {
      MulStep(k, k', m);
    }
  }

  /** Byte k of an encoding holds bits 7k to 7k + 6, and whether more bytes follow. */
  lemma {:induction false} EncodingDigits(v: nat, k: nat)
    requires k < |Encoding(v)|
    ensures Encoding(v)[k] == (v / Pow2(7 * k)) % 128 + (if k == |Encoding(v)| - 1 then 0 else 128)
    decreases k
  {
    if k == 0 {
      assert Pow2(7 * k) == 1;
    } else {
      EncodingDigits(v / 128, k - 1);
      Pow2Add(7, 7 * (k - 1));
      Pow2Constants();
      assert Pow2(7 * k) == 128 * Pow2(7 * (k - 1));
      DivDiv(v, 128, Pow2(7 * (k - 1)));
    }
  }

  /** The number that the bytes write in base 128, least significant digit first. */
  function Base128(s: bytes): nat {
    if s == [] then 0 else s[0] % 128 + 128 * Base128(s[1..])
  }

  /** A digit in front of what is already reduced to 64 bits. */
  lemma AddDigit(r: nat, b: nat, p: nat, m: nat)
    requires r < 128 && p > 0 && m > 0
    ensures 128 * p * m > 0 && p * (128 * m) > 0
    ensures r * p + (b * (128 * p)) % (128 * p * m) == ((r + 128 * b) * p) % (128 * p * m)
  {
    ModScale(b, 128 * p, m);
    var q, x := b / m, b % m;
    Regroup(q, m, x, p, r);
    Below(r, x, p, m);
    LastStep((r + 128 * b) * p, 128 * p * m, q, r * p + x * (128 * p));
  }

  lemma LastStep(n: nat, t: nat, q: nat, y: nat)
    requires n == q * t + y && y < t
    ensures n % t == y
  {
    DivModUnique(n, t, q, y);
  }

  lemma Below(r: nat, x: nat, p: nat, m: nat)
    requires r < 128 && x < m && p > 0
    ensures r * p + x * (128 * p) < 128 * p * m
  {
    var u := 128 * p;
    MulMono(r + 1, 128, p);
    MulMono(x + 1, m, u);
    assert r * p + p == (r + 1) * p && x * u + u == (x + 1) * u && m * u == u * m;
  }

  lemma Regroup(q: nat, m: nat, x: nat, p: nat, r: nat)
    ensures (r + 128 * (q * m + x)) * p == q * (128 * p * m) + (r * p + x * (128 * p))
  {
    assert (128 * (q * m)) * p == q * (128 * p * m);
    assert (128 * x) * p == x * (128 * p);
  }

  lemma {:induction false} DecodeFromSum(d: bytes, i: nat, shift: nat, acc: nat, k: nat)
    requires EndsAfter(d, i, k) && shift + 7 * k < 64
    ensures DecodeFrom(d, i, shift, acc)
         == Value(acc + (Base128(d[i..i + k + 1]) * Pow2(shift)) % TWO_64, i + k + 1)
    decreases k
  {
    var s := d[i..i + k + 1];
    assert s[0] == d[i] && s[1..] == d[i + 1..i + k + 1];
    if k == 0 {
      assert Base128(s) == d[i] % 128 + 128 * Base128([]);
    } else {
      var r, b := d[i] % 128, Base128(s[1..]);
      hide DecodeFrom;
      DecodeFromSum(d, i + 1, shift + 7, acc + Shl(r, shift), k - 1);
      DecodeStep(d, i, shift, acc);
      hide Pow2, Shl;
      DigitStep(r, b, shift);
    }
  }

  lemma DigitStep(r: nat, b: nat, shift: nat)
    requires r < 128 && shift + 7 < 64
    ensures Shl(r, shift) + (b * Pow2(shift + 7)) % TWO_64 == ((r + 128 * b) * Pow2(shift)) % TWO_64
  {
    var p, m := Pow2(shift), Pow2(57 - shift);
    Pow2Add(shift, 7);
    Pow2Constants();
    Pow2Add(shift + 7, 57 - shift);
    hide Pow2;
    AddDigit(r, b, p, m);
    SmallShift(r, p, m);
  }

  lemma SmallShift(r: nat, p: nat, m: nat)
    requires r < 128 && m > 0 && 128 * p * m == TWO_64
    ensures (r * p) % TWO_64 == r * p
  {
    if p == 0 {
    } else {
      MulMono(r + 1, 128, p);
      MulMono(1, m, 128 * p);
    }
  }

  lemma DecodeStep(d: bytes, i: nat, shift: nat, acc: nat)
    requires i < |d| && shift < 64 && d[i] >= 128
    ensures DecodeFrom(d, i, shift, acc) == DecodeFrom(d, i + 1, shift + 7, acc + Shl(d[i] % 128, shift))
  {
  }

  /** At most ten terminated bytes, minimal or not, are read as their base-128 number, cut to 64 bits. */
  lemma DecodeIsBase128(d: bytes, i: nat, k: nat)
    requires EndsAfter(d, i, k) && k < 10
    ensures Decode(d, i) == Value(Base128(d[i..i + k + 1]) % TWO_64, i + k + 1)
  {
    DecodeFromSum(d, i, 0, 0, k);
  }
}
