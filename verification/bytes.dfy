/**
 Fixed-width integers and the byte-level helpers the packet formats are
 built from. Widths are explicit: every narrowing cast of the original code
 goes through `Truncate8`.
 */
module Bytes {

  /** An unsigned 8-bit value (`uint8_t`, C# `byte`). */
  type Byte = b: int | 0 <= b < 0x100

  /** An unsigned 16-bit value (`uint16_t`). */
  type U16 = u: int | 0 <= u < 0x1_0000

  /** The low byte of a little-endian 16-bit field. */
  function Lo(u: U16): Byte
  {
    u % 0x100
  }

  /** The high byte of a little-endian 16-bit field. */
  function Hi(u: U16): Byte
  {
    u / 0x100
  }

  /** Reads a little-endian 16-bit value (`b0 | b1 << 8`). */
  function Le16(b0: Byte, b1: Byte): (u: U16)
    ensures Lo(u) == b0 && Hi(u) == b1
  {
    b0 + 0x100 * b1
  }

  /** Writes a 16-bit value as two little-endian bytes. */
  function U16Bytes(u: U16): (r: seq<Byte>)
    ensures |r| == 2 && Le16(r[0], r[1]) == u
  {
    [Lo(u), Hi(u)]
  }

  /** A narrowing cast to 8 bits: keeps the low 8 bits of the two's
      complement representation, for negative values too. */
  function Truncate8(x: int): (b: Byte)
    ensures 0 <= x < 0x100 ==> b == x
    ensures (b - x) % 0x100 == 0
  {
    x % 0x100
  }

  /** 2 to the power n. */
  function Pow2(n: nat): (r: nat)
    ensures r >= 1
  {
    if n == 0 then 1 else 2 * Pow2(n - 1)
  }

  /** Shifting by a + b is shifting by a and then by b. */
  lemma {:induction false} Pow2Add(a: nat, b: nat)
    ensures Pow2(a + b) == Pow2(a) * Pow2(b)
  {
    if a > 0 {
      Pow2Add(a - 1, b);
      assert Pow2(a + b) == 2 * Pow2(a - 1 + b);
    }
  }

  /** Bit i of a non-negative value (`(x >> i) & 1`). */
  predicate BitSet(x: nat, i: nat)
  {
    if i == 0 then x % 2 == 1 else BitSet(x / 2, i - 1)
  }

  /** The value whose bit i is bits[i] (bit 0 first), the OR of `1 << i`
      over the set entries. */
  function MaskOf(bits: seq<bool>): (m: nat)
    ensures m < Pow2(|bits|)
  {
    if bits == [] then 0 else (if bits[0] then 1 else 0) + 2 * MaskOf(bits[1..])
  }

  /** Bit i of `MaskOf(bits)` is `bits[i]`, and no bit past the end is set. */
  lemma {:induction false} MaskOfBits(bits: seq<bool>, i: nat)
    ensures BitSet(MaskOf(bits), i) <==> i < |bits| && bits[i]
  {
    if bits == [] {
      ZeroHasNoBits(i);
    } else if i > 0 {
      MaskOfBits(bits[1..], i - 1);
    }
  }

  lemma {:induction false} ZeroHasNoBits(i: nat)
    ensures !BitSet(0, i)
  {
    if i > 0 {
      ZeroHasNoBits(i - 1);
    }
  }

  /** The low n bits of x, bit 0 first (`(x & (1 << i)) != 0` for i < n). */
  function Bits(x: nat, n: nat): (r: seq<bool>)
    ensures |r| == n
    ensures forall i :: 0 <= i < n ==> (r[i] <==> BitSet(x, i))
  {
    if n == 0 then [] else [x % 2 == 1] + Bits(x / 2, n - 1)
  }

  /** Packing the low n bits of x gives back x modulo 2^n. */
  lemma {:induction false} MaskOfBitsOf(x: nat, n: nat)
    ensures MaskOf(Bits(x, n)) == x % Pow2(n)
  {
    if n > 0 {
      var r := Bits(x, n);
      assert r[1..] == Bits(x / 2, n - 1);
      MaskOfBitsOf(x / 2, n - 1);
      DivModPow2(x, n);
    }
  }

  lemma DivModPow2(x: nat, n: nat)
    requires n > 0
    ensures x % Pow2(n) == x % 2 + 2 * ((x / 2) % Pow2(n - 1))
  {
    var p := Pow2(n - 1);
    var q := (x / 2) / p;
    var m := (x / 2) % p;
    assert x / 2 == q * p + m;
    assert x == 2 * (x / 2) + x % 2;
    assert x == q * (2 * p) + (2 * m + x % 2);
    ModUnique(x, 2 * p, q, 2 * m + x % 2);
  }

  /** The remainder is the unique r below d with x = q * d + r. */
  lemma ModUnique(x: int, d: int, q: int, r: int)
    requires d > 0 && 0 <= r < d && x == q * d + r
    ensures x % d == r
  {
    var q' := x / d;
    var r' := x % d;
    assert x == q' * d + r';
    assert q * d - q' * d == (q - q') * d;
    if q > q' {
      MulAtLeast(q - q', d);
    } else if q < q' {
      MulAtLeast(q' - q, d);
    }
  }

  lemma {:induction false} MulAtLeast(k: int, d: int)
    requires k >= 1 && d > 0
    ensures k * d >= d
    decreases k
  {
    if k > 1 {
      MulAtLeast(k - 1, d);
      assert k * d == (k - 1) * d + d;
    }
  }

  /** n copies of v. */
  function Repeat<T>(v: T, n: nat): (r: seq<T>)
    ensures |r| == n
    ensures forall i :: 0 <= i < n ==> r[i] == v
  {
    seq(n, _ => v)
  }

  /** x below a·b means x / a below b. */
  lemma DivBelow(x: nat, a: nat, b: nat)
    requires a > 0
    ensures x < a * b ==> x / a < b
  {
    if x / a >= b {
      assert a * (x / a) >= a * b;
      assert x >= a * (x / a);
    }
  }

  /** Division and remainder put back together. */
  lemma DivMod(x: nat, d: nat)
    requires d > 0
    ensures x % d + d * (x / d) == x && x % d < d
  {
  }

  /** Multiplying both sides of a ≤ b by the same natural number. */
  lemma MulMonotone(a: nat, b: nat, c: nat)
    requires a <= b
    ensures a * c <= b * c
  {
  }

  /** Multiplying both sides of a < b by the same positive number. */
  lemma MulStrict(a: nat, b: nat, c: nat)
    requires c > 0
    ensures a < b ==> a * c < b * c
  {
    if a < b {
      MulMonotone(a + 1, b, c);
    }
  }
}
