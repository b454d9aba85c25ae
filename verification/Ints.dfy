/** Machine integers of the C++ program, written out over unbounded `int`:
    shifts as repeated halving or doubling, and the wrap of a 32-bit `int`. */
module Ints {

  function Pow2(n: nat): (p: int)
    ensures p >= 1
  {
    if n == 0 then 1 else 2 * Pow2(n - 1)
  }

  /** `v >> k` on a two's complement integer: floor division by two, k times. */
  function Shr(v: int, k: nat): int
    decreases k
  {
    if k == 0 then v else Shr(v / 2, k - 1)
  }

  /** Bit k of the two's complement representation of v. */
  function Bit(v: int, k: nat): (b: int)
    ensures b == 0 || b == 1
  {
    Shr(v, k) % 2
  }

  /** The z lowest bits of v, read as a number. */
  function LowBits(v: int, z: nat): int
    decreases z
  {
    if z == 0 then 0 else v % 2 + 2 * LowBits(v / 2, z - 1)
  }

  const INT32_MIN := -0x8000_0000
  const INT32_MAX := 0x7FFF_FFFF

  predicate InInt32(v: int) { INT32_MIN <= v <= INT32_MAX }

  /** Reduction of a mathematical result to a 32-bit `int`. */
  function Wrap32(v: int): (w: int)
    ensures InInt32(w)
    ensures InInt32(v) ==> w == v
  {
    (v + 0x8000_0000) % 0x1_0000_0000 - 0x8000_0000
  }

  /** How often v wraps around. */
  function Wraps(v: int): int { (v + 0x8000_0000) / 0x1_0000_0000 }

  /** Bit j of v, put at position k of a number. */
  function BitAt(v: int, j: nat, k: nat): int { if Bit(v, j) == 1 then Pow2(k) else 0 }

  /** `v & (1 << k)` for a 32-bit v: bit 31 is the sign bit. */
  function AndBit(v: int, k: nat): int
    requires k <= 31
  {
    if k == 31 then -BitAt(v, 31, 31) else BitAt(v, k, k)
  }

  /** `v << k` on a 32-bit `int`. */
  function Shl32(v: int, k: nat): int
    requires k <= 31
  {
    Wrap32(v * Pow2(k))
  }

  lemma {:induction false} Pow2Sum(m: nat, n: nat)
    ensures Pow2(m + n) == Pow2(m) * Pow2(n)
  {
    if m > 0 {
      Pow2Sum(m - 1, n);
      assert Pow2(m + n) == 2 * Pow2(m - 1 + n);
    }
  }

  lemma {:induction false} Pow2Monotone(m: nat, n: nat)
    requires m <= n
    ensures Pow2(m) <= Pow2(n)
  {
    if m < n { Pow2Monotone(m, n - 1); }
  }

  lemma Pow2Values()
    ensures Pow2(15) == 0x8000 && Pow2(16) == 0x1_0000
    ensures Pow2(30) == 0x4000_0000 && Pow2(31) == 0x8000_0000 && Pow2(32) == 0x1_0000_0000
  {
    assert Pow2(8) == 256;
    Pow2Sum(8, 8);
    Pow2Sum(16, 16);
  }

  lemma {:induction false} ShrSum(v: int, j: nat, k: nat)
    ensures Shr(v, j + k) == Shr(Shr(v, j), k)
    decreases j
  {
    if j > 0 { ShrSum(v / 2, j - 1, k); }
  }

  lemma {:induction false} ShrPow2(v: int, z: nat)
    requires 0 <= v < Pow2(z)
    ensures Shr(v, z) == 0
    decreases z
  {
    if z > 0 { ShrPow2(v / 2, z - 1); }
  }

  /** Shifting right by k is floor division by 2^k. */
  lemma {:induction false} ShrIsDivision(v: int, k: nat)
    ensures Shr(v, k) * Pow2(k) <= v < (Shr(v, k) + 1) * Pow2(k)
    decreases k
  {
    if k > 0 {
      ShrIsDivision(v / 2, k - 1);
    }
  }

  lemma {:induction false} LowBitsRange(v: int, z: nat)
    ensures 0 <= LowBits(v, z) < Pow2(z)
    ensures 0 <= v < Pow2(z) ==> LowBits(v, z) == v
    decreases z
  {
    if z > 0 { LowBitsRange(v / 2, z - 1); }
  }

  /** The z lowest bits and the rest make up the whole number: LowBits is `v mod 2^z`. */
  lemma {:induction false} LowBitsIsModulo(v: int, z: nat)
    ensures v == Shr(v, z) * Pow2(z) + LowBits(v, z)
    decreases z
  {
    if z > 0 {
      LowBitsIsModulo(v / 2, z - 1);
    }
  }

  lemma {:induction false} LowBitsCongruent(v: int, d: int, z: nat)
    ensures LowBits(v + d * Pow2(z), z) == LowBits(v, z)
    decreases z
  {
    if z > 0 {
      var p := Pow2(z - 1);
      assert (v + d * Pow2(z)) / 2 == v / 2 + d * p;
      assert (v + d * Pow2(z)) % 2 == v % 2;
      LowBitsCongruent(v / 2, d, z - 1);
    }
  }

  lemma Wrap32Congruent(a: int, k: int)
    ensures Wrap32(a + 0x1_0000_0000 * k) == Wrap32(a)
  {
    var n := a + 0x8000_0000;
  }

  lemma Wrap32Sum(a: int, b: int)
    ensures Wrap32(Wrap32(a) + Wrap32(b)) == Wrap32(a + b)
    ensures Wrap32(Wrap32(a) + b) == Wrap32(a + b)
  {
    Wrap32Congruent(Wrap32(a) + Wrap32(b), Wraps(a) + Wraps(b));
    Wrap32Congruent(Wrap32(a) + b, Wraps(a));
  }
}
