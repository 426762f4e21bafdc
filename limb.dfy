/**
 * Limbs and the integers they represent.
 *
 * A limb is an unsigned machine word of `LIMB_BITS` bits; a sequence of
 * limbs is a little-endian number in radix `LIMB_BASE`. A `LimbMask` is a
 * limb used as a branch-free boolean, all zeros or all ones. The bitwise
 * operations the native select is built from (`&`, `|`, `!`) are defined
 * here on unbounded naturals, bit by bit.
 */
module Limb {

  const LIMB_BITS: nat := 64

  function Pow2(k: nat): (p: nat)
    ensures p >= 1
  {
    if k == 0 then 1 else 2 * Pow2(k - 1)
  }

  const LIMB_BASE: nat := 0x1_0000_0000_0000_0000

  lemma {:induction false} Pow2Add(a: nat, b: nat)
    ensures Pow2(a + b) == Pow2(a) * Pow2(b)
  {
    if a > 0 {
      Pow2Add(a - 1, b);
      assert Pow2(a + b) == 2 * Pow2(a - 1 + b);
    }
  }

  lemma LimbBaseIsPow2()
    ensures LIMB_BASE == Pow2(LIMB_BITS)
  {
    assert Pow2(8) == 0x100;
    Pow2Add(8, 8);
    Pow2Add(16, 16);
    Pow2Add(32, 32);
  }

  /** The all-ones limb. */
  const ALL_ONES: nat := LIMB_BASE - 1

  type Limb = x: int | 0 <= x < LIMB_BASE

  /** A limb that callers treat as a boolean: `ALL_ONES` or `0`. */
  type LimbMask = m: Limb | m == 0 || m == ALL_ONES

  // ---------------------------------------------------------------------
  // Values.
  // ---------------------------------------------------------------------

  /** `LIMB_BASE^n`: the place value of limb `n`. */
  function Radix(n: nat): (p: nat)
    ensures p >= 1
  {
    if n == 0 then 1 else LIMB_BASE * Radix(n - 1)
  }

  /** `LIMB_BASE^n` is `2^(LIMB_BITS·n)`: `n` limbs hold `LIMB_BITS·n` bits. */
  lemma {:induction false} RadixIsPow2(n: nat)
    ensures Radix(n) == Pow2(LIMB_BITS * n)
  {
    if n > 0 {
      RadixIsPow2(n - 1);
      LimbBaseIsPow2();
      Pow2Add(LIMB_BITS, LIMB_BITS * (n - 1));
      assert LIMB_BITS + LIMB_BITS * (n - 1) == LIMB_BITS * n;
    }
  }

  /** The value of a little-endian limb sequence. */
  function Value(s: seq<Limb>): nat
  {
    assert |s| > 0 ==> s[|s| - 1] * Radix(|s| - 1) >= 0 by {
      if |s| > 0 { MulNonneg(s[|s| - 1], Radix(|s| - 1)); }
    }

    if |s| == 0 then 0 else Value(s[..|s| - 1]) + s[|s| - 1] * Radix(|s| - 1)
  }

  lemma MulNonneg(x: nat, y: nat)
    ensures x * y >= 0
  {
  }

  lemma MulLe(x: nat, y: nat, z: nat)
    requires x <= y
    ensures x * z <= y * z
  {
  }

  /** An `n`-limb number is below `LIMB_BASE^n`. */
  lemma {:induction false} ValueBound(s: seq<Limb>)
    ensures Value(s) < Radix(|s|)
  {
    if |s| > 0 {
      var n := |s| - 1;
      ValueBound(s[..n]);
      MulLe(s[n], LIMB_BASE - 1, Radix(n));
      assert Value(s) < Radix(n) + (LIMB_BASE - 1) * Radix(n);
    }
  }

  // ---------------------------------------------------------------------
  // Bitwise operations, bit by bit from the least significant end.
  // ---------------------------------------------------------------------

  function And(x: nat, y: nat): nat
    decreases x
  {
    if x == 0 || y == 0 then 0 else 2 * And(x / 2, y / 2) + (x % 2) * (y % 2)
  }

  function Or(x: nat, y: nat): nat
    decreases x
  {
    if x == 0 then y
    else if y == 0 then x
    else 2 * Or(x / 2, y / 2) + (if x % 2 == 1 || y % 2 == 1 then 1 else 0)
  }

  /** `!x` on a limb. */
  function Not(x: Limb): (r: Limb)
    ensures x == 0 <==> r == ALL_ONES
    ensures x == ALL_ONES <==> r == 0
  {
    ALL_ONES - x
  }

  /** `x & y` keeps no bit that `y` lacks, so it stays below `y`. */
  lemma {:induction false} AndBelow(x: nat, y: nat)
    ensures And(x, y) <= y
    decreases x
  {
    if x != 0 && y != 0 {
      AndBelow(x / 2, y / 2);
    }
  }

  /** Masking with `2^k - 1` keeps every `k`-bit number. */
  lemma {:induction false} AndOnes(k: nat, y: nat)
    requires y < Pow2(k)
    ensures And(Pow2(k) - 1, y) == y
  {
    if k > 0 && y != 0 {
      var ones := Pow2(k) - 1;
      assert ones / 2 == Pow2(k - 1) - 1 && ones % 2 == 1;
      AndOnes(k - 1, y / 2);
    }
  }

  /** The or of two `k`-bit numbers is a `k`-bit number. */
  lemma {:induction false} OrBelow(k: nat, x: nat, y: nat)
    requires x < Pow2(k) && y < Pow2(k)
    ensures Or(x, y) < Pow2(k)
    decreases x
  {
    if x != 0 && y != 0 {
      OrBelow(k - 1, x / 2, y / 2);
    }
  }

  /** `(mask & a) | (!mask & b)`: the branch-free select of one limb, which
      yields `a` under an all-ones mask and `b` under an all-zeros mask. */
  function SelectLimb(mask: LimbMask, a: Limb, b: Limb): (r: Limb)
    ensures mask == ALL_ONES ==> r == a
    ensures mask == 0 ==> r == b
  {
    LimbBaseIsPow2();
    AndBelow(mask, a);
    AndBelow(Not(mask), b);
    OrBelow(LIMB_BITS, And(mask, a), And(Not(mask), b));
    AndOnes(LIMB_BITS, a);
    AndOnes(LIMB_BITS, b);
    Or(And(mask, a), And(Not(mask), b))
  }
}
