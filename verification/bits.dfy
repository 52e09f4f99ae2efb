/** Powers of two, single bits of naturals, and the link between a 32-bit
    left shift and the unbounded power of two it computes. */
module Bits {

  /** 2^n as an unbounded natural: the mathematical reading of `1 << n`. */
  function Pow2(n: nat): (r: nat)
    ensures r >= 1
    ensures n > 0 ==> r % 2 == 0
  {
    if n == 0 then 1 else 2 * Pow2(n - 1)
  }

  /** Bit n of x, counting from the least significant bit. */
  predicate Bit(x: nat, n: nat)
  {
    if n == 0 then x % 2 == 1 else Bit(x / 2, n - 1)
  }

  lemma {:induction false} ZeroHasNoBits(n: nat)
    ensures !Bit(0, n)
  {
    if n > 0 {
      ZeroHasNoBits(n - 1);
    }
  }

  /** 2^k has exactly one set bit, and it is bit k. */
  lemma {:induction false} Pow2SingleBit(k: nat, n: nat)
    ensures Bit(Pow2(k), n) <==> n == k
  {
    if n > 0 {
      if k == 0 {
        ZeroHasNoBits(n - 1);
      } else {
        assert Pow2(k) / 2 == Pow2(k - 1);
        Pow2SingleBit(k - 1, n - 1);
      }
    }
  }

  lemma {:induction false} Pow2Add(a: nat, b: nat)
    ensures Pow2(a + b) == Pow2(a) * Pow2(b)
  {
    if b > 0 {
      Pow2Add(a, b - 1);
    }
  }

  lemma {:induction false} Pow2StrictlyIncreasing(i: nat, j: nat)
    requires i < j
    ensures Pow2(i) < Pow2(j)
  {
    if j > i + 1 {
      Pow2StrictlyIncreasing(i, j - 1);
    }
  }

  /** Distinct exponents give distinct powers. */
  lemma Pow2Injective(i: nat, j: nat)
    ensures Pow2(i) == Pow2(j) <==> i == j
  {
    if i < j {
      Pow2StrictlyIncreasing(i, j);
    } else if j < i {
      Pow2StrictlyIncreasing(j, i);
    }
  }

  /** Shifting the 32-bit word 1 left by k < 32 places leaves 2^k. */
  lemma {:induction false} ShiftOneIsPow2(k: nat)
    requires k < 32
    ensures ((1 as bv32) << k) as int == Pow2(k)
  {
    if k > 0 {
      ShiftOneIsPow2(k - 1);
      ShiftOneStep(k);
      ShiftOneBelowSignBit(k - 1);
      ShiftLeftOnceDoubles((1 as bv32) << (k - 1));
    }
  }

  lemma ShiftOneStep(k: nat)
    requires 0 < k < 32
    ensures (1 as bv32) << k == ((1 as bv32) << (k - 1)) << 1
  {
  }

  lemma ShiftOneBelowSignBit(k: nat)
    requires k < 31
    ensures ((1 as bv32) << k) as int < 0x8000_0000
  {
  }

  lemma ShiftLeftOnceDoubles(x: bv32)
    requires x as int < 0x8000_0000
    ensures (x << 1) as int == 2 * (x as int)
  {
  }
}
