/** The bitwise operators of unbounded non-negative integers, and what each does to one bit. */
module Bits {

  function Pow2(k: nat): (p: nat)
    ensures p > 0
  {
    if k == 0 then 1 else 2 * Pow2(k - 1)
  }

  predicate Bit(n: nat, i: nat) {
    if i == 0 then n % 2 == 1 else Bit(n / 2, i - 1)
  }

  function Shl(n: nat, k: nat): (r: nat)
    ensures r >= n
    decreases k
  {
    if k == 0 then n else Shl(2 * n, k - 1)
  }

  function Or(a: nat, b: nat): nat
    decreases a + b
  {
    if a == 0 && b == 0 then 0
    else 2 * Or(a / 2, b / 2) + if a % 2 == 1 || b % 2 == 1 then 1 else 0
  }

  function And(a: nat, b: nat): nat
    decreases a + b
  {
    if a == 0 && b == 0 then 0
    else 2 * And(a / 2, b / 2) + if a % 2 == 1 && b % 2 == 1 then 1 else 0
  }

  lemma {:induction false} ZeroBit(i: nat)
    ensures !Bit(0, i)
  {
    if i > 0 {
      ZeroBit(i - 1);
    }
  }

  lemma {:induction false} OrBit(a: nat, b: nat, i: nat)
    ensures Bit(Or(a, b), i) <==> Bit(a, i) || Bit(b, i)
    decreases i
  {
    if a == 0 && b == 0 {
      ZeroBit(i);
    } else if i > 0 {
      assert Or(a, b) / 2 == Or(a / 2, b / 2);
      OrBit(a / 2, b / 2, i - 1);
    }
  }

  lemma {:induction false} AndBit(a: nat, b: nat, i: nat)
    ensures Bit(And(a, b), i) <==> Bit(a, i) && Bit(b, i)
    decreases i
  {
    if a == 0 && b == 0 {
      ZeroBit(i);
    } else if i > 0 {
      assert And(a, b) / 2 == And(a / 2, b / 2);
      AndBit(a / 2, b / 2, i - 1);
    }
  }

  lemma {:induction false} ShlBit(n: nat, k: nat, i: nat)
    ensures Bit(Shl(n, k), i) <==> i >= k && Bit(n, i - k)
    decreases k
  {
    if k > 0 {
      ShlBit(2 * n, k - 1, i);
      assert (2 * n) / 2 == n;
    }
  }

  lemma {:induction false} ShlOne(k: nat)
    ensures Shl(1, k) == Pow2(k)
  {
    ShlScale(1, k);
  }

  lemma {:induction false} ShlScale(n: nat, k: nat)
    ensures Shl(n, k) == n * Pow2(k)
    decreases k
  {
    if k > 0 {
      ShlScale(2 * n, k - 1);
    }
  }

  /** `1 << k` has exactly bit k. */
  lemma {:induction false} SingleBit(k: nat, i: nat)
    ensures Bit(Shl(1, k), i) <==> i == k
  {
    ShlBit(1, k, i);
    if i > k {
      ZeroBit(i - k - 1);
      assert !Bit(1, i - k);
    }
  }

  /** `(1 << k) - 1` has exactly the bits below k. */
  lemma {:induction false} MaskBit(k: nat, i: nat)
    ensures Bit(Pow2(k) - 1, i) <==> i < k
    decreases k
  {
    if k == 0 {
      ZeroBit(i);
    } else if i > 0 {
      assert (Pow2(k) - 1) / 2 == Pow2(k - 1) - 1;
      MaskBit(k - 1, i - 1);
    }
  }

  lemma {:induction false} AndAtMost(a: nat, b: nat)
    ensures And(a, b) <= b
    decreases a + b
  {
    if a != 0 || b != 0 {
      AndAtMost(a / 2, b / 2);
    }
  }

  lemma {:induction false} OrBelow(a: nat, b: nat, k: nat)
    requires a < Pow2(k) && b < Pow2(k)
    ensures Or(a, b) < Pow2(k)
    decreases k
  {
    if k > 0 {
      OrBelow(a / 2, b / 2, k - 1);
    }
  }

  lemma {:induction false} Pow2Monotone(i: nat, k: nat)
    requires i < k
    ensures Pow2(i) < Pow2(k)
    decreases k
  {
    if i < k - 1 {
      Pow2Monotone(i, k - 1);
    }
  }

  /** A number below 2^k has no bit at or above k. */
  lemma {:induction false} HighBitsClear(n: nat, k: nat, i: nat)
    requires n < Pow2(k) && k <= i
    ensures !Bit(n, i)
    decreases k
  {
    if k == 0 {
      ZeroBit(i);
    } else {
      HighBitsClear(n / 2, k - 1, i - 1);
    }
  }
}
