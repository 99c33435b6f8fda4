/** Bitwise operators of C on non-negative integers of any width. */
module Bits {

  function And(a: nat, b: nat): nat
    decreases a
  {
    if a == 0 then 0 else 2 * And(a / 2, b / 2) + if a % 2 == 1 && b % 2 == 1 then 1 else 0
  }

  function Or(a: nat, b: nat): nat
    decreases a
  {
    if a == 0 then b else 2 * Or(a / 2, b / 2) + if a % 2 == 1 || b % 2 == 1 then 1 else 0
  }

  function Pow2(k: nat): (r: nat)
    ensures r >= 1
  {
    if k == 0 then 1 else 2 * Pow2(k - 1)
  }

  /** a << k */
  function Shl(a: nat, k: nat): nat { a * Pow2(k) }

  /** a >> k */
  function Shr(a: nat, k: nat): nat
    decreases k
  {
    if k == 0 then a else Shr(a / 2, k - 1)
  }

  /** Whether bit k is set: (a & (1 << k)) != 0. */
  predicate Bit(a: nat, k: nat) { Shr(a, k) % 2 == 1 }

  lemma Twice(q: int, p: int)
    ensures q * (2 * p) == 2 * (q * p)
  {
  }

  lemma {:induction false} ShrDivides(a: nat, k: nat)
    ensures Shr(a, k) * Pow2(k) <= a < (Shr(a, k) + 1) * Pow2(k)
    decreases k
  {
    if k > 0 {
      ShrDivides(a / 2, k - 1);
      Twice(Shr(a, k), Pow2(k - 1));
      Twice(Shr(a, k) + 1, Pow2(k - 1));
    }
  }

  lemma {:induction false} AndAtMost(a: nat, b: nat)
    ensures And(a, b) <= a && And(a, b) <= b
    decreases a
  {
    if a != 0 {
      AndAtMost(a / 2, b / 2);
    }
  }

  lemma {:induction false} AndSelf(a: nat)
    ensures And(a, a) == a
  {
    if a != 0 {
      AndSelf(a / 2);
    }
  }

  /** Every bit counts once in the one and once in the other. */
  lemma {:induction false} OrAnd(a: nat, b: nat)
    ensures Or(a, b) + And(a, b) == a + b
    decreases a
  {
    if a != 0 {
      OrAnd(a / 2, b / 2);
    }
  }

  /** Masking with a power of two leaves that bit. */
  lemma {:induction false} AndPow(a: nat, k: nat)
    ensures And(a, Pow2(k)) == if Bit(a, k) then Pow2(k) else 0
    decreases k
  {
    if a == 0 {
      ShrOfZero(k);
    } else if k == 0 {
      AndZero(a / 2);
    } else {
      AndPow(a / 2, k - 1);
    }
  }

  lemma {:induction false} AndZero(a: nat)
    ensures And(a, 0) == 0
  {
    if a != 0 {
      AndZero(a / 2);
    }
  }

  lemma {:induction false} ShrOfZero(k: nat)
    ensures Shr(0, k) == 0
  {
    if k > 0 {
      ShrOfZero(k - 1);
    }
  }

  /** `|` works bit by bit. */
  lemma {:induction false} OrBit(a: nat, b: nat, k: nat)
    ensures Bit(Or(a, b), k) <==> Bit(a, k) || Bit(b, k)
    decreases k
  {
    if a == 0 {
      ShrOfZero(k);
    } else if k > 0 {
      OrBit(a / 2, b / 2, k - 1);
    }
  }

  lemma {:induction false} PowBit(j: nat, k: nat)
    ensures Bit(Pow2(j), k) <==> j == k
    decreases k
  {
    if j == 0 && k > 0 {
      ShrOfZero(k - 1);
    } else if k > 0 {
      PowBit(j - 1, k - 1);
    }
  }

  /** `&` works bit by bit. */
  lemma {:induction false} AndBit(a: nat, b: nat, k: nat)
    ensures Bit(And(a, b), k) <==> Bit(a, k) && Bit(b, k)
    decreases k
  {
    if a == 0 {
      ShrOfZero(k);
    } else if k > 0 {
      AndBit(a / 2, b / 2, k - 1);
    }
  }

  lemma {:induction false} PowLess(k: nat, n: nat)
    requires k < n
    ensures Pow2(k) < Pow2(n)
    decreases n
  {
    if k < n - 1 {
      PowLess(k, n - 1);
    }
  }

  lemma {:induction false} BitsDetermine(x: nat, y: nat, n: nat)
    requires x < Pow2(n) && y < Pow2(n) && forall k: nat :: k < n ==> Bit(x, k) == Bit(y, k)
    ensures x == y
  {
    if n > 0 {
      forall k: nat | k < n - 1 ensures Bit(x / 2, k) == Bit(y / 2, k) {
        assert Bit(x, k + 1) == Bit(y, k + 1);
      }
      BitsDetermine(x / 2, y / 2, n - 1);
      assert Bit(x, 0) == Bit(y, 0);
    }
  }

  lemma {:induction false} OrBelow(a: nat, b: nat, n: nat)
    requires a < Pow2(n) && b < Pow2(n)
    ensures Or(a, b) < Pow2(n)
    decreases n
  {
    if a != 0 {
      OrBelow(a / 2, b / 2, n - 1);
    }
  }

  lemma {:induction false} NoBitSet(x: nat, n: nat)
    requires x < Pow2(n)
    ensures x == 0 <==> forall k: nat :: k < n ==> !Bit(x, k)
    ensures x == Pow2(n) - 1 <==> forall k: nat :: k < n ==> Bit(x, k)
  {
    if n > 0 {
      NoBitSet(x / 2, n - 1);
      assert forall k: nat :: k < n - 1 ==> (Bit(x / 2, k) <==> Bit(x, k + 1));
      assert forall k: nat :: 0 < k < n ==> (Bit(x, k) <==> Bit(x / 2, k - 1));
      assert Bit(x, 0) <==> x % 2 == 1;
    }
  }

  /** Setting a bit of a byte leaves a byte. */
  lemma ByteOr(x: nat, k: nat)
    requires x < 256 && k < 8
    ensures Shl(1, k) == Pow2(k) && Or(x, Shl(1, k)) < 256
  {
    assert Pow2(8) == 256;
    PowLess(k, 8);
    OrBelow(x, Shl(1, k), 8);
  }
}
