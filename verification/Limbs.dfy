/**
 Numbers as little-endian sequences of 32-bit limbs, and the small facts of arithmetic that loops
 over limbs need.
 */
module Limbs {
  import opened Bits
  import opened Products
  import opened Numbers

  const BASE: int := 0x1_0000_0000
  type Limb = uint32

  /** What limb `i` is worth. */
  function W(i: nat): (r: nat)
    ensures r >= 1
  {
    Pow2(32 * i)
  }

  function Val(p: seq<Limb>): int {
    if p == [] then 0 else Val(p[..|p| - 1]) + p[|p| - 1] * W(|p| - 1)
  }

  // ---------------------------------------------------------------- arithmetic

  lemma {:induction false} Pow2Adds(a: nat, b: nat)
    ensures Pow2(a + b) == Pow2(a) * Pow2(b)
    decreases a
  {
    if a > 0 {
      Pow2Adds(a - 1, b);
      Associate(2, Pow2(a - 1), Pow2(b));
    }
  }

  lemma Pow2Grows(a: nat, b: nat)
    requires a <= b
    ensures Pow2(a) <= Pow2(b)
  {
    Pow2Adds(b - a, a);
    LeTimes(1, Pow2(b - a), Pow2(a));
  }

  lemma Pow2Less(a: nat, b: nat)
    requires Pow2(a) < Pow2(b)
    ensures a < b
  {
    if b <= a {
      Pow2Grows(b, a);
    }
  }

  lemma Pow2Of32()
    ensures Pow2(8) == 256 && Pow2(16) == 0x1_0000 && Pow2(24) == 0x100_0000 && Pow2(32) == BASE
  {
    assert Pow2(8) == 256;
    Pow2Adds(8, 8);
    Pow2Adds(8, 16);
    Pow2Adds(16, 16);
  }

  lemma WNext(i: nat)
    ensures W(i + 1) == W(i) * BASE
  {
    Pow2Adds(32 * i, 32);
    Pow2Of32();
  }

  lemma WAdds(i: nat, j: nat)
    ensures W(i + j) == W(i) * W(j)
  {
    Pow2Adds(32 * i, 32 * j);
  }

  // ---------------------------------------------------------------- bits of a number

  /** The number of bits of `x`: the position of the highest one bit plus one. */
  function NumBits(x: nat): nat {
    if x == 0 then 0 else 1 + NumBits(x / 2)
  }

  lemma {:induction false} NumBitsRange(x: nat)
    requires x > 0
    ensures NumBits(x) > 0 && Pow2(NumBits(x) - 1) <= x < Pow2(NumBits(x))
  {
    if x > 1 {
      NumBitsRange(x / 2);
    }
  }

  lemma NumBitsUnique(x: nat, n: nat)
    requires n > 0 && Pow2(n - 1) <= x < Pow2(n)
    ensures NumBits(x) == n
  {
    NumBitsRange(x);
    Pow2Less(n - 1, NumBits(x));
    Pow2Less(NumBits(x) - 1, n);
  }

  lemma NumBitsAtMost(x: nat, n: nat)
    requires x < Pow2(n)
    ensures NumBits(x) <= n
  {
    if x > 0 {
      NumBitsRange(x);
      Pow2Less(NumBits(x) - 1, n);
    }
  }

  lemma NumBitsAbove(low: nat, x: nat, k: nat)
    requires low < Pow2(k) && x > 0
    ensures low + x * Pow2(k) > 0 && NumBits(low + x * Pow2(k)) == k + NumBits(x)
  {
    var n := NumBits(x);
    NumBitsRange(x);
    Pow2Adds(n - 1, k);
    Pow2Adds(n, k);
    LeTimes(Pow2(n - 1), x, Pow2(k));
    LeTimes(x + 1, Pow2(n), Pow2(k));
    Distribute(x, 1, Pow2(k));
    NumBitsUnique(low + x * Pow2(k), k + n);
  }

  lemma {:induction false} OrZero(a: nat)
    ensures Or(a, 0) == a
  {
    if a != 0 {
      OrZero(a / 2);
    }
  }

  /** Where the operands have no one bit in common, `|` adds. */
  lemma {:induction false} OrDisjoint(low: nat, q: nat, s: nat)
    requires low < Pow2(s)
    ensures Or(low, q * Pow2(s)) == low + q * Pow2(s)
    decreases s
  {
    if low != 0 {
      Twice(q, Pow2(s - 1));
      OrDisjoint(low / 2, q, s - 1);
    }
  }

  lemma {:induction false} OrAbove(low: nat, q: nat, s: nat)
    requires low < Pow2(s)
    ensures Or(q * Pow2(s), low) == low + q * Pow2(s)
    decreases s
  {
    if s == 0 {
      OrZero(q);
    } else {
      Twice(q, Pow2(s - 1));
      OrAbove(low / 2, q, s - 1);
    }
  }

  // ---------------------------------------------------------------- limbs

  lemma ValNext(p: seq<Limb>, i: nat)
    requires i < |p|
    ensures Val(p[..i + 1]) == Val(p[..i]) + p[i] * W(i)
  {
    assert p[..i + 1][..i] == p[..i];
  }

  lemma {:induction false} ValBound(p: seq<Limb>)
    ensures 0 <= Val(p) < W(|p|)
  {
    if p != [] {
      var n := |p| - 1;
      var x: int := p[n];
      ValBound(p[..n]);
      WNext(n);
      TopLimb(Val(p[..n]), x, W(n));
    }
  }

  lemma TopLimb(low: int, x: int, w: int)
    requires 0 <= low < w && 0 <= x < BASE
    ensures 0 <= low + x * w < w * BASE
  {
    LeTimes(x + 1, BASE, w);
    LeTimes(0, x, w);
    Distribute(x, 1, w);
  }

  /** Zero limbs at the top do not count. */
  lemma {:induction false} ValZeros(p: seq<Limb>, i: nat)
    requires i <= |p| && forall j :: i <= j < |p| ==> p[j] == 0
    ensures Val(p) == Val(p[..i])
  {
    if i == |p| {
      assert p[..i] == p;
    } else {
      var n := |p| - 1;
      ValZeros(p[..n], i);
      assert p[..n][..i] == p[..i];
    }
  }

  lemma {:induction false} ValUpdate(p: seq<Limb>, i: nat, x: Limb)
    requires i < |p|
    ensures Val(p[i := x]) == Val(p) + (x - p[i]) * W(i)
  {
    hide W, Pow2;
    var n := |p| - 1;
    var q := p[i := x];
    if i == n {
      assert q[..n] == p[..n] && q[n] == x;
      var was: int := p[n];
      Distribute(x, -was, W(n));
    } else {
      assert q[..n] == p[..n][i := x] && q[n] == p[n];
      ValUpdate(p[..n], i, x);
    }
  }

  /** The upper limbs are worth a multiple of what the first of them is worth. */
  lemma {:induction false} ValSplit(p: seq<Limb>, i: nat) returns (high: nat)
    requires i <= |p|
    ensures Val(p) == Val(p[..i]) + high * W(i)
  {
    if i == |p| {
      assert p[..i] == p;
      high := 0;
    } else {
      var n := |p| - 1;
      var h := ValSplit(p[..n], i);
      assert p[..n][..i] == p[..i];
      WAdds(n - i, i);
      LeTimes(0, p[n], W(n - i));
      high := h + p[n] * W(n - i);
      Distribute(h, p[n] * W(n - i), W(i));
      Associate(p[n], W(n - i), W(i));
    }
  }

  /** The highest limb that differs decides which number is the greater. */
  lemma {:induction false} ValLess(p: seq<Limb>, q: seq<Limb>, i: nat)
    requires i < |p| == |q| && p[i] < q[i] && p[i + 1..] == q[i + 1..]
    ensures Val(p) < Val(q)
  {
    var n := |p| - 1;
    if i == n {
      ValBound(p[..n]);
      ValBound(q[..n]);
      var x: int := p[n];
      LeTimes(x + 1, q[n], W(n));
      Distribute(x, 1, W(n));
    } else {
      assert p[n] == p[i + 1..][n - i - 1] == q[n];
      assert p[..n][i + 1..] == p[i + 1..][..n - i - 1] == q[..n][i + 1..];
      ValLess(p[..n], q[..n], i);
    }
  }

  lemma {:induction false} ValInjective(p: seq<Limb>, q: seq<Limb>)
    requires |p| == |q| && Val(p) == Val(q)
    ensures p == q
  {
    if p != [] {
      var n := |p| - 1;
      if p[n] < q[n] {
        ValLess(p, q, n);
      } else if q[n] < p[n] {
        ValLess(q, p, n);
      } else {
        ValInjective(p[..n], q[..n]);
        assert p == p[..n] + [p[n]] && q == q[..n] + [q[n]];
      }
    }
  }

  /** A non-zero top limb with `n` bits makes a number of 32 * i + n bits. */
  lemma ValNumBits(p: seq<Limb>, i: nat)
    requires i < |p| && p[i] != 0 && forall j :: i < j < |p| ==> p[j] == 0
    ensures Val(p) > 0 && NumBits(Val(p)) == 32 * i + NumBits(p[i])
  {
    ValZeros(p, i + 1);
    ValNext(p, i);
    ValBound(p[..i]);
    NumBitsAbove(Val(p[..i]), p[i], 32 * i);
  }

  lemma TwoLimbs(lo: Limb, hi: Limb)
    ensures Val([lo, hi, 0, 0, 0, 0, 0, 0]) == lo + hi * BASE
  {
    var p: seq<Limb> := [lo, hi, 0, 0, 0, 0, 0, 0];
    ValZeros(p, 2);
    ValNext(p, 0);
    ValNext(p, 1);
    WNext(0);
  }

  /** One step of a carry loop: limb `was` becomes `now`, `add` and the carry go in, a new carry comes out. */
  lemma CarryStep(w: int, was: int, now: int, carry: int, carry': int, add: int)
    requires now + carry' * BASE == carry + was + add
    ensures (now - was) * w + carry' * (w * BASE) == carry * w + add * w
  {
    Associate(carry', BASE, w);
    Distribute(now - was, carry' * BASE, w);
    Distribute(carry, add, w);
  }
}
