/** Numbers in positional notation, most significant digit first, and how long they get in another base. */
module Radix {
  import opened Products
  import opened Numbers

  // ---------------------------------------------------------------- powers

  function Pow(b: nat, n: nat): nat {
    if n == 0 then 1 else b * Pow(b, n - 1)
  }

  lemma {:induction false} PowPositive(b: nat, n: nat)
    requires b > 0
    ensures Pow(b, n) > 0
  {
    if n > 0 {
      PowPositive(b, n - 1);
      LeTimes(1, b, Pow(b, n - 1));
    }
  }

  lemma {:induction false} PowAdds(b: nat, m: nat, n: nat)
    ensures Pow(b, m + n) == Pow(b, m) * Pow(b, n)
    decreases m
  {
    if m > 0 {
      PowAdds(b, m - 1, n);
      Associate(b, Pow(b, m - 1), Pow(b, n));
    }
  }

  lemma {:induction false} PowPow(b: nat, m: nat, n: nat)
    ensures Pow(Pow(b, m), n) == Pow(b, m * n)
    decreases n
  {
    hide Pow;
    if n == 0 {
      PowZero(Pow(b, m));
      PowZero(b);
    } else {
      PowPow(b, m, n - 1);
      PowNext(Pow(b, m), n - 1);
      assert m * n == m + m * (n - 1);
      PowAdds(b, m, m * (n - 1));
    }
  }

  lemma PowZero(b: nat)
    ensures Pow(b, 0) == 1
  {
  }

  lemma PowNext(b: nat, n: nat)
    ensures Pow(b, n + 1) == b * Pow(b, n)
  {
  }

  lemma {:induction false} PowKeepsOrder(a: nat, b: nat, n: nat)
    requires a <= b
    ensures Pow(a, n) <= Pow(b, n)
    decreases n
  {
    if n > 0 {
      PowKeepsOrder(a, b, n - 1);
      LeTimes(a, b, Pow(a, n - 1));
      LeTimes(Pow(a, n - 1), Pow(b, n - 1), b);
    }
  }

  lemma PowGrows(b: nat, m: nat, n: nat)
    requires b > 0 && m <= n
    ensures Pow(b, m) <= Pow(b, n)
  {
    hide Pow;
    PowAdds(b, n - m, m);
    PowPositive(b, n - m);
    LeTimes(1, Pow(b, n - m), Pow(b, m));
  }

  lemma PowGrowsStrictly(b: nat, m: nat, n: nat)
    requires b > 1 && m < n
    ensures Pow(b, m) < Pow(b, n)
  {
    hide Pow;
    PowGrows(b, m + 1, n);
    PowNext(b, m);
    PowPositive(b, m);
    LeTimes(2, b, Pow(b, m));
  }

  lemma RootsInOrder(x: nat, y: nat, n: nat)
    requires Pow(x, n) < Pow(y, n)
    ensures x < y
  {
    if y <= x {
      PowKeepsOrder(y, x, n);
    }
  }

  /**
   If p digits of base a fit in q digits of base b, then m digits of base a fit in q * m / p + 1: the
   p-th power of the one is less than the p-th power of the other.
   */
  lemma Fits(a: nat, b: nat, p: nat, q: nat, m: nat)
    requires b > 1 && p > 0 && Pow(a, p) <= Pow(b, q)
    ensures Pow(a, m) < Pow(b, q * m / p + 1)
  {
    hide Pow;
    var f := q * m / p + 1;
    PowPow(a, p, m);
    PowPow(b, q, m);
    PowKeepsOrder(Pow(a, p), Pow(b, q), m);
    RoundedUp(q * m, p);
    PowGrowsStrictly(b, q * m, f * p);
    PowPow(b, f, p);
    PowPow(a, m, p);
    assert p * m == m * p;
    RootsInOrder(Pow(a, m), Pow(b, f), p);
  }

  lemma RoundedUp(x: nat, p: nat)
    requires p > 0
    ensures x < (x / p + 1) * p
  {
  }

  lemma Pow58And256()
    ensures Pow(256, 100) <= Pow(58, 138)
    ensures Pow(58, 1000) <= Pow(256, 733)
  {
    hide Pow;
    Pow256In58();
    Pow58In256();
    // 256^100 = (256^8)^12 * 256^4, 58^138 = (58^11)^12 * 58^6
    Powers(256, 58, 8, 11, 12, 4, 6);
    // 58^1000 = (58^71)^14 * 58^6, 256^733 = (256^52)^14 * 256^5
    Powers(58, 256, 71, 52, 14, 6, 5);
  }

  lemma Powers(a: nat, b: nat, p: nat, q: nat, k: nat, r: nat, s: nat)
    requires Pow(a, p) <= Pow(b, q) && Pow(a, r) <= Pow(b, s)
    ensures Pow(a, p * k + r) <= Pow(b, q * k + s)
  {
    hide Pow;
    PowAdds(a, p * k, r);
    PowAdds(b, q * k, s);
    PowPow(a, p, k);
    PowPow(b, q, k);
    PowKeepsOrder(Pow(a, p), Pow(b, q), k);
    LeTimes(Pow(a, p * k), Pow(b, q * k), Pow(a, r));
    LeTimes(Pow(a, r), Pow(b, s), Pow(b, q * k));
  }

  lemma Pow256In58()
    ensures Pow(256, 8) <= Pow(58, 11) && Pow(256, 4) <= Pow(58, 6)
  {
    assert Pow(256, 4) == 0x1_0000_0000;
    PowAdds(256, 4, 4);
    assert Pow(58, 6) == 38068692544;
    assert Pow(58, 5) == 656356768;
    PowAdds(58, 6, 5);
  }

  lemma Pow58In256()
    ensures Pow(58, 71) <= Pow(256, 52) && Pow(58, 6) <= Pow(256, 5)
  {
    Pow58To17();
    Pow256To26();
    hide Pow;
    PowAdds(58, 17, 18);
    PowAdds(58, 35, 1 + 35);
    PowNext(58, 35);
    PowAdds(256, 26, 26);
  }

  lemma Pow58To17()
    ensures Pow(58, 6) == 38068692544
    ensures Pow(58, 17) == 951208868148684143308060622848
    ensures Pow(58, 18) == 58 * Pow(58, 17)
  {
    assert Pow(58, 5) == 656356768;
    PowAdds(58, 5, 6);
    PowAdds(58, 6, 11);
  }

  lemma Pow256To26()
    ensures Pow(256, 5) == 0x100_0000_0000
    ensures Pow(256, 26) == 0x1_0000000000_0000000000_0000000000_0000000000_0000000000_00
  {
    PowAdds(256, 5, 5);
    PowAdds(256, 10, 10);
    assert Pow(256, 6) == 0x1_0000_0000_0000;
    PowAdds(256, 6, 20);
  }

  // ---------------------------------------------------------------- digits


  /** The number that digits stand for, most significant first. */
  function Num(b: nat, d: seq<byte>): nat {
    if d == [] then 0 else Num(b, d[..|d| - 1]) * b + d[|d| - 1]
  }

  /** All digits are digits of base `b`. */
  predicate InBase(b: nat, d: seq<byte>) { forall i :: 0 <= i < |d| ==> d[i] < b }

  predicate NoLeadingZero(d: seq<byte>) { d != [] ==> d[0] != 0 }

  /** The digits of a number, without leading zeros. */
  function Digits(b: nat, n: nat): (d: seq<byte>)
    requires 1 < b <= 256
    ensures InBase(b, d)
  {
    if n == 0 then []
    else
      Shrinks(n, b);
      Digits(b, n / b) + [n % b]
  }

  lemma Shrinks(n: nat, b: nat)
    requires n > 0 && b > 1
    ensures 0 <= n / b < n && 0 <= n % b < b && n / b * b + n % b == n
  {
    var q, r := n / b, n % b;
    assert q * b + r == n;
    if q < 0 {
      LeTimes(q, -1, b);
    } else {
      LeTimes(2, b, q);
    }
  }

  lemma NumNext(b: nat, d: seq<byte>, x: byte)
    ensures Num(b, d + [x]) == Num(b, d) * b + x
  {
    assert (d + [x])[..|d|] == d;
  }

  lemma {:induction false} NumOfDigits(b: nat, n: nat)
    requires 1 < b <= 256
    ensures Num(b, Digits(b, n)) == n && NoLeadingZero(Digits(b, n)) && (n > 0 ==> Digits(b, n) != [])
  {
    if n > 0 {
      Shrinks(n, b);
      NumOfDigits(b, n / b);
      NumNext(b, Digits(b, n / b), n % b);
    }
  }

  lemma FirstKept(d: seq<byte>)
    requires d != [] && NoLeadingZero(d)
    ensures NoLeadingZero(d[..|d| - 1]) && d[0] != 0
  {
  }

  lemma NumLast(b: nat, d: seq<byte>)
    requires d != []
    ensures Num(b, d) == Num(b, d[..|d| - 1]) * b + d[|d| - 1]
  {
  }

  lemma {:induction false} NotZero(b: nat, d: seq<byte>)
    requires b > 0 && d != [] && d[0] != 0
    ensures Num(b, d) > 0
  {
    hide Num;
    NumLast(b, d);
    var e := d[..|d| - 1];
    if e != [] {
      NotZero(b, e);
      LeTimes(1, Num(b, e), b);
    } else {
      NumNothing(b);
    }
  }

  lemma NumNothing(b: nat)
    ensures Num(b, []) == 0
  {
  }

  lemma DigitsLast(b: nat, n: nat, x: byte)
    requires 1 < b <= 256 && x < b && n * b + x > 0
    ensures Digits(b, n * b + x) == Digits(b, n) + [x]
  {
    ModUnique(n * b + x, n, x, b);
  }

  /** Digits without a leading zero are the digits of their number. */
  lemma {:induction false} DigitsOfNum(b: nat, d: seq<byte>)
    requires 1 < b <= 256 && InBase(b, d) && NoLeadingZero(d)
    ensures Digits(b, Num(b, d)) == d
  {
    if d != [] {
      hide Num, Digits, NoLeadingZero;
      var e, x := d[..|d| - 1], d[|d| - 1];
      assert d == e + [x];
      FirstKept(d);
      DigitsOfNum(b, e);
      NumLast(b, d);
      NotZero(b, d);
      DigitsLast(b, Num(b, e), x);
    }
  }

  lemma {:induction false} NumBound(b: nat, d: seq<byte>)
    requires InBase(b, d)
    ensures Num(b, d) < Pow(b, |d|)
  {
    if d != [] {
      var e := d[..|d| - 1];
      NumBound(b, e);
      BoundStep(Num(b, e), Pow(b, |e|), d[|e|], b);
    }
  }

  lemma BoundStep(m: int, p: int, x: int, b: int)
    requires m < p && 0 <= x < b
    ensures m * b + x < b * p
  {
    LeTimes(m + 1, p, b);
  }

  /** The upper and the lower part of a number. */
  lemma {:induction false} NumSplit(b: nat, d: seq<byte>, e: seq<byte>)
    ensures Num(b, d + e) == Num(b, d) * Pow(b, |e|) + Num(b, e)
  {
    if e == [] {
      assert d + e == d;
    } else {
      var f, x := e[..|e| - 1], e[|e| - 1];
      NumSplit(b, d, f);
      assert d + e == (d + f) + [x];
      NumNext(b, d + f, x);
      SplitStep(Num(b, d), Pow(b, |f|), Num(b, f), b);
    }
  }

  lemma SplitStep(n: int, p: int, m: int, b: int)
    ensures (n * p + m) * b == n * (b * p) + m * b
  {
    Associate(n, p, b);
  }

  function Zeros(n: nat): (z: seq<byte>)
    ensures |z| == n && forall i :: 0 <= i < n ==> z[i] == 0
  {
    seq(n, i => 0)
  }

  /** How many of the first bytes are zero. */
  function LeadingZeros(d: seq<byte>): (n: nat)
    ensures n <= |d| && NoLeadingZero(d[n..]) && d[..n] == Zeros(n)
  {
    if d == [] || d[0] != 0 then 0 else
      assert d[1..][LeadingZeros(d[1..])..] == d[1 + LeadingZeros(d[1..])..];
      assert d == [d[0]] + d[1..];
      1 + LeadingZeros(d[1..])
  }

  lemma {:induction false} LeadingZerosAre(n: nat, d: seq<byte>)
    requires NoLeadingZero(d)
    ensures LeadingZeros(Zeros(n) + d) == n
  {
    if n == 0 {
      assert Zeros(0) + d == d;
    } else {
      LeadingZerosAre(n - 1, d);
      assert (Zeros(n) + d)[1..] == Zeros(n - 1) + d;
    }
  }

  /** Leading zeros do not count. */
  lemma {:induction false} NumOfZeros(b: nat, n: nat, d: seq<byte>)
    ensures Num(b, Zeros(n) + d) == Num(b, d)
  {
    NumSplit(b, Zeros(n), d);
    ZerosAreZero(b, n);
  }

  lemma {:induction false} ZerosAreZero(b: nat, n: nat)
    ensures Num(b, Zeros(n)) == 0
  {
    if n > 0 {
      ZerosAreZero(b, n - 1);
      assert Zeros(n)[..n - 1] == Zeros(n - 1);
    }
  }

  // ---------------------------------------------------------------- in place

  /** A zero prefix of a number can be left out. */
  lemma ZeroPrefix(b: nat, d: seq<byte>, n: nat)
    requires n <= |d| && forall i :: 0 <= i < n ==> d[i] == 0
    ensures Num(b, d) == Num(b, d[n..])
  {
    assert d == Zeros(n) + d[n..];
    NumOfZeros(b, n, d[n..]);
  }

  /** One digit of a multiplication: the lower digits with the carry stand for the product so far. */
  lemma DigitStep(r: int, f: int, p: int, low: int, low0: int, was: int, now: int, carry: int, carry': int, ch: int)
    requires low + carry * p == f * low0 + ch
    requires now + carry' * r == carry + f * was
    ensures (now * p + low) + carry' * (r * p) == f * (was * p + low0) + ch
  {
    assert carry' * (r * p) == (carry' * r) * p;
    assert f * (was * p + low0) == (f * was) * p + f * low0;
    assert (now + carry' * r) * p == now * p + (carry' * r) * p;
    assert (carry + f * was) * p == carry * p + (f * was) * p;
  }

  lemma NumOfNothing(b: nat, d: seq<byte>)
    requires d == []
    ensures Num(b, d) == 0
  {
  }

  lemma TopDigit(b: nat, d: seq<byte>)
    requires d != []
    ensures Num(b, d) == d[0] * Pow(b, |d| - 1) + Num(b, d[1..])
  {
    assert d == [d[0]] + d[1..];
    NumSplit(b, [d[0]], d[1..]);
    assert Num(b, [d[0]]) == Num(b, []) * b + d[0];
  }

  lemma CarryIsOut(x: nat, carry: nat, p: nat)
    requires x + carry * p < p
    ensures carry == 0
  {
    if carry > 0 {
      LeTimes(1, carry, p);
    }
  }

  lemma CarryFits(f: nat, r: nat, carry: nat, was: nat)
    requires carry < f && was < r
    ensures 0 <= (carry + f * was) / r < f && 0 <= (carry + f * was) % r < r
    ensures (carry + f * was) % r + (carry + f * was) / r * r == carry + f * was
  {
    LeTimes(was + 1, r, f);
    Distribute(was, 1, f);
    QuotientBelow(carry + f * was, f, r);
  }

  lemma QuotientBelow(n: nat, f: nat, r: nat)
    requires r > 0 && n < f * r
    ensures 0 <= n / r < f
  {
    var q := n / r;
    if q >= f {
      LeTimes(f, q, r);
    } else if q < 0 {
      LeTimes(q, -1, r);
    }
  }

  /**
   "buf = buf * factor + ch", from the last digit up. `length` digits are in use before, the result
   afterwards. The buffer must have room for the product.
   */
  method MultiplyAdd(buf: array<byte>, radix: nat, factor: nat, ch: nat, length: nat) returns (i: nat)
    requires 1 < radix <= 256 && ch < factor && InBase(radix, buf[..])
    requires length <= buf.Length && forall j :: 0 <= j < buf.Length - length ==> buf[j] == 0
    requires factor * Num(radix, buf[..]) + ch < Pow(radix, buf.Length)
    modifies buf
    ensures Num(radix, buf[..]) == factor * Num(radix, old(buf[..])) + ch && InBase(radix, buf[..])
    ensures i <= buf.Length && forall j :: 0 <= j < buf.Length - i ==> buf[j] == 0
  {
    hide Num, Pow;
    ghost var was := buf[..];
    var carry := ch;
    i := 0;
    NumOfNothing(radix, was[buf.Length..]);
    PowZero(radix);
    while (carry != 0 || i < length) && i < buf.Length
      invariant i <= buf.Length && 0 <= carry < factor && InBase(radix, buf[..])
      invariant buf[..buf.Length - i] == was[..buf.Length - i]
      invariant Num(radix, buf[buf.Length - i..]) + carry * Pow(radix, i) == factor * Num(radix, was[buf.Length - i..]) + ch
      decreases buf.Length - i
    {
      var k := buf.Length - 1 - i;
      ghost var low, carry0 := buf[k + 1..], carry;
      assert buf[k] == was[k];
      CarryFits(factor, radix, carry, buf[k]);
      carry := carry + factor * buf[k];
      buf[k] := carry % radix;
      carry := carry / radix;
      i := i + 1;
      DigitStep(radix, factor, Pow(radix, |low|), Num(radix, low), Num(radix, was[k + 1..]), was[k], buf[k], carry0, carry, ch);
      TopDigit(radix, buf[k..]);
      TopDigit(radix, was[k..]);
      PowNext(radix, |low|);
      assert buf[k..][1..] == low && was[k..][1..] == was[k + 1..];
    }
    if i == buf.Length {
      assert buf[0..] == buf[..] && was[0..] == was;
      CarryIsOut(Num(radix, buf[..]), carry, Pow(radix, i));
    }
    assert carry == 0;
    ZeroPrefix(radix, was, if i < length then 0 else buf.Length - i);
    ZeroPrefix(radix, buf[..], if i < length then 0 else buf.Length - i);
  }
}
