/**
 How far back the skip pointer of a block goes, and how many turns the walk to an ancestor takes:
 at most k * k + 1 for heights up to 2^k, and from 2^k to 2 at least a quarter of that.
 */
module SkipList {
  import opened Bits
  import opened Products

  // ---------------------------------------------------------------- how far back pskip goes

  /** n & (n - 1), which is 0 for 0. */
  function InvertLowestOne(n: nat): nat { if n == 0 then 0 else And(n, n - 1) }

  /** The lowest 1 bit, and nothing else, becomes 0. */
  lemma {:induction false} InvertLowestOneClears(high: nat, k: nat)
    ensures InvertLowestOne(Shl(2 * high + 1, k)) == Shl(2 * high, k)
  {
    hide InvertLowestOne, Shl;
    if k == 0 {
      ShlZero(2 * high + 1);
      ShlZero(2 * high);
      InvertOdd(2 * high + 1);
    } else {
      ShlTwice(2 * high + 1, k);
      ShlTwice(2 * high, k);
      InvertLowestOneClears(high, k - 1);
      InvertTwice(Shl(2 * high + 1, k - 1));
    }
  }

  lemma ShlZero(a: nat)
    ensures Shl(a, 0) == a
  {
  }

  lemma ShlTwice(a: nat, k: nat)
    requires k > 0
    ensures Shl(a, k) == 2 * Shl(a, k - 1)
    ensures a > 0 ==> Shl(a, k - 1) > 0
  {
    var p := Pow2(k - 1);
    assert a * (2 * p) == 2 * (a * p);
    assert a > 0 ==> a * p > 0;
  }

  lemma InvertTwice(x: nat)
    requires x >= 1
    ensures InvertLowestOne(2 * x) == 2 * InvertLowestOne(x)
  {
    assert 2 * x / 2 == x && (2 * x - 1) / 2 == x - 1 && 2 * x % 2 == 0;
  }

  function GetSkipHeight(height: nat): nat {
    if height < 2 then 0
    else if height % 2 == 1 then InvertLowestOne(InvertLowestOne(height - 1)) + 1
    else InvertLowestOne(height)
  }

  lemma InvertedIsLess(n: nat)
    ensures InvertLowestOne(n) <= n && (n > 0 ==> InvertLowestOne(n) < n)
  {
    hide And;
    if n > 0 {
      AndAtMost(n, n - 1);
    }
  }

  lemma SkipGoesBack(height: nat)
    requires height >= 1
    ensures GetSkipHeight(height) < height
  {
    if height >= 2 {
      InvertedIsLess(height);
      InvertedIsLess(height - 1);
      InvertedIsLess(InvertLowestOne(height - 1));
    }
  }

  // ---------------------------------------------------------------- one turn of the walk

  /** The next height on the walk from `h` down to `t`. */
  function Hop(h: nat, t: nat): (r: nat)
    requires t < h
    ensures t <= r < h
  {
    SkipGoesBack(h);
    var s, p := GetSkipHeight(h), GetSkipHeight(h - 1);
    if s == t || (s > t && !(p < s - 2 && p >= t)) then s else h - 1
  }

  function Turns(h: nat, t: nat): nat
    requires t <= h
    decreases h
  {
    if h == t then 0 else Turns(Hop(h, t), t) + 1
  }

  lemma TurnsNext(h: nat, t: nat)
    requires t < h
    ensures Turns(h, t) == Turns(Hop(h, t), t) + 1
  {
  }

  lemma HopIs(h: nat, t: nat)
    requires t < h
    ensures var s, p := GetSkipHeight(h), GetSkipHeight(h - 1);
            Hop(h, t) == if s == t || (s > t && !(p < s - 2 && p >= t)) then s else h - 1
  {
  }

  lemma NoTurns(h: nat)
    ensures Turns(h, h) == 0
  {
  }

  // ---------------------------------------------------------------- one bits

  function Ones(n: nat): nat { if n == 0 then 0 else Ones(n / 2) + n % 2 }

  /** Doubling keeps the one bits, and adding one afterwards adds one. */
  lemma DoubleOnes(a: nat)
    ensures Ones(2 * a) == Ones(a) && Ones(2 * a + 1) == Ones(a) + 1
  {
    assert 2 * a / 2 == a && (2 * a + 1) / 2 == a;
  }

  lemma OddOnes(x: nat)
    requires x % 2 == 1
    ensures Ones(x) == Ones(x - 1) + 1
  {
    hide Ones;
    DoubleOnes(x / 2);
  }

  lemma {:induction false} OnesBelow(x: nat, i: nat)
    requires x < Pow2(i)
    ensures Ones(x) <= i
    decreases i
  {
    if i > 0 {
      OnesBelow(x / 2, i - 1);
    }
  }

  lemma {:induction false} InvertTakesOne(n: nat)
    requires n > 0
    ensures Ones(InvertLowestOne(n)) == Ones(n) - 1
    ensures n % 2 == 0 ==> InvertLowestOne(n) % 2 == 0
  {
    hide And, InvertLowestOne, Ones;
    var a := n / 2;
    if n == 2 * a {
      InvertTwice(a);
      InvertTakesOne(a);
      DoubleOnes(a);
      DoubleOnes(InvertLowestOne(a));
    } else {
      InvertOdd(n);
      OddOnes(n);
    }
  }

  lemma InvertOdd(n: nat)
    requires n % 2 == 1
    ensures InvertLowestOne(n) == n - 1
  {
    AndSelf(n / 2);
    assert (n - 1) / 2 == n / 2;
  }

  lemma InvertTwicePlus(a: nat)
    ensures InvertLowestOne(2 * a + 1) == 2 * a
  {
    hide InvertLowestOne;
    InvertOdd(2 * a + 1);
  }

  lemma PowStep(m: nat, i: nat)
    ensures i == 0 ==> Pow2(i) == 1
    ensures i > 0 ==> Pow2(i) == 2 * Pow2(i - 1) && m * Pow2(i) == 2 * (m * Pow2(i - 1))
  {
    if i > 0 {
      Twice(m, Pow2(i - 1));
    }
  }

  /** The lowest one of m * 2^i + x is the lowest one of x, if that has any. */
  lemma {:induction false} InvertBelow(m: nat, i: nat, x: nat)
    requires 0 < x < Pow2(i)
    ensures InvertLowestOne(m * Pow2(i) + x) == m * Pow2(i) + InvertLowestOne(x)
    decreases i
  {
    hide InvertLowestOne, And, Pow2;
    PowStep(m, i);
    var a, big := x / 2, m * Pow2(i - 1);
    if x == 2 * a {
      InvertBelow(m, i - 1, a);
      InvertTwice(a);
      InvertTwice(big + a);
    } else {
      InvertTwicePlus(a);
      InvertTwicePlus(big + a);
    }
  }

  /** And if x is zero it is that of m. */
  lemma {:induction false} InvertAt(m: nat, i: nat)
    requires m % 2 == 1
    ensures InvertLowestOne(m * Pow2(i)) == (m - 1) * Pow2(i)
    decreases i
  {
    hide InvertLowestOne;
    if i == 0 {
      InvertOdd(m);
    } else {
      Twice(m, Pow2(i - 1));
      Twice(m - 1, Pow2(i - 1));
      InvertAt(m, i - 1);
      LeTimes(1, m, Pow2(i - 1));
      InvertTwice(m * Pow2(i - 1));
    }
  }

  // ---------------------------------------------------------------- skips from the upper half of a block

  /** From an even place in the upper half: one bit less. */
  lemma SkipEven(m: nat, i: nat, x: nat)
    requires 0 < x < Pow2(i) && x % 2 == 0 && m % 2 == 1
    ensures GetSkipHeight(m * Pow2(i) + x) == m * Pow2(i) + InvertLowestOne(x)
  {
    hide InvertLowestOne;
    Even(m, i, x);
    LeTimes(1, m, Pow2(i));
    InvertBelow(m, i, x);
  }

  lemma Even(m: nat, i: nat, x: nat)
    requires 0 < x < Pow2(i)
    ensures (m * Pow2(i) + x) % 2 == x % 2
  {
    var q := m * Pow2(i - 1);
    Twice(m, Pow2(i - 1));
    var big := m * Pow2(i);
    assert big == 2 * q;
    EvenPlus(q, x);
  }

  lemma EvenPlus(q: nat, x: nat)
    ensures (2 * q + x) % 2 == x % 2
  {
    ModUnique(2 * q + x, q + x / 2, x % 2, 2);
  }

  /** From an odd place: two bits less of what is below it, or out of the upper half. */
  lemma SkipOdd(m: nat, i: nat, x: nat)
    requires 0 < x < Pow2(i) && x % 2 == 1 && m % 2 == 1
    ensures var s := GetSkipHeight(m * Pow2(i) + x);
            if x == 1 || InvertLowestOne(x - 1) == 0 then s <= m * Pow2(i)
            else s == m * Pow2(i) + InvertLowestOne(InvertLowestOne(x - 1)) + 1
  {
    hide InvertLowestOne;
    var big := m * Pow2(i);
    Even(m, i, x);
    LeTimes(1, m, Pow2(i));
    InvertAt(m, i);
    Distribute(m - 1, 1, Pow2(i));
    if x > 1 {
      InvertBelow(m, i, x - 1);
      var y := InvertLowestOne(x - 1);
      InvertedIsLess(x - 1);
      if y > 0 {
        InvertBelow(m, i, y);
      } else {
        assert GetSkipHeight(big + x) == InvertLowestOne(big) + 1;
      }
    } else if big >= 2 {
      InvertedIsLess(InvertLowestOne(big));
      InvertedIsLess(big);
      assert GetSkipHeight(big + x) == InvertLowestOne(InvertLowestOne(big)) + 1 || big + x < 2;
    }
  }

  // ---------------------------------------------------------------- how long it takes out of the upper half

  /** One or two turns take at least one bit from the part of the height above the middle, or leave the upper half. */
  ghost predicate Gains(m: nat, i: nat, h: nat, t: nat, n: nat, k: nat)
    requires t <= m * Pow2(i) < h
  {
    && t <= n < h && Turns(h, t) == k + Turns(n, t) && 1 <= k <= 2
    && (n <= m * Pow2(i) || Ones(n - m * Pow2(i)) < Ones(h - m * Pow2(i)))
  }

  lemma OnePositive(x: nat)
    requires x > 0
    ensures Ones(x) >= 1
  {
  }

  /** From an odd height the skip is never worse than the one after a step back. */
  lemma OddHops(h: nat, t: nat)
    requires h % 2 == 1 && t < h && GetSkipHeight(h) >= t
    ensures Hop(h, t) == GetSkipHeight(h)
  {
    hide And;
    if h >= 3 {
      InvertedIsLess(InvertLowestOne(h - 1));
    }
  }

  /** What the skip from an odd place in the upper half leaves. */
  lemma OddSkipLeaves(m: nat, i: nat, x: nat)
    requires 0 < x < Pow2(i) && x % 2 == 1 && m % 2 == 1
    ensures var big, s := m * Pow2(i), GetSkipHeight(m * Pow2(i) + x);
            s <= big || (var y := InvertLowestOne(x - 1);
              y > 0 && s == big + InvertLowestOne(y) + 1 && Ones(s - big) == Ones(x - 1) - 1)
  {
    hide InvertLowestOne, Pow2, GetSkipHeight, Ones;
    SkipOdd(m, i, x);
    if x > 1 {
      InvertTakesOne(x - 1);
      var y := InvertLowestOne(x - 1);
      if y > 0 {
        InvertTakesOne(y);
        OddOnes(InvertLowestOne(y) + 1);
      }
    }
  }

  lemma GainFromOdd(m: nat, i: nat, x: nat, t: nat) returns (n: nat)
    requires 0 < x < Pow2(i) && x % 2 == 1 && m % 2 == 1 && t < m * Pow2(i)
    ensures Gains(m, i, m * Pow2(i) + x, t, n, 1)
  {
    hide InvertLowestOne, Pow2, GetSkipHeight, Ones;
    OddSkipLeaves(m, i, x);
    OddOnes(x);
    n := Hop(m * Pow2(i) + x, t);
  }

  lemma LessByTwo(a: nat)
    ensures Ones(4 * a) <= Ones(4 * a + 2)
    ensures Ones(8 * a + 2) <= Ones(8 * a + 4)
  {
    hide Ones;
    DoubleOnes(a);
    DoubleOnes(2 * a);
    DoubleOnes(2 * a + 1);
    DoubleOnes(4 * a + 1);
    DoubleOnes(4 * a + 2);
  }

  /** Stepping back before the skip is better. */
  ghost predicate Better(x: nat)
    requires x > 2
  {
    InvertLowestOne(InvertLowestOne(x - 2)) + 3 < InvertLowestOne(x)
  }

  /** Then it leaves no more bits. */
  lemma StepBackOnes(x: nat)
    requires x > 2 && x % 2 == 0 && Better(x)
    ensures Ones(x - 2) <= Ones(x)
  {
    hide Better, Ones;
    var u := x / 2;
    assert x == 2 * u;
    var a := u / 2;
    if u == 2 * a {
      StepBackFromFour(a);
    } else {
      assert u == 2 * a + 1;
      LessByTwo(a);
    }
  }

  lemma StepBackFromFour(a: nat)
    requires a > 0 && Better(4 * a)
    ensures Ones(4 * a - 2) <= Ones(4 * a)
  {
    hide Better, Ones;
    var b := a / 2;
    if a == 2 * b {
      EightNotBetter(b);
    } else {
      assert a == 2 * b + 1;
      LessByTwo(b);
    }
  }

  lemma EightNotBetter(w: nat)
    requires w > 0
    ensures !Better(8 * w)
  {
    hide InvertLowestOne;
    InvertTwice(4 * w - 1);
    InvertOdd(4 * w - 1);
    InvertTwice(4 * w - 2);
    InvertTwice(2 * w - 1);
    InvertOdd(2 * w - 1);
    InvertTwice(4 * w);
    InvertTwice(2 * w);
    InvertTwice(w);
    InvertedIsLess(w);
  }

  lemma TwoTurns(h: nat, t: nat)
    requires t < h - 1 == Hop(h, t)
    ensures Turns(h, t) == 2 + Turns(Hop(h - 1, t), t)
  {
    hide Hop;
  }

  /** Stepping back once, where that is better than the skip, and then skipping. */
  lemma GainByTwo(m: nat, i: nat, x: nat, t: nat) returns (n: nat)
    requires 1 < x < Pow2(i) && x % 2 == 0 && m % 2 == 1 && t < m * Pow2(i)
    requires var p := GetSkipHeight(m * Pow2(i) + x - 1); t <= p && p + 2 < m * Pow2(i) + InvertLowestOne(x)
    requires Hop(m * Pow2(i) + x, t) == m * Pow2(i) + x - 1
    ensures Gains(m, i, m * Pow2(i) + x, t, n, 2)
  {
    hide InvertLowestOne, Pow2, GetSkipHeight, Ones, Hop, Turns;
    var big := m * Pow2(i);
    var h := big + x;
    Even(m, i, x - 1);
    OddSkipLeaves(m, i, x - 1);
    OddHops(h - 1, t);
    n := Hop(h - 1, t);
    TwoTurns(h, t);
    if n > big {
      StepBackOnes(x);
    }
  }

  lemma GainFromEven(m: nat, i: nat, x: nat, t: nat) returns (n: nat, k: nat)
    requires 0 < x < Pow2(i) && x % 2 == 0 && m % 2 == 1 && t < m * Pow2(i)
    ensures Gains(m, i, m * Pow2(i) + x, t, n, k)
  {
    hide InvertLowestOne, Pow2, GetSkipHeight, Ones;
    SkipEven(m, i, x);
    InvertTakesOne(x);
    n, k := Hop(m * Pow2(i) + x, t), 1;
    if n != GetSkipHeight(m * Pow2(i) + x) {
      k := 2;
      n := GainByTwo(m, i, x, t);
    }
  }

  /** Out of the upper half in at most two turns for each of its bits. */
  lemma {:induction false} Descend(m: nat, i: nat, h: nat, t: nat) returns (n: nat)
    requires m % 2 == 1 && t < m * Pow2(i) < h < m * Pow2(i) + Pow2(i)
    ensures t <= n <= m * Pow2(i)
    ensures Turns(h, t) <= 2 * Ones(h - m * Pow2(i)) + Turns(n, t)
    decreases h
  {
    hide InvertLowestOne, Pow2, GetSkipHeight, Ones, Turns;
    var big := m * Pow2(i);
    var x, k := h - big, 1;
    if x % 2 == 1 {
      n := GainFromOdd(m, i, x, t);
    } else {
      n, k := GainFromEven(m, i, x, t);
    }
    OnePositive(x);
    if n > big {
      n := Descend(m, i, n, t);
    }
  }

  // ---------------------------------------------------------------- the bound

  /** Within a block of 2^j heights, its end included: halve the block j times. */
  lemma {:induction false} TurnsWithin(b: nat, j: nat, h: nat, t: nat)
    requires b * Pow2(j) <= t <= h <= b * Pow2(j) + Pow2(j)
    ensures Turns(h, t) <= j * j + 1
    decreases j
  {
    hide GetSkipHeight, Ones, Pow2;
    if h == t {
    } else if j == 0 {
      PowZero();
      assert Hop(h, t) == t;
    } else if h == b * Pow2(j) + Pow2(j) {
      Inside(b, j, Hop(h, t), t);
    } else {
      Inside(b, j, h, t);
    }
  }

  lemma {:induction false} Inside(b: nat, j: nat, h: nat, t: nat)
    requires j > 0 && b * Pow2(j) <= t <= h < b * Pow2(j) + Pow2(j)
    ensures Turns(h, t) <= j * j
    decreases j, 0
  {
    hide GetSkipHeight, Ones, Turns, Pow2;
    var p, m := Pow2(j - 1), 2 * b + 1;
    Halved(b, j);
    if h <= m * p {
      TurnsWithin(2 * b, j - 1, h, t);
    } else if t >= m * p {
      TurnsWithin(m, j - 1, h, t);
    } else {
      var n := Descend(m, j - 1, h, t);
      OnesBelow(h - m * p, j - 1);
      TurnsWithin(2 * b, j - 1, n, t);
    }
    Squares(j);
  }

  lemma Halved(b: nat, j: nat)
    requires j > 0
    ensures b * Pow2(j) == 2 * b * Pow2(j - 1)
    ensures (2 * b + 1) * Pow2(j - 1) == 2 * b * Pow2(j - 1) + Pow2(j - 1)
    ensures Pow2(j) == Pow2(j - 1) + Pow2(j - 1)
  {
    var p := Pow2(j - 1);
    Twice(b, p);
    Associate(2, b, p);
    Distribute(2 * b, 1, p);
  }

  lemma PowZero()
    ensures Pow2(0) == 1
  {
  }

  lemma Squares(j: nat)
    requires j > 0
    ensures (j - 1) * (j - 1) + 2 * (j - 1) + 1 == j * j
  {
  }

  /** From any height up to 2^k to any height below: at most k * k + 1 turns. */
  lemma WalkIsShort(k: nat, h: nat, t: nat)
    requires t <= h <= Pow2(k)
    ensures Turns(h, t) <= k * k + 1
  {
    TurnsWithin(0, k, h, t);
  }

  // ---------------------------------------------------------------- and how long it can be

  /** From just above a power of two the skip goes all the way down. */
  lemma SkipsOut(i: nat, x: nat)
    requires i > 0 && 0 < x < Pow2(i) && x % 2 == 1 && (x == 1 || InvertLowestOne(x - 1) == 0)
    ensures GetSkipHeight(Pow2(i) + x) == 1
  {
    hide InvertLowestOne, Pow2;
    Even(1, i, x);
    InvertAt(1, i);
    if x > 1 {
      InvertBelow(1, i, x - 1);
    }
    NothingToInvert();
    PowAtLeast(i);
  }

  lemma NothingToInvert()
    ensures InvertLowestOne(0) == 0
  {
  }

  lemma PowAtLeast(i: nat)
    requires i > 0
    ensures Pow2(i) >= 2
  {
  }

  /** Where a turn towards height 2 leads: by the skip, or one down. */
  lemma SkipOrStep(h: nat)
    requires h > 2
    ensures Hop(h, 2) == GetSkipHeight(h) >= 2 || Hop(h, 2) == h - 1
  {
    hide GetSkipHeight;
    HopIs(h, 2);
  }

  lemma StepLosesTwo(x: nat)
    requires x > 0
    ensures Ones(x - 1) >= Ones(x) - 2
  {
    hide Ones;
    BorrowKeepsOnes(x);
  }

  lemma SkipLosesTwo(i: nat, x: nat)
    requires i > 0 && 0 < x < Pow2(i)
    ensures var s := GetSkipHeight(Pow2(i) + x); s <= 1 || (s >= Pow2(i) && Ones(s - Pow2(i)) >= Ones(x) - 2)
  {
    hide InvertLowestOne, Pow2, GetSkipHeight, Ones;
    if x % 2 == 1 {
      if x == 1 || InvertLowestOne(x - 1) == 0 {
        SkipsOut(i, x);
      } else {
        OddOnes(x);
        OddSkipKeeps(i, x);
      }
    } else {
      SkipEven(1, i, x);
      InvertTakesOne(x);
    }
  }

  lemma OddSkipKeeps(i: nat, x: nat)
    requires 1 < x < Pow2(i) && x % 2 == 1 && InvertLowestOne(x - 1) > 0
    ensures var s := GetSkipHeight(Pow2(i) + x); s >= Pow2(i) && Ones(s - Pow2(i)) == Ones(x - 1) - 1
  {
    hide InvertLowestOne, Pow2, GetSkipHeight, Ones;
    SkipOdd(1, i, x);
    InvertTakesOne(x - 1);
    var y := InvertLowestOne(x - 1);
    InvertTakesOne(y);
    OddOnes(InvertLowestOne(y) + 1);
  }

  /** One turn towards height 2 stays in the upper half and takes at most two one bits. */
  lemma LosesTwo(i: nat, x: nat)
    requires i > 0 && 0 < x < Pow2(i)
    ensures Pow2(i) >= 2
    ensures var n := Hop(Pow2(i) + x, 2); n >= Pow2(i) && Ones(n - Pow2(i)) >= Ones(x) - 2
  {
    hide Pow2, GetSkipHeight, Ones, Hop;
    PowAtLeast(i);
    SkipOrStep(Pow2(i) + x);
    StepLosesTwo(x);
    SkipLosesTwo(i, x);
  }

  lemma {:induction false} BorrowKeepsOnes(x: nat)
    requires x > 0
    ensures Ones(x - 1) >= Ones(x) - 1
  {
    hide Ones;
    var a := x / 2;
    if x == 2 * a {
      BorrowKeepsOnes(a);
      DoubleOnes(a);
      DoubleOnes(a - 1);
    } else {
      OddOnes(x);
    }
  }

  lemma {:induction false} StaysUp(i: nat, x: nat)
    requires i > 0 && x < Pow2(i)
    ensures Pow2(i) >= 2 && 2 * Turns(Pow2(i) + x, 2) >= Ones(x) + 2 * Turns(Pow2(i), 2)
    decreases x
  {
    hide Pow2, Ones, Turns, Hop;
    PowAtLeast(i);
    if x == 0 {
      NoOnes();
    } else {
      LosesTwo(i, x);
      TurnsNext(Pow2(i) + x, 2);
      StaysUp(i, Hop(Pow2(i) + x, 2) - Pow2(i));
    }
  }

  lemma NoOnes()
    ensures Ones(0) == 0
  {
  }

  lemma {:induction false} AllOnes(i: nat)
    ensures Ones(Pow2(i) - 1) == i
  {
    if i > 0 {
      AllOnes(i - 1);
      DoubleOnes(Pow2(i - 1) - 1);
    }
  }

  /** From a power of two the skip is to height 0, below 2, so that the walk must step back first. */
  lemma StepsBack(i: nat)
    requires i > 0
    ensures Pow2(i + 1) > 2 && Hop(Pow2(i + 1), 2) == Pow2(i) + (Pow2(i) - 1)
  {
    hide InvertLowestOne;
    InvertAt(1, i + 1);
    PowAtLeast(i);
    assert Pow2(i + 1) == 2 * Pow2(i);
  }

  /** From height 2^k down to height 2 the walk takes (k^2 - 1) / 4 turns at least: it is not logarithmic. */
  lemma {:induction false} WalkIsLong(k: nat)
    requires k >= 1
    ensures Pow2(k) >= 2 && 4 * Turns(Pow2(k), 2) >= k * k - 1
  {
    hide Pow2, Ones, Turns, Hop;
    PowAtLeast(k);
    if k == 1 {
      PowOne();
    } else {
      var i := k - 1;
      StepsBack(i);
      TurnsNext(Pow2(k), 2);
      AllOnes(i);
      PowAtLeast(i);
      StaysUp(i, Pow2(i) - 1);
      WalkIsLong(i);
      assert k * k == i * i + 2 * i + 1;
    }
  }

  lemma PowOne()
    ensures Pow2(1) == 2
  {
  }
}
