/** Amounts are stored with their trailing zeros as an exponent, so that round amounts take few bytes. */
module AmountCodec {
  import opened Products
  import opened Numbers

  const LIMIT: int := 0x1_0000_0000_0000_0000

  function Pow10(e: nat): (r: nat)
    ensures r >= 1
  {
    if e == 0 then 1 else 10 * Pow10(e - 1)
  }

  /** What is stored for n * 10^e, of whose zeros `e` have been dropped already. */
  function CompressFrom(n: nat, e: nat): nat
    requires n > 0
  {
    if n % 10 == 0 && e < 9 then CompressFrom(n / 10, e + 1)
    else if e < 9 then 1 + (n / 10 * 9 + n % 10 - 1) * 10 + e
    else 1 + (n - 1) * 10 + 9
  }

  /** What is stored for an amount. */
  function Compress(n: nat): nat { if n == 0 then 0 else CompressFrom(n, 0) }

  /** The digits that are stored, without the zeros. */
  function Base(x: nat): (r: nat)
    requires x > 0
    ensures r > 0 && ((x - 1) % 10 < 9 ==> r % 10 != 0)
  {
    var y := (x - 1) / 10;
    if (x - 1) % 10 < 9 then y / 9 * 10 + y % 9 + 1 else y + 1
  }

  /**
   An amount of m * 10^e, with as many zeros taken out as it has but nine at most: the exponent is the last digit of
   what is stored less one; before it stand the digits of m, the last of them, which is not zero, counted from one to nine.
   */
  lemma {:induction false} CompressIs(m: nat, e: nat)
    requires m > 0 && e <= 9 && (m % 10 != 0 || e == 9)
    ensures Compress(m * Pow10(e)) == 1 + e + 10 * (if e == 9 then m - 1 else 9 * (m / 10) + m % 10 - 1)
  {
    TakesZeros(m, e, e);
  }

  lemma {:induction false} TakesZeros(m: nat, e: nat, k: nat)
    requires m > 0 && k <= e <= 9
    ensures m * Pow10(k) > 0 && CompressFrom(m * Pow10(k), e - k) == CompressFrom(m, e)
  {
    hide CompressFrom, Pow10;
    if k > 0 {
      PutsZero(m, k);
      TakesZeros(m, e, k - 1);
      TakesZero(m * Pow10(k - 1), e - k);
    } else {
      Unscaled(m);
    }
  }

  lemma TakesZero(n: nat, e: nat)
    requires n > 0 && e < 9
    ensures CompressFrom(10 * n, e) == CompressFrom(n, e + 1)
  {
    assert 10 * n % 10 == 0 && 10 * n / 10 == n;
  }

  function Decompress(x: nat): nat { if x == 0 then 0 else Base(x) * Pow10((x - 1) % 10) }

  // ---------------------------------------------------------------- one to one, both ways

  lemma PutsZero(b: nat, e: nat)
    requires e > 0
    ensures b * Pow10(e) == 10 * (b * Pow10(e - 1))
  {
    TenTimes(b, Pow10(e - 1));
  }

  lemma TenTimes(b: nat, p: nat)
    ensures b * (10 * p) == 10 * (b * p)
  {
  }

  lemma Unscaled(b: nat)
    ensures b * Pow10(0) == b
  {
  }

  lemma DigitsOf(z: nat, d: nat)
    requires z % 10 == 0 && d < 10
    ensures (z + d) % 10 == d && (z + d) / 10 == z / 10
  {
  }

  lemma BaseOf(y: nat, e: nat)
    requires e < 9
    ensures var x := 1 + 10 * y + e; (x - 1) % 10 == e && Base(x) == y / 9 * 10 + y % 9 + 1
  {
    DigitsOf(10 * y, e);
  }

  /** What is stored of the last digits can be taken apart again. */
  lemma TakesApart(n: nat, e: nat)
    requires n > 0 && e <= 9 && (n % 10 != 0 || e == 9)
    ensures CompressFrom(n, e) > 0 && (CompressFrom(n, e) - 1) % 10 == e && Base(CompressFrom(n, e)) == n
  {
    if e < 9 {
      hide Base;
      var q, r := n / 10, n % 10;
      var y := q * 9 + (r - 1);
      assert CompressFrom(n, e) == 1 + 10 * y + e;
      BaseOf(y, e);
      ModUnique(y, q, r - 1, 9);
    } else {
      DigitsOf(10 * (n - 1), 9);
    }
  }

  lemma {:induction false} Restores(n: nat, e: nat)
    requires n > 0 && e <= 9
    ensures CompressFrom(n, e) > 0 && Decompress(CompressFrom(n, e)) == n * Pow10(e)
    decreases n
  {
    hide Base;
    if n % 10 == 0 && e < 9 {
      Restores(n / 10, e + 1);
      Associate(n / 10, 10, Pow10(e));
    } else {
      TakesApart(n, e);
    }
  }

  lemma PutsTogether(x: nat)
    requires x > 0
    ensures CompressFrom(Base(x), (x - 1) % 10) == x
  {
    var y, e := (x - 1) / 10, (x - 1) % 10;
    assert x == 1 + y * 10 + e;
    if e < 9 {
      var b := y / 9 * 10 + y % 9 + 1;
      assert b / 10 == y / 9 && b % 10 == y % 9 + 1;
    }
  }

  lemma {:induction false} StripsZeros(b: nat, k: nat, e: nat)
    requires b > 0 && e + k <= 9
    ensures b * Pow10(k) > 0 && CompressFrom(b * Pow10(k), e) == CompressFrom(b, e + k)
    decreases k
  {
    hide Pow10;
    if k > 0 {
      StripsZeros(b, k - 1, e + 1);
      PutsZero(b, k);
      OneZeroMore(b * Pow10(k - 1), e);
    } else {
      Unscaled(b);
    }
  }

  lemma OneZeroMore(n: nat, e: nat)
    requires n > 0 && e < 9
    ensures CompressFrom(10 * n, e) == CompressFrom(n, e + 1)
  {
    assert 10 * n % 10 == 0 && 10 * n / 10 == n;
  }

  /** Decompressing undoes compressing, for every amount. */
  lemma DecompressCompress(n: nat)
    ensures Decompress(Compress(n)) == n
  {
    if n > 0 {
      Restores(n, 0);
    }
  }

  /** Compressing undoes decompressing: every number is the compressed form of some amount. */
  lemma CompressDecompress(x: nat)
    ensures Compress(Decompress(x)) == x
  {
    hide Base, CompressFrom;
    if x > 0 {
      StripsZeros(Base(x), (x - 1) % 10, 0);
      PutsTogether(x);
    }
  }

  // ---------------------------------------------------------------- in 64 bits

  lemma {:induction false} AtMostNineTimes(n: nat, e: nat)
    requires n > 0 && e <= 9
    ensures CompressFrom(n, e) <= 9 * (n * Pow10(e))
    decreases n
  {
    if n % 10 == 0 && e < 9 {
      AtMostNineTimes(n / 10, e + 1);
      Associate(n / 10, 10, Pow10(e));
    } else if e == 0 {
    } else {
      TenTimes(n, Pow10(e - 1));
      LeTimes(1, Pow10(e - 1), n);
    }
  }

  /** Up to a ninth of 2^64 compressing does not overflow. */
  lemma Fits(n: nat)
    requires n <= (LIMIT - 1) / 9
    ensures Compress(n) < LIMIT
  {
    if n > 0 {
      AtMostNineTimes(n, 0);
    }
  }

  function Compress64(n: uint64): uint64 { Compress(n) % LIMIT }

  function Decompress64(x: uint64): uint64 { Decompress(x) % LIMIT }

  // ---------------------------------------------------------------- no overflow comes back by another one

  /** An amount with a zero at the end takes no more than itself, or little more than nine tenths. */
  lemma {:induction false} TakesLess(m: nat, e: nat)
    requires m > 0 && e <= 9
    ensures CompressFrom(m, e) <= 10 * m || CompressFrom(m, e) <= 9 * m + 8
    decreases m
  {
    if m % 10 == 0 && e < 9 {
      TakesLess(m / 10, e + 1);
    }
  }

  lemma ZeroAtTheEndFits(n: uint64)
    requires n % 10 == 0
    ensures Compress(n) < LIMIT
  {
    if n > 0 {
      TakesLess(n / 10, 1);
    }
  }

  lemma WithoutZeros(n: nat)
    requires n % 10 != 0
    ensures Compress(n) == 9 * n + n % 10 - 9
  {
    assert n == n / 10 * 10 + n % 10;
  }

  lemma FromBase(x: nat)
    requires x > 0
    ensures var b, e := Base(x), (x - 1) % 10;
            if e < 9 then b % 10 != 0 && x == 9 * b + b % 10 - 9 + e else x == 10 * b
  {
    var y, e := (x - 1) / 10, (x - 1) % 10;
    assert x == 1 + 10 * y + e;
    if e < 9 {
      BaseOf(y, e);
      hide Base;
      FromDigits(y);
    }
  }

  lemma FromDigits(y: nat)
    ensures var b := y / 9 * 10 + y % 9 + 1; b % 10 != 0 && 10 * y == 9 * b + b % 10 - 10
  {
    var q, r := y / 9, y % 9;
    DigitsOf(10 * q, r + 1);
    assert y == 9 * q + r;
  }

  /*
   With `e` zeros put back and `j` overflows on the way, the base `b` that is read can stand for an
   amount stored with `k` overflows only if (10^e - 1) * 9 * b is m * 2^64 + c for a small c. Such a
   base is found modulo 9 * (10^e - 1); the few below 2^64 / 9 do not fit the last digit of the amount.
   */

  lemma Two(b: nat, m: int, c: int)
    requires 891 * b == m * LIMIT + c && -5 <= c <= 9 && 0 < b && 9 * b <= LIMIT + 10
    ensures c == -4 && b % 10 == 6
  {
    var w := b * 229 - m * 4741082371357449293;
    assert m == 891 * w - 229 * c;
  }

  lemma Four(b: nat, m: int, c: int)
    requires 89991 * b == m * LIMIT + c && -3 <= c <= 11 && 0 < b && 9 * b <= LIMIT + 10
    ensures c == 7 && b == 219333223976500097
  {
    var w := b * 12703 - m * 2603915835676150217;
    assert m == 89991 * w - 12703 * c;
  }

  lemma Six(b: nat, m: int, c: int)
    requires 8999991 * b == m * LIMIT + c && -1 <= c <= 13 && 0 < b && 9 * b <= LIMIT + 10
    ensures (c == 3 && b % 10 == 7) || (c == 6 && b == 1114836241845569834) || (c == 9 && b % 10 == 1)
  {
    var w := b * 2909344 - m * 5963108650928922233;
    assert m == 8999991 * w - 2909344 * c;
  }

  lemma Eight(b: nat, m: int, c: int)
    requires 899999991 * b == m * LIMIT + c && 1 <= c <= 15 && 0 < b && 9 * b <= LIMIT + 10
    ensures c == 9 && b % 10 == 1
  {
    var w := b * 98372866 - m * 2016287890051016505;
    assert m == 899999991 * w - 98372866 * c;
  }

  /** The amount `n`, stored with `k` overflows, is read as `b` with `e` zeros and `j` overflows. */
  ghost predicate Mistaken(n: uint64, k: nat, b: nat, e: nat, j: nat) {
    && k >= 1 && n % 10 != 0 && b > 0 && e <= 9
    && n == b * Pow10(e) - j * LIMIT
    && 9 * n + n % 10 - 9 == k * LIMIT + (if e < 9 then 9 * b + b % 10 - 9 + e else 10 * b)
    && (e < 9 ==> b % 10 != 0) && 9 * b <= LIMIT + 10
  }

  lemma SomeZeros(n: uint64, k: nat, b: nat, e: nat, j: nat)
    requires Mistaken(n, k, b, e, j)
    ensures e > 0
  {
    Unscaled(b);
  }

  lemma EvenAmount(n: uint64, k: nat, b: nat, e: nat, j: nat)
    requires Mistaken(n, k, b, e, j) && e > 0
    ensures n % 2 == 0
  {
    hide Pow10;
    PutsZero(b, e);
    Even(n, b * Pow10(e - 1), j);
  }

  lemma Even(n: int, p: int, j: int)
    requires n == 10 * p - j * LIMIT
    ensures n % 2 == 0
  {
    assert n == 2 * (5 * p - j * (LIMIT / 2));
  }

  lemma LastDigit(n: nat)
    ensures n % 10 % 2 == n % 2
  {
    var q, r := n / 10, n % 10;
    var h := r / 2;
    ModUnique(n, 5 * q + h, r % 2, 2);
  }

  lemma Halves(n: nat) returns (h: nat)
    requires n % 2 == 0
    ensures n == 2 * h
  {
    h := n / 2;
  }

  /** A sum is even if its parts are odd or even together. */
  lemma HalvesTogether(b: nat, d: nat) returns (h: nat)
    requires b % 2 == d % 2
    ensures b + d == 2 * h
  {
    h := b / 2 + d / 2 + b % 2;
  }

  lemma Doubled(e: int, h: int)
    requires e == 2 * h
    ensures e % 2 == 0
  {
    ModUnique(e, h, 0, 2);
  }

  /** The terms of an equation that are even. */
  lemma EvenTerms(n: nat, l: nat, b: nat, d: nat, e: nat, k: nat)
    requires n % 2 == 0 == l % 2 && b % 2 == d % 2
    requires 9 * n + l - 9 == k * LIMIT + (if e < 9 then 9 * b + d - 9 + e else 10 * b)
    ensures e < 9 ==> e % 2 == 0
    ensures e != 9
  {
    var n2 := Halves(n);
    var l2 := Halves(l);
    var s := HalvesTogether(b, d);
    if e < 9 {
      Doubled(e, 9 * n2 + l2 - k * (LIMIT / 2) - 4 * b - s);
    } else {
      Doubled(9, 9 * n2 + l2 - k * (LIMIT / 2) - 5 * b);
    }
  }

  lemma EvenZeros(n: uint64, k: nat, b: nat, e: nat, j: nat)
    requires Mistaken(n, k, b, e, j)
    ensures e in {2, 4, 6, 8} && n % 10 in {2, 4, 6, 8}
  {
    hide Pow10;
    SomeZeros(n, k, b, e, j);
    EvenAmount(n, k, b, e, j);
    LastDigit(n);
    LastDigit(b);
    EvenTerms(n, n % 10, b, b % 10, e, k);
  }

  lemma BaseTimes(n: int, l: int, b: int, d: int, e: int, k: int, j: int, p: int)
    requires n == b * p - j * LIMIT && 9 * n + l - 9 == k * LIMIT + 9 * b + d - 9 + e
    ensures b * (9 * p - 9) == (k + 9 * j) * LIMIT + (d + e - l)
  {
    assert b * (9 * p - 9) == 9 * (b * p) - 9 * b;
  }

  /** With zeros put back the amount is even, and then the number of zeros is too; no such base is left. */
  lemma NoMistake(n: uint64, k: nat, b: nat, e: nat, j: nat)
    ensures !Mistaken(n, k, b, e, j)
  {
    if Mistaken(n, k, b, e, j) {
      EvenZeros(n, k, b, e, j);
      Excluded(n, k, b, e, j);
    }
  }

  lemma Excluded(n: uint64, k: nat, b: nat, e: nat, j: nat)
    requires e in {2, 4, 6, 8} && n % 10 in {2, 4, 6, 8}
    ensures !Mistaken(n, k, b, e, j)
  {
    hide Pow10;
    if Mistaken(n, k, b, e, j) {
      Tens();
      BaseTimes(n, n % 10, b, b % 10, e, k, j, Pow10(e));
      var m, c := k + 9 * j, b % 10 + e - n % 10;
      if e == 2 {
        Two(b, m, c);
      } else if e == 4 {
        Four(b, m, c);
      } else if e == 6 {
        Six(b, m, c);
      } else {
        Eight(b, m, c);
      }
      assert false;
    }
  }

  lemma Tens()
    ensures Pow10(2) == 100 && Pow10(4) == 10000 && Pow10(6) == 1000000 && Pow10(8) == 100000000
  {
    assert Pow10(2) == 100 && Pow10(4) == 100 * Pow10(2) && Pow10(6) == 100 * Pow10(4);
  }

  lemma Overflown(n: uint64)
    requires Compress(n) >= LIMIT
    ensures Decompress64(Compress64(n)) != n
  {
    hide Base, Pow10, Compress;
    if n % 10 == 0 {
      ZeroAtTheEndFits(n);
    }
    WithoutZeros(n);
    var x := Compress64(n);
    if x > 0 {
      FromBase(x);
      NoMistake(n, Compress(n) / LIMIT, Base(x), (x - 1) % 10, Decompress(x) / LIMIT);
    }
  }

  /** In 64 bits the round trip is exact if and only if compressing does not overflow. */
  lemma RoundTrip64(n: uint64)
    ensures Decompress64(Compress64(n)) == n <==> Compress(n) < LIMIT
  {
    hide Compress, Decompress;
    if Compress(n) < LIMIT {
      DecompressCompress(n);
    } else {
      Overflown(n);
    }
  }

  lemma ScaledIsEven(x: uint64)
    requires x > 0 && (x - 1) % 10 > 0
    ensures Decompress64(x) % 2 == 0
  {
    hide Base, Pow10;
    var b, e := Base(x), (x - 1) % 10;
    PutsZero(b, e);
    Even(Decompress64(x), b * Pow10(e - 1), Decompress(x) / LIMIT);
  }

  /** What a number of 64 bits is read as has not all bits set. */
  lemma NeverAllOnes(x: uint64)
    ensures Decompress64(x) != LIMIT - 1
  {
    hide Base, Pow10;
    if x > 0 && (x - 1) % 10 > 0 {
      ScaledIsEven(x);
    } else if x > 0 {
      FromBase(x);
      Unscaled(Base(x));
    }
  }

  /** What is stored in 64 bits stands for the amount exactly if compressing does not overflow. */
  lemma StoredExactlyIff(n: uint64)
    ensures Decompress(Compress64(n)) == n <==> Compress(n) < LIMIT
  {
    hide Compress, Decompress;
    DecompressCompress(n);
    CompressDecompress(Compress64(n));
  }

  /** Beyond the limit an amount comes back as another one; MAX_MONEY does not rule such amounts out. */
  lemma NotRestored()
    ensures Compress(2049638230412172403) >= LIMIT
    ensures Decompress64(Compress64(2049638230412172403)) == 10000
  {
    assert Compress(2049638230412172403) == 1 + (204963823041217240 * 9 + 2) * 10;
    assert Compress64(2049638230412172403) == 5;
    assert Base(5) == 1 && Pow10(4) == 10000;
  }

  method CompressAmount(n: uint64) returns (x: uint64)
    ensures x == Compress64(n)
  {
    if n == 0 {
      return 0;
    }
    var m, e := n, 0;
    while m % 10 == 0 && e < 9
      invariant 0 < m < LIMIT && 0 <= e <= 9 && CompressFrom(m, e) == CompressFrom(n, 0)
    {
      m := m / 10;
      e := e + 1;
    }
    if e < 9 {
      var d := m % 10;
      assert 1 <= d <= 9;
      m := m / 10;
      x := (1 + (m * 9 + d - 1) * 10 + e) % LIMIT;
    } else {
      x := (1 + (m - 1) * 10 + 9) % LIMIT;
    }
  }

  method DecompressAmount(x: uint64) returns (n: uint64)
    ensures n == Decompress64(x)
  {
    hide Pow10, Scaled;
    if x == 0 {
      return 0;
    }
    var y := x - 1;
    var e := y % 10;
    y := y / 10;
    if e < 9 {
      var d := y % 9 + 1;
      y := y / 9;
      n := y * 10 + d;
    } else {
      n := y + 1;
    }
    ghost var base, e0 := n, e;
    assert base == Base(x);
    NotScaled(base);
    while e != 0
      invariant 0 <= e <= e0 && n == Scaled(base, e0 - e)
      decreases e
    {
      ScaledOnce(base, e0 - e);
      n := n * 10 % LIMIT;
      e := e - 1;
    }
    ScaledBase(x);
  }

  lemma ScaledBase(x: uint64)
    requires x > 0
    ensures Scaled(Base(x), (x - 1) % 10) == Decompress64(x)
  {
  }

  /** With `k` zeros more, in 64 bits. */
  ghost function Scaled(b: nat, k: nat): uint64 { (b * Pow10(k)) % LIMIT }

  lemma NotScaled(b: nat)
    requires b < LIMIT
    ensures Scaled(b, 0) == b
  {
    Unscaled(b);
  }

  lemma ScaledOnce(b: nat, k: nat)
    ensures Scaled(b, k) * 10 % LIMIT == Scaled(b, k + 1)
  {
    TenTimes(b, Pow10(k));
    ModTimes(b * Pow10(k), 10);
  }

  lemma ModTimes(x: nat, k: nat)
    ensures (x % LIMIT * k) % LIMIT == (k * x) % LIMIT
  {
    var q, r := x / LIMIT, x % LIMIT;
    assert x == q * LIMIT + r;
    assert k * x == (k * q) * LIMIT + r * k;
    ModShift(k * q, r * k);
  }

  lemma {:induction false} ModShift(q: nat, r: nat)
    ensures (q * LIMIT + r) % LIMIT == r % LIMIT
  {
  }
}
