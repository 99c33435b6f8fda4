/**
 Variable-length integers: base 128, most significant digit first, every digit but the last flagged
 and counted from minus one, so that no number has two encodings.
 */
module VarInt {
  import opened Products
  import opened Wrappers
  import opened Numbers

  /** The digits before the last one, for the number one less than they stand for. */
  function Flagged(m: nat): seq<byte> {
    (if m <= 0x7F then [] else Flagged(m / 128 - 1)) + [m % 128 + 128]
  }

  function VarIntBytes(n: nat): seq<byte> {
    (if n <= 0x7F then [] else Flagged(n / 128 - 1)) + [n % 128]
  }

  /** What is written for a signed integer: of a negative one only the lowest seven bits. */
  function SignedBytes(n: int): seq<byte> { if n < 0 then [n % 128] else VarIntBytes(n) }

  datatype Read<T> = Read(value: T, rest: seq<byte>)

  function ReadFrom(n: nat, s: seq<byte>): Option<Read<nat>>
    decreases |s|
  {
    if s == [] then None
    else
      var m := n * 128 + s[0] % 128;
      if s[0] >= 128 then ReadFrom(m + 1, s[1..]) else Some(Read(m, s[1..]))
  }

  /** What is read from the beginning of a stream, or None at its end. */
  function ReadInt(s: seq<byte>): Option<Read<nat>> { ReadFrom(0, s) }

  /** The number of values of an unsigned integer type of `size` bytes. */
  function Values(size: nat): (r: nat)
    requires size == 4 || size == 8
    ensures r % 128 == 0 && r > 128
  {
    if size == 4 then 0x1_0000_0000 else 0x1_0000_0000_0000_0000
  }

  function Wrapped(n: nat, size: nat): (r: nat)
    requires size == 4 || size == 8
    ensures r < Values(size)
  {
    n % Values(size)
  }

  /** What is read into an unsigned integer type, which wraps around. */
  function ReadUnsigned(s: seq<byte>, size: nat): (r: Option<Read<nat>>)
    requires size == 4 || size == 8
    ensures r.Some? ==> r.value.value < Values(size)
  {
    match ReadInt(s)
    case None => None
    case Some(Read(n, rest)) => Some(Read(Wrapped(n, size), rest))
  }

  // ---------------------------------------------------------------- one digit at a time

  lemma ReadStep(n: nat, x: byte, t: seq<byte>)
    ensures ReadFrom(n, [x] + t)
            == if x >= 128 then ReadFrom(n * 128 + x - 127, t) else Some(Read(n * 128 + x, t))
  {
    assert ([x] + t)[1..] == t;
  }

  function Prefix(q: nat): seq<byte> { if q == 0 then [] else Flagged(q - 1) }

  lemma DigitsOf(q: nat, d: nat)
    requires d < 128
    ensures Flagged(q * 128 + d) == Prefix(q) + [d + 128]
    ensures VarIntBytes(q * 128 + d) == Prefix(q) + [d]
  {
    var m := q * 128 + d;
    assert m / 128 == q && m % 128 == d;
  }

  // ---------------------------------------------------------------- one to one

  lemma {:induction false} ReadPrefix(q: nat, t: seq<byte>)
    ensures ReadFrom(0, Prefix(q) + t) == ReadFrom(q, t)
  {
    hide ReadFrom, Flagged;
    if q == 0 {
      assert Prefix(0) + t == t;
    } else {
      var p, d := (q - 1) / 128, (q - 1) % 128;
      DigitsOf(p, d);
      ReadPrefix(p, [d + 128] + t);
      assert Prefix(q) + t == Prefix(p) + ([d + 128] + t);
      ReadStep(p, d + 128, t);
    }
  }

  /** Reading undoes writing, whatever follows. */
  lemma ReadWritten(n: nat, t: seq<byte>)
    ensures ReadInt(VarIntBytes(n) + t) == Some(Read(n, t))
  {
    hide ReadFrom, Flagged, VarIntBytes, Prefix;
    var q, d := n / 128, n % 128;
    DigitsOf(q, d);
    ReadPrefix(q, [d] + t);
    assert VarIntBytes(n) + t == Prefix(q) + ([d] + t);
    ReadStep(q, d, t);
  }

  lemma {:induction false} WrittenFrom(n: nat, s: seq<byte>)
    requires ReadFrom(n, s).Some?
    ensures Prefix(n) + s == VarIntBytes(ReadFrom(n, s).value.value) + ReadFrom(n, s).value.rest
    decreases |s|
  {
    hide Flagged, VarIntBytes, Prefix;
    var d := s[0] % 128;
    DigitsOf(n, d);
    PrefixOfNext(n * 128 + d);
    FirstMoves(Prefix(n), s);
    if s[0] >= 128 {
      WrittenFrom(n * 128 + d + 1, s[1..]);
    }
  }

  lemma PrefixOfNext(q: nat)
    ensures Prefix(q + 1) == Flagged(q)
  {
  }

  lemma FirstMoves(p: seq<byte>, s: seq<byte>)
    requires s != []
    ensures p + s == p + [s[0]] + s[1..]
  {
  }

  /** Writing undoes reading: no number has a second encoding. */
  lemma WrittenAsRead(s: seq<byte>)
    requires ReadInt(s).Some?
    ensures s == VarIntBytes(ReadInt(s).value.value) + ReadInt(s).value.rest
  {
    hide ReadFrom, VarIntBytes;
    WrittenFrom(0, s);
    assert Prefix(0) + s == s;
  }

  /** What fits the type that it is read into comes back. */
  lemma ReadFitting(n: nat, size: nat, t: seq<byte>)
    requires (size == 4 || size == 8) && n < Values(size)
    ensures ReadUnsigned(VarIntBytes(n) + t, size) == Some(Read(n, t))
  {
    hide ReadInt, VarIntBytes;
    ReadWritten(n, t);
  }

  /** A signed integer comes back exactly when it is not negative. */
  lemma SignedReadIff(n: int, t: seq<byte>)
    ensures ReadInt(SignedBytes(n) + t).Some? && ReadInt(SignedBytes(n) + t).value.rest == t
    ensures ReadInt(SignedBytes(n) + t).value.value == n <==> n >= 0
  {
    if n >= 0 {
      ReadWritten(n, t);
    } else {
      assert (SignedBytes(n) + t)[1..] == t;
    }
  }

  // ---------------------------------------------------------------- what the bytes stand for

  /** A digit is one more than its seven bits say. */
  function Weight(x: byte, i: nat): nat {
    var d := x % 128 + 1;
    d * Pow128(i)
  }

  /** Digit i from the end, with its weight. */
  function Weighted(a: seq<byte>, i: nat): nat
    requires i < |a|
  {
    Weight(a[|a| - 1 - i], i)
  }

  /** Digits 1 to i from the end. */
  function HigherDigits(a: seq<byte>, i: nat): nat
    requires i < |a|
  {
    if i == 0 then 0 else HigherDigits(a, i - 1) + Weighted(a, i)
  }

  /** All bytes but the last have their highest bit set. */
  predicate WellFormed(a: seq<byte>) {
    a != [] && a[|a| - 1] < 128 && forall i :: 0 <= i < |a| - 1 ==> a[i] >= 128
  }

  /** The sum that the description of the format gives for its bytes. */
  function Denoted(a: seq<byte>): nat
    requires a != []
  {
    a[|a| - 1] % 128 + HigherDigits(a, |a| - 1)
  }

  lemma WeightedBehind(x: byte, a: seq<byte>, i: nat)
    requires i < |a|
    ensures Weighted([x] + a, i) == Weighted(a, i)
  {
    hide Weight;
    assert ([x] + a)[|a| - i] == a[|a| - 1 - i];
  }

  lemma {:induction false} DigitsBehind(x: byte, a: seq<byte>, i: nat)
    requires i < |a|
    ensures HigherDigits([x] + a, i) == HigherDigits(a, i)
  {
    hide Weighted;
    if i > 0 {
      DigitsBehind(x, a, i - 1);
      WeightedBehind(x, a, i);
    }
  }

  lemma {:induction false} ReadsSum(n: nat, a: seq<byte>, t: seq<byte>)
    requires WellFormed(a)
    ensures ReadFrom(n, a + t) == Some(Read(n * Pow128(|a|) + Denoted(a), t))
    decreases |a|
  {
    hide ReadFrom, Denoted, Pow128;
    if |a| == 1 {
      OneDigit(n, a[0]);
      assert a == [a[0]] && a + t == [a[0]] + t;
      ReadStep(n, a[0], t);
    } else {
      var b := a[1..];
      assert a == [a[0]] + b && a + t == [a[0]] + (b + t);
      ReadStep(n, a[0], b + t);
      ReadsSum(n * 128 + a[0] - 127, b, t);
      OneMoreDigit(n, a[0], b);
    }
  }

  lemma OneDigit(n: nat, x: byte)
    requires x < 128
    ensures n * Pow128(1) + Denoted([x]) == n * 128 + x
  {
    assert Pow128(1) == 128;
  }

  lemma OneMoreDigit(n: nat, x: byte, b: seq<byte>)
    requires x >= 128 && b != []
    ensures (n * 128 + x - 127) * Pow128(|b|) + Denoted(b) == n * Pow128(|b| + 1) + Denoted([x] + b)
  {
    hide HigherDigits, Pow128, Weighted, Denoted;
    DenotedMore(x, b);
    FirstWeighted(x, b);
    MoveDigit(n, x - 127, |b|);
  }

  lemma MoveDigit(n: nat, y: nat, k: nat)
    ensures (n * 128 + y) * Pow128(k) == n * Pow128(k + 1) + y * Pow128(k)
  {
    Distribute(n * 128, y, Pow128(k));
    Associate(n, 128, Pow128(k));
  }

  lemma FirstWeighted(x: byte, b: seq<byte>)
    requires x >= 128
    ensures Weighted([x] + b, |b|) == (x - 127) * Pow128(|b|)
  {
    hide Pow128, Weight;
    assert ([x] + b)[0] == x;
    WeightIs(x, |b|);
  }

  lemma WeightIs(x: byte, i: nat)
    requires x >= 128
    ensures Weight(x, i) == (x - 127) * Pow128(i)
  {
    hide Pow128;
  }

  lemma DenotedMore(x: byte, b: seq<byte>)
    requires b != []
    ensures Denoted([x] + b) == Denoted(b) + Weighted([x] + b, |b|)
  {
    hide Weighted;
    DigitsBehind(x, b, |b| - 1);
    assert ([x] + b)[|b|] == b[|b| - 1];
  }

  /** A well-formed sequence is read as that sum, and nothing else is written. */
  lemma ReadIsSum(a: seq<byte>, t: seq<byte>)
    requires WellFormed(a)
    ensures ReadInt(a + t) == Some(Read(Denoted(a), t)) && VarIntBytes(Denoted(a)) == a
  {
    hide ReadFrom, VarIntBytes, Denoted;
    ReadsSum(0, a, t);
    ReadsSum(0, a, []);
    assert a + [] == a;
    WrittenAsRead(a);
  }

  // ---------------------------------------------------------------- sizes

  function Pow128(k: nat): (r: nat)
    ensures r >= 1
  {
    if k == 0 then 1 else 128 * Pow128(k - 1)
  }

  lemma {:induction false} FlaggedSize(m: nat, k: nat)
    requires k > 0 && m < Pow128(k)
    ensures |Flagged(m)| <= k
  {
    if m > 0x7F {
      assert m / 128 < Pow128(k - 1);
      FlaggedSize(m / 128 - 1, k - 1);
    }
  }

  /** A 32-bit number takes five bytes at most, a 64-bit number ten: the size of the local buffer. */
  lemma SizeBound(n: nat)
    ensures n < 0x1_0000_0000 ==> |VarIntBytes(n)| <= 5
    ensures n < 0x1_0000_0000_0000_0000 ==> |VarIntBytes(n)| <= 10
  {
    assert Pow128(4) == 0x1000_0000 && Pow128(9) == 0x8000_0000_0000_0000;
    if n > 0x7F {
      if n < 0x1_0000_0000 {
        FlaggedSize(n / 128 - 1, 4);
      }
      if n < 0x1_0000_0000_0000_0000 {
        FlaggedSize(n / 128 - 1, 9);
      }
    }
  }

  method GetSizeOfVarInt(n: int) returns (nRet: nat)
    ensures nRet == |SignedBytes(n)|
  {
    var m := n;
    nRet := 0;
    while true
      invariant n < 0 ==> m == n && nRet == 0
      invariant n >= 0 ==> m >= 0 && |VarIntBytes(n)| == nRet + if nRet == 0 then |VarIntBytes(m)| else |Flagged(m)|
      decreases if m < 0 then 0 else m
    {
      nRet := nRet + 1;
      if m <= 0x7F {
        break;
      }
      m := m / 128 - 1;
    }
  }

  function Reversed(s: seq<byte>): (r: seq<byte>)
    ensures |r| == |s|
  {
    if s == [] then [] else [s[|s| - 1]] + Reversed(s[..|s| - 1])
  }

  /** What is still to come in front of the digits collected so far. */
  function More(m: nat, len: nat): (r: seq<byte>)
    ensures r != []
  {
    if len == 0 then VarIntBytes(m) else Flagged(m)
  }

  function Digit(m: int, len: nat): byte { m % 128 + if len != 0 then 128 else 0 }

  lemma MoreNext(m: nat, len: nat)
    ensures m <= 0x7F ==> More(m, len) == [Digit(m, len)]
    ensures m > 0x7F ==> More(m, len) == More(m / 128 - 1, len + 1) + [Digit(m, len)]
  {
  }

  lemma MoreStarts(m: nat)
    ensures More(m, 0) == VarIntBytes(m)
  {
  }

  lemma ReversedNext(s: seq<byte>, n: nat)
    requires n < |s|
    ensures Reversed(s[..n + 1]) == [s[n]] + Reversed(s[..n])
  {
    assert s[..n + 1][..n] == s[..n];
  }

  /** WriteVarInt, for an integer type of `size` bytes; the digits are collected from the last one up. */
  method WriteVarInt(os: seq<byte>, n: int, size: nat) returns (out: seq<byte>)
    requires (size == 4 && n < 0x1_0000_0000) || (size == 8 && n < 0x1_0000_0000_0000_0000)
    ensures out == os + SignedBytes(n)
  {
    hide More, Digit, VarIntBytes, Reversed;
    var tmp, len := CollectDigits(n, size);
    out := os;
    while true
      invariant 0 <= len < tmp.Length && out + Reversed(tmp[..len + 1]) == os + SignedBytes(n)
      decreases len
    {
      ReversedNext(tmp[..], len);
      assert tmp[..][..len] == tmp[..len] && tmp[..][..len + 1] == tmp[..len + 1];
      assert out + ([tmp[len]] + Reversed(tmp[..len])) == out + [tmp[len]] + Reversed(tmp[..len]);
      out := out + [tmp[len]];
      if len == 0 {
        NothingReversed(tmp[..len]);
        break;
      }
      len := len - 1;
    }
  }

  lemma NothingReversed(s: seq<byte>)
    requires s == []
    ensures Reversed(s) == []
  {
  }

  lemma CollectedNext(tmp: array<byte>, len: nat)
    requires len < tmp.Length
    ensures Reversed(tmp[..len + 1]) == [tmp[len]] + Reversed(tmp[..len])
  {
    hide Reversed;
    ReversedNext(tmp[..], len);
    assert tmp[..][..len + 1] == tmp[..len + 1] && tmp[..][..len] == tmp[..len];
  }

  /** The first loop of WriteVarInt; `len` is the index of the last digit collected. */
  method CollectDigits(n: int, size: nat) returns (tmp: array<byte>, len: nat)
    requires (size == 4 && n < 0x1_0000_0000) || (size == 8 && n < 0x1_0000_0000_0000_0000)
    ensures fresh(tmp) && len < tmp.Length && Reversed(tmp[..len + 1]) == SignedBytes(n)
  {
    hide VarIntBytes, Reversed, Flagged, More;
    tmp := new byte[(size * 8 + 6) / 7];
    var m := n;
    len := 0;
    NothingReversed(tmp[..0]);
    if n >= 0 {
      SizeBound(n);
      MoreStarts(n);
      assert VarIntBytes(n) == VarIntBytes(n) + [];
    }
    while true
      invariant len < tmp.Length
      invariant n < 0 ==> m == n && len == 0 && Reversed(tmp[..0]) == []
      invariant n >= 0 ==> m >= 0 && len + |More(m, len)| <= tmp.Length && VarIntBytes(n) == More(m, len) + Reversed(tmp[..len])
      decreases if m < 0 then 0 else m
    {
      if m >= 0 {
        MoreNext(m, len);
      }
      ghost var done := tmp[..len];
      tmp[len] := Digit(m, len);
      assert tmp[..len] == done;
      CollectedNext(tmp, len);
      if m <= 0x7F {
        break;
      }
      m := m / 128 - 1;
      len := len + 1;
    }
  }

  /** Shifting a digit in wraps around and leaves the lowest seven bits free for it. */
  lemma ShiftedIn(m: nat, d: nat, size: nat)
    requires (size == 4 || size == 8) && d < 128
    ensures Wrapped(Wrapped(m, size) * 128, size) + d == Wrapped(m * 128 + d, size)
  {
    hide Values;
    var l := Values(size);
    var k, q, r := l / 128, m / l, m % l;
    assert l == 128 * k;
    ModUnique(r, r / k, r % k, k);
    var q', r' := r / k, r % k;
    Associate(128, q', k);
    assert r * 128 == q' * (128 * k) + r' * 128;
    ModUnique(r * 128, q', r' * 128, l);
    Distribute(128 * q, q', l);
    Associate(128, q, l);
    assert m * 128 + d == (128 * q + q') * l + (r' * 128 + d);
    ModUnique(m * 128 + d, 128 * q + q', r' * 128 + d, l);
  }

  lemma PlusOne(m: nat, size: nat)
    requires size == 4 || size == 8
    ensures Wrapped(Wrapped(m, size) + 1, size) == Wrapped(m + 1, size)
  {
    hide Values;
    var l := Values(size);
    var q, r := m / l, m % l;
    Distribute(q, 1, l);
    if r + 1 < l {
      SmallMod(r + 1, l);
      ModUnique(m + 1, q, r + 1, l);
    } else {
      ModUnique(l, 1, 0, l);
      ModUnique(m + 1, q + 1, 0, l);
    }
  }

  /** ReadVarInt, for an unsigned integer type of `size` bytes. */
  method ReadVarInt(s: seq<byte>, size: nat) returns (r: Option<Read<nat>>)
    requires size == 4 || size == 8
    ensures r == ReadUnsigned(s, size)
  {
    hide Wrapped, ReadFrom;
    assert s[0..] == s;
    NothingWraps(size);
    var n: nat, at: nat := 0, 0;
    ghost var m: nat := 0;
    while at < |s|
      invariant at <= |s| && n == Wrapped(m, size) && ReadFrom(m, s[at..]) == ReadInt(s)
    {
      var chData := s[at];
      NextTurn(m, s, at);
      at := at + 1;
      ShiftedIn(m, chData % 128, size);
      n := Wrapped(n * 128, size) + chData % 128;
      m := m * 128 + chData % 128;
      if chData >= 128 {
        PlusOne(m, size);
        n := Wrapped(n + 1, size);
        m := m + 1;
      } else {
        return Some(Read(n, s[at..]));
      }
    }
    NoTurn(m, s);
    return None;
  }

  lemma NothingWraps(size: nat)
    requires size == 4 || size == 8
    ensures Wrapped(0, size) == 0
  {
  }

  lemma NextTurn(m: nat, s: seq<byte>, at: nat)
    requires at < |s|
    ensures var k := m * 128 + s[at] % 128;
            ReadFrom(m, s[at..]) == if s[at] >= 128 then ReadFrom(k + 1, s[at + 1..]) else Some(Read(k, s[at + 1..]))
  {
    assert s[at..][1..] == s[at + 1..];
  }

  lemma NoTurn(m: nat, s: seq<byte>)
    ensures ReadFrom(m, s[|s|..]) == None
  {
  }
}
