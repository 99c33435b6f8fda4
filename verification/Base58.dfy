/** Base58: numbers written with 58 letters and digits, in buffers of a size that is computed beforehand. */
module Base58 {
  import opened Radix
  import opened Wrappers
  import opened Numbers

  // ---------------------------------------------------------------- the alphabet

  const ALPHABET: string := "123456789" + "ABCDEFGH" + "JKLMN" + "PQRSTUVWXYZ" + "abcdefghijk" + "mnopqrstuvwxyz"

  predicate IsSpace(c: char) { c == ' ' || '\t' <= c <= '\r' }

  /** strchr: the first place of a character, or -1. */
  function StrChr(s: string, c: char): (r: int)
    ensures -1 <= r < |s|
    ensures r == -1 <==> c !in s
    ensures r >= 0 ==> s[r] == c && c !in s[..r]
  {
    if s == [] then -1
    else if s[0] == c then 0
    else
      var r := StrChr(s[1..], c);
      assert r >= 0 ==> s[..r + 1] == [s[0]] + s[1..][..r];
      if r == -1 then -1 else r + 1
  }

  ghost predicate Ascends(s: string) { forall i :: 0 <= i < |s| - 1 ==> s[i] < s[i + 1] }

  lemma Join(a: string, b: string)
    requires Ascends(a) && Ascends(b) && a != [] && b != [] && a[|a| - 1] < b[0]
    ensures Ascends(a + b)
  {
  }

  lemma RunsAscend()
    ensures Ascends("123456789") && Ascends("ABCDEFGH") && Ascends("JKLMN") && Ascends("PQRSTUVWXYZ")
    ensures Ascends("abcdefghijk") && Ascends("mnopqrstuvwxyz")
  {
  }

  /** The letters are in ascending order, so no letter occurs twice. */
  lemma AlphabetAscends()
    ensures Ascends(ALPHABET) && |ALPHABET| == 58 && ALPHABET[0] == '1'
  {
    hide Ascends;
    var a, b, c, d, e := "123456789", "ABCDEFGH", "JKLMN", "PQRSTUVWXYZ", "abcdefghijk";
    RunsAscend();
    Join(a, b);
    Join(a + b, c);
    Join(a + b + c, d);
    Join(a + b + c + d, e);
    Join(a + b + c + d + e, "mnopqrstuvwxyz");
  }

  lemma {:induction false} LaterIsGreater(s: string, i: int, j: int)
    requires Ascends(s) && 0 <= i < j < |s|
    ensures s[i] < s[j]
    decreases j
  {
    if i < j - 1 {
      LaterIsGreater(s, i, j - 1);
    }
  }

  predicate IsLetter(c: char) { c in ALPHABET }

  function Letter(d: byte): char {
    if d < 58 then
      AlphabetAscends();
      ALPHABET[d]
    else '?'
  }

  function Value(c: char): (d: byte)
    ensures IsLetter(c) ==> d < 58 && Letter(d) == c
  {
    AlphabetAscends();
    if IsLetter(c) then StrChr(ALPHABET, c) else 0
  }

  /** Digits and letters correspond one to one; zero is '1'. */
  lemma LetterValue(d: byte)
    requires d < 58
    ensures IsLetter(Letter(d)) && Value(Letter(d)) == d && (Letter(d) == '1' <==> d == 0)
  {
    hide StrChr;
    AlphabetAscends();
    var s := ALPHABET;
    var r := StrChr(s, s[d]);
    if r < d {
      LaterIsGreater(s, r, d);
    } else if d < r {
      LaterIsGreater(s, d, r);
    }
    if d > 0 {
      LaterIsGreater(s, 0, d);
    }
  }

  /** The letters are the digits and letters of ASCII but for '0', 'I', 'O' and 'l', with values that go up in that order. */
  lemma Alphabet(c: char)
    ensures IsLetter(c) <==> ('0' < c <= '9' || 'A' <= c <= 'Z' || 'a' <= c <= 'z') && c != 'I' && c != 'O' && c != 'l'
    ensures forall d :: IsLetter(c) && IsLetter(d) && c < d ==> Value(c) < Value(d)
  {
    hide StrChr;
    InAlphabet(c);
    forall d | IsLetter(c) && IsLetter(d) && c < d ensures Value(c) < Value(d) {
      AlphabetAscends();
      if Value(d) < Value(c) {
        LaterIsGreater(ALPHABET, Value(d), Value(c));
      }
    }
  }

  lemma InAlphabet(c: char)
    ensures IsLetter(c) <==> c in "123456789" || c in "ABCDEFGH" || c in "JKLMN" || c in "PQRSTUVWXYZ" || c in "abcdefghijk"
                             || c in "mnopqrstuvwxyz"
    ensures c in "123456789" <==> '1' <= c <= '9'
    ensures c in "ABCDEFGH" <==> 'A' <= c <= 'H'
    ensures c in "JKLMN" <==> 'J' <= c <= 'N'
    ensures c in "PQRSTUVWXYZ" <==> 'P' <= c <= 'Z'
    ensures c in "abcdefghijk" <==> 'a' <= c <= 'k'
    ensures c in "mnopqrstuvwxyz" <==> 'm' <= c <= 'z'
  {
  }

  lemma LetterIsNoSpace(c: char)
    requires IsLetter(c)
    ensures !IsSpace(c)
  {
    hide StrChr;
    AlphabetAscends();
    var s := ALPHABET;
    var r := StrChr(s, c);
    if r > 0 {
      LaterIsGreater(s, 0, r);
    }
  }

  function Letters(d: seq<byte>): (s: string)
    ensures |s| == |d| && forall i :: 0 <= i < |d| ==> s[i] == Letter(d[i])
  {
    seq(|d|, i requires 0 <= i < |d| => Letter(d[i]))
  }

  function Values(s: string): (d: seq<byte>)
    ensures |d| == |s| && forall i :: 0 <= i < |s| ==> d[i] == Value(s[i])
  {
    seq(|s|, i requires 0 <= i < |s| => Value(s[i]))
  }

  predicate AllLetters(s: string) { forall i :: 0 <= i < |s| ==> IsLetter(s[i]) }

  lemma ValuesOfLetters(d: seq<byte>)
    requires InBase(58, d)
    ensures Values(Letters(d)) == d && AllLetters(Letters(d))
  {
    forall i | 0 <= i < |d| ensures Value(Letter(d[i])) == d[i] && IsLetter(Letter(d[i])) {
      LetterValue(d[i]);
    }
  }

  lemma LettersOfValues(s: string)
    requires AllLetters(s)
    ensures InBase(58, Values(s)) && Letters(Values(s)) == s
  {
  }

  // ---------------------------------------------------------------- what encoding and decoding mean

  function Ones(n: nat): (s: string)
    ensures |s| == n && forall i :: 0 <= i < n ==> s[i] == '1'
  {
    seq(n, i => '1')
  }

  /** One '1' for every leading zero byte, then the number in base 58. */
  function Encoded(v: seq<byte>): string {
    var z := LeadingZeros(v);
    Ones(z) + Letters(Digits(58, Num(256, v[z..])))
  }

  function Spaces(s: string): (n: nat)
    ensures n <= |s| && (forall i :: 0 <= i < n ==> IsSpace(s[i])) && (n < |s| ==> !IsSpace(s[n]))
  {
    if s == [] || !IsSpace(s[0]) then 0 else 1 + Spaces(s[1..])
  }

  function LeadingOnes(s: string): (n: nat)
    ensures n <= |s| && (forall i :: 0 <= i < n ==> s[i] == '1') && (n < |s| ==> s[n] != '1')
  {
    if s == [] || s[0] != '1' then 0 else 1 + LeadingOnes(s[1..])
  }

  /** Where the spaces at the end begin. */
  function End(s: string): (e: nat)
    ensures e <= |s| && (forall i :: e <= i < |s| ==> IsSpace(s[i])) && (e > 0 ==> !IsSpace(s[e - 1]))
  {
    if s == [] || !IsSpace(s[|s| - 1]) then |s| else End(s[..|s| - 1])
  }

  /** The string without the spaces around it. */
  function Trimmed(s: string): string {
    if Spaces(s) <= End(s) then s[Spaces(s)..End(s)] else ""
  }

  /** What a word of letters stands for: zero bytes for leading '1's, then the number in base 256. */
  function Decoded(word: string): seq<byte> {
    var z := LeadingOnes(word);
    Zeros(z) + Digits(256, Num(58, Values(word[z..])))
  }

  // ---------------------------------------------------------------- the two undo each other

  lemma {:induction false} LeadingOnesAre(n: nat, s: string)
    requires s != [] ==> s[0] != '1'
    ensures LeadingOnes(Ones(n) + s) == n && (Ones(n) + s)[n..] == s
  {
    if n == 0 {
      assert Ones(0) + s == s;
    } else {
      LeadingOnesAre(n - 1, s);
      assert (Ones(n) + s)[1..] == Ones(n - 1) + s;
    }
  }

  /** Zero digits and '1's at the beginning correspond. */
  lemma NoLeadingOne(d: seq<byte>)
    requires InBase(58, d)
    ensures NoLeadingZero(d) <==> Letters(d) == [] || Letters(d)[0] != '1'
  {
    hide Letter;
    if d != [] {
      LetterValue(d[0]);
    }
  }

  lemma DecodedEncoded(v: seq<byte>)
    ensures Decoded(Encoded(v)) == v && AllLetters(Encoded(v))
  {
    hide Num, Digits, LeadingZeros, LeadingOnes, Letters, Values, Letter, Value, IsLetter;
    var z := LeadingZeros(v);
    var n := Num(256, v[z..]);
    var d := Digits(58, n);
    NumOfDigits(58, n);
    ValuesOfLetters(d);
    NoLeadingOne(d);
    LetterValue(0);
    LeadingOnesAre(z, Letters(d));
    DigitsOfNum(256, v[z..]);
    assert v == v[..z] + v[z..];
  }

  lemma EncodedDecoded(word: string)
    requires AllLetters(word)
    ensures Encoded(Decoded(word)) == word
  {
    hide Num, Digits, LeadingZeros, LeadingOnes, Letters, Values, Letter, Value, IsLetter;
    var z := LeadingOnes(word);
    var rest := word[z..];
    var n := Num(58, Values(rest));
    LettersOfValues(rest);
    NoLeadingOne(Values(rest));
    NumOfDigits(256, n);
    LeadingZerosAre(z, Digits(256, n));
    assert Decoded(word)[z..] == Digits(256, n);
    DigitsOfNum(58, Values(rest));
    assert word == word[..z] + rest && word[..z] == Ones(z);
  }

  // ---------------------------------------------------------------- encoding

  /** The size of the base 58 buffer: log(256) / log(58), rounded up. */
  function EncodeSize(bytes: nat): nat { bytes * 138 / 100 + 1 }

  /** The base 58 buffer has room for the bytes: neither base is rounded the wrong way. */
  lemma RoomToEncode(v: seq<byte>, k: nat)
    requires k <= |v|
    ensures Num(256, v[..k]) < Pow(58, EncodeSize(|v|))
  {
    hide Pow, Num;
    Pow58And256();
    NumBound(256, v[..k]);
    PowGrows(256, k, |v|);
    Fits(256, 58, 100, 138, |v|);
  }

  lemma NumUpTo(b: nat, v: seq<byte>, k: nat)
    requires k < |v|
    ensures Num(b, v[..k + 1]) == Num(b, v[..k]) * b + v[k]
  {
    assert v[..k + 1] == v[..k] + [v[k]];
    NumNext(b, v[..k], v[k]);
  }

  /** The digits of the number in a buffer, once leading zeros have been skipped. */
  method SkipZeros(buf: array<byte>, b: nat, from: nat) returns (it: nat)
    requires 1 < b <= 256 && InBase(b, buf[..]) && from <= buf.Length && forall j :: 0 <= j < from ==> buf[j] == 0
    ensures it <= buf.Length && buf[it..] == Digits(b, Num(b, buf[..]))
  {
    hide Num, Digits;
    it := from;
    while it != buf.Length && buf[it] == 0
      invariant it <= buf.Length && forall j :: 0 <= j < it ==> buf[j] == 0
    {
      it := it + 1;
    }
    ZeroPrefix(b, buf[..], it);
    assert buf[..][it..] == buf[it..];
    DigitsOfNum(b, buf[it..]);
  }

  /** The bytes after the leading zeros, as one number, in a base 58 buffer. */
  method ToBase58(bytes: seq<byte>) returns (b58: array<byte>, it: nat)
    ensures fresh(b58) && it <= b58.Length && b58[it..] == Digits(58, Num(256, bytes))
  {
    hide Num, Digits, Pow, EncodeSize;
    var size := EncodeSize(|bytes|);
    b58 := new byte[size](i => 0);
    var length: nat := 0;
    ZeroPrefix(58, b58[..], size);
    NumOfNothing(58, b58[..][size..]);
    NumOfNothing(256, bytes[..0]);
    for k := 0 to |bytes|
      invariant length <= size && InBase(58, b58[..]) && forall j :: 0 <= j < size - length ==> b58[j] == 0
      invariant Num(58, b58[..]) == Num(256, bytes[..k])
    {
      NumUpTo(256, bytes, k);
      RoomToEncode(bytes, k + 1);
      length := MultiplyAdd(b58, 58, 256, bytes[k], length);
    }
    assert bytes[..|bytes|] == bytes;
    it := SkipZeros(b58, 58, size - length);
  }

  /** Every byte sequence is encoded. */
  method EncodeBase58(v: seq<byte>) returns (str: string)
    ensures str == Encoded(v)
  {
    hide Num, Digits, LeadingZeros, Letter;
    var zeroes := 0;
    while zeroes != |v| && v[zeroes] == 0
      invariant zeroes <= |v| && LeadingZeros(v) == zeroes + LeadingZeros(v[zeroes..])
    {
      LeadingZerosNext(v[zeroes..]);
      assert v[zeroes..][1..] == v[zeroes + 1..];
      zeroes := zeroes + 1;
    }
    LeadingZerosNext(v[zeroes..]);
    var b58, it := ToBase58(v[zeroes..]);
    ghost var first, digits := it, b58[it..];
    str := Ones(zeroes);
    while it != b58.Length
      invariant first <= it <= b58.Length && b58[first..] == digits
      invariant str == Ones(zeroes) + Letters(digits[..it - first])
    {
      assert digits[it - first] == b58[it];
      LettersNext(digits, it - first);
      str := str + [Letter(b58[it])];
      it := it + 1;
    }
    assert digits[..it - first] == digits;
  }

  lemma LeadingZerosNext(d: seq<byte>)
    ensures d == [] || d[0] != 0 ==> LeadingZeros(d) == 0
    ensures d != [] && d[0] == 0 ==> LeadingZeros(d) == 1 + LeadingZeros(d[1..])
  {
  }

  lemma LettersNext(d: seq<byte>, i: nat)
    requires i < |d|
    ensures Letters(d[..i + 1]) == Letters(d[..i]) + [Letter(d[i])]
  {
  }

  // ---------------------------------------------------------------- decoding

  /** The size of the base 256 buffer: log(58) / log(256), rounded up. */
  function DecodeSize(strlen: nat): nat { strlen * 733 / 1000 + 1 }

  /** The base 256 buffer has room for the letters, even counting the spaces after them. */
  lemma RoomToDecode(d: seq<byte>, m: nat)
    requires InBase(58, d) && |d| <= m
    ensures Num(58, d) < Pow(256, DecodeSize(m))
  {
    hide Pow, Num;
    Pow58And256();
    NumBound(58, d);
    PowGrows(58, |d|, m);
    Fits(58, 256, 1000, 733, m);
  }

  /** Reads letters up to the first space into a base 256 buffer; `strlen` counts what is left of the string. */
  method FromBase58(psz: string) returns (ok: bool, b256: array<byte>, it: nat, p: nat)
    ensures p <= |psz| && (forall i :: 0 <= i < p ==> IsLetter(psz[i]))
    ensures !ok ==> p < |psz| && !IsSpace(psz[p]) && !IsLetter(psz[p])
    ensures ok ==> (p < |psz| ==> IsSpace(psz[p])) && fresh(b256) && it <= b256.Length
    ensures ok ==> b256[it..] == Digits(256, Num(58, Values(psz[..p])))
  {
    hide Num, Digits, Pow, Value, Values, Found, IsLetter, IsSpace, DecodeSize;
    var size := DecodeSize(|psz|);
    b256 := new byte[size](i => 0);
    var length: nat := 0;
    p, it := 0, 0;
    ZeroPrefix(256, b256[..], size);
    NumOfNothing(256, b256[..][size..]);
    NumOfNothing(58, Values(psz[..0]));
    while p < |psz| && !IsSpace(psz[p])
      invariant p <= |psz| && forall i :: 0 <= i < p ==> IsLetter(psz[i])
      invariant b256.Length == size && length <= size && forall j :: 0 <= j < size - length ==> b256[j] == 0
      invariant Num(256, b256[..]) == Num(58, Values(psz[..p]))
    {
      LetterFound(psz[p]);
      var ch := Found(psz[p]);
      if ch == -1 {
        return false, b256, 0, p;
      }
      ValuesNext(psz, p);
      NumNext(58, Values(psz[..p]), ch);
      RoomToDecode(Values(psz[..p + 1]), |psz|);
      assert 58 * Num(256, b256[..]) + ch == Num(58, Values(psz[..p + 1]));
      length := MultiplyAdd(b256, 256, 58, ch, length);
      p := p + 1;
    }
    ok := true;
    it := SkipZeros(b256, 256, size - length);
  }

  function Found(c: char): int { StrChr(ALPHABET, c) }

  lemma LetterFound(c: char)
    ensures -1 <= Found(c) < 58 && (IsLetter(c) <==> Found(c) != -1)
    ensures IsLetter(c) ==> Value(c) == Found(c)
  {
    AlphabetAscends();
  }

  lemma ValuesNext(s: string, i: nat)
    requires i < |s| && forall j :: 0 <= j <= i ==> IsLetter(s[j])
    ensures Values(s[..i + 1]) == Values(s[..i]) + [Value(s[i])] && InBase(58, Values(s[..i + 1]))
  {
    hide Value, IsLetter;
    var t := s[..i + 1];
    assert forall j :: 0 <= j < |t| ==> IsLetter(t[j]);
  }

  /** Everything that is not a space is left by trimming. */
  lemma InTrimmed(s: string, k: nat)
    requires k < |s| && !IsSpace(s[k])
    ensures Spaces(s) <= k < End(s) && Trimmed(s) == s[Spaces(s)..End(s)]
  {
  }

  lemma TrimmedIs(s: string, a: nat, e: nat)
    requires a <= e <= |s| && (forall i :: 0 <= i < a ==> IsSpace(s[i])) && (forall i :: e <= i < |s| ==> IsSpace(s[i]))
    requires forall i :: a <= i < e ==> !IsSpace(s[i])
    ensures Trimmed(s) == s[a..e]
  {
    hide IsSpace;
    if a < e {
      InTrimmed(s, a);
      InTrimmed(s, e - 1);
    } else {
      assert Spaces(s) == |s| && End(s) == 0;
    }
  }

  lemma WordDecoded(word: string, z: nat)
    requires z <= |word| && word[..z] == Ones(z) && (z < |word| ==> word[z] != '1')
    ensures Decoded(word) == Zeros(z) + Digits(256, Num(58, Values(word[z..])))
  {
    hide Num, Digits, LeadingOnes;
    LeadingOnesAre(z, word[z..]);
    assert word == Ones(z) + word[z..];
  }

  method SkipSpaces(psz: string, from: nat) returns (e: nat)
    requires from <= |psz|
    ensures from <= e <= |psz| && (forall i :: from <= i < e ==> IsSpace(psz[i])) && (e < |psz| ==> !IsSpace(psz[e]))
  {
    e := from;
    while e < |psz| && IsSpace(psz[e])
      invariant from <= e <= |psz| && forall i :: from <= i < e ==> IsSpace(psz[i])
    {
      e := e + 1;
    }
  }

  /** Skips leading spaces, then the '1's after them. */
  method SkipLeading(psz: string) returns (begin: nat, p: nat)
    ensures begin <= p <= |psz| && (forall i :: 0 <= i < begin ==> IsSpace(psz[i]))
    ensures (forall i :: begin <= i < p ==> psz[i] == '1') && (begin < |psz| ==> !IsSpace(psz[begin]))
    ensures p < |psz| ==> psz[p] != '1'
  {
    begin := SkipSpaces(psz, 0);
    p := begin;
    while p < |psz| && psz[p] == '1'
      invariant begin <= p <= |psz| && forall i :: begin <= i < p ==> psz[i] == '1'
    {
      p := p + 1;
    }
  }

  /** A word that begins with `p - begin` '1's, and what is after them. */
  lemma SplitWord(s: string, begin: nat, p: nat, n: nat)
    requires begin <= p && p + n <= |s| && forall i :: begin <= i < p ==> s[i] == '1'
    ensures s[begin..p + n][..p - begin] == Ones(p - begin)
    ensures s[begin..p + n][p - begin..] == s[p..][..n]
  {
    var word, z := s[begin..p + n], p - begin;
    forall i | 0 <= i < z ensures word[..z][i] == Ones(z)[i] {
      assert word[i] == s[begin + i];
    }
  }

  /** What is decoded where only letters stand between the spaces at both ends. */
  lemma LettersDecoded(s: string, begin: nat, p: nat, n: nat)
    requires begin <= p && p + n <= |s| && (forall i :: begin <= i < p ==> s[i] == '1')
    requires (forall i :: 0 <= i < begin ==> IsSpace(s[i])) && (forall i :: p + n <= i < |s| ==> IsSpace(s[i]))
    requires (forall i :: p <= i < p + n ==> IsLetter(s[i])) && (n > 0 ==> s[p] != '1')
    ensures AllLetters(Trimmed(s))
    ensures Decoded(Trimmed(s)) == Zeros(p - begin) + Digits(256, Num(58, Values(s[p..][..n])))
  {
    hide Num, Digits, IsSpace, IsLetter, Decoded, Trimmed, Value;
    OneIsLetter();
    NoSpaces(s, begin, p + n);
    TrimmedIs(s, begin, p + n);
    SplitWord(s, begin, p, n);
    WordDecoded(s[begin..p + n], p - begin);
  }

  /** Nothing is decoded where something that is no letter stops the reading. */
  lemma NoLetter(s: string, k: nat)
    requires k < |s| && !IsSpace(s[k]) && !IsLetter(s[k])
    ensures !AllLetters(Trimmed(s))
  {
    hide IsSpace, IsLetter;
    InTrimmed(s, k);
    assert Trimmed(s)[k - Spaces(s)] == s[k];
  }

  /**
   A string can be decoded exactly when, spaces around it aside, it consists of letters of the
   alphabet; then the result is what that word stands for. Otherwise the vector is left alone.
   */
  method DecodeBase58(psz: string, was: seq<byte>) returns (ok: bool, vch: seq<byte>)
    ensures ok <==> AllLetters(Trimmed(psz))
    ensures vch == if ok then Decoded(Trimmed(psz)) else was
  {
    hide Num, Digits, IsSpace, IsLetter, Trimmed, Value, Decoded, AllLetters, Values, Zeros;
    ok, vch := false, was;
    var begin, p := SkipLeading(psz);
    var found, b256, it, n := FromBase58(psz[p..]);
    Shifted(psz, p, n);
    if !found {
      NoLetter(psz, p + n);
      return;
    }
    var e := SkipSpaces(psz, p + n);
    if e != |psz| {
      SpaceInside(psz, begin, p + n, e);
      return;
    }
    LettersDecoded(psz, begin, p, n);
    ok, vch := true, Zeros(p - begin) + b256[it..];
  }

  lemma Shifted(s: string, p: nat, n: nat)
    requires p + n <= |s|
    ensures forall i {:trigger s[i]} :: p <= i < p + n ==> s[i] == s[p..][i - p]
    ensures p + n < |s| ==> s[p..][n] == s[p + n]
  {
  }

  lemma OneIsLetter()
    ensures IsLetter('1')
  {
    LetterValue(0);
  }

  lemma NoSpaces(s: string, a: nat, e: nat)
    requires a <= e <= |s| && forall i :: a <= i < e ==> IsLetter(s[i])
    ensures forall i :: a <= i < e ==> !IsSpace(s[i])
    ensures AllLetters(s[a..e])
  {
    forall i | a <= i < e ensures !IsSpace(s[i]) {
      LetterIsNoSpace(s[i]);
    }
  }

  /** A space with more behind it cannot be trimmed away. */
  lemma SpaceInside(s: string, a: nat, k: nat, e: nat)
    requires a <= k < e < |s| && IsSpace(s[k]) && !IsSpace(s[e]) && !IsSpace(s[a])
    ensures !AllLetters(Trimmed(s))
  {
    hide IsLetter, IsSpace, Spaces, End, Trimmed;
    InTrimmed(s, a);
    InTrimmed(s, e);
    assert Trimmed(s)[k - Spaces(s)] == s[k];
    if IsLetter(s[k]) {
      LetterIsNoSpace(s[k]);
    }
  }

  // ---------------------------------------------------------------- what the two are for

  /** Trimming changes nothing where there are only letters. */
  lemma LettersStay(s: string)
    requires AllLetters(s)
    ensures Trimmed(s) == s
  {
    NoSpaces(s, 0, |s|);
    assert s[0..|s|] == s;
    TrimmedIs(s, 0, |s|);
  }

  function Decode(s: string): Option<seq<byte>> {
    if AllLetters(Trimmed(s)) then Some(Decoded(Trimmed(s))) else None
  }

  /** Decoding undoes encoding, for every byte sequence. */
  lemma DecodeEncode(v: seq<byte>)
    ensures Decode(Encoded(v)) == Some(v)
  {
    DecodedEncoded(v);
    LettersStay(Encoded(v));
  }

  /** Whatever can be decoded is encoded again as it was, without the spaces around it. */
  lemma EncodeDecode(s: string)
    requires Decode(s).Some?
    ensures Encoded(Decode(s).value) == Trimmed(s)
  {
    EncodedDecoded(Trimmed(s));
  }

  /** Nothing but spaces, tabs, line feeds, vertical tabs, form feeds and carriage returns. */
  predicate Blank(s: string) {
    forall i :: 0 <= i < |s| ==> s[i] == ' ' || s[i] as int == 9 || s[i] as int == 10 || s[i] as int == 11 || s[i] as int == 12
                                 || s[i] as int == 13
  }

  /** A string is decoded to some bytes exactly if it is their encoding with nothing but blanks around it. */
  lemma DecodeIff(s: string, v: seq<byte>)
    ensures Decode(s) == Some(v) <==> exists a, b :: Blank(a) && Blank(b) && s == a + Encoded(v) + b
  {
    hide Encoded, Decoded, AllLetters, Trimmed;
    if Decode(s) == Some(v) {
      EncodedDecoded(Trimmed(s));
      var a, b := AroundTrimmed(s);
    }
    forall a, b | Blank(a) && Blank(b) && s == a + Encoded(v) + b ensures Decode(s) == Some(v) {
      DecodedEncoded(v);
      TrimmedBetween(a, Encoded(v), b);
    }
  }

  lemma SpacesAreBlank(s: string)
    requires forall i :: 0 <= i < |s| ==> IsSpace(s[i])
    ensures Blank(s)
  {
  }

  lemma AroundTrimmed(s: string) returns (a: string, b: string)
    ensures Blank(a) && Blank(b) && s == a + Trimmed(s) + b
  {
    hide IsSpace, Blank, Spaces, End;
    var m, e := Spaces(s), End(s);
    SpacesAreBlank(s[..m]);
    SpacesAreBlank(s[e..]);
    if m > e {
      forall i | 0 <= i < |s| ensures IsSpace(s[i]) {
      }
      SpacesAreBlank(s);
    }
    NothingIsBlank();
    if m <= e {
      a, b := s[..m], s[e..];
    } else {
      a, b := s, "";
    }
  }

  lemma NothingIsBlank()
    ensures Blank("")
  {
  }

  lemma TrimmedBetween(a: string, w: string, b: string)
    requires Blank(a) && Blank(b) && AllLetters(w)
    ensures Trimmed(a + w + b) == w
  {
    hide IsLetter;
    var s := a + w + b;
    forall i | |a| <= i < |a| + |w| ensures !IsSpace(s[i]) {
      LetterIsNoSpace(w[i - |a|]);
    }
    TrimmedIs(s, |a|, |a| + |w|);
  }

  // ---------------------------------------------------------------- with a checksum

  type Hash256 = h: seq<byte> | |h| == 32 witness seq(32, _ => 0)

  function EncodedCheck(hash: seq<byte> -> Hash256, v: seq<byte>): string {
    Encoded(v + hash(v)[..4])
  }

  /** A payload is accepted if its last four bytes are the beginning of the hash of the rest. */
  function DecodeCheck(hash: seq<byte> -> Hash256, s: string): Option<seq<byte>> {
    match Decode(s)
    case None => None
    case Some(w) =>
      if |w| < 4 || hash(w[..|w| - 4])[..4] != w[|w| - 4..] then None else Some(w[..|w| - 4])
  }

  method EncodeBase58Check(hash: seq<byte> -> Hash256, vchIn: seq<byte>) returns (str: string)
    ensures str == EncodedCheck(hash, vchIn)
    ensures Decode(str) == Some(vchIn + hash(vchIn)[..4])
  {
    hide Decode, Encoded;
    var vch := vchIn;
    var h := hash(vch);
    vch := vch + h[..4];
    DecodeEncode(vch);
    str := EncodeBase58(vch);
  }

  /** What a string with a checksum says: this payload, and after it the first four bytes of its hash. */
  predicate Carries(hash: seq<byte> -> Hash256, s: string, v: seq<byte>) { Decode(s) == Some(v + hash(v)[..4]) }

  /** A string carries a payload exactly if it is accepted, and no other than the one it is accepted for. */
  lemma CarriesIff(hash: seq<byte> -> Hash256, s: string, v: seq<byte>)
    ensures Carries(hash, s, v) <==> DecodeCheck(hash, s) == Some(v)
  {
    hide Decode;
    if Carries(hash, s, v) {
      var w := Decode(s).value;
      assert w[..|w| - 4] == v && w[|w| - 4..] == hash(v)[..4];
    }
    if DecodeCheck(hash, s) == Some(v) {
      var w := Decode(s).value;
      assert w == w[..|w| - 4] + w[|w| - 4..];
    }
  }

  /** On failure the vector is cleared. */
  method DecodeBase58Check(hash: seq<byte> -> Hash256, psz: string, was: seq<byte>) returns (ok: bool, vchRet: seq<byte>)
    ensures ok <==> DecodeCheck(hash, psz).Some?
    ensures vchRet == if ok then DecodeCheck(hash, psz).value else []
    ensures ok <==> exists v :: Carries(hash, psz, v)
    ensures ok ==> Carries(hash, psz, vchRet)
  {
    hide AllLetters, Decoded, Trimmed, Carries;
    forall v ensures Carries(hash, psz, v) <==> DecodeCheck(hash, psz) == Some(v) {
      CarriesIff(hash, psz, v);
    }
    ok, vchRet := DecodeBase58(psz, was);
    if !ok || |vchRet| < 4 {
      return false, [];
    }
    var h := hash(vchRet[..|vchRet| - 4]);
    if h[..4] != vchRet[|vchRet| - 4..] {
      return false, [];
    }
    vchRet := vchRet[..|vchRet| - 4];
  }

  lemma DecodeEncodeCheck(hash: seq<byte> -> Hash256, v: seq<byte>)
    ensures DecodeCheck(hash, EncodedCheck(hash, v)) == Some(v)
  {
    hide Decode, Encoded;
    var w := v + hash(v)[..4];
    DecodeEncode(w);
    assert w[..|w| - 4] == v;
  }

  lemma EncodeDecodeCheck(hash: seq<byte> -> Hash256, s: string)
    requires DecodeCheck(hash, s).Some?
    ensures EncodedCheck(hash, DecodeCheck(hash, s).value) == Trimmed(s)
  {
    hide Decode, Encoded, Trimmed;
    EncodeDecode(s);
    var w := Decode(s).value;
    assert w == w[..|w| - 4] + w[|w| - 4..];
  }
}
