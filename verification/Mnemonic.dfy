/**
 Mnemonic phrases: the entropy and the first bits of its hash, cut into groups of eleven bits, each
 of which picks one of 2048 words.
 */
module Mnemonic {
  import opened Bits
  import opened Products
  import opened Numbers

  type Hash = seq<byte> -> seq<byte>

  /** SHA-256 gives 32 bytes. */
  ghost predicate Lawful(sha: Hash) { forall x :: |sha(x)| == 32 }

  ghost predicate GoodList(words: seq<string>) {
    |words| == 2048
    && (forall i :: 0 <= i < |words| ==> 0 < |words[i]| <= 9 && ' ' !in words[i])
    && forall i, j :: 0 <= i < j < |words| ==> words[i] != words[j]
  }

  // ---------------------------------------------------------------- numbers and bits

  /** The first bit is the most significant one. */
  function Number(bits: seq<bool>): nat {
    if bits == [] then 0 else 2 * Number(bits[..|bits| - 1]) + if bits[|bits| - 1] then 1 else 0
  }

  function BitsOf(x: nat, n: nat): seq<bool> { seq(n, j requires 0 <= j < n => Bit(x, n - 1 - j)) }

  lemma {:induction false} NumberFits(bits: seq<bool>)
    ensures Number(bits) < Pow2(|bits|)
  {
    if bits != [] {
      NumberFits(bits[..|bits| - 1]);
    }
  }

  lemma BitOfHalf(x: nat, k: nat)
    ensures Bit(x, k) == if k == 0 then x % 2 == 1 else Bit(x / 2, k - 1)
  {
  }

  lemma {:induction false} BitsOfNumber(bits: seq<bool>)
    ensures BitsOf(Number(bits), |bits|) == bits
  {
    if bits != [] {
      var n, less := |bits|, bits[..|bits| - 1];
      var x := Number(bits);
      BitsOfNumber(less);
      assert x / 2 == Number(less);
      forall j | 0 <= j < n ensures BitsOf(x, n)[j] == bits[j] {
        BitOfHalf(x, n - 1 - j);
        if j < n - 1 {
          assert BitsOf(Number(less), n - 1)[j] == less[j];
        }
      }
    }
  }

  lemma {:induction false} NumberOfBits(x: nat, n: nat)
    requires x < Pow2(n)
    ensures Number(BitsOf(x, n)) == x
    decreases n
  {
    if n > 0 {
      NumberOfBits(x / 2, n - 1);
      BitOfHalf(x, 0);
      forall j | 0 <= j < n - 1 ensures BitsOf(x, n)[j] == BitsOf(x / 2, n - 1)[j] {
        BitOfHalf(x, n - 1 - j);
      }
      assert BitsOf(x, n)[..n - 1] == BitsOf(x / 2, n - 1);
    }
  }

  // ---------------------------------------------------------------- bytes and bits

  predicate BitAt(data: seq<byte>, p: nat)
    requires p < 8 * |data|
  {
    Bit(data[p / 8], 7 - p % 8)
  }

  function BytesBits(data: seq<byte>): seq<bool> { seq(8 * |data|, p requires 0 <= p < 8 * |data| => BitAt(data, p)) }

  function ByteOf(bits: seq<bool>): byte
    requires |bits| == 8
  {
    NumberFits(bits);
    assert Pow2(8) == 256;
    Number(bits)
  }

  function Bytes(bits: seq<bool>): seq<byte>
    requires |bits| % 8 == 0
  {
    seq(|bits| / 8, i requires 0 <= i < |bits| / 8 => ByteOf(bits[8 * i..8 * i + 8]))
  }

  lemma ByteGroup(data: seq<byte>, i: nat)
    requires i < |data|
    ensures BytesBits(data)[8 * i..8 * i + 8] == BitsOf(data[i], 8)
  {
    hide Bit;
    forall j | 0 <= j < 8 ensures BytesBits(data)[8 * i + j] == BitsOf(data[i], 8)[j] {
      assert (8 * i + j) / 8 == i && (8 * i + j) % 8 == j;
    }
  }

  lemma BytesOfBits(data: seq<byte>)
    ensures Bytes(BytesBits(data)) == data
  {
    hide Number, BitsOf, BitAt;
    forall i | 0 <= i < |data| ensures Bytes(BytesBits(data))[i] == data[i] {
      ByteGroup(data, i);
      assert Pow2(8) == 256;
      NumberOfBits(data[i], 8);
    }
  }

  lemma BitsOfBytes(bits: seq<bool>)
    requires |bits| % 8 == 0
    ensures BytesBits(Bytes(bits)) == bits
  {
    forall p | 0 <= p < |bits| ensures BytesBits(Bytes(bits))[p] == bits[p] {
      var group := bits[8 * (p / 8)..8 * (p / 8) + 8];
      BitsOfNumber(group);
      assert BitsOf(Number(group), 8)[p % 8] == group[p % 8];
    }
  }

  lemma BytesBitsJoin(a: seq<byte>, b: seq<byte>)
    ensures BytesBits(a + b) == BytesBits(a) + BytesBits(b)
  {
  }

  // ---------------------------------------------------------------- words and bits

  function GroupAt(bits: seq<bool>, i: nat): (r: nat)
    requires 11 * i + 11 <= |bits|
    ensures r < 2048
  {
    NumberFits(bits[11 * i..11 * i + 11]);
    assert Pow2(11) == 2048;
    Number(bits[11 * i..11 * i + 11])
  }

  lemma GroupBits(bits: seq<bool>, i: nat)
    requires 11 * i + 11 <= |bits|
    ensures BitsOf(GroupAt(bits, i), 11) == bits[11 * i..11 * i + 11]
  {
    BitsOfNumber(bits[11 * i..11 * i + 11]);
  }

  function WordsOf(words: seq<string>, bits: seq<bool>, n: nat): seq<string>
    requires |words| == 2048 && 11 * n <= |bits|
  {
    seq(n, i requires 0 <= i < n => words[GroupAt(bits, i)])
  }

  ghost function IndexOf(words: seq<string>, w: string): (r: nat)
    requires w in words
    ensures r < |words| && words[r] == w
  {
    var k :| 0 <= k < |words| && words[k] == w;
    k
  }

  ghost predicate Known(words: seq<string>, ws: seq<string>) { forall i :: 0 <= i < |ws| ==> ws[i] in words }

  ghost function AllBits(words: seq<string>, ws: seq<string>): (r: seq<bool>)
    requires Known(words, ws)
    ensures |r| == 11 * |ws|
  {
    if ws == [] then [] else
    AllBits(words, ws[..|ws| - 1]) + BitsOf(IndexOf(words, ws[|ws| - 1]), 11)
  }

  /** Reading the words back gives the bits they were picked by. */
  lemma {:induction false} WordsGiveBits(words: seq<string>, bits: seq<bool>, n: nat)
    requires GoodList(words) && 11 * n <= |bits|
    ensures Known(words, WordsOf(words, bits, n)) && AllBits(words, WordsOf(words, bits, n)) == bits[..11 * n]
  {
    hide BitsOf, GroupAt, WordsOf, IndexOf, GoodList;
    WordsAreKnown(words, bits, n);
    if n > 0 {
      WordsGiveBits(words, bits, n - 1);
      LastWord(words, bits, n - 1);
      GroupBits(bits, n - 1);
      assert bits[..11 * n] == bits[..11 * (n - 1)] + bits[11 * (n - 1)..11 * n];
    }
  }

  lemma WordsAreKnown(words: seq<string>, bits: seq<bool>, n: nat)
    requires GoodList(words) && 11 * n <= |bits|
    ensures |WordsOf(words, bits, n)| == n && Known(words, WordsOf(words, bits, n))
  {
    hide GroupAt;
    forall i | 0 <= i < n ensures WordsOf(words, bits, n)[i] in words {
      assert WordsOf(words, bits, n)[i] == words[GroupAt(bits, i)];
    }
  }

  lemma LastWord(words: seq<string>, bits: seq<bool>, n: nat)
    requires GoodList(words) && 11 * n + 11 <= |bits|
    ensures WordsOf(words, bits, n + 1)[..n] == WordsOf(words, bits, n)
    ensures WordsOf(words, bits, n + 1)[n] in words && IndexOf(words, WordsOf(words, bits, n + 1)[n]) == GroupAt(bits, n)
  {
    hide GroupAt;
    assert words[GroupAt(bits, n)] in words;
  }

  /** And the bits of words pick these words. */
  lemma {:induction false} BitsGiveWords(words: seq<string>, ws: seq<string>)
    requires |words| == 2048 && Known(words, ws)
    ensures WordsOf(words, AllBits(words, ws), |ws|) == ws
  {
    hide BitsOf, GroupAt, IndexOf;
    if ws != [] {
      var n := |ws|;
      var less := ws[..n - 1];
      var bits := AllBits(words, ws);
      BitsGiveWords(words, less);
      SamePicks(words, bits, AllBits(words, less), n - 1);
      LastPick(words, bits, n - 1, IndexOf(words, ws[n - 1]));
      assert ws == less + [ws[n - 1]];
      assert WordsOf(words, bits, n) == WordsOf(words, bits, n - 1) + [ws[n - 1]];
    }
  }

  lemma LastPick(words: seq<string>, bits: seq<bool>, i: nat, k: nat)
    requires |words| == 2048 && k < 2048 && |bits| == 11 * i + 11 && bits[11 * i..] == BitsOf(k, 11)
    ensures GroupAt(bits, i) == k
  {
    hide BitsOf;
    assert bits[11 * i..11 * i + 11] == bits[11 * i..];
    assert Pow2(11) == 2048;
    NumberOfBits(k, 11);
  }

  lemma SamePicks(words: seq<string>, a: seq<bool>, b: seq<bool>, n: nat)
    requires |words| == 2048 && 11 * n <= |a| && 11 * n <= |b| && a[..11 * n] == b[..11 * n]
    ensures WordsOf(words, a, n) == WordsOf(words, b, n)
  {
    forall i | 0 <= i < n ensures GroupAt(a, i) == GroupAt(b, i) {
      assert a[11 * i..11 * i + 11] == a[..11 * n][11 * i..11 * i + 11];
      assert b[11 * i..11 * i + 11] == b[..11 * n][11 * i..11 * i + 11];
    }
  }

  // ---------------------------------------------------------------- words and phrases

  function Join(ws: seq<string>): string {
    if ws == [] then "" else if |ws| == 1 then ws[0] else ws[0] + " " + Join(ws[1..])
  }

  /** The word at the start, which may be empty. */
  function FirstWord(m: string): (w: string)
    ensures w <= m && ' ' !in w && (|w| < |m| ==> m[|w|] == ' ')
  {
    if m == "" || m[0] == ' ' then "" else
    var w := FirstWord(m[1..]);
    assert m[1..][..|w|] == m[1..|w| + 1];
    [m[0]] + w
  }

  function Split(m: string): (ws: seq<string>)
    ensures ws != []
    decreases |m|
  {
    var w := FirstWord(m);
    if |w| == |m| then [w] else [w] + Split(m[|w| + 1..])
  }

  lemma {:induction false} JoinOfSplit(m: string)
    ensures Join(Split(m)) == m
    decreases |m|
  {
    hide FirstWord;
    var w := FirstWord(m);
    if |w| < |m| {
      JoinOfSplit(m[|w| + 1..]);
      assert m == w + " " + m[|w| + 1..];
      assert Split(m)[1..] == Split(m[|w| + 1..]);
    }
  }

  lemma {:induction false} FirstOf(w: string, rest: string)
    requires ' ' !in w
    ensures FirstWord(w) == w && FirstWord(w + " " + rest) == w
  {
    var m := w + " " + rest;
    if w != "" {
      FirstOf(w[1..], rest);
      assert m[1..] == w[1..] + " " + rest;
      assert w == [w[0]] + w[1..];
    }
  }

  lemma {:induction false} SplitOfJoin(ws: seq<string>)
    requires ws != [] && forall i :: 0 <= i < |ws| ==> ' ' !in ws[i]
    ensures Split(Join(ws)) == ws
  {
    hide FirstWord;
    if |ws| == 1 {
      FirstOf(ws[0], "");
    } else {
      var rest := Join(ws[1..]);
      SplitOfJoin(ws[1..]);
      FirstOf(ws[0], rest);
      assert (ws[0] + " " + rest)[|ws[0]| + 1..] == rest;
      assert ws == [ws[0]] + ws[1..];
    }
  }

  lemma {:induction false} JoinMore(ws: seq<string>, w: string)
    requires ws != []
    ensures Join(ws + [w]) == Join(ws) + " " + w
  {
    if |ws| > 1 {
      JoinMore(ws[1..], w);
      assert (ws + [w])[1..] == ws[1..] + [w];
    } else {
      assert (ws + [w])[1..] == [w];
    }
  }

  /** As many words as spaces, and one more. */
  lemma {:induction false} SplitCounts(m: string)
    ensures |Split(m)| == multiset(m)[' '] + 1
    decreases |m|
  {
    hide FirstWord;
    var w := FirstWord(m);
    if |w| < |m| {
      SplitCounts(m[|w| + 1..]);
      assert m == w + [' '] + m[|w| + 1..];
    }
    assert multiset(w)[' '] == 0;
    assert |w| == |m| ==> m == w;
  }

  // ---------------------------------------------------------------- phrases

  predicate GoodLength(len: int) { len % 4 == 0 && 16 <= len <= 32 }

  /** The entropy followed by the first byte of its hash. */
  function WithChecksum(sha: Hash, data: seq<byte>): seq<byte>
    requires sha(data) != []
  {
    data + [sha(data)[0]]
  }

  function Phrase(sha: Hash, words: seq<string>, data: seq<byte>): string
    requires |words| == 2048 && sha(data) != [] && GoodLength(|data|)
  {
    Join(WordsOf(words, BytesBits(WithChecksum(sha, data)), |data| * 3 / 4))
  }

  predicate CheckedCount(n: nat) { n == 12 || n == 18 || n == 24 }

  /** The leading bits are the entropy, and the rest, one bit for each three words, starts its hash. */
  predicate ChecksumOk(sha: Hash, bits: seq<bool>, n: nat)
    requires CheckedCount(n) && |bits| == 11 * n && forall x :: |sha(x)| == 32
  {
    var data := Bytes(bits[..n * 32 / 3]);
    bits[n * 32 / 3..] == BytesBits(sha(data)[..1])[..n / 3]
  }

  ghost predicate Accepts(sha: Hash, words: seq<string>, m: string)
    requires Lawful(sha)
  {
    var ws := Split(m);
    CheckedCount(|ws|) && Known(words, ws) && ChecksumOk(sha, AllBits(words, ws), |ws|)
  }

  // ---------------------------------------------------------------- the words, told without bits

  /** The number that bytes stand for, most significant first. */
  function BigEndian(data: seq<byte>): nat {
    if data == [] then 0 else 256 * BigEndian(data[..|data| - 1]) + data[|data| - 1]
  }

  lemma {:induction false} NumberJoin(a: seq<bool>, b: seq<bool>)
    ensures Number(a + b) == Number(a) * Pow2(|b|) + Number(b)
  {
    if b == [] {
      assert a + b == a;
    } else {
      var c := b[..|b| - 1];
      NumberJoin(a, c);
      assert (a + b)[..|a + b| - 1] == a + c;
      Twice(Number(a), Pow2(|c|));
    }
  }

  lemma {:induction false} BytesNumber(data: seq<byte>)
    ensures Number(BytesBits(data)) == BigEndian(data)
  {
    hide Number, BitAt, Pow2;
    if data == [] {
      NoBitsNumber();
      assert BytesBits(data) == [];
    } else {
      var n := |data| - 1;
      BytesNumber(data[..n]);
      BytesBitsJoin(data[..n], data[n..]);
      assert data == data[..n] + data[n..];
      ByteGroup(data[n..], 0);
      assert BytesBits(data[n..])[0..8] == BytesBits(data[n..]);
      PowersOfTwo();
      NumberOfBits(data[n], 8);
      NumberJoin(BytesBits(data[..n]), BytesBits(data[n..]));
    }
  }

  lemma NoBitsNumber()
    ensures Number([]) == 0
  {
  }

  lemma PowersOfTwo()
    ensures Pow2(8) == 256 && Pow2(11) == 2048
  {
  }

  /** Group `i` of eleven bits is what is left of the number when all below is cut off, modulo 2048. */
  lemma GroupIs(bits: seq<bool>, i: nat)
    requires 11 * i + 11 <= |bits|
    ensures GroupAt(bits, i) == Number(bits) / Pow2(|bits| - 11 * i - 11) % 2048
  {
    hide Number, Pow2;
    var a, g, r := bits[..11 * i], bits[11 * i..11 * i + 11], bits[11 * i + 11..];
    assert bits == a + g + r;
    NumberJoin(a + g, r);
    NumberJoin(a, g);
    PowersOfTwo();
    NumberFits(g);
    NumberFits(r);
    ModUnique(Number(bits), Number(a + g), Number(r), Pow2(|r|));
    ModUnique(Number(a + g), Number(a), Number(g), 2048);
  }

  /**
   The i-th word of a phrase, by arithmetic alone: of the entropy and the first byte of its hash, read as one number, the
   eleven bits that have i groups of eleven before them.
   */
  lemma WordIs(sha: Hash, words: seq<string>, data: seq<byte>, i: nat)
    requires Lawful(sha) && GoodList(words) && GoodLength(|data|) && i < |data| * 3 / 4
    ensures var ws := Split(Phrase(sha, words, data));
            |ws| == |data| * 3 / 4
            && ws[i] == words[BigEndian(data + [sha(data)[0]]) / Pow2(8 * |data| + 8 - 11 * i - 11) % 2048]
  {
    hide GroupAt, Split, Pow2, Number, BytesBits, WordsOf;
    var bits := BytesBits(WithChecksum(sha, data));
    BitsLength(WithChecksum(sha, data));
    var n := |data| * 3 / 4;
    WordsAreKnown(words, bits, n);
    PlainWords(words, bits, n);
    SplitOfJoin(WordsOf(words, bits, n));
    BytesNumber(WithChecksum(sha, data));
    GroupIs(bits, i);
    WordAt(words, bits, n, i);
  }

  lemma PlainWords(words: seq<string>, bits: seq<bool>, n: nat)
    requires GoodList(words) && 11 * n <= |bits|
    ensures forall i :: 0 <= i < n ==> ' ' !in WordsOf(words, bits, n)[i]
  {
    hide GroupAt;
    forall i | 0 <= i < n ensures ' ' !in WordsOf(words, bits, n)[i] {
      assert WordsOf(words, bits, n)[i] == words[GroupAt(bits, i)];
    }
  }

  lemma WordAt(words: seq<string>, bits: seq<bool>, n: nat, i: nat)
    requires |words| == 2048 && 11 * n <= |bits| && i < n
    ensures WordsOf(words, bits, n)[i] == words[GroupAt(bits, i)]
  {
  }

  /** The words of a phrase hold the entropy and the start of its hash, four bits for each sixteen bytes. */
  lemma PhraseHoldsEntropy(sha: Hash, words: seq<string>, data: seq<byte>)
    requires Lawful(sha) && GoodList(words) && GoodLength(|data|)
    ensures var ws := Split(Phrase(sha, words, data));
            |ws| == |data| * 3 / 4 && Known(words, ws)
            && AllBits(words, ws) == BytesBits(data) + BytesBits(sha(data)[..1])[..|data| / 4]
  {
    hide BytesBits, Split, AllBits;
    var n, sum := |data| * 3 / 4, sha(data)[..1];
    assert WithChecksum(sha, data) == data + sum;
    BytesBitsJoin(data, sum);
    BitsLength(data);
    BitsLength(sum);
    var bits := BytesBits(data) + BytesBits(sum);
    var ws := WordsOf(words, bits, n);
    WordsGiveBits(words, bits, n);
    forall i | 0 <= i < |ws| ensures ' ' !in ws[i] {
      assert ws[i] == words[GroupAt(bits, i)];
    }
    SplitOfJoin(ws);
    assert bits[..11 * n] == BytesBits(data) + BytesBits(sum)[..|data| / 4];
  }

  lemma BitsLength(data: seq<byte>)
    ensures |BytesBits(data)| == 8 * |data|
  {
  }

  /** A phrase made from entropy passes exactly for 16, 24 and 32 bytes; 20 and 28 are made but never pass. */
  lemma MadeIsAcceptedIff(sha: Hash, words: seq<string>, data: seq<byte>)
    requires Lawful(sha) && GoodList(words) && GoodLength(|data|)
    ensures Accepts(sha, words, Phrase(sha, words, data)) <==> |data| == 16 || |data| == 24 || |data| == 32
  {
    hide BytesBits, Split, AllBits, Bytes, Phrase;
    PhraseHoldsEntropy(sha, words, data);
    if |data| == 16 || |data| == 24 || |data| == 32 {
      var ws := Split(Phrase(sha, words, data));
      var bits := AllBits(words, ws);
      BitsLength(data);
      BitsLength(sha(data)[..1]);
      assert bits[..|ws| * 32 / 3] == BytesBits(data);
      BytesOfBits(data);
      assert bits[|ws| * 32 / 3..] == BytesBits(sha(data)[..1])[..|data| / 4];
    }
  }

  /** What passes was made from the entropy that its words hold. */
  lemma AcceptedIsMade(sha: Hash, words: seq<string>, m: string)
    requires Lawful(sha) && GoodList(words) && Accepts(sha, words, m)
    ensures var ws := Split(m);
            var data := Bytes(AllBits(words, ws)[..|ws| * 32 / 3]);
            |data| * 3 == |ws| * 4 && GoodLength(|data|) && m == Phrase(sha, words, data)
  {
    hide BytesBits, Split, AllBits, Bytes, WordsOf;
    var ws := Split(m);
    var n, bits := |ws|, AllBits(words, ws);
    var head := bits[..n * 32 / 3];
    var data := Bytes(head);
    BytesLength(head);
    BitsOfBytes(head);
    var sum := sha(data)[..1];
    BitsLength(sum);
    BytesBitsJoin(data, sum);
    assert WithChecksum(sha, data) == data + sum;
    var all := BytesBits(data) + BytesBits(sum);
    assert bits == head + bits[n * 32 / 3..];
    assert all[..11 * n] == bits[..11 * n];
    SamePicks(words, all, bits, n);
    BitsGiveWords(words, ws);
    JoinOfSplit(m);
  }

  lemma BytesLength(bits: seq<bool>)
    requires |bits| % 8 == 0
    ensures |Bytes(bits)| == |bits| / 8
  {
  }

  /** Different entropy gives different phrases. */
  lemma PhraseDetermines(sha: Hash, words: seq<string>, a: seq<byte>, b: seq<byte>)
    requires Lawful(sha) && GoodList(words) && GoodLength(|a|) && GoodLength(|b|)
    requires Phrase(sha, words, a) == Phrase(sha, words, b)
    ensures a == b
  {
    hide BytesBits, Split, AllBits, Bytes, Phrase;
    PhraseHoldsEntropy(sha, words, a);
    PhraseHoldsEntropy(sha, words, b);
    BitsLength(a);
    BitsLength(b);
    var bits := AllBits(words, Split(Phrase(sha, words, a)));
    assert bits[..8 * |a|] == BytesBits(a);
    assert bits[..8 * |b|] == BytesBits(b);
    BytesOfBits(a);
    BytesOfBits(b);
  }

  /** The accepted strings are the phrases of 16, 24 and 32 bytes of entropy, and nothing else. */
  lemma AcceptedIff(sha: Hash, words: seq<string>, m: string)
    requires Lawful(sha) && GoodList(words)
    ensures Accepts(sha, words, m)
            <==> exists data: seq<byte> :: (|data| == 16 || |data| == 24 || |data| == 32) && m == Phrase(sha, words, data)
  {
    if Accepts(sha, words, m) {
      AcceptedIsMade(sha, words, m);
    }
    forall data: seq<byte> | (|data| == 16 || |data| == 24 || |data| == 32) && m == Phrase(sha, words, data)
      ensures Accepts(sha, words, m)
    {
      MadeIsAcceptedIff(sha, words, data);
    }
  }

  // ---------------------------------------------------------------- making a phrase

  method FromData(sha: Hash, words: seq<string>, data: seq<byte>, len: int) returns (mnemonic: string)
    requires Lawful(sha) && |words| == 2048
    requires GoodLength(len) ==> len <= |data|
    ensures mnemonic == if GoodLength(len) then Phrase(sha, words, data[..len]) else ""
  {
    hide BytesBits, GroupAt;
    if len % 4 != 0 || len < 16 || len > 32 {
      return "";
    }
    var checksum := sha(data[..len]);
    var bits := data[..len] + [checksum[0]];
    var mlen := len * 3 / 4;
    BitsLength(bits);
    ghost var ws := WordsOf(words, BytesBits(bits), mlen);
    mnemonic := "";
    for i := 0 to mlen
      invariant mnemonic == Join(ws[..i]) + if 0 < i < mlen then " " else ""
    {
      var idx := ReadGroup(bits, i);
      assert ws[..i + 1] == ws[..i] + [words[idx]];
      if i > 0 {
        JoinMore(ws[..i], words[idx]);
      }
      mnemonic := mnemonic + words[idx];
      if i < mlen - 1 {
        mnemonic := mnemonic + " ";
      }
    }
    assert ws[..mlen] == ws;
  }

  lemma GroupBit(data: seq<byte>, i: nat, j: nat)
    requires 11 * i + 11 <= 8 * |data| && j < 11
    ensures |BytesBits(data)| == 8 * |data| && BytesBits(data)[11 * i..11 * i + 11][j] == BitAt(data, i * 11 + j)
  {
    hide Bit;
    assert BytesBits(data)[11 * i + j] == BitAt(data, 11 * i + j);
  }

  lemma NumberNext(group: seq<bool>, j: nat)
    requires j < |group|
    ensures Number(group[..j + 1]) == 2 * Number(group[..j]) + if group[j] then 1 else 0
  {
    assert group[..j + 1][..j] == group[..j];
  }

  lemma NumberEmpty(group: seq<bool>)
    ensures Number(group[..0]) == 0
  {
  }

  method ReadGroup(bits: seq<byte>, i: nat) returns (idx: nat)
    requires 11 * i + 11 <= 8 * |bits|
    ensures idx == GroupAt(BytesBits(bits), i) < 2048
  {
    hide BytesBits, Bit, Number;
    GroupBit(bits, i, 0);
    ghost var group := BytesBits(bits)[11 * i..11 * i + 11];
    idx := 0;
    NumberEmpty(group);
    for j := 0 to 11
      invariant idx == Number(group[..j])
    {
      GroupBit(bits, i, j);
      NumberNext(group, j);
      idx := 2 * idx;
      if Bit(bits[(i * 11 + j) / 8], 7 - (i * 11 + j) % 8) {
        idx := idx + 1;
      }
    }
    assert group[..11] == group;
    NumberFits(group);
    assert Pow2(11) == 2048;
  }

  /** Phrases of every allowed strength are made, but those of 160 and 224 bits are not accepted. */
  method Generate(sha: Hash, words: seq<string>, strength: int, random: seq<byte>) returns (mnemonic: string)
    requires Lawful(sha) && GoodList(words) && |random| == 32
    ensures mnemonic != "" <==> strength % 32 == 0 && 128 <= strength <= 256
    ensures Accepts(sha, words, mnemonic) <==> strength == 128 || strength == 192 || strength == 256
    ensures mnemonic != "" ==> mnemonic == Phrase(sha, words, random[..strength / 8])
  {
    hide Split, Phrase, AllBits, BytesBits, ChecksumOk;
    SplitOfNothing();
    if strength % 32 != 0 || strength < 128 || strength > 256 {
      return "";
    }
    mnemonic := FromData(sha, words, random, strength / 8);
    MadeIsAcceptedIff(sha, words, random[..strength / 8]);
    PhraseHoldsEntropy(sha, words, random[..strength / 8]);
  }

  lemma SplitOfNothing()
    ensures Split("") == [""]
  {
  }

  // ---------------------------------------------------------------- checking a phrase

  method CountWords(mnemonic: string) returns (n: nat)
    ensures n == |Split(mnemonic)|
  {
    n := 0;
    for i := 0 to |mnemonic|
      invariant n == multiset(mnemonic[..i])[' ']
    {
      assert mnemonic[..i + 1] == mnemonic[..i] + [mnemonic[i]];
      if mnemonic[i] == ' ' {
        n := n + 1;
      }
    }
    assert mnemonic[..|mnemonic|] == mnemonic;
    n := n + 1;
    SplitCounts(mnemonic);
  }

  /** The first word goes on up to a space. */
  lemma NotAtEnd(m: string, k: nat)
    requires k < |m| && m[k] != ' ' && k <= |FirstWord(m)|
    ensures k < |FirstWord(m)| && FirstWord(m)[k] == m[k]
  {
    hide FirstWord;
  }

  /** The word that starts at i, unless it has more than nine letters. */
  method ReadWord(mnemonic: string, i: nat) returns (ok: bool, word: string)
    requires i <= |mnemonic|
    ensures ok <==> |FirstWord(mnemonic[i..])| <= 9
    ensures ok ==> word == FirstWord(mnemonic[i..])
  {
    hide FirstWord;
    ghost var first := FirstWord(mnemonic[i..]);
    word := "";
    while i + |word| < |mnemonic| && mnemonic[i + |word|] != ' '
      invariant word <= first && |word| <= 9
      decreases |mnemonic| - |word|
    {
      NotAtEnd(mnemonic[i..], |word|);
      if |word| >= 9 {
        return false, word;
      }
      word := word + [mnemonic[i + |word|]];
    }
    ok := true;
  }

  method FindWord(words: seq<string>, word: string) returns (found: bool, nWordIndex: nat)
    requires GoodList(words)
    ensures found <==> word in words
    ensures found ==> nWordIndex == IndexOf(words, word)
  {
    nWordIndex := 0;
    while nWordIndex < |words|
      invariant nWordIndex <= |words|
      invariant forall k :: 0 <= k < nWordIndex ==> words[k] != word
    {
      if word == words[nWordIndex] {
        return true, nWordIndex;
      }
      nWordIndex := nWordIndex + 1;
    }
    found := false;
  }

  /** The bits read so far, and then zeros. */
  ghost predicate Filled(data: seq<byte>, acc: seq<bool>) {
    |acc| <= 8 * |data| && forall p :: 0 <= p < 8 * |data| ==> (BitAt(data, p) <==> p < |acc| && acc[p])
  }

  /** bits[n / 8] |= 1 << (7 - n % 8) */
  method PutBit(bits: array<byte>, n: nat)
    requires n < 8 * bits.Length
    modifies bits
    ensures forall p: nat :: p < 8 * bits.Length ==> (BitAt(bits[..], p) <==> BitAt(old(bits[..]), p) || p == n)
  {
    hide Or, Pow2, Shr;
    var j, k := n / 8, 7 - n % 8;
    ghost var was := bits[..];
    ByteOr(bits[j], k);
    bits[j] := Or(bits[j], Shl(1, k));
    forall p: nat | p < 8 * bits.Length ensures BitAt(bits[..], p) <==> BitAt(was, p) || p == n {
      OrBit(was[j], Shl(1, k), 7 - p % 8);
      PowBit(k, 7 - p % 8);
    }
  }

  method PutWord(bits: array<byte>, nBitsCount: nat, nWordIndex: nat, ghost acc: seq<bool>)
    requires Filled(bits[..], acc) && nBitsCount == |acc| && |acc| + 11 <= 8 * bits.Length
    modifies bits
    ensures Filled(bits[..], acc + BitsOf(nWordIndex, 11))
  {
    hide BitAt;
    ghost var word := BitsOf(nWordIndex, 11);
    for ki := 0 to 11
      invariant Filled(bits[..], acc + word[..ki])
    {
      if Bit(nWordIndex, 10 - ki) {
        PutBit(bits, nBitsCount + ki);
      }
      assert word[..ki + 1] == word[..ki] + [word[ki]];
    }
    assert word[..11] == word;
  }

  /** The mask keeps the first c bits of a byte. */
  predicate Keeps(mask: nat, c: nat) { forall k: nat :: k < 8 ==> (Bit(mask, k) <==> 8 <= k + c) }

  predicate SameHighBits(x: byte, y: byte, c: nat) { forall k: nat :: k < 8 && 7 - k < c ==> Bit(x, k) == Bit(y, k) }

  lemma MaskedBit(x: byte, mask: nat, c: nat, k: nat)
    requires Keeps(mask, c) && k < 8
    ensures Bit(And(x, mask), k) <==> Bit(x, k) && 7 - k < c
    ensures And(x, mask) < 256
  {
    hide Bit, And;
    AndBit(x, mask, k);
    AndAtMost(x, mask);
  }

  lemma MaskedSame(x: byte, y: byte, mask: nat, c: nat)
    requires Keeps(mask, c)
    ensures And(x, mask) == And(y, mask) <==> SameHighBits(x, y, c)
  {
    hide Bit, And, Keeps;
    forall k: nat | k < 8
      ensures Bit(And(x, mask), k) <==> Bit(x, k) && 7 - k < c
      ensures Bit(And(y, mask), k) <==> Bit(y, k) && 7 - k < c
    {
      MaskedBit(x, mask, c, k);
      MaskedBit(y, mask, c, k);
    }
    MaskedBit(x, mask, c, 0);
    MaskedBit(y, mask, c, 0);
    assert Pow2(8) == 256;
    if SameHighBits(x, y, c) {
      BitsDetermine(And(x, mask), And(y, mask), 8);
    }
  }

  lemma FirstBitsSame(x: byte, y: byte, c: nat)
    requires c <= 8
    ensures BytesBits([x])[..c] == BytesBits([y])[..c] <==> SameHighBits(x, y, c)
  {
    hide Bit;
    var a, b := BytesBits([x]), BytesBits([y]);
    forall p | 0 <= p < 8
      ensures a[p] == Bit(x, 7 - p) && b[p] == Bit(y, 7 - p)
    {
    }
    if a[..c] == b[..c] {
      forall k: nat | k < 8 && 7 - k < c ensures Bit(x, k) == Bit(y, k) {
        assert a[..c][7 - k] == b[..c][7 - k];
      }
    }
    if SameHighBits(x, y, c) {
      forall p | 0 <= p < c ensures a[p] == b[p] {
        assert Bit(x, 7 - p) == Bit(y, 7 - p);
      }
    }
  }

  lemma MaskedAlike(x: byte, y: byte, mask: nat, c: nat)
    requires Keeps(mask, c) && c <= 8
    ensures And(x, mask) == And(y, mask) <==> BytesBits([x])[..c] == BytesBits([y])[..c]
  {
    hide SameHighBits, Keeps, BytesBits, And;
    BitsLength([x]);
    BitsLength([y]);
    MaskedSame(x, y, mask, c);
    FirstBitsSame(x, y, c);
  }

  lemma Masks()
    ensures Keeps(0xF0, 4) && Keeps(0xFC, 6)
  {
    forall k: nat | k < 8
      ensures Bit(0xF0, k) <==> 8 <= k + 4
      ensures Bit(0xFC, k) <==> 8 <= k + 6
    {
      HighFour(k);
      HighSix(k);
    }
  }

  lemma HighFour(k: nat)
    requires k < 8
    ensures Bit(0xF0, k) <==> 4 <= k
  {
    assert Shr(0xF0, 1) == 0x78 && Shr(0xF0, 2) == 0x3C && Shr(0xF0, 3) == 0x1E;
    assert Shr(0xF, 1) == 7 && Shr(0xF, 2) == 3 && Shr(0xF, 3) == 1;
    assert Shr(0xF0, 4) == Shr(0xF, 0) && Shr(0xF0, 5) == Shr(0xF, 1) && Shr(0xF0, 6) == Shr(0xF, 2) && Shr(0xF0, 7) == Shr(0xF, 3);
  }

  lemma HighSix(k: nat)
    requires k < 8
    ensures Bit(0xFC, k) <==> 2 <= k
  {
    assert Shr(0xFC, 1) == 0x7E && Shr(0xFC, 2) == 0x3F && Shr(0xFC, 3) == 0x1F;
    assert Shr(0xF, 1) == 7 && Shr(0xF, 2) == 3 && Shr(0xF, 3) == 1;
    assert Shr(0xFC, 4) == Shr(0xF, 0) && Shr(0xFC, 5) == Shr(0xF, 1) && Shr(0xFC, 6) == Shr(0xF, 2) && Shr(0xFC, 7) == Shr(0xF, 3);
  }

  method SameChecksum(nWordCount: nat, x: byte, y: byte) returns (fResult: bool)
    requires CheckedCount(nWordCount)
    ensures fResult <==> BytesBits([x])[..nWordCount / 3] == BytesBits([y])[..nWordCount / 3]
  {
    hide BytesBits, Keeps, And;
    Masks();
    BitsLength([x]);
    BitsLength([y]);
    fResult := false;
    if nWordCount == 12 {
      MaskedAlike(x, y, 0xF0, 4);
      fResult := And(x, 0xF0) == And(y, 0xF0);
    } else if nWordCount == 18 {
      MaskedAlike(x, y, 0xFC, 6);
      fResult := And(x, 0xFC) == And(y, 0xFC);
    } else if nWordCount == 24 {
      WholeByte(x, y);
      fResult := x == y;
    }
  }

  lemma WholeByte(x: byte, y: byte)
    ensures |BytesBits([x])| == 8 == |BytesBits([y])| && (x == y <==> BytesBits([x])[..8] == BytesBits([y])[..8])
  {
    hide BytesBits;
    BitsLength([x]);
    BitsLength([y]);
    BytesOfBits([x]);
    BytesOfBits([y]);
    assert BytesBits([x])[..8] == BytesBits([x]) && BytesBits([y])[..8] == BytesBits([y]);
    assert [x][0] == x && [y][0] == y;
  }

  method Check(sha: Hash, words: seq<string>, mnemonic: string) returns (fResult: bool)
    requires Lawful(sha) && GoodList(words)
    ensures fResult <==> Accepts(sha, words, mnemonic)
  {
    hide GoodList, BytesBits, Bytes, AllBits, Filled, Split;
    if mnemonic == "" {
      SplitOfNothing();
      return false;
    }
    var nWordCount := CountWords(mnemonic);
    if nWordCount != 12 && nWordCount != 18 && nWordCount != 24 {
      return false;
    }
    var ok, bits, nBitsCount := ReadWords(words, mnemonic, nWordCount);
    if !ok || nBitsCount != nWordCount * 11 {
      return false;
    }
    fResult := CheckBits(sha, bits, nWordCount, AllBits(words, Split(mnemonic)));
  }

  /** What is left of the phrase at position i, or nothing when the last word ended it. */
  ghost function Left(m: string, i: nat): seq<string>
    requires i <= |m| + 1
  {
    if i <= |m| then Split(m[i..]) else []
  }

  /** One round of the loop over the words. */
  method TakeWord(words: seq<string>, mnemonic: string, i: nat, bits: array<byte>, nBitsCount: nat, ghost acc: seq<bool>)
    returns (ok: bool, next: nat)
    requires GoodList(words) && i < |mnemonic|
    requires Filled(bits[..], acc) && nBitsCount == |acc| && |acc| + 11 <= 8 * bits.Length
    modifies bits
    ensures ok <==> FirstWord(mnemonic[i..]) in words
    ensures ok ==> next == i + |FirstWord(mnemonic[i..])| + 1
    ensures ok ==> Filled(bits[..], acc + BitsOf(IndexOf(words, FirstWord(mnemonic[i..])), 11))
  {
    hide GoodList, Filled;
    next := i;
    var short, word := ReadWord(mnemonic, i);
    if !short {
      LongIsUnknown(words, FirstWord(mnemonic[i..]));
      return false, i;
    }
    next := i + |word|;
    var found, nWordIndex := FindWord(words, word);
    if !found {
      return false, i;
    }
    PutWord(bits, nBitsCount, nWordIndex, acc);
    next := next + 1;
    ok := true;
  }

  method ReadWords(words: seq<string>, mnemonic: string, nWordCount: nat)
    returns (ok: bool, bits: array<byte>, nBitsCount: nat)
    requires GoodList(words) && nWordCount == |Split(mnemonic)| <= 24
    ensures fresh(bits) && bits.Length == 33
    ensures ok && nBitsCount == nWordCount * 11 <==> Known(words, Split(mnemonic))
    ensures Known(words, Split(mnemonic)) ==> Filled(bits[..], AllBits(words, Split(mnemonic)))
  {
    hide GoodList, Filled, AllBits, Split, BitsOf, IndexOf, FirstWord, Left, Known;
    bits := new byte[33](i => 0);
    NothingFilled(bits[..]);
    LeftEnds(mnemonic);
    NoneKnown(words);
    nBitsCount := 0;
    var i := 0;
    ghost var read: seq<string> := [];
    assert [] + Split(mnemonic) == Split(mnemonic);
    while i < |mnemonic|
      invariant i <= |mnemonic| + 1
      invariant Split(mnemonic) == read + Left(mnemonic, i)
      invariant Known(words, read) && nBitsCount == 11 * |read| && Filled(bits[..], AllBits(words, read))
    {
      LeftStep(mnemonic, i);
      ghost var word := FirstWord(mnemonic[i..]);
      ok, i := TakeWord(words, mnemonic, i, bits, nBitsCount, AllBits(words, read));
      if !ok {
        assert Split(mnemonic)[|read|] == word;
        OneUnknown(words, Split(mnemonic), |read|);
        return;
      }
      AllBitsMore(words, read, word);
      nBitsCount := nBitsCount + 11;
      read := read + [word];
    }
    if i == |mnemonic| {
      LongIsUnknown(words, "");
      assert Split(mnemonic)[|read|] == "";
      OneUnknown(words, Split(mnemonic), |read|);
    } else {
      assert Split(mnemonic) == read;
    }
    ok := true;
  }

  lemma LeftStep(m: string, i: nat)
    requires i < |m|
    ensures i + |FirstWord(m[i..])| <= |m|
    ensures Left(m, i) == [FirstWord(m[i..])] + Left(m, i + |FirstWord(m[i..])| + 1)
  {
    var w := FirstWord(m[i..]);
    if i + |w| < |m| {
      assert m[i..][|w| + 1..] == m[i + |w| + 1..];
    }
  }

  lemma LeftEnds(m: string)
    ensures Left(m, 0) == Split(m) && Left(m, |m|) == [""] && Left(m, |m| + 1) == []
  {
    assert m[0..] == m;
  }

  lemma OneUnknown(words: seq<string>, ws: seq<string>, k: nat)
    requires k < |ws| && ws[k] !in words
    ensures !Known(words, ws)
  {
  }

  lemma NoneKnown(words: seq<string>)
    ensures Known(words, [])
  {
  }

  lemma NothingFilled(data: seq<byte>)
    requires forall i :: 0 <= i < |data| ==> data[i] == 0
    ensures Filled(data, AllBits([], []))
  {
    forall p | 0 <= p < 8 * |data| ensures !BitAt(data, p) {
      ShrOfZero(7 - p % 8);
    }
  }

  lemma LongIsUnknown(words: seq<string>, w: string)
    requires GoodList(words) && (|w| > 9 || w == "")
    ensures w !in words
  {
  }

  lemma AllBitsMore(words: seq<string>, ws: seq<string>, w: string)
    requires Known(words, ws) && w in words
    ensures Known(words, ws + [w]) && AllBits(words, ws + [w]) == AllBits(words, ws) + BitsOf(IndexOf(words, w), 11)
  {
    assert (ws + [w])[..|ws|] == ws;
  }

  method CheckBits(sha: Hash, bits: array<byte>, nWordCount: nat, ghost acc: seq<bool>) returns (fResult: bool)
    requires Lawful(sha) && CheckedCount(nWordCount) && |acc| == nWordCount * 11
    requires bits.Length == 33 && Filled(bits[..], acc)
    modifies bits
    ensures fResult <==> ChecksumOk(sha, acc, nWordCount)
  {
    hide BytesBits, Bytes;
    ghost var len, was := nWordCount * 4 / 3, bits[..];
    FilledParts(was, acc, len);
    bits[32] := bits[nWordCount * 4 / 3];
    assert bits[..len] == was[..len];
    var hash := sha(bits[..nWordCount * 4 / 3]);
    forall k | 0 <= k < 32 {
      bits[k] := hash[k];
    }
    fResult := SameChecksum(nWordCount, bits[0], bits[32]);
    assert hash[..1] == [hash[0]];
  }

  lemma FilledParts(data: seq<byte>, acc: seq<bool>, len: nat)
    requires Filled(data, acc) && len < |data| && 8 * len <= |acc| <= 8 * len + 8
    ensures Bytes(acc[..8 * len]) == data[..len]
    ensures acc[8 * len..] == BytesBits([data[len]])[..|acc| - 8 * len]
  {
    assert BytesBits(data[..len]) == acc[..8 * len];
    BytesOfBits(data[..len]);
    forall p | 0 <= p < |acc| - 8 * len ensures acc[8 * len..][p] == BytesBits([data[len]])[p] {
      assert BitAt(data, 8 * len + p) == BitAt([data[len]], p);
    }
  }
}
