/** The numbers, strings and stored coins that the documentation and the tests of the node name, one by one. */
module Vectors {
  import opened Wrappers
  import opened Numbers
  import opened VarInt
  import AmountCodec
  import ScriptCodec
  import Coins
  import CoinsSerial
  import Radix
  import Base58
  import Compact
  import Bits

  // ---------------------------------------------------------------- integers of variable length

  /**
   The table in the description of the format. Two of its lines are wrong: it has 80 FF 7F for 16511 and 82 FD 7F for 65535,
   which are 32895 and 65407.
   */
  lemma VarInts()
    ensures VarIntBytes(0) == [0x00] && VarIntBytes(1) == [0x01] && VarIntBytes(127) == [0x7F]
    ensures VarIntBytes(128) == [0x80, 0x00] && VarIntBytes(255) == [0x80, 0x7F] && VarIntBytes(256) == [0x81, 0x00]
    ensures VarIntBytes(16383) == [0xFE, 0x7F] && VarIntBytes(16384) == [0xFF, 0x00]
    ensures VarIntBytes(16511) == [0xFF, 0x7F] && VarIntBytes(65535) == [0x82, 0xFE, 0x7F]
    ensures VarIntBytes(0x1_0000_0000) == [0x8E, 0xFE, 0xFE, 0xFF, 0x00]
    ensures VarIntBytes(32895) == [0x80, 0xFF, 0x7F] && VarIntBytes(65407) == [0x82, 0xFD, 0x7F]
  {
    hide VarIntBytes;
    OneByte(0);
    OneByte(1);
    OneByte(127);
    TwoBytes(0x80, 0x00);
    TwoBytes(0x80, 0x7F);
    TwoBytes(0x81, 0x00);
    TwoBytes(0xFE, 0x7F);
    TwoBytes(0xFF, 0x00);
    TwoBytes(0xFF, 0x7F);
    ThreeBytes(0x82, 0xFE, 0x7F);
    ThreeBytes(0x80, 0xFF, 0x7F);
    ThreeBytes(0x82, 0xFD, 0x7F);
    TwoToThe32();
  }

  lemma OneByte(x: byte)
    requires x < 128
    ensures VarIntBytes(x) == [x]
  {
  }

  /** One more byte before the last one. */
  lemma Grows(q: nat, x: byte, s: seq<byte>)
    requires x >= 128 && Prefix(q) == s
    ensures Prefix(q * 128 + x - 127) == s + [x]
  {
    hide Flagged, Prefix, VarIntBytes;
    DigitsOf(q, x - 128);
    PrefixOfNext(q * 128 + x - 128);
  }

  lemma Ends(q: nat, x: byte, s: seq<byte>)
    requires x < 128 && Prefix(q) == s
    ensures VarIntBytes(q * 128 + x) == s + [x]
  {
    hide Flagged, Prefix, VarIntBytes;
    DigitsOf(q, x);
  }

  lemma TwoBytes(x: byte, y: byte)
    requires x >= 128 > y
    ensures VarIntBytes((x - 127) * 128 + y) == [x, y]
  {
    hide Flagged, Prefix, VarIntBytes;
    NoPrefix();
    Grows(0, x, []);
    Ends(x - 127, y, [x]);
  }

  lemma ThreeBytes(x: byte, y: byte, z: byte)
    requires x >= 128 && y >= 128 > z
    ensures VarIntBytes(((x - 127) * 128 + y - 127) * 128 + z) == [x, y, z]
  {
    hide Flagged, Prefix, VarIntBytes;
    NoPrefix();
    Grows(0, x, []);
    Grows(x - 127, y, [x]);
    Ends((x - 127) * 128 + y - 127, z, [x, y]);
  }

  lemma TwoToThe32()
    ensures VarIntBytes(4294967296) == [0x8E, 0xFE, 0xFE, 0xFF, 0x00]
  {
    hide Flagged, Prefix, VarIntBytes;
    NoPrefix();
    Grows(0, 0x8E, []);
    Grows(15, 0xFE, [0x8E]);
    Grows(2047, 0xFE, [0x8E, 0xFE]);
    Grows(262143, 0xFF, [0x8E, 0xFE, 0xFE]);
    Ends(33554432, 0x00, [0x8E, 0xFE, 0xFE, 0xFF]);
  }

  lemma FirstAmount()
    ensures VarIntBytes(2114333561) == [0x86, 0xEF, 0x97, 0xD5, 0x79]
  {
    hide Flagged, Prefix, VarIntBytes;
    NoPrefix();
    Grows(0, 0x86, []);
    Grows(7, 0xEF, [0x86]);
    Grows(1008, 0x97, [0x86, 0xEF]);
    Grows(129048, 0xD5, [0x86, 0xEF, 0x97]);
    Ends(16518230, 0x79, [0x86, 0xEF, 0x97, 0xD5]);
  }

  lemma NoPrefix()
    ensures Prefix(0) == []
  {
  }

  // ---------------------------------------------------------------- amounts

  const CENT := 1_000_000
  const COIN := 100_000_000

  /** The pairs of the test of the compressor. */
  lemma Amounts()
    ensures AmountCodec.Compress64(0) == 0 && AmountCodec.Compress64(1) == 1
    ensures AmountCodec.Compress64(CENT) == 0x7 && AmountCodec.Compress64(COIN) == 0x9
    ensures AmountCodec.Compress64(50 * COIN) == 0x32 && AmountCodec.Compress64(21_000_000 * COIN) == 0x1406f40
  {
    hide AmountCodec.Compress, AmountCodec.Pow10;
    PowersOfTen();
    AmountCodec.CompressIs(1, 0);
    AmountCodec.CompressIs(1, 6);
    AmountCodec.CompressIs(1, 8);
    AmountCodec.CompressIs(5, 9);
    AmountCodec.CompressIs(2_100_000, 9);
    NoAmount();
  }

  lemma PowersOfTen()
    ensures AmountCodec.Pow10(0) == 1 && AmountCodec.Pow10(6) == 1_000_000 && AmountCodec.Pow10(8) == 100_000_000
    ensures AmountCodec.Pow10(9) == 1_000_000_000
  {
    assert AmountCodec.Pow10(3) == 1000;
  }

  lemma NoAmount()
    ensures AmountCodec.Compress(0) == 0
  {
  }

  // ---------------------------------------------------------------- stored coins

  /** A script that pays to the hash of a key. */
  function ToKey(hash: seq<byte>): seq<byte> { [0x76, 0xa9, 20] + hash + [0x88, 0xac] }

  function Out(nValue: int, hash: seq<byte>): Coins.TxOut {
    Coins.NULL_OUT.(nValue := nValue, scriptPubKey := ToKey(hash))
  }

  /** The first example in the description of coins: the second output, of height 203998. */
  lemma FirstExample(curve: ScriptCodec.Curve, hash: seq<byte>)
    requires |hash| == 20
    ensures var c := Coins.CCoins(false, [Coins.NULL_OUT, Out(60000000000, hash)], 203998, 1);
            !c.IsPruned() && CoinsSerial.CoinsBytes(curve, c) == [0x01, 0x04, 0x83, 0x58, 0x00] + hash + [0x8b, 0xb8, 0x5e]
  {
    hide VarIntBytes, CoinsSerial.OutBytes;
    var o := Out(60000000000, hash);
    var vout := [Coins.NULL_OUT, o];
    var c := Coins.CCoins(false, vout, 203998, 1);
    assert !vout[1].IsNull();
    assert CoinsSerial.OutsFrom(curve, vout, 2) == [];
    assert CoinsSerial.OutsFrom(curve, vout, 1) == CoinsSerial.OutBytes(curve, o) + CoinsSerial.OutsFrom(curve, vout, 2);
    assert CoinsSerial.OutsFrom(curve, vout, 0) == [] + CoinsSerial.OutsFrom(curve, vout, 1);
    assert CoinsSerial.HeaderCode(c) == 4;
    OneByte(1);
    OneByte(4);
    SixHundred(curve, hash);
    ThreeBytes(0x8b, 0xb8, 0x5e);
  }

  lemma SixHundred(curve: ScriptCodec.Curve, hash: seq<byte>)
    requires |hash| == 20
    ensures CoinsSerial.OutBytes(curve, Out(60000000000, hash)) == [0x83, 0x58, 0x00] + hash
  {
    hide VarIntBytes, AmountCodec.Compress, AmountCodec.Pow10;
    PowersOfTen();
    AmountCodec.CompressIs(60, 9);
    TwoBytes(0x83, 0x58);
    ToKeyBytes(curve, hash);
  }

  lemma ToKeyBytes(curve: ScriptCodec.Curve, hash: seq<byte>)
    requires |hash| == 20
    ensures ScriptCodec.ScriptBytes(curve, ToKey(hash)) == [0x00] + hash
  {
    hide ScriptCodec.Shortened;
    ScriptCodec.ShortForms(curve, hash, seq(32, _ => 0), seq(32, _ => 0));
  }

  /** Seventeen outputs, of which two are not spent. */
  function Seventeen(o4: Coins.TxOut, o16: Coins.TxOut): (vout: seq<Coins.TxOut>)
    ensures |vout| == 17 && vout[4] == o4 && vout[16] == o16
    ensures forall i :: 0 <= i < 17 && i != 4 && i != 16 ==> vout[i] == Coins.NULL_OUT
  {
    seq(17, i => Coins.NULL_OUT)[4 := o4][16 := o16]
  }

  /** The second example: outputs 4 and 16 of a coinbase of height 120891. */
  lemma SecondExample(curve: ScriptCodec.Curve, h4: seq<byte>, h16: seq<byte>)
    requires |h4| == 20 == |h16|
    ensures var c := Coins.CCoins(true, Seventeen(Out(234925952, h4), Out(110397, h16)), 120891, 1);
            !c.IsPruned() && CoinsSerial.CoinsBytes(curve, c)
                             == [0x01, 0x09, 0x04, 0x40] + [0x86, 0xef, 0x97, 0xd5, 0x79, 0x00] + h4
                                + [0xbb, 0xd1, 0x23, 0x00] + h16 + [0x86, 0xaf, 0x3b]
  {
    hide VarIntBytes, CoinsSerial.OutBytes, CoinsSerial.MaskByte, CoinsSerial.OutsFrom;
    var o4, o16 := Out(234925952, h4), Out(110397, h16);
    var c := Coins.CCoins(true, Seventeen(o4, o16), 120891, 1);
    assert !c.vout[4].IsNull();
    SeventeenMasked(o4, o16);
    assert CoinsSerial.HeaderCode(c) == 9;
    OneByte(1);
    OneByte(9);
    SeventeenWritten(curve, o4, o16);
    TwoAmounts(curve, h4, h16);
    ThreeBytes(0x86, 0xaf, 0x3b);
  }

  lemma SeventeenMasked(o4: Coins.TxOut, o16: Coins.TxOut)
    requires !o4.IsNull() && !o16.IsNull()
    ensures var vout := Seventeen(o4, o16);
            && CoinsSerial.MaskSize(vout) == 2 && CoinsSerial.MaskCode(vout) == 2 && CoinsSerial.Mask(vout, 2) == [0x04, 0x40]
            && !CoinsSerial.Available(vout, 0) && !CoinsSerial.Available(vout, 1)
  {
    hide CoinsSerial.MaskByte, CoinsSerial.Available;
    var vout := Seventeen(o4, o16);
    SeventeenAvailable(o4, o16);
    OneBit(vout, 0, 2);
    OneBit(vout, 1, 6);
    assert CoinsSerial.NonZero(vout, 1) == 1;
    assert CoinsSerial.Mask(vout, 1) == [0x04];
  }

  lemma SeventeenAvailable(o4: Coins.TxOut, o16: Coins.TxOut)
    requires !o4.IsNull() && !o16.IsNull()
    ensures forall i: nat :: CoinsSerial.Available(Seventeen(o4, o16), i) <==> i == 4 || i == 16
  {
  }

  lemma OneBit(vout: seq<Coins.TxOut>, b: nat, p: nat)
    requires p < 8 && forall i: nat :: i < 8 ==> (CoinsSerial.InMask(vout, b, i) <==> i == p)
    ensures CoinsSerial.MaskByte(vout, b) == Bits.Pow2(p) && Bits.Pow2(2) == 4 && Bits.Pow2(6) == 64
  {
    hide CoinsSerial.Available, CoinsSerial.MaskBits;
    BitsUpTo(vout, b, p, 8);
    assert Bits.Pow2(4) == 16;
  }

  lemma {:induction false} BitsUpTo(vout: seq<Coins.TxOut>, b: nat, p: nat, n: nat)
    requires n <= 8 && forall i: nat :: i < n ==> (CoinsSerial.InMask(vout, b, i) <==> i == p)
    ensures CoinsSerial.MaskBits(vout, b, n) == if p < n then Bits.Pow2(p) else 0
  {
    hide CoinsSerial.Available, Bits.Pow2;
    if n > 0 {
      BitsUpTo(vout, b, p, n - 1);
      assert CoinsSerial.InMask(vout, b, n - 1) <==> n - 1 == p;
    }
  }

  lemma {:induction false} NothingBetween(curve: ScriptCodec.Curve, vout: seq<Coins.TxOut>, i: nat, j: nat)
    requires i <= j <= |vout| && forall k :: i <= k < j ==> vout[k].IsNull()
    ensures CoinsSerial.OutsFrom(curve, vout, i) == CoinsSerial.OutsFrom(curve, vout, j)
    decreases j - i
  {
    if i < j {
      NothingBetween(curve, vout, i + 1, j);
      assert [] + CoinsSerial.OutsFrom(curve, vout, i + 1) == CoinsSerial.OutsFrom(curve, vout, i + 1);
    }
  }

  lemma SeventeenWritten(curve: ScriptCodec.Curve, o4: Coins.TxOut, o16: Coins.TxOut)
    requires !o4.IsNull() && !o16.IsNull()
    ensures CoinsSerial.OutsFrom(curve, Seventeen(o4, o16), 0)
            == CoinsSerial.OutBytes(curve, o4) + CoinsSerial.OutBytes(curve, o16)
  {
    hide CoinsSerial.OutBytes;
    var vout := Seventeen(o4, o16);
    NothingBetween(curve, vout, 0, 4);
    NothingBetween(curve, vout, 5, 16);
    assert CoinsSerial.OutsFrom(curve, vout, 17) == [];
    assert CoinsSerial.OutsFrom(curve, vout, 16) == CoinsSerial.OutBytes(curve, o16) + CoinsSerial.OutsFrom(curve, vout, 17);
  }

  lemma TwoAmounts(curve: ScriptCodec.Curve, h4: seq<byte>, h16: seq<byte>)
    requires |h4| == 20 == |h16|
    ensures CoinsSerial.OutBytes(curve, Out(234925952, h4)) == [0x86, 0xef, 0x97, 0xd5, 0x79, 0x00] + h4
    ensures CoinsSerial.OutBytes(curve, Out(110397, h16)) == [0xbb, 0xd1, 0x23, 0x00] + h16
  {
    hide VarIntBytes, AmountCodec.Compress, AmountCodec.Pow10;
    PowersOfTen();
    AmountCodec.CompressIs(234925952, 0);
    AmountCodec.CompressIs(110397, 0);
    FirstAmount();
    ThreeBytes(0xbb, 0xd1, 0x23);
    ToKeyBytes(curve, h4);
    ToKeyBytes(curve, h16);
  }

  // ---------------------------------------------------------------- Base58

  /** Strings of the test of Base58. */
  lemma Strings()
    ensures Base58.Encoded([]) == "" && Base58.Encoded([0x61]) == "2g"
  {
    hide Base58.Encoded, Base58.Letter;
    SomeLetters();
    OneString([], [], "", [0], [0]);
    OneString([0x61], [1, 39], "2g", [0, 97], [0, 1, 97]);
  }

  lemma ThreeByteStrings()
    ensures Base58.Encoded([0x62, 0x62, 0x62]) == "a3gV" && Base58.Encoded([0x63, 0x63, 0x63]) == "aPEr"
  {
    hide Base58.Encoded, Base58.Letter;
    SomeLetters();
    OneString([0x62, 0x62, 0x62], [33, 2, 39, 28], "a3gV", [0, 98, 25186, 6447714], [0, 33, 1916, 111167, 6447714]);
    OneString([0x63, 0x63, 0x63], [33, 22, 13, 49], "aPEr", [0, 99, 25443, 6513507], [0, 33, 1936, 112301, 6513507]);
  }

  lemma SomeLetters()
    ensures Base58.Letter(1) == '2' && Base58.Letter(39) == 'g' && Base58.Letter(33) == 'a' && Base58.Letter(2) == '3'
    ensures Base58.Letter(28) == 'V' && Base58.Letter(22) == 'P' && Base58.Letter(13) == 'E' && Base58.Letter(49) == 'r'
  {
  }

  lemma LongerStrings()
    ensures Base58.Encoded([0x10, 0xc8, 0x51, 0x1e]) == "Rt5zm" && Base58.Encoded([0, 0, 0, 0, 0, 0, 0, 0, 0, 0]) == "1111111111"
  {
    hide Base58.Encoded, Base58.Letter;
    MoreLetters();
    OneString([0x10, 0xc8, 0x51, 0x1e], [24, 51, 4, 57, 44], "Rt5zm", [0, 16, 4296, 1099857, 281563422],
              [0, 24, 1443, 83698, 4854541, 281563422]);
    ZerosAreOnes(10);
    assert Radix.Zeros(10) == [0, 0, 0, 0, 0, 0, 0, 0, 0, 0] && Base58.Ones(10) == "1111111111";
  }

  lemma MoreLetters()
    ensures Base58.Letter(24) == 'R' && Base58.Letter(51) == 't' && Base58.Letter(4) == '5' && Base58.Letter(57) == 'z' && Base58.Letter(44) == 'm'
  {
  }

  lemma ZerosAreOnes(n: nat)
    ensures Base58.Encoded(Radix.Zeros(n)) == Base58.Ones(n)
  {
    Radix.LeadingZerosAre(n, []);
    assert Radix.Zeros(n) + [] == Radix.Zeros(n) && Radix.Zeros(n)[n..] == [];
  }

  /** The numbers that the beginnings of a sequence of digits stand for. */
  predicate Beginnings(b: nat, d: seq<byte>, n: seq<nat>) {
    |n| == |d| + 1 && n[0] == 0 && forall k :: 0 <= k < |d| ==> n[k + 1] == n[k] * b + d[k]
  }

  lemma {:induction false} NumIs(b: nat, d: seq<byte>, n: seq<nat>)
    requires Beginnings(b, d, n)
    ensures Radix.Num(b, d) == n[|d|]
  {
    if d != [] {
      NumIs(b, d[..|d| - 1], n[..|d|]);
    }
  }

  /** Bytes and digits stand for one number, and the digits are these letters. */
  lemma OneString(v: seq<byte>, d: seq<byte>, s: string, n: seq<nat>, m: seq<nat>)
    requires (v != [] ==> v[0] != 0) && (d != [] ==> 0 < d[0]) && Radix.InBase(58, d)
    requires Beginnings(256, v, n) && Beginnings(58, d, m) && n[|v|] == m[|d|]
    requires |s| == |d| && forall i :: 0 <= i < |d| ==> Base58.Letter(d[i]) == s[i]
    ensures Base58.Encoded(v) == s
  {
    NumIs(256, v, n);
    NumIs(58, d, m);
    Radix.DigitsOfNum(58, d);
    assert v[0..] == v;
  }

  // ---------------------------------------------------------------- compact numbers

  /** Compact values of the test of 256-bit numbers: those that stand for zero, */
  lemma CompactZeros()
    ensures Compact.Magnitude(0x00123456) == 0 && Compact.Magnitude(0x01003456) == 0 && Compact.Magnitude(0x02000056) == 0
    ensures Compact.Magnitude(0x03000000) == 0 && Compact.Magnitude(0x04000000) == 0
    ensures Compact.Magnitude(0x00923456) == 0 && Compact.Magnitude(0x01803456) == 0 && Compact.Magnitude(0x02800056) == 0
    ensures Compact.Magnitude(0x03800000) == 0 && Compact.Magnitude(0x04800000) == 0
  {
    hide Compact.Magnitude, Compact.SignBit, Compact.Pow256;
    FirstPowers();
    Compact.MagnitudeIs(0x00123456);
    Compact.MagnitudeIs(0x01003456);
    Compact.MagnitudeIs(0x02000056);
    Compact.MagnitudeIs(0x03000000);
    Compact.MagnitudeIs(0x04000000);
    Compact.MagnitudeIs(0x00923456);
    Compact.MagnitudeIs(0x01803456);
    Compact.MagnitudeIs(0x02800056);
    Compact.MagnitudeIs(0x03800000);
    Compact.MagnitudeIs(0x04800000);
  }

  /** and others, with their signs. */
  lemma CompactValues()
    ensures Compact.Magnitude(0x01123456) == 0x12 && Compact.Magnitude(0x01fedcba) == 0x7e
    ensures Compact.Magnitude(0x02123456) == 0x1234 && Compact.Magnitude(0x03123456) == 0x123456
    ensures Compact.Magnitude(0x04123456) == 0x12345600 && Compact.Magnitude(0x04923456) == 0x12345600
    ensures Compact.Magnitude(0x05009234) == 0x92340000
    ensures Compact.SignBit(0x01fedcba) && Compact.SignBit(0x04923456) && !Compact.SignBit(0x04123456)
  {
    hide Compact.Magnitude, Compact.SignBit, Compact.Pow256;
    FirstPowers();
    Compact.MagnitudeIs(0x01123456);
    Compact.MagnitudeIs(0x01fedcba);
    Compact.MagnitudeIs(0x02123456);
    Compact.MagnitudeIs(0x03123456);
    Compact.MagnitudeIs(0x04123456);
    Compact.MagnitudeIs(0x04923456);
    Compact.MagnitudeIs(0x05009234);
  }

  /** And what these numbers are compressed to. */
  lemma Compressed()
    ensures Comes(0x12, false, 0x01120000) && Comes(0x80, false, 0x02008000) && Comes(0x7e, true, 0x01fe0000)
    ensures Comes(0x1234, false, 0x02123400) && Comes(0x123456, false, 0x03123456)
    ensures Comes(0x12345600, false, 0x04123456) && Comes(0x12345600, true, 0x04923456)
    ensures Comes(0x92340000, false, 0x05009234)
  {
    hide Comes, Compact.Pow256;
    FirstPowers();
    OneCompact(0x01120000);
    OneCompact(0x02008000);
    OneCompact(0x01fe0000);
    OneCompact(0x02123400);
    OneCompact(0x03123456);
    OneCompact(0x04123456);
    OneCompact(0x04923456);
    OneCompact(0x05009234);
  }

  predicate Comes(x: nat, negative: bool, c: uint32) { x < Bits.Pow2(256) && Compact.Encode(x, negative) == c }

  lemma OneCompact(c: uint32)
    requires Compact.Canonical(c) && c / 0x100_0000 <= 5
    ensures var n, size := c % 0x80_0000, c / 0x100_0000;
            var x := if size >= 3 then n * Compact.Pow256(size - 3) else n / Compact.Pow256(3 - size);
            Comes(x, c % 0x100_0000 >= 0x80_0000, c)
  {
    hide Compact.Magnitude, Compact.SignBit, Compact.Encode, Compact.Canonical, Bits.Pow2;
    Compact.MagnitudeIs(c);
    Small(c);
    Compact.RestoredIff(c);
  }

  lemma Small(c: uint32)
    requires c / 0x100_0000 <= 5
    ensures Compact.Magnitude(c) < Bits.Pow2(256)
  {
    hide Compact.Magnitude, Bits.Pow2, Compact.Pow256;
    Compact.MagnitudeIs(c);
    Compact.BytesOfPow2(32);
    FirstPowers();
    PowersGrow(5, 32);
  }

  lemma FirstPowers()
    ensures Compact.Pow256(0) == 1 && Compact.Pow256(1) == 0x100 && Compact.Pow256(2) == 0x1_0000
    ensures Compact.Pow256(3) == 0x100_0000 && Compact.Pow256(5) == 0x100_0000_0000
  {
    assert Compact.Pow256(4) == 0x1_0000_0000;
  }

  lemma {:induction false} PowersGrow(j: nat, k: nat)
    requires j <= k
    ensures Compact.Pow256(j) <= Compact.Pow256(k)
  {
    if j < k {
      PowersGrow(j, k - 1);
    }
  }
}
