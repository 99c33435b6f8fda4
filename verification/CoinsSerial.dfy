/**
 The stored form of unspent coins: a header, a bit mask of the outputs from the third on whose end is
 found by counting its non-zero bytes, the available outputs and the height.
 */
module CoinsSerial {
  import opened Bits
  import Limbs
  import opened Products
  import opened Coins
  import opened VarInt
  import opened AmountCodec
  import opened ScriptCodec
  import opened Wrappers
  import opened Numbers

  // ---------------------------------------------------------------- one output

  const INT32: int := 0x8000_0000
  const INT64: int := 0x8000_0000_0000_0000

  function AsUnsigned(n: int): (r: uint64)
    ensures (r - n) % LIMIT == 0
  {
    n % LIMIT
  }

  function AsSigned(n: uint64): (r: int)
    ensures Amount(r) && (r - n) % LIMIT == 0
  {
    if n >= INT64 then n - LIMIT else n
  }

  function OutBytes(curve: Curve, o: TxOut): seq<byte> {
    VarIntBytes(Compress64(AsUnsigned(o.nValue))) + ScriptBytes(curve, o.scriptPubKey)
  }

  /** An output from a stream; nRounds is as the constructor left it. */
  function ReadOut(curve: Curve, s: seq<byte>): Option<Read<TxOut>> {
    match ReadUnsigned(s, 8)
    case None => None
    case Some(Read(n, rest)) =>
      match ReadScript(curve, [], rest)
      case None => None
      case Some(Read(script, rest')) =>
        Some(Read(TxOut(AsSigned(Decompress64(n)), script, NULL_OUT.nRounds), rest'))
  }

  /** An amount as it comes back. */
  function Back(n: int): int { AsSigned(Decompress64(Compress64(AsUnsigned(n)))) }

  predicate Amount(n: int) { -INT64 <= n < INT64 }

  /** It is the same exactly if compressing it does not overflow. */
  lemma BackIff(n: int)
    requires Amount(n)
    ensures Back(n) == n <==> Compress(AsUnsigned(n)) < LIMIT
  {
    hide Compress, Decompress;
    RoundTrip64(AsUnsigned(n));
  }

  /** And it is never that of a null output. */
  lemma NotNull(n: int)
    ensures Back(n) != NULL_OUT.nValue
  {
    hide Compress, Decompress;
    NeverAllOnes(Compress64(AsUnsigned(n)));
  }

  /** What is read from the bytes of an output. */
  function Stored(o: TxOut): TxOut { o.(nValue := Back(o.nValue), nRounds := NULL_OUT.nRounds) }

  /** An output within the ranges of its types. */
  predicate Typed(o: TxOut) { Amount(o.nValue) && |o.scriptPubKey| + SPECIAL_SCRIPTS < UINT32 }

  /** An output comes back as it was exactly if its amount compresses without overflow and it has no rounds. */
  lemma StoredIff(o: TxOut)
    requires Typed(o)
    ensures Stored(o) == o <==> Compress(AsUnsigned(o.nValue)) < LIMIT && o.nRounds == NULL_OUT.nRounds
  {
    hide Back, Compress;
    BackIff(o.nValue);
  }

  lemma OutRoundTrip(curve: Curve, o: TxOut, t: seq<byte>)
    requires Lawful(curve) && Typed(o)
    ensures ReadOut(curve, OutBytes(curve, o) + t) == Some(Read(Stored(o), t))
  {
    hide ReadUnsigned, VarIntBytes, ReadScript, ScriptBytes, Compress, Decompress64;
    var x := Compress64(AsUnsigned(o.nValue));
    ReadFitting(x, 8, ScriptBytes(curve, o.scriptPubKey) + t);
    assert OutBytes(curve, o) + t == VarIntBytes(x) + (ScriptBytes(curve, o.scriptPubKey) + t);
    ScriptComesBack(curve, [], o.scriptPubKey, t);
  }

  // ---------------------------------------------------------------- the mask

  predicate Available(vout: seq<TxOut>, i: nat) { i < |vout| && !vout[i].IsNull() }

  /** The first `n` bits of mask byte `b`. */
  function MaskBits(vout: seq<TxOut>, b: nat, n: nat): nat {
    if n == 0 then 0
    else MaskBits(vout, b, n - 1) + if Available(vout, 2 + 8 * b + n - 1) then Pow2(n - 1) else 0
  }

  lemma {:induction false} MaskBitsBound(vout: seq<TxOut>, b: nat, n: nat)
    ensures MaskBits(vout, b, n) < Pow2(n)
  {
    if n > 0 {
      MaskBitsBound(vout, b, n - 1);
    }
  }

  function MaskByte(vout: seq<TxOut>, b: nat): byte {
    MaskBitsBound(vout, b, 8);
    assert Pow2(8) == 256;
    MaskBits(vout, b, 8)
  }

  function Mask(vout: seq<TxOut>, n: nat): (m: seq<byte>)
    ensures |m| == n
  {
    if n == 0 then [] else Mask(vout, n - 1) + [MaskByte(vout, n - 1)]
  }

  /** Bit p of a mask byte says whether that output is available. */
  lemma {:induction false} MaskBit(vout: seq<TxOut>, b: nat, n: nat, p: nat)
    requires p < n
    ensures Bit(MaskBits(vout, b, n), p) <==> Available(vout, 2 + 8 * b + p)
  {
    hide Shr, Available;
    MaskBitsBound(vout, b, n - 1);
    if p < n - 1 {
      MaskBit(vout, b, n - 1, p);
      HigherBit(MaskBits(vout, b, n - 1), n - 1, p);
    } else {
      TopBitOf(MaskBits(vout, b, n - 1), p);
    }
  }

  /** Setting a higher bit does not change a lower one. */
  lemma {:induction false} HigherBit(x: nat, k: nat, p: nat)
    requires p < k
    ensures Bit(x + Pow2(k), p) <==> Bit(x, p)
    decreases p
  {
    if p > 0 {
      HigherBit(x / 2, k - 1, p - 1);
    }
  }

  lemma {:induction false} TopBitOf(x: nat, p: nat)
    requires x < Pow2(p)
    ensures Bit(x + Pow2(p), p) && !Bit(x, p)
    decreases p
  {
    if p > 0 {
      TopBitOf(x / 2, p - 1);
    }
  }

  /** The output that bit `p` of mask byte `b` stands for. */
  predicate InMask(vout: seq<TxOut>, b: nat, p: nat) { Available(vout, 2 + 8 * b + p) }

  lemma {:induction false} MaskBitsZero(vout: seq<TxOut>, b: nat, n: nat)
    ensures MaskBits(vout, b, n) == 0 <==> forall p: nat :: p < n ==> !InMask(vout, b, p)
  {
    hide Available;
    if n > 0 {
      MaskBitsZero(vout, b, n - 1);
      assert InMask(vout, b, n - 1) <==> Available(vout, 2 + 8 * b + n - 1);
    }
  }

  /** How many of the first `n` mask bytes are not zero. */
  function NonZero(vout: seq<TxOut>, n: nat): nat {
    if n == 0 then 0 else NonZero(vout, n - 1) + if MaskByte(vout, n - 1) != 0 then 1 else 0
  }

  /** The number of mask bytes up to the last one, of the first `n`, that is not zero. */
  function LastUsed(vout: seq<TxOut>, n: nat): (l: nat)
    ensures l <= n
  {
    if n == 0 then 0 else if MaskByte(vout, n - 1) != 0 then n else LastUsed(vout, n - 1)
  }

  /** All the mask bytes there could be. */
  function AllBytes(vout: seq<TxOut>): nat { if |vout| <= 2 then 0 else (|vout| + 5) / 8 }

  function MaskSize(vout: seq<TxOut>): nat { LastUsed(vout, AllBytes(vout)) }

  function MaskCode(vout: seq<TxOut>): nat { NonZero(vout, AllBytes(vout)) }

  /** Every available output from the third on has its bit before the end of the mask. */
  lemma AvailableIsMasked(vout: seq<TxOut>, i: nat)
    requires Available(vout, i)
    ensures i < 2 + 8 * MaskSize(vout)
  {
    if i >= 2 {
      var b, p := (i - 2) / 8, (i - 2) % 8;
      assert InMask(vout, b, p);
      MaskBitsZero(vout, b, 8);
      UsedBeforeLast(vout, AllBytes(vout), b);
    }
  }

  lemma {:induction false} UsedBeforeLast(vout: seq<TxOut>, n: nat, b: nat)
    requires b < n && MaskByte(vout, b) != 0
    ensures b < LastUsed(vout, n)
  {
    if b < n - 1 {
      UsedBeforeLast(vout, n - 1, b);
    }
  }

  /** The last used byte is the last one that is not zero. */
  lemma {:induction false} CountToLast(vout: seq<TxOut>, n: nat)
    ensures NonZero(vout, LastUsed(vout, n)) == NonZero(vout, n)
    ensures LastUsed(vout, n) > 0 ==> MaskByte(vout, LastUsed(vout, n) - 1) != 0
  {
    if n > 0 && MaskByte(vout, n - 1) == 0 {
      CountToLast(vout, n - 1);
    }
  }

  lemma {:induction false} CountGrows(vout: seq<TxOut>, b: nat, n: nat)
    requires b <= n
    ensures NonZero(vout, b) <= NonZero(vout, n)
    ensures b < n && MaskByte(vout, n - 1) != 0 ==> NonZero(vout, b) < NonZero(vout, n)
    decreases n
  {
    if b < n {
      CountGrows(vout, b, n - 1);
    }
  }

  /** Something is available exactly if one of the first two outputs is or some mask byte is not zero. */
  lemma SomethingToStore(vout: seq<TxOut>)
    ensures (exists i: nat :: Available(vout, i)) <==> Available(vout, 0) || Available(vout, 1) || MaskCode(vout) > 0
  {
    var n := AllBytes(vout);
    CountToLast(vout, n);
    CountGrows(vout, 0, LastUsed(vout, n));
    if i: nat :| Available(vout, i) && i >= 2 {
      AvailableIsMasked(vout, i);
    }
    if LastUsed(vout, n) > 0 {
      MaskBitsZero(vout, LastUsed(vout, n) - 1, 8);
      var p: nat :| p < 8 && InMask(vout, LastUsed(vout, n) - 1, p);
      assert Available(vout, 2 + 8 * (LastUsed(vout, n) - 1) + p);
    }
  }

  // ---------------------------------------------------------------- the stored form

  function HeaderCode(c: CCoins): nat
    requires !c.IsPruned()
  {
    var fFirst, fSecond := Available(c.vout, 0), Available(c.vout, 1);
    UnprunedHasCode(c);
    8 * (MaskCode(c.vout) - if fFirst || fSecond then 0 else 1)
    + (if c.fCoinBase then 1 else 0) + (if fFirst then 2 else 0) + (if fSecond then 4 else 0)
  }

  /** What Serialize asserts. */
  lemma UnprunedHasCode(c: CCoins)
    ensures !c.IsPruned() <==> Available(c.vout, 0) || Available(c.vout, 1) || MaskCode(c.vout) > 0
  {
    hide MaskCode;
    SomethingToStore(c.vout);
    if !c.IsPruned() {
      var i :| 0 <= i < |c.vout| && !c.vout[i].IsNull();
      assert Available(c.vout, i);
    }
  }

  /** The available outputs from the n-th on. */
  function OutsFrom(curve: Curve, vout: seq<TxOut>, n: nat): seq<byte>
    decreases |vout| - n
  {
    if n >= |vout| then []
    else (if vout[n].IsNull() then [] else OutBytes(curve, vout[n])) + OutsFrom(curve, vout, n + 1)
  }

  function CoinsBytes(curve: Curve, c: CCoins): seq<byte>
    requires !c.IsPruned()
  {
    SignedBytes(c.nVersion) + VarIntBytes(HeaderCode(c)) + Mask(c.vout, MaskSize(c.vout))
    + OutsFrom(curve, c.vout, 0) + SignedBytes(c.nHeight)
  }

  // ---------------------------------------------------------------- reading

  function BitsOf(ch: byte): (r: seq<bool>)
    ensures |r| == 8
  {
    seq(8, p requires 0 <= p < 8 => Bit(ch, p))
  }

  /** Reads mask bytes until `nMaskCode` of them were not zero. */
  function ReadMask(s: seq<byte>, nMaskCode: nat, vAvail: seq<bool>): Option<Read<seq<bool>>>
    decreases |s|
  {
    if nMaskCode == 0 then Some(Read(vAvail, s))
    else if s == [] then None
    else ReadMask(s[1..], if s[0] != 0 then nMaskCode - 1 else nMaskCode, vAvail + BitsOf(s[0]))
  }

  /** Reads an output for every one that is available, after those in `vout`. */
  function ReadOuts(curve: Curve, s: seq<byte>, vAvail: seq<bool>, vout: seq<TxOut>): Option<Read<seq<TxOut>>>
    requires |vout| <= |vAvail|
    decreases |vAvail| - |vout|
  {
    if |vout| == |vAvail| then Some(Read(vout, s))
    else if !vAvail[|vout|] then ReadOuts(curve, s, vAvail, vout + [NULL_OUT])
    else
      match ReadOut(curve, s)
      case None => None
      case Some(Read(o, rest)) => ReadOuts(curve, rest, vAvail, vout + [o])
  }

  function HeaderAvail(nCode: nat): seq<bool> { [nCode / 2 % 2 == 1, nCode / 4 % 2 == 1] }

  function HeaderMaskCode(nCode: nat): nat { nCode / 8 + if nCode / 2 % 4 != 0 then 0 else 1 }

  /** A signed 32-bit integer from its bits. */
  function AsInt(n: nat): (r: int)
    ensures n < UINT32 ==> -INT32 <= r < INT32 && (r - n) % UINT32 == 0
  {
    if n >= INT32 then n - UINT32 else n
  }

  /** Coins from a stream. */
  function ReadCoins(curve: Curve, s: seq<byte>): Option<Read<CCoins>> {
    match ReadUnsigned(s, 4)
    case None => None
    case Some(Read(nVersion, s1)) =>
      match ReadUnsigned(s1, 4)
      case None => None
      case Some(Read(nCode, s2)) =>
        match ReadMask(s2, HeaderMaskCode(nCode), HeaderAvail(nCode))
        case None => None
        case Some(Read(vAvail, s3)) =>
          match ReadOuts(curve, s3, vAvail, [])
          case None => None
          case Some(Read(vout, s4)) =>
            match ReadUnsigned(s4, 4)
            case None => None
            case Some(Read(nHeight, s5)) =>
              Some(Read(CCoins(nCode % 2 == 1, vout, AsInt(nHeight), AsInt(nVersion)).Cleaned(), s5))
  }

  // ---------------------------------------------------------------- the round trip

  function Availability(vout: seq<TxOut>, n: nat): (r: seq<bool>)
    ensures |r| == n && forall i :: 0 <= i < n ==> r[i] == Available(vout, i)
  {
    seq(n, i requires 0 <= i < n => Available(vout, i))
  }

  lemma NextByte(vout: seq<TxOut>, b: nat)
    ensures Availability(vout, 2 + 8 * b) + BitsOf(MaskByte(vout, b)) == Availability(vout, 2 + 8 * (b + 1))
  {
    hide Bit, Available;
    forall p | 0 <= p < 8 ensures BitsOf(MaskByte(vout, b))[p] == Available(vout, 2 + 8 * b + p) {
      MaskBit(vout, b, 8, p);
    }
  }

  lemma {:induction false} MaskSuffix(vout: seq<TxOut>, b: nat, n: nat)
    requires b < n
    ensures Mask(vout, n)[b..] == [MaskByte(vout, b)] + Mask(vout, n)[b + 1..]
    decreases n
  {
    if b < n - 1 {
      MaskSuffix(vout, b, n - 1);
    }
  }

  /** The reading of the mask stops exactly at its last byte. */
  lemma {:induction false} MaskIsRead(vout: seq<TxOut>, b: nat, t: seq<byte>)
    requires b <= MaskSize(vout)
    ensures NonZero(vout, b) <= MaskCode(vout)
    ensures ReadMask(Mask(vout, MaskSize(vout))[b..] + t, MaskCode(vout) - NonZero(vout, b), Availability(vout, 2 + 8 * b))
            == Some(Read(Availability(vout, 2 + 8 * MaskSize(vout)), t))
    decreases MaskSize(vout) - b
  {
    hide MaskByte, AllBytes, LastUsed, BitsOf, Availability, Mask;
    var n := MaskSize(vout);
    CountToLast(vout, AllBytes(vout));
    CountGrows(vout, b, n);
    if b == n {
      assert Mask(vout, n)[n..] + t == t;
    } else {
      var s := Mask(vout, n)[b..] + t;
      MaskSuffix(vout, b, n);
      assert s == [MaskByte(vout, b)] + (Mask(vout, n)[b + 1..] + t);
      assert s[1..] == Mask(vout, n)[b + 1..] + t;
      NextByte(vout, b);
      MaskIsRead(vout, b + 1, t);
    }
  }

  /** The outputs as they come back. */
  function StoredOuts(vout: seq<TxOut>, n: nat): (r: seq<TxOut>)
    ensures |r| == n && forall i :: 0 <= i < n ==> r[i] == if Available(vout, i) then Stored(vout[i]) else NULL_OUT
  {
    seq(n, i requires 0 <= i < n => if Available(vout, i) then Stored(vout[i]) else NULL_OUT)
  }

  ghost predicate AllTyped(vout: seq<TxOut>) {
    |vout| < 0xFFFF_FFF0 && forall i :: 0 <= i < |vout| && !vout[i].IsNull() ==> Typed(vout[i])
  }

  lemma {:induction false} OutsAreRead(curve: Curve, vout: seq<TxOut>, n: nat, size: nat, t: seq<byte>)
    requires Lawful(curve) && AllTyped(vout) && n <= size && forall i: nat :: Available(vout, i) ==> i < size
    ensures ReadOuts(curve, OutsFrom(curve, vout, n) + t, Availability(vout, size), StoredOuts(vout, n))
            == Some(Read(StoredOuts(vout, size), t))
    decreases size - n
  {
    hide Lawful, ReadOut, OutBytes, Typed, OutsFrom, Stored;
    var s := OutsFrom(curve, vout, n) + t;
    if n == size {
      NothingLeft(curve, vout, n);
      assert s == t;
    } else {
      OutsAreRead(curve, vout, n + 1, size, t);
      OutsNext(curve, vout, n);
      if Available(vout, n) {
        assert s == OutBytes(curve, vout[n]) + (OutsFrom(curve, vout, n + 1) + t);
        OutRoundTrip(curve, vout[n], OutsFrom(curve, vout, n + 1) + t);
        assert StoredOuts(vout, n) + [Stored(vout[n])] == StoredOuts(vout, n + 1);
      } else {
        assert StoredOuts(vout, n) + [NULL_OUT] == StoredOuts(vout, n + 1);
      }
    }
  }

  lemma OutsNext(curve: Curve, vout: seq<TxOut>, n: nat)
    ensures Available(vout, n) ==> OutsFrom(curve, vout, n) == OutBytes(curve, vout[n]) + OutsFrom(curve, vout, n + 1)
    ensures !Available(vout, n) ==> OutsFrom(curve, vout, n) == OutsFrom(curve, vout, n + 1)
  {
  }

  lemma {:induction false} NothingLeft(curve: Curve, vout: seq<TxOut>, n: nat)
    requires forall i: nat :: n <= i ==> !Available(vout, i)
    ensures OutsFrom(curve, vout, n) == []
    decreases |vout| - n
  {
    if n < |vout| {
      assert !Available(vout, n);
      NothingLeft(curve, vout, n + 1);
    }
  }

  /** Coins within the ranges of their types. */
  ghost predicate InRange(c: CCoins) { AllTyped(c.vout) && c.nVersion < INT32 && c.nHeight < INT32 }

  function StoredCoins(c: CCoins): CCoins { c.(vout := StoredOuts(c.Cleaned().vout, |c.Cleaned().vout|)) }

  function SignedBack(n: int): int { if n < 0 then n % 128 else n }

  lemma SignedRead(n: int, t: seq<byte>)
    requires n < INT32
    ensures ReadUnsigned(SignedBytes(n) + t, 4) == Some(Read(SignedBack(n), t)) && AsInt(SignedBack(n)) == SignedBack(n)
  {
    hide ReadFrom, VarIntBytes;
    if n < 0 {
      ReadStep(0, n % 128, t);
    } else {
      ReadFitting(n, 4, t);
    }
  }

  lemma HeaderIsRead(c: CCoins)
    requires !c.IsPruned()
    ensures HeaderCode(c) % 2 == 1 <==> c.fCoinBase
    ensures HeaderAvail(HeaderCode(c)) == Availability(c.vout, 2)
    ensures HeaderMaskCode(HeaderCode(c)) == MaskCode(c.vout)
  {
    hide MaskCode, Available;
    UnprunedHasCode(c);
    var f, g := Available(c.vout, 0), Available(c.vout, 1);
    var m := MaskCode(c.vout) - if f || g then 0 else 1;
    HeaderParts(m, c.fCoinBase, f, g);
  }

  lemma HeaderParts(m: nat, coinBase: bool, f: bool, g: bool)
    ensures var n := 8 * m + (if coinBase then 1 else 0) + (if f then 2 else 0) + (if g then 4 else 0);
            n / 8 == m && (n % 2 == 1 <==> coinBase) && (n / 2 % 2 == 1 <==> f) && (n / 4 % 2 == 1 <==> g)
            && (n / 2 % 4 != 0 <==> f || g)
  {
    var c, x, y := if coinBase then 1 else 0, if f then 1 else 0, if g then 1 else 0;
    var n := 8 * m + c + 2 * x + 4 * y;
    var h, q := 4 * m + x + 2 * y, 2 * m + y;
    ModUnique(n, m, c + 2 * x + 4 * y, 8);
    ModUnique(n, h, c, 2);
    ModUnique(h, q, x, 2);
    ModUnique(h, m, x + 2 * y, 4);
    ModUnique(n, q, c + 2 * x, 4);
    ModUnique(q, m, y, 2);
  }

  /** What is cut off at the end is null, so trimming what was read gives what was trimmed before. */
  lemma TrimmedAlike(vout: seq<TxOut>, size: nat)
    requires forall i: nat :: Available(vout, i) ==> i < size
    ensures DropNulls(StoredOuts(vout, size)) == StoredOuts(DropNulls(vout), |DropNulls(vout)|)
  {
    hide DropNulls, Back;
    var d := DropNulls(vout);
    var v := StoredOuts(vout, size);
    assert d != [] ==> d[|d| - 1] == vout[|d| - 1] && Available(vout, |d| - 1);
    assert forall i :: |d| <= i < size ==> v[i].IsNull();
    if d != [] {
      NotNull(vout[|d| - 1].nValue);
    }
    DropNullsIs(v, |d|);
  }

  lemma {:induction false} DropNullsIs(v: seq<TxOut>, n: nat)
    requires n <= |v| && (forall i :: n <= i < |v| ==> v[i].IsNull()) && (n > 0 ==> !v[n - 1].IsNull())
    ensures DropNulls(v) == v[..n]
  {
    if n < |v| {
      DropNullsIs(v[..|v| - 1], n);
      assert v[..|v| - 1][..n] == v[..n];
    }
  }

  /** Part by part. */
  lemma CoinsAreRead(curve: Curve, s: seq<byte>, s1: seq<byte>, s2: seq<byte>, s3: seq<byte>, s4: seq<byte>, s5: seq<byte>,
                     nVersion: nat, nCode: nat, vAvail: seq<bool>, vout: seq<TxOut>, nHeight: nat)
    requires ReadUnsigned(s, 4) == Some(Read(nVersion, s1)) && ReadUnsigned(s1, 4) == Some(Read(nCode, s2))
    requires ReadMask(s2, HeaderMaskCode(nCode), HeaderAvail(nCode)) == Some(Read(vAvail, s3))
    requires ReadOuts(curve, s3, vAvail, []) == Some(Read(vout, s4)) && ReadUnsigned(s4, 4) == Some(Read(nHeight, s5))
    ensures ReadCoins(curve, s) == Some(Read(CCoins(nCode % 2 == 1, vout, AsInt(nHeight), AsInt(nVersion)).Cleaned(), s5))
  {
    hide ReadUnsigned, ReadMask, ReadOuts, HeaderMaskCode, HeaderAvail, AsInt, DropNulls;
  }

  /** What is stored, from its parts. */
  lemma BytesInParts(curve: Curve, c: CCoins, t: seq<byte>)
    requires !c.IsPruned()
    ensures CoinsBytes(curve, c) + t
            == SignedBytes(c.nVersion) + (VarIntBytes(HeaderCode(c)) + (Mask(c.vout, MaskSize(c.vout))
               + (OutsFrom(curve, c.vout, 0) + (SignedBytes(c.nHeight) + t))))
  {
    hide VarIntBytes, SignedBytes, HeaderCode, OutsFrom, MaskSize, Mask;
  }

  /** What comes back of coins that are stored. */
  function Restored(c: CCoins): CCoins { StoredCoins(c).(nVersion := SignedBack(c.nVersion), nHeight := SignedBack(c.nHeight)) }

  lemma CoinsComeBack(curve: Curve, c: CCoins, t: seq<byte>)
    requires Lawful(curve) && !c.IsPruned() && InRange(c)
    ensures ReadCoins(curve, CoinsBytes(curve, c) + t) == Some(Read(Restored(c), t))
  {
    hide ReadUnsigned, VarIntBytes, SignedBytes, MaskCode, HeaderCode, HeaderAvail, HeaderMaskCode, ReadMask, ReadOuts, OutsFrom,
      MaskSize, Mask, AllTyped, DropNulls, AsInt, Stored, StoredOuts, Availability, Available, ReadCoins, CoinsBytes, SignedBack, Lawful;
    var size := 2 + 8 * MaskSize(c.vout);
    var s4 := SignedBytes(c.nHeight) + t;
    var s3 := OutsFrom(curve, c.vout, 0) + s4;
    var s2 := Mask(c.vout, MaskSize(c.vout)) + s3;
    var s1 := VarIntBytes(HeaderCode(c)) + s2;
    BytesInParts(curve, c, t);
    SignedRead(c.nVersion, s1);
    CodeFits(c);
    ReadFitting(HeaderCode(c), 4, s2);
    HeaderIsRead(c);
    MaskStarts(c.vout, s3);
    OutsStart(curve, c.vout, s4);
    SignedRead(c.nHeight, t);
    TrimmedAlike(c.vout, size);
    CoinsAreRead(curve, CoinsBytes(curve, c) + t, s1, s2, s3, s4, t,
                 SignedBack(c.nVersion), HeaderCode(c), Availability(c.vout, size), StoredOuts(c.vout, size), SignedBack(c.nHeight));
  }

  /**
   Coins that are stored and read again come back cleaned, spent outputs as null outputs; the version
   and the height come back as they were exactly when they are not negative.
   */
  lemma CoinsRoundTrip(curve: Curve, c: CCoins, t: seq<byte>)
    requires Lawful(curve) && !c.IsPruned() && InRange(c)
    ensures ReadCoins(curve, CoinsBytes(curve, c) + t) == Some(Read(Restored(c), t))
    ensures Restored(c) == StoredCoins(c) <==> c.nVersion >= 0 && c.nHeight >= 0
  {
    CoinsComeBack(curve, c, t);
  }

  // ---------------------------------------------------------------- the format, told without the functions that read and write it

  /** What the header code says, given how many mask bytes are not zero. */
  predicate HeaderSays(nCode: nat, fCoinBase: bool, fFirst: bool, fSecond: bool, nNonzero: nat) {
    && (nCode % 2 == 1 <==> fCoinBase) && (nCode / 2 % 2 == 1 <==> fFirst) && (nCode / 4 % 2 == 1 <==> fSecond)
    && nCode / 8 + (if fFirst || fSecond then 0 else 1) == nNonzero
  }

  function NonZeroBytes(m: seq<byte>): nat {
    if m == [] then 0 else NonZeroBytes(m[..|m| - 1]) + if m[|m| - 1] != 0 then 1 else 0
  }

  /** The mask ends with a byte that is not zero, and has a bit for exactly the available outputs from the third on. */
  predicate MaskSays(m: seq<byte>, vout: seq<TxOut>) {
    && (m != [] ==> m[|m| - 1] != 0)
    && (forall i :: 0 <= i < 8 * |m| ==> (Bit(m[i / 8], i % 8) <==> Available(vout, i + 2)))
    && (forall i :: 8 * |m| + 2 <= i < |vout| ==> !Available(vout, i))
  }

  /** Behind the version the bytes say by header and mask which outputs of the coins are available. */
  ghost predicate Describes(s: seq<byte>, c: CCoins) {
    match ReadUnsigned(s, 4)
    case None => false
    case Some(Read(_, s1)) =>
      match ReadUnsigned(s1, 4)
      case None => false
      case Some(Read(nCode, s2)) => exists k: nat :: k <= |s2| && MaskFits(s2[..k], nCode, c)
  }

  predicate MaskFits(m: seq<byte>, nCode: nat, c: CCoins) {
    HeaderSays(nCode, c.fCoinBase, Available(c.vout, 0), Available(c.vout, 1), NonZeroBytes(m)) && MaskSays(m, c.vout)
  }

  lemma {:induction false} MaskCounts(vout: seq<TxOut>, n: nat)
    ensures NonZeroBytes(Mask(vout, n)) == NonZero(vout, n)
  {
    hide MaskByte;
    if n > 0 {
      MaskCounts(vout, n - 1);
      assert Mask(vout, n)[..n - 1] == Mask(vout, n - 1);
    }
  }

  lemma {:induction false} MaskByteAt(vout: seq<TxOut>, n: nat, b: nat)
    requires b < n
    ensures Mask(vout, n)[b] == MaskByte(vout, b)
  {
    hide MaskByte;
    if b < n - 1 {
      MaskByteAt(vout, n - 1, b);
    }
  }

  lemma WrittenMaskSays(vout: seq<TxOut>)
    ensures MaskSays(Mask(vout, MaskSize(vout)), vout)
  {
    hide MaskByte, LastUsed, Available, Bit, Mask, AllBytes;
    var m := Mask(vout, MaskSize(vout));
    CountToLast(vout, AllBytes(vout));
    if m != [] {
      MaskByteAt(vout, |m|, |m| - 1);
    }
    forall i | 0 <= i < 8 * |m| ensures Bit(m[i / 8], i % 8) <==> Available(vout, i + 2) {
      MaskByteAt(vout, |m|, i / 8);
      BitOfMask(vout, i / 8, i % 8);
      assert 2 + 8 * (i / 8) + i % 8 == i + 2;
    }
    forall i | 8 * |m| + 2 <= i < |vout| ensures !Available(vout, i) {
      if Available(vout, i) {
        AvailableIsMasked(vout, i);
      }
    }
  }

  lemma BitOfMask(vout: seq<TxOut>, b: nat, p: nat)
    requires p < 8
    ensures Bit(MaskByte(vout, b), p) <==> Available(vout, 2 + 8 * b + p)
  {
    MaskBit(vout, b, 8, p);
  }

  lemma WrittenHeaderSays(c: CCoins)
    requires !c.IsPruned()
    ensures HeaderSays(HeaderCode(c), c.fCoinBase, Available(c.vout, 0), Available(c.vout, 1), MaskCode(c.vout))
  {
    hide MaskCode, Available;
    UnprunedHasCode(c);
    var f, g := Available(c.vout, 0), Available(c.vout, 1);
    HeaderParts(MaskCode(c.vout) - if f || g then 0 else 1, c.fCoinBase, f, g);
  }

  /** What is written says which outputs there are. */
  lemma WrittenDescribes(curve: Curve, c: CCoins, t: seq<byte>)
    requires !c.IsPruned() && InRange(c)
    ensures Describes(CoinsBytes(curve, c) + t, c)
  {
    hide ReadUnsigned, VarIntBytes, SignedBytes, HeaderCode, OutsFrom, Mask, MaskSays, HeaderSays, Available, NonZero, LastUsed,
      NonZeroBytes, AllTyped;
    var m := Mask(c.vout, MaskSize(c.vout));
    var s2 := m + (OutsFrom(curve, c.vout, 0) + (SignedBytes(c.nHeight) + t));
    BytesInParts(curve, c, t);
    SignedRead(c.nVersion, VarIntBytes(HeaderCode(c)) + s2);
    CodeFits(c);
    ReadFitting(HeaderCode(c), 4, s2);
    WrittenHeaderSays(c);
    MaskCounts(c.vout, MaskSize(c.vout));
    CountToLast(c.vout, AllBytes(c.vout));
    WrittenMaskSays(c.vout);
    assert s2[..|m|] == m;
    assert MaskFits(s2[..|m|], HeaderCode(c), c);
  }

  /** The bits of these bytes, eight of each. */
  ghost predicate BitsAre(vAvail: seq<bool>, m: seq<byte>) {
    |vAvail| == 8 * |m| && forall i :: 0 <= i < |vAvail| ==> (vAvail[i] <==> Bit(m[i / 8], i % 8))
  }

  /** The bytes that reading the mask takes. */
  lemma {:induction false} MaskTaken(s: seq<byte>, nMaskCode: nat, vAvail: seq<bool>) returns (k: nat)
    requires ReadMask(s, nMaskCode, vAvail).Some?
    ensures k <= |s| && NonZeroBytes(s[..k]) == nMaskCode && (k > 0 ==> s[k - 1] != 0)
    ensures var r := ReadMask(s, nMaskCode, vAvail).value.value;
            |r| >= |vAvail| && r[..|vAvail|] == vAvail && BitsAre(r[|vAvail|..], s[..k])
    decreases |s|
  {
    hide Bit, BitsOf;
    if nMaskCode == 0 {
      k := 0;
    } else {
      var l := MaskTaken(s[1..], if s[0] != 0 then nMaskCode - 1 else nMaskCode, vAvail + BitsOf(s[0]));
      k := l + 1;
      assert s[..k] == [s[0]] + s[1..][..l];
      FirstCounts(s[0], s[1..][..l]);
      var r := ReadMask(s, nMaskCode, vAvail).value.value;
      OneMoreByte(r, vAvail, s[0], s[1..][..l]);
    }
  }

  lemma OneMoreByte(r: seq<bool>, vAvail: seq<bool>, ch: byte, m: seq<byte>)
    requires |r| >= |vAvail| + 8 && r[..|vAvail| + 8] == vAvail + BitsOf(ch) && BitsAre(r[|vAvail| + 8..], m)
    ensures r[..|vAvail|] == vAvail && BitsAre(r[|vAvail|..], [ch] + m)
  {
    hide Bit;
    var a := r[|vAvail|..];
    assert r[..|vAvail|] == r[..|vAvail| + 8][..|vAvail|];
    forall i | 0 <= i < |a| ensures a[i] <==> Bit(([ch] + m)[i / 8], i % 8) {
      if i < 8 {
        assert a[i] == r[..|vAvail| + 8][|vAvail| + i] == BitsOf(ch)[i];
      } else {
        assert a[i] == r[|vAvail| + 8..][i - 8];
        assert (i - 8) / 8 == i / 8 - 1 && (i - 8) % 8 == i % 8;
      }
    }
  }

  lemma {:induction false} FirstCounts(ch: byte, m: seq<byte>)
    ensures NonZeroBytes([ch] + m) == NonZeroBytes(m) + if ch != 0 then 1 else 0
  {
    if m == [] {
      assert [ch] + m == [ch] && [ch][..0] == [];
    } else {
      FirstCounts(ch, m[..|m| - 1]);
      assert ([ch] + m)[..|m|] == [ch] + m[..|m| - 1];
    }
  }

  /** An output is read for every bit that is set, and none of them is null. */
  lemma {:induction false} ReadOutsAre(curve: Curve, s: seq<byte>, vAvail: seq<bool>, vout: seq<TxOut>)
    requires |vout| <= |vAvail| && ReadOuts(curve, s, vAvail, vout).Some?
    requires forall i :: 0 <= i < |vout| ==> (vout[i].IsNull() <==> !vAvail[i])
    ensures var r := ReadOuts(curve, s, vAvail, vout).value.value;
            |r| == |vAvail| && forall i :: 0 <= i < |r| ==> (r[i].IsNull() <==> !vAvail[i])
    decreases |vAvail| - |vout|
  {
    hide ReadOut;
    if |vout| < |vAvail| {
      if !vAvail[|vout|] {
        ReadOutsAre(curve, s, vAvail, vout + [NULL_OUT]);
      } else {
        ReadIsNotNull(curve, s);
        var o := ReadOut(curve, s).value;
        ReadOutsAre(curve, o.rest, vAvail, vout + [o.value]);
      }
    }
  }

  lemma ReadIsNotNull(curve: Curve, s: seq<byte>)
    ensures ReadOut(curve, s).Some? ==> !ReadOut(curve, s).value.value.IsNull()
  {
    hide Decompress64, ReadScript, ReadFrom;
    if ReadOut(curve, s).Some? {
      NeverAllOnes(ReadUnsigned(s, 8).value.value);
    }
  }

  /** And any bytes that are accepted say which outputs there are in what is read from them. */
  lemma ReadDescribes(curve: Curve, s: seq<byte>)
    requires ReadCoins(curve, s).Some?
    ensures Describes(s, ReadCoins(curve, s).value.value)
  {
    hide ReadUnsigned, ReadMask, ReadOuts, AsInt, DropNulls, MaskFits;
    var s1 := ReadUnsigned(s, 4).value.rest;
    var code := ReadUnsigned(s1, 4).value;
    var nCode, s2 := code.value, code.rest;
    var mask := ReadMask(s2, HeaderMaskCode(nCode), HeaderAvail(nCode)).value;
    var k := MaskTaken(s2, HeaderMaskCode(nCode), HeaderAvail(nCode));
    ReadOutsAre(curve, mask.rest, mask.value, []);
    var vout := ReadOuts(curve, mask.rest, mask.value, []).value.value;
    var c := ReadCoins(curve, s).value.value;
    ReadMaskFits(s2[..k], nCode, vout, mask.value, c);
  }

  lemma ReadMaskFits(m: seq<byte>, nCode: nat, vout: seq<TxOut>, vAvail: seq<bool>, c: CCoins)
    requires |vAvail| == |vout| >= 2 && vAvail[..2] == HeaderAvail(nCode) && BitsAre(vAvail[2..], m)
    requires forall i :: 0 <= i < |vout| ==> (vout[i].IsNull() <==> !vAvail[i])
    requires NonZeroBytes(m) == HeaderMaskCode(nCode) && (m != [] ==> m[|m| - 1] != 0)
    requires c.vout == DropNulls(vout) && (c.fCoinBase <==> nCode % 2 == 1)
    ensures MaskFits(m, nCode, c)
  {
    hide Bit, DropNulls, NonZeroBytes, Available;
    forall i: nat ensures Available(c.vout, i) <==> i < |vAvail| && vAvail[i] {
      CleanedAvailable(vout, i);
      AvailableIs(vout, i);
    }
    assert vAvail[0] == vAvail[..2][0] && vAvail[1] == vAvail[..2][1];
    QuarterBits(nCode);
    forall i | 0 <= i < 8 * |m| ensures Bit(m[i / 8], i % 8) <==> Available(c.vout, i + 2) {
      assert vAvail[2..][i] == vAvail[i + 2];
    }
  }

  lemma AvailableIs(vout: seq<TxOut>, i: nat)
    ensures Available(vout, i) <==> i < |vout| && !vout[i].IsNull()
  {
  }

  lemma QuarterBits(nCode: nat)
    ensures nCode / 2 % 4 != 0 <==> nCode / 2 % 2 == 1 || nCode / 4 % 2 == 1
  {
    var h := nCode / 2;
    assert nCode / 4 == h / 2;
  }

  lemma CleanedAvailable(vout: seq<TxOut>, i: nat)
    ensures Available(DropNulls(vout), i) <==> Available(vout, i)
  {
    hide DropNulls;
    var c := CCoins(false, vout, 0, 0);
    CleanedCoins(c);
    assert c.Cleaned().IsAvailable(i) <==> c.IsAvailable(i);
  }

  /** All outputs are read, for every available one has its bit. */
  lemma OutsStart(curve: Curve, vout: seq<TxOut>, t: seq<byte>)
    requires Lawful(curve) && AllTyped(vout)
    ensures forall i: nat :: Available(vout, i) ==> i < 2 + 8 * MaskSize(vout)
    ensures ReadOuts(curve, OutsFrom(curve, vout, 0) + t, Availability(vout, 2 + 8 * MaskSize(vout)), [])
            == Some(Read(StoredOuts(vout, 2 + 8 * MaskSize(vout)), t))
  {
    hide ReadOuts, OutsFrom, MaskSize, AllTyped, Stored, Lawful, Available;
    forall i: nat | Available(vout, i) ensures i < 2 + 8 * MaskSize(vout) {
      AvailableIsMasked(vout, i);
    }
    OutsAreRead(curve, vout, 0, 2 + 8 * MaskSize(vout), t);
    assert StoredOuts(vout, 0) == [];
  }

  lemma MaskStarts(vout: seq<TxOut>, t: seq<byte>)
    ensures ReadMask(Mask(vout, MaskSize(vout)) + t, MaskCode(vout), Availability(vout, 2))
            == Some(Read(Availability(vout, 2 + 8 * MaskSize(vout)), t))
  {
    hide ReadMask, MaskSize, Mask, Availability, MaskCode;
    MaskIsRead(vout, 0, t);
    assert Mask(vout, MaskSize(vout))[0..] == Mask(vout, MaskSize(vout));
  }

  /** An output that storing leaves alone: null as such, or without rounds and with an amount that does not overflow. */
  predicate Keeps(o: TxOut) {
    if o.IsNull() then o == NULL_OUT else o.nRounds == NULL_OUT.nRounds && Compress(AsUnsigned(o.nValue)) < LIMIT
  }

  /** Cleaned coins come back as they are exactly if their numbers are not negative and every output can be kept. */
  lemma CleanCoinsComeBack(curve: Curve, c: CCoins, t: seq<byte>)
    requires Lawful(curve) && !c.IsPruned() && InRange(c) && c.Clean()
    ensures ReadCoins(curve, CoinsBytes(curve, c) + t) == Some(Read(c, t))
            <==> c.nVersion >= 0 && c.nHeight >= 0 && forall i :: 0 <= i < |c.vout| ==> Keeps(c.vout[i])
  {
    hide ReadCoins, CoinsBytes, Lawful, Stored, Keeps, Typed;
    CoinsRoundTrip(curve, c, t);
    CleanedCoins(c);
    var v := StoredOuts(c.vout, |c.vout|);
    forall i | 0 <= i < |c.vout|
      ensures v[i] == c.vout[i] <==> Keeps(c.vout[i])
    {
      KeepsIff(c.vout[i]);
    }
    assert v == c.vout <==> forall i :: 0 <= i < |c.vout| ==> v[i] == c.vout[i];
  }

  lemma KeepsIff(o: TxOut)
    requires o.IsNull() || Typed(o)
    ensures (if o.IsNull() then NULL_OUT else Stored(o)) == o <==> Keeps(o)
  {
    hide Stored, Compress;
    if !o.IsNull() {
      StoredIff(o);
    }
  }

  // ---------------------------------------------------------------- the loops

  method SerializeOut(curve: Curve, s: seq<byte>, o: TxOut) returns (out: seq<byte>)
    ensures out == s + OutBytes(curve, o)
  {
    hide VarIntBytes, ScriptBytes, Compress;
    var nVal := CompressAmount(AsUnsigned(o.nValue));
    out := WriteVarInt(s, nVal, 8);
    var cscript := new CScriptCompressor(curve, o.scriptPubKey);
    out := cscript.Serialize(out);
  }

  method OutSerializeSize(curve: Curve, o: TxOut) returns (n: nat)
    ensures n == |OutBytes(curve, o)|
  {
    hide VarIntBytes, ScriptBytes, Compress;
    var nVal := CompressAmount(AsUnsigned(o.nValue));
    var m := GetSizeOfVarInt(nVal);
    var cscript := new CScriptCompressor(curve, o.scriptPubKey);
    n := cscript.GetSerializeSize();
    n := m + n;
  }

  method UnserializeOut(curve: Curve, s: seq<byte>) returns (r: Option<Read<TxOut>>)
    requires Lawful(curve)
    ensures r == ReadOut(curve, s)
  {
    hide ReadUnsigned, ReadScript, Lawful, Decompress;
    var n := ReadVarInt(s, 8);
    if n.None? {
      return None;
    }
    var nValue := DecompressAmount(n.value.value);
    var cscript := new CScriptCompressor(curve, []);
    var ok, rest := cscript.Unserialize(n.value.rest);
    if !ok {
      return None;
    }
    return Some(Read(TxOut(AsSigned(nValue), cscript.script, NULL_OUT.nRounds), rest));
  }

  /** Past the last output there are no more bits. */
  lemma {:induction false} MaskBitsEnd(vout: seq<TxOut>, b: nat, i: nat, n: nat)
    requires i <= n && (i == n || |vout| <= 2 + 8 * b + i)
    ensures MaskBits(vout, b, n) == MaskBits(vout, b, i)
    decreases n
  {
    if i < n {
      MaskBitsEnd(vout, b, i, n - 1);
    }
  }

  method CalcMaskSize(c: CCoins) returns (nBytes: nat, nNonzeroBytes: nat)
    ensures nBytes == MaskSize(c.vout) && nNonzeroBytes == MaskCode(c.vout)
  {
    hide MaskBits;
    var b := 0;
    nBytes, nNonzeroBytes := 0, 0;
    while 2 + b * 8 < |c.vout|
      invariant 0 <= b <= AllBytes(c.vout) && nBytes == LastUsed(c.vout, b) && nNonzeroBytes == NonZero(c.vout, b)
      decreases AllBytes(c.vout) - b
    {
      var fZero := true;
      var i := 0;
      NoBits(c.vout, b);
      while i < 8 && 2 + b * 8 + i < |c.vout|
        invariant 0 <= i <= 8 && (fZero <==> MaskBits(c.vout, b, i) == 0)
      {
        MaskBitsNext(c.vout, b, i);
        if !c.vout[2 + b * 8 + i].IsNull() {
          fZero := false;
        }
        i := i + 1;
      }
      MaskBitsEnd(c.vout, b, i, 8);
      if !fZero {
        nBytes := b + 1;
        nNonzeroBytes := nNonzeroBytes + 1;
      }
      b := b + 1;
    }
  }

  lemma NoBits(vout: seq<TxOut>, b: nat)
    ensures MaskBits(vout, b, 0) == 0
  {
  }

  lemma MaskBitsNext(vout: seq<TxOut>, b: nat, i: nat)
    ensures MaskBits(vout, b, i + 1) == MaskBits(vout, b, i) + if Available(vout, 2 + 8 * b + i) then Pow2(i) else 0
    ensures MaskBits(vout, b, i) < Pow2(i)
  {
    MaskBitsBound(vout, b, i);
  }

  /** One byte of the mask. */
  method SerializeMaskByte(vout: seq<TxOut>, b: nat) returns (chAvail: nat)
    ensures chAvail == MaskByte(vout, b)
  {
    hide MaskBits, Or, Pow2;
    chAvail := 0;
    var i := 0;
    NoBits(vout, b);
    while i < 8 && 2 + b * 8 + i < |vout|
      invariant 0 <= i <= 8 && chAvail == MaskBits(vout, b, i)
    {
      MaskBitsNext(vout, b, i);
      if !vout[2 + b * 8 + i].IsNull() {
        Limbs.OrDisjoint(chAvail, 1, i);
        chAvail := Or(chAvail, Shl(1, i));
      }
      i := i + 1;
    }
    MaskBitsEnd(vout, b, i, 8);
  }

  method Serialize(curve: Curve, s: seq<byte>, c: CCoins) returns (out: seq<byte>)
    requires !c.IsPruned() && InRange(c)
    ensures out == s + CoinsBytes(curve, c)
    ensures Describes(out[|s|..], c)
  {
    hide VarIntBytes, OutsFrom, Mask, LastUsed, NonZero, Typed;
    var nMaskSize, nMaskCode := CalcMaskSize(c);
    var fFirst := |c.vout| > 0 && !c.vout[0].IsNull();
    var fSecond := |c.vout| > 1 && !c.vout[1].IsNull();
    UnprunedHasCode(c);
    assert fFirst || fSecond || nMaskCode != 0;
    var nCode := 8 * (nMaskCode - if fFirst || fSecond then 0 else 1)
      + (if c.fCoinBase then 1 else 0) + (if fFirst then 2 else 0) + (if fSecond then 4 else 0);
    CodeFits(c);
    assert nCode == HeaderCode(c);
    out := WriteVarInt(s, c.nVersion, 4);
    out := WriteVarInt(out, nCode, 4);
    out := SerializeMask(out, c.vout, nMaskSize);
    out := SerializeOuts(curve, out, c.vout);
    out := WriteVarInt(out, c.nHeight, 4);
    AfterOthers(s, SignedBytes(c.nVersion), VarIntBytes(HeaderCode(c)), Mask(c.vout, MaskSize(c.vout)),
                OutsFrom(curve, c.vout, 0), SignedBytes(c.nHeight));
    WrittenDescribes(curve, c, []);
    assert out[|s|..] == CoinsBytes(curve, c) + [];
  }

  lemma AfterOthers(s: seq<byte>, a: seq<byte>, b: seq<byte>, c: seq<byte>, d: seq<byte>, e: seq<byte>)
    ensures s + a + b + c + d + e == s + (a + b + c + d + e)
  {
  }

  method SerializeMask(s: seq<byte>, vout: seq<TxOut>, nMaskSize: nat) returns (out: seq<byte>)
    ensures out == s + Mask(vout, nMaskSize)
  {
    hide MaskByte;
    out := s;
    for b := 0 to nMaskSize
      invariant out == s + Mask(vout, b)
    {
      var chAvail := SerializeMaskByte(vout, b);
      out := out + [chAvail];
    }
  }

  method SerializeOuts(curve: Curve, s: seq<byte>, vout: seq<TxOut>) returns (out: seq<byte>)
    ensures out == s + OutsFrom(curve, vout, 0)
  {
    hide OutBytes, OutsFrom, Compress;
    out := s;
    for i := 0 to |vout|
      invariant out + OutsFrom(curve, vout, i) == s + OutsFrom(curve, vout, 0)
    {
      OutsNext(curve, vout, i);
      if !vout[i].IsNull() {
        ghost var before := out;
        out := SerializeOut(curve, out, vout[i]);
        assert out + OutsFrom(curve, vout, i + 1) == before + (OutBytes(curve, vout[i]) + OutsFrom(curve, vout, i + 1));
      }
    }
    OutsEnd(curve, vout);
    assert out + [] == out;
  }

  /** The header code is a 32-bit number. */
  lemma CodeFits(c: CCoins)
    requires !c.IsPruned() && AllTyped(c.vout)
    ensures HeaderCode(c) < 0x1_0000_0000
  {
    hide Available, Typed;
    UnprunedHasCode(c);
    NonZeroAtMost(c.vout, AllBytes(c.vout));
  }

  lemma {:induction false} NonZeroAtMost(vout: seq<TxOut>, n: nat)
    ensures NonZero(vout, n) <= n
  {
    if n > 0 {
      NonZeroAtMost(vout, n - 1);
    }
  }

  /** GetSerializeSize is the number of bytes that Serialize writes. */
  method GetSerializeSize(curve: Curve, c: CCoins) returns (nSize: nat)
    requires !c.IsPruned()
    ensures nSize == |CoinsBytes(curve, c)|
  {
    hide VarIntBytes, OutBytes, MaskByte, LastUsed, NonZero, OutsFrom;
    var nMaskSize, nMaskCode := CalcMaskSize(c);
    var fFirst := |c.vout| > 0 && !c.vout[0].IsNull();
    var fSecond := |c.vout| > 1 && !c.vout[1].IsNull();
    UnprunedHasCode(c);
    assert fFirst || fSecond || nMaskCode != 0;
    var nCode := 8 * (nMaskCode - if fFirst || fSecond then 0 else 1)
      + (if c.fCoinBase then 1 else 0) + (if fFirst then 2 else 0) + (if fSecond then 4 else 0);
    nSize := GetSizeOfVarInt(c.nVersion);
    var n := GetSizeOfVarInt(nCode);
    nSize := nSize + n + nMaskSize;
    ghost var total := nSize + |OutsFrom(curve, c.vout, 0)|;
    for i := 0 to |c.vout|
      invariant nSize + |OutsFrom(curve, c.vout, i)| == total
    {
      OutsNext(curve, c.vout, i);
      if !c.vout[i].IsNull() {
        n := OutSerializeSize(curve, c.vout[i]);
        nSize := nSize + n;
      }
    }
    OutsEnd(curve, c.vout);
    n := GetSizeOfVarInt(c.nHeight);
    nSize := nSize + n;
  }

  lemma OutsEnd(curve: Curve, vout: seq<TxOut>)
    ensures OutsFrom(curve, vout, |vout|) == []
  {
  }

  lemma BitsNext(ch: byte, p: nat)
    requires p < 8
    ensures BitsOf(ch)[..p + 1] == BitsOf(ch)[..p] + [Bit(ch, p)] && BitsOf(ch)[..8] == BitsOf(ch)
  {
    hide Bit;
    assert BitsOf(ch)[p] == Bit(ch, p);
  }

  /** The first two bits of availability, then eight for every mask byte. */
  method UnserializeMask(s: seq<byte>, nCode: nat) returns (ok: bool, vAvail: seq<bool>, rest: seq<byte>)
    ensures ok <==> ReadMask(s, HeaderMaskCode(nCode), HeaderAvail(nCode)).Some?
    ensures ok ==> ReadMask(s, HeaderMaskCode(nCode), HeaderAvail(nCode)) == Some(Read(vAvail, rest))
  {
    hide BitsOf, Bit;
    vAvail, rest := [nCode / 2 % 2 == 1, nCode / 4 % 2 == 1], s;
    var nMaskCode := nCode / 8 + if nCode / 2 % 4 != 0 then 0 else 1;
    while nMaskCode > 0
      invariant nMaskCode >= 0
      invariant ReadMask(rest, nMaskCode, vAvail) == ReadMask(s, HeaderMaskCode(nCode), HeaderAvail(nCode))
      decreases |rest|
    {
      if rest == [] {
        return false, vAvail, rest;
      }
      var chAvail := rest[0];
      rest := rest[1..];
      ghost var before := vAvail;
      for p := 0 to 8
        invariant vAvail == before + BitsOf(chAvail)[..p]
      {
        BitsNext(chAvail, p);
        vAvail := vAvail + [Bit(chAvail, p)];
      }
      BitsNext(chAvail, 7);
      if chAvail != 0 {
        nMaskCode := nMaskCode - 1;
      }
    }
    ok := true;
  }

  lemma DescribesIfRead(curve: Curve, s: seq<byte>)
    ensures ReadCoins(curve, s).Some? ==> Describes(s, ReadCoins(curve, s).value.value)
  {
    hide ReadCoins, Describes;
    if ReadCoins(curve, s).Some? {
      ReadDescribes(curve, s);
    }
  }

  method UnserializeCoins(curve: Curve, s: seq<byte>) returns (r: Option<Read<CCoins>>)
    requires Lawful(curve)
    ensures r == ReadCoins(curve, s)
    ensures r.Some? ==> Describes(s, r.value.value)
  {
    DescribesIfRead(curve, s);
    hide Describes, ReadUnsigned, ReadMask, HeaderMaskCode, HeaderAvail, ReadOut, Lawful, DropNulls, AsInt;
    var n := ReadVarInt(s, 4);
    if n.None? {
      return None;
    }
    var nVersion := AsInt(n.value.value);
    n := ReadVarInt(n.value.rest, 4);
    if n.None? {
      return None;
    }
    var nCode := n.value.value;
    var ok, vAvail, rest := UnserializeMask(n.value.rest, nCode);
    if !ok {
      return None;
    }
    var vout: seq<TxOut> := [];
    ghost var start := rest;
    for i := 0 to |vAvail|
      invariant |vout| == i && ReadOuts(curve, rest, vAvail, vout) == ReadOuts(curve, start, vAvail, [])
    {
      if vAvail[i] {
        var o := UnserializeOut(curve, rest);
        if o.None? {
          return None;
        }
        vout := vout + [o.value.value];
        rest := o.value.rest;
      } else {
        vout := vout + [NULL_OUT];
      }
    }
    n := ReadVarInt(rest, 4);
    if n.None? {
      return None;
    }
    var c := Cleanup(CCoins(nCode % 2 == 1, vout, AsInt(n.value.value), nVersion));
    return Some(Read(c, n.value.rest));
  }
}
