/** The short forms of common scripts, and transaction outputs as they are stored. */
module ScriptCodec {
  import opened VarInt
  import opened Wrappers
  import opened Numbers

  const OP_DUP: byte := 0x76
  const OP_EQUAL: byte := 0x87
  const OP_EQUALVERIFY: byte := 0x88
  const OP_HASH160: byte := 0xa9
  const OP_CHECKSIG: byte := 0xac
  const SPECIAL_SCRIPTS := 6
  const UINT32: int := 0x1_0000_0000

  /** The curve arithmetic: whether a full key is a point of the curve, and the full form of a short key. */
  datatype Curve = Curve(fullyValid: seq<byte> -> bool, decompress: seq<byte> -> Option<seq<byte>>)

  /** A full key is determined by one coordinate and the parity of the other. */
  ghost predicate Lawful(curve: Curve) {
    && (forall k: seq<byte> :: |k| == 65 && k[0] == 4 && curve.fullyValid(k) ==>
          curve.decompress([2 + k[64] % 2] + k[1..33]) == Some(k))
    && (forall k: seq<byte> :: curve.decompress(k).Some? ==> |curve.decompress(k).value| == 65)
  }

  // ---------------------------------------------------------------- scripts

  predicate IsToKeyID(s: seq<byte>) {
    |s| == 25 && s[0] == OP_DUP && s[1] == OP_HASH160 && s[2] == 20 && s[23] == OP_EQUALVERIFY && s[24] == OP_CHECKSIG
  }

  predicate IsToScriptID(s: seq<byte>) {
    |s| == 23 && s[0] == OP_HASH160 && s[1] == 20 && s[22] == OP_EQUAL
  }

  predicate IsToShortKey(s: seq<byte>) {
    |s| == 35 && s[0] == 33 && s[34] == OP_CHECKSIG && (s[1] == 2 || s[1] == 3)
  }

  /** Keys that are no point of the curve cannot be shortened. */
  predicate IsToFullKey(curve: Curve, s: seq<byte>) {
    |s| == 67 && s[0] == 65 && s[66] == OP_CHECKSIG && s[1] == 4 && curve.fullyValid(s[1..66])
  }

  /** The short form of a script, if it has one. */
  function Shortened(curve: Curve, s: seq<byte>): Option<seq<byte>> {
    if IsToKeyID(s) then Some([0] + s[3..23])
    else if IsToScriptID(s) then Some([1] + s[2..22])
    else if IsToShortKey(s) then Some(s[1..34])
    else if IsToFullKey(curve, s) then Some([4 + s[65] % 2] + s[2..34])
    else None
  }

  function SpecialSize(nSize: nat): nat {
    if nSize == 0 || nSize == 1 then 20 else if nSize == 2 || nSize == 3 || nSize == 4 || nSize == 5 then 32 else 0
  }

  /** The script that a short form stands for, if there is one. */
  function Lengthened(curve: Curve, nSize: nat, s: seq<byte>): Option<seq<byte>>
    requires |s| == SpecialSize(nSize)
  {
    match nSize
    case 0 => Some([OP_DUP, OP_HASH160, 20] + s + [OP_EQUALVERIFY, OP_CHECKSIG])
    case 1 => Some([OP_HASH160, 20] + s + [OP_EQUAL])
    case 2 => Some([33, 2] + s + [OP_CHECKSIG])
    case 3 => Some([33, 3] + s + [OP_CHECKSIG])
    case 4 => FullKey(curve, [2] + s)
    case 5 => FullKey(curve, [3] + s)
    case _ => None
  }

  /** The scripts that have a short form, byte by byte, and what that is. */
  lemma ShortForms(curve: Curve, h: seq<byte>, x: seq<byte>, y: seq<byte>)
    requires |h| == 20 && |x| == 32 == |y|
    ensures Shortened(curve, [0x76, 0xa9, 20] + h + [0x88, 0xac]) == Some([0] + h)
    ensures Shortened(curve, [0xa9, 20] + h + [0x87]) == Some([1] + h)
    ensures Shortened(curve, [33, 2] + x + [0xac]) == Some([2] + x) && Shortened(curve, [33, 3] + x + [0xac]) == Some([3] + x)
    ensures Shortened(curve, [65, 4] + x + y + [0xac])
            == if curve.fullyValid([4] + x + y) then Some([4 + y[31] % 2] + x) else None
  {
    var k, p, q := [0x76, 0xa9, 20] + h + [0x88, 0xac], [33, 2] + x + [0xac], [33, 3] + x + [0xac];
    assert k[3..23] == h && ([0xa9, 20] + h + [0x87])[2..22] == h;
    assert p[1..34] == [2] + x && q[1..34] == [3] + x;
    var f := [65, 4] + x + y + [0xac];
    assert f[1..66] == [4] + x + y && f[2..34] == x && f[65] == y[31];
  }

  /** A script without a short form is stored behind its size, which six is added to; the others need no size. */
  lemma StoredForms(curve: Curve, s: seq<byte>)
    ensures Shortened(curve, s).Some? ==> ScriptBytes(curve, s) == Shortened(curve, s).value
    ensures Shortened(curve, s).None? && |s| + 6 < 0x1_0000_0000 ==> ScriptBytes(curve, s) == VarIntBytes(|s| + 6) + s
  {
    hide VarIntBytes, Shortened;
  }

  function FullKey(curve: Curve, k: seq<byte>): Option<seq<byte>> {
    match curve.decompress(k)
    case None => None
    case Some(full) => Some([65] + full + [OP_CHECKSIG])
  }

  /** A sequence in three parts. */
  lemma InParts(s: seq<byte>, from: nat, to: nat)
    requires from <= to <= |s|
    ensures s == s[..from] + s[from..to] + s[to..]
  {
  }

  lemma KeyIDParts(s: seq<byte>)
    requires IsToKeyID(s)
    ensures s == [OP_DUP, OP_HASH160, 20] + s[3..23] + [OP_EQUALVERIFY, OP_CHECKSIG]
  {
    InParts(s, 3, 23);
    assert s[..3] == [s[0], s[1], s[2]] && s[23..] == [s[23], s[24]];
  }

  lemma ScriptIDParts(s: seq<byte>)
    requires IsToScriptID(s)
    ensures s == [OP_HASH160, 20] + s[2..22] + [OP_EQUAL]
  {
    InParts(s, 2, 22);
    assert s[..2] == [s[0], s[1]] && s[22..] == [s[22]];
  }

  lemma ShortKeyParts(s: seq<byte>)
    requires IsToShortKey(s)
    ensures s == [33, s[1]] + s[2..34] + [OP_CHECKSIG] && s[1..34][1..] == s[2..34]
  {
    InParts(s, 2, 34);
    assert s[..2] == [s[0], s[1]] && s[34..] == [s[34]];
  }

  lemma FullKeyParts(curve: Curve, s: seq<byte>)
    requires IsToFullKey(curve, s)
    ensures s == [65] + s[1..66] + [OP_CHECKSIG] && s[1..66][1..33] == s[2..34] && s[1..66][64] == s[65]
  {
    InParts(s, 1, 66);
    assert s[..1] == [s[0]] && s[66..] == [s[66]];
  }

  /** Lengthening undoes shortening. */
  lemma LengthenShortened(curve: Curve, s: seq<byte>)
    requires Lawful(curve) && Shortened(curve, s).Some?
    ensures var b := Shortened(curve, s).value;
            && |b| > 0 && b[0] < SPECIAL_SCRIPTS && |b| == 1 + SpecialSize(b[0])
            && Lengthened(curve, b[0], b[1..]) == Some(s)
  {
    var b := Shortened(curve, s).value;
    if IsToKeyID(s) {
      KeyIDParts(s);
      assert b[1..] == s[3..23];
    } else if IsToScriptID(s) {
      ScriptIDParts(s);
      assert b[1..] == s[2..22];
    } else if IsToShortKey(s) {
      ShortKeyParts(s);
    } else {
      FullKeyParts(curve, s);
      assert b[1..] == s[2..34];
    }
  }

  // ---------------------------------------------------------------- scripts in a stream

  /** The size that is written, in 32 bits. */
  function SizeCode(s: seq<byte>): nat { (|s| + SPECIAL_SCRIPTS) % UINT32 }

  function ScriptBytes(curve: Curve, s: seq<byte>): seq<byte> {
    match Shortened(curve, s)
    case Some(b) => b
    case None => VarIntBytes(SizeCode(s)) + s
  }

  /** A script from a stream; a short form that stands for nothing leaves the script as it was before. */
  function ReadScript(curve: Curve, before: seq<byte>, s: seq<byte>): Option<Read<seq<byte>>> {
    match ReadUnsigned(s, 4)
    case None => None
    case Some(Read(nSize, rest)) =>
      if nSize < SPECIAL_SCRIPTS then
        var n := SpecialSize(nSize);
        if |rest| < n then None
        else
          var script := Lengthened(curve, nSize, rest[..n]);
          Some(Read(if script.Some? then script.value else before, rest[n..]))
      else
        var n := nSize - SPECIAL_SCRIPTS;
        if |rest| < n then None else Some(Read(rest[..n], rest[n..]))
  }

  lemma SmallVarInt(b: byte)
    requires b < 128
    ensures VarIntBytes(b) == [b]
  {
  }

  /** A script has a short form, or a size that can be written. */
  predicate Sized(curve: Curve, s: seq<byte>) { Shortened(curve, s).Some? || |s| + SPECIAL_SCRIPTS < UINT32 }

  /** A script comes back as it was, whatever follows in the stream. */
  lemma ScriptComesBack(curve: Curve, before: seq<byte>, s: seq<byte>, t: seq<byte>)
    requires Lawful(curve) && Sized(curve, s)
    ensures ReadScript(curve, before, ScriptBytes(curve, s) + t) == Some(Read(s, t))
  {
    hide Lengthened, Shortened, ReadUnsigned, VarIntBytes;
    match Shortened(curve, s)
    case Some(b) =>
      LengthenShortened(curve, s);
      SmallVarInt(b[0]);
      ReadFitting(b[0], 4, b[1..] + t);
      assert b + t == [b[0]] + (b[1..] + t);
      assert (b[1..] + t)[..SpecialSize(b[0])] == b[1..] && (b[1..] + t)[SpecialSize(b[0])..] == t;
    case None =>
      ReadFitting(|s| + SPECIAL_SCRIPTS, 4, s + t);
      assert ScriptBytes(curve, s) + t == VarIntBytes(|s| + SPECIAL_SCRIPTS) + (s + t);
      assert (s + t)[..|s|] == s && (s + t)[|s|..] == t;
  }

  /** One whose size wraps around does not. */
  lemma ScriptIsCut(curve: Curve, before: seq<byte>, s: seq<byte>, t: seq<byte>)
    requires !Sized(curve, s)
    ensures ReadScript(curve, before, ScriptBytes(curve, s) + t) != Some(Read(s, t))
  {
    hide Lengthened, Shortened, ReadUnsigned, VarIntBytes;
    var n := SizeCode(s);
    ReadFitting(n, 4, s + t);
    assert ScriptBytes(curve, s) + t == VarIntBytes(n) + (s + t);
    assert |s| >= n;
  }

  lemma ScriptRoundTrip(curve: Curve, before: seq<byte>, s: seq<byte>, t: seq<byte>)
    requires Lawful(curve)
    ensures ReadScript(curve, before, ScriptBytes(curve, s) + t) == Some(Read(s, t)) <==> Sized(curve, s)
  {
    hide ReadScript, ScriptBytes, Sized;
    if Sized(curve, s) {
      ScriptComesBack(curve, before, s, t);
    } else {
      ScriptIsCut(curve, before, s, t);
    }
  }

  class CScriptCompressor {
    const curve: Curve
    var script: seq<byte>

    constructor (curve: Curve, script: seq<byte>)
      ensures this.curve == curve && this.script == script
    {
      this.curve := curve;
      this.script := script;
    }

    method Compress() returns (ok: bool, out: seq<byte>)
      ensures ok <==> Shortened(curve, script).Some?
      ensures ok ==> out == Shortened(curve, script).value
    {
      ok, out := true, [];
      if IsToKeyID(script) {
        out := [0x00] + script[3..23];
      } else if IsToScriptID(script) {
        out := [0x01] + script[2..22];
      } else if IsToShortKey(script) || IsToFullKey(curve, script) {
        var pubkey := script[1..|script| - 1];
        if pubkey[0] == 2 || pubkey[0] == 3 {
          out := [pubkey[0]] + pubkey[1..33];
        } else {
          out := [4 + pubkey[64] % 2] + pubkey[1..33];
          assert pubkey[1..33] == script[2..34];
        }
      } else {
        ok := false;
      }
    }

    /** Replaces the script; leaves it alone if the short form stands for nothing. */
    method Decompress(nSize: nat, s: seq<byte>) returns (ok: bool)
      requires Lawful(curve) && |s| == SpecialSize(nSize)
      modifies this
      ensures ok <==> Lengthened(curve, nSize, s).Some?
      ensures script == if ok then Lengthened(curve, nSize, s).value else old(script)
    {
      ok := true;
      if nSize == 0 {
        script := [OP_DUP, OP_HASH160, 20] + s + [OP_EQUALVERIFY, OP_CHECKSIG];
      } else if nSize == 1 {
        script := [OP_HASH160, 20] + s + [OP_EQUAL];
      } else if nSize == 2 || nSize == 3 {
        script := [33, nSize] + s + [OP_CHECKSIG];
      } else if nSize == 4 || nSize == 5 {
        var pubkey := curve.decompress([nSize - 2] + s);
        if pubkey.None? {
          return false;
        }
        assert |pubkey.value| == 65;
        script := [65] + pubkey.value + [OP_CHECKSIG];
      } else {
        ok := false;
      }
    }

    method GetSerializeSize() returns (size: nat)
      ensures size == |ScriptBytes(curve, script)|
    {
      var ok, compr := Compress();
      if ok {
        return |compr|;
      }
      var nSize := (|script| + SPECIAL_SCRIPTS) % UINT32;
      var n := GetSizeOfVarInt(nSize);
      size := |script| + n;
    }

    method Serialize(s: seq<byte>) returns (out: seq<byte>)
      ensures out == s + ScriptBytes(curve, script)
    {
      var ok, compr := Compress();
      if ok {
        return s + compr;
      }
      var nSize := (|script| + SPECIAL_SCRIPTS) % UINT32;
      out := WriteVarInt(s, nSize, 4);
      assert out + script == s + (VarIntBytes(nSize) + script);
      out := out + script;
    }

    /** Reads a script over the one before. */
    method Unserialize(s: seq<byte>) returns (ok: bool, rest: seq<byte>)
      requires Lawful(curve)
      modifies this
      ensures ok <==> ReadScript(curve, old(script), s).Some?
      ensures ok ==> ReadScript(curve, old(script), s) == Some(Read(script, rest))
    {
      var r := ReadVarInt(s, 4);
      if r.None? {
        return false, s;
      }
      var nSize := r.value.value;
      rest := r.value.rest;
      if nSize < SPECIAL_SCRIPTS {
        var n := SpecialSize(nSize);
        if |rest| < n {
          return false, rest;
        }
        var restored := Decompress(nSize, rest[..n]);
        return true, rest[n..];
      }
      nSize := nSize - SPECIAL_SCRIPTS;
      if |rest| < nSize {
        return false, rest;
      }
      script := rest[..nSize];
      return true, rest[nSize..];
    }
  }
}
