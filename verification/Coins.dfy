/**
 The unspent outputs of one transaction. A spent output is null; null outputs at the end are
 dropped, and coins with no output left are pruned.
 */
module Coins {
  import opened Numbers

  datatype TxOut = TxOut(nValue: int, scriptPubKey: seq<byte>, nRounds: int)
  {
    predicate IsNull() { nValue == -1 }
  }

  const NULL_OUT := TxOut(-1, [], -10)

  datatype CCoins = CCoins(fCoinBase: bool, vout: seq<TxOut>, nHeight: int, nVersion: int)
  {
    predicate IsPruned() { forall i :: 0 <= i < |vout| ==> vout[i].IsNull() }

    predicate IsAvailable(nPos: nat) { nPos < |vout| && !vout[nPos].IsNull() }

    /** No null output at the end. */
    predicate Clean() { vout != [] ==> !vout[|vout| - 1].IsNull() }

    function Cleaned(): CCoins { this.(vout := DropNulls(vout)) }
  }

  const EMPTY := CCoins(false, [], 0, 0)

  function DropNulls(vout: seq<TxOut>): (r: seq<TxOut>)
    ensures r <= vout
    ensures r != [] ==> !r[|r| - 1].IsNull()
    ensures forall i :: |r| <= i < |vout| ==> vout[i].IsNull()
  {
    if vout != [] && vout[|vout| - 1].IsNull() then DropNulls(vout[..|vout| - 1]) else vout
  }

  /** Cleaning leaves the available outputs alone, is done once, and empties exactly the pruned coins. */
  lemma CleanedCoins(c: CCoins)
    ensures c.Cleaned().Clean() && c.Cleaned().Cleaned() == c.Cleaned()
    ensures forall i: nat :: c.Cleaned().IsAvailable(i) <==> c.IsAvailable(i)
    ensures forall i: nat :: c.IsAvailable(i) ==> c.Cleaned().vout[i] == c.vout[i]
    ensures c.IsPruned() <==> c.Cleaned().vout == []
    ensures c.Clean() ==> c.Cleaned() == c
  {
    var d := DropNulls(c.vout);
    if d != [] {
      assert c.vout[|d| - 1] == d[|d| - 1];
    }
  }

  method Cleanup(c: CCoins) returns (r: CCoins)
    ensures r == c.Cleaned()
  {
    var vout := c.vout;
    while |vout| > 0 && vout[|vout| - 1].IsNull()
      invariant vout <= c.vout && DropNulls(vout) == DropNulls(c.vout)
    {
      vout := vout[..|vout| - 1];
    }
    r := c.(vout := vout);
  }

  method Spend(c: CCoins, nPos: nat) returns (ok: bool, r: CCoins)
    ensures ok == c.IsAvailable(nPos)
    ensures !ok ==> r == c
    ensures ok ==> r.Clean() && r.fCoinBase == c.fCoinBase && r.nHeight == c.nHeight && r.nVersion == c.nVersion
    ensures ok ==> forall i: nat :: r.IsAvailable(i) <==> c.IsAvailable(i) && i != nPos
    ensures ok ==> forall i: nat :: r.IsAvailable(i) ==> i < |c.vout| && r.vout[i] == c.vout[i]
  {
    if nPos >= |c.vout| || c.vout[nPos].IsNull() {
      return false, c;
    }
    var spent := c.(vout := c.vout[nPos := NULL_OUT]);
    r := Cleanup(spent);
    CleanedCoins(spent);
    ok := true;
  }
}
