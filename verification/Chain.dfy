/**
 The tree of blocks, each knowing its predecessor and one block further back, and the active chain
 as a vector of blocks by height.
 */
module Chain {
  import opened Bits
  import opened SkipList
  import opened Numbers

  // ---------------------------------------------------------------- blocks

  /** An entry of the block index. Predecessor and height are fixed when it is entered. */
  class CBlockIndex {
    const hash: nat
    const pprev: CBlockIndex?
    const nHeight: int
    var pskip: CBlockIndex?

    /** A chain of predecessors down to height 0. */
    ghost predicate Linked()
      decreases nHeight
    {
      && 0 <= nHeight
      && (pprev == null <==> nHeight == 0)
      && (pprev != null ==> pprev.nHeight == nHeight - 1 && pprev.Linked())
    }

    /** The block reached by following pprev down to height `h`. */
    ghost function Ancestor(h: nat): CBlockIndex
      requires Linked() && h <= nHeight
      decreases nHeight
    {
      if h == nHeight then this else pprev.Ancestor(h)
    }

    lemma {:induction false} AncestorIs(h: nat)
      requires Linked() && h <= nHeight
      ensures Ancestor(h).nHeight == h && Ancestor(h).Linked()
      ensures if h > 0 then Ancestor(h).pprev == Ancestor(h - 1) && Ancestor(h - 1).Linked() && Ancestor(h - 1).nHeight == h - 1
              else Ancestor(h).pprev == null
      ensures Ancestor(nHeight) == this
      decreases nHeight
    {
      if h < nHeight {
        pprev.AncestorIs(h);
      }
    }

    lemma {:induction false} AncestorOfAncestor(h: nat, i: nat)
      requires Linked() && i <= h <= nHeight
      ensures (AncestorIs(h); Ancestor(h).Ancestor(i) == Ancestor(i))
      decreases nHeight
    {
      if h < nHeight {
        AncestorIs(h);
        pprev.AncestorOfAncestor(h, i);
      }
    }

    ghost predicate SkipOk()
      requires Linked()
      reads this
    {
      pskip != null ==> nHeight > 0 && (SkipGoesBack(nHeight); pskip == Ancestor(GetSkipHeight(nHeight)))
    }

    constructor (hash: nat, pprev: CBlockIndex?)
      requires pprev != null ==> pprev.Linked()
      ensures Linked() && SkipOk() && this.pprev == pprev && this.hash == hash
    {
      this.hash, this.pprev, this.pskip := hash, pprev, null;
      this.nHeight := if pprev == null then 0 else pprev.nHeight + 1;
    }

    /** Where the two pointers of the block at height `h` on the way down lead. */
    lemma WalkStep(h: nat, tree: set<CBlockIndex>)
      requires this in tree && ValidTree(tree) && Linked() && 0 < h <= nHeight
      ensures Ancestor(h) in tree && Ancestor(h).pprev != null && Ancestor(h).pprev == Ancestor(h - 1)
      ensures Ancestor(h - 1) in tree
      ensures (SkipGoesBack(h);
               Ancestor(h).pskip != null ==> Ancestor(h).pskip == Ancestor(GetSkipHeight(h)) && Ancestor(GetSkipHeight(h)) in tree)
    {
      hide GetSkipHeight;
      AncestorIs(h);
      AncestorInTree(this, h, tree);
      AncestorInTree(this, h - 1, tree);
      SkipGoesBack(h);
      if Ancestor(h).pskip != null {
        AncestorOfAncestor(h, GetSkipHeight(h));
        AncestorInTree(this, GetSkipHeight(h), tree);
      }
    }

    /**
     The block at `height` on the way down from this one, or null. `tree` holds all of that way.
     `turns` counts the turns of the loop: few, if every block has its skip pointer.
     */
    method GetAncestor(height: int, ghost tree: set<CBlockIndex>) returns (r: CBlockIndex?, ghost turns: nat)
      requires this in tree && ValidTree(tree)
      ensures r == if 0 <= height <= nHeight then Ancestor(height) else null
      ensures AllSkip(tree) && 0 <= height <= nHeight ==> turns == Turns(nHeight, height)
      ensures AllSkip(tree) ==> forall k: nat :: nHeight <= Pow2(k) ==> turns <= k * k + 1
    {
      hide Turns, Hop, GetSkipHeight, Ancestor, Linked, SkipOk, ValidTree;
      turns := 0;
      InTree(this, tree);
      if height > nHeight || height < 0 {
        return null, 0;
      }
      AncestorIs(nHeight);
      var pindexWalk := this;
      var heightWalk := nHeight;
      while heightWalk > height
        invariant height <= heightWalk <= nHeight
        invariant pindexWalk in tree && pindexWalk == Ancestor(heightWalk)
        invariant AllSkip(tree) ==> turns + Turns(heightWalk, height) == Turns(nHeight, height)
        decreases heightWalk
      {
        TurnsNext(heightWalk, height);
        HopIs(heightWalk, height);
        turns := turns + 1;
        WalkStep(heightWalk, tree);
        SkipGoesBack(heightWalk);
        var heightSkip := GetSkipHeight(heightWalk);
        var heightSkipPrev := GetSkipHeight(heightWalk - 1);
        if pindexWalk.pskip != null &&
           (heightSkip == height ||
            (heightSkip > height && !(heightSkipPrev < heightSkip - 2 && heightSkipPrev >= height)))
        {
          pindexWalk := pindexWalk.pskip;
          heightWalk := heightSkip;
        } else {
          assert pindexWalk.pprev != null;
          pindexWalk := pindexWalk.pprev;
          heightWalk := heightWalk - 1;
        }
      }
      r := pindexWalk;
      NoTurns(height);
      if AllSkip(tree) {
        forall k: nat | nHeight <= Pow2(k)
          ensures turns <= k * k + 1
        {
          WalkIsShort(k, nHeight, height);
        }
      }
    }

    /** A new block joins the tree. */
    method BuildSkip(ghost tree: set<CBlockIndex>)
      requires Linked() && ValidTree(tree) && this !in tree && (pprev != null ==> pprev in tree)
      requires SkipOk()
      modifies this`pskip
      ensures ValidTree(tree + {this})
      ensures pprev != null ==> nHeight > 0 && (SkipGoesBack(nHeight); pskip == Ancestor(GetSkipHeight(nHeight)))
      ensures old(AllSkip(tree)) ==> AllSkip(tree + {this})
    {
      if pprev != null {
        SkipGoesBack(nHeight);
        var p, _ := pprev.GetAncestor(GetSkipHeight(nHeight), tree);
        pskip := p;
      }
    }
  }

  /** Blocks closed under predecessor, with every skip pointer either missing or right. */
  ghost predicate ValidTree(tree: set<CBlockIndex>)
    reads tree
  {
    forall b :: b in tree ==> b.Linked() && (b.pprev != null ==> b.pprev in tree) && b.SkipOk()
  }

  /** Every block but the first has its skip pointer, as BuildSkip leaves it. */
  ghost predicate AllSkip(tree: set<CBlockIndex>)
    reads tree
  {
    forall b :: b in tree && b.pprev != null ==> b.pskip != null
  }

  lemma InTree(b: CBlockIndex, tree: set<CBlockIndex>)
    requires ValidTree(tree) && b in tree
    ensures b.Linked() && b.nHeight >= 0
  {
  }

  lemma {:induction false} AncestorInTree(b: CBlockIndex, h: nat, tree: set<CBlockIndex>)
    requires ValidTree(tree) && b in tree && h <= b.nHeight
    ensures b.Ancestor(h) in tree
    decreases b.nHeight
  {
    if h < b.nHeight {
      AncestorInTree(b.pprev, h, tree);
    }
  }

  // ---------------------------------------------------------------- the active chain

  /** A block at every height, each the predecessor of the next. */
  ghost predicate IsChain(v: seq<CBlockIndex?>) {
    forall i :: 0 <= i < |v| ==>
      v[i] != null && v[i].nHeight == i && v[i].Linked() && (i > 0 ==> v[i].pprev == v[i - 1])
  }

  /** What is in a chain brings all its ancestors with it. */
  lemma {:induction false} ChainIsAncestry(v: seq<CBlockIndex?>, h: nat, i: nat)
    requires IsChain(v) && i <= h < |v|
    ensures v[i] == v[h].Ancestor(i)
    decreases h
  {
    if i < h {
      ChainIsAncestry(v, h - 1, i);
    }
  }

  /** All ancestors of a block, by height, are a chain. */
  ghost predicate IsLineOf(v: seq<CBlockIndex?>, b: CBlockIndex)
    requires b.Linked()
  {
    |v| == b.nHeight + 1 && forall i: nat :: i < |v| ==> v[i] == b.Ancestor(i)
  }

  lemma LineIsChain(v: seq<CBlockIndex?>, b: CBlockIndex)
    requires b.Linked() && IsLineOf(v, b)
    ensures IsChain(v)
  {
    forall i: nat | i < |v|
      ensures v[i] != null && v[i].nHeight == i && v[i].Linked() && (i > 0 ==> v[i].pprev == v[i - 1])
    {
      b.AncestorIs(i);
    }
  }

  function Resized(v: seq<CBlockIndex?>, n: nat): seq<CBlockIndex?> {
    if n <= |v| then v[..n] else v + seq(n - |v|, _ => null)
  }

  function Reached(p: CBlockIndex?): int { if p == null then 0 else p.nHeight + 1 }

  class CChain {
    var vChain: seq<CBlockIndex?>

    constructor ()
      ensures IsChain(vChain) && vChain == []
    {
      vChain := [];
    }

    function Tip(): CBlockIndex?
      reads this
    {
      if |vChain| > 0 then vChain[|vChain| - 1] else null
    }

    function At(nHeight: int): CBlockIndex?
      reads this
    {
      if nHeight < 0 || nHeight >= |vChain| then null else vChain[nHeight]
    }

    predicate Contains(pindex: CBlockIndex)
      reads this
    {
      At(pindex.nHeight) == pindex
    }

    function Height(): int
      reads this
    {
      |vChain| - 1
    }

    /** The successor of a block in the chain. */
    function Next(pindex: CBlockIndex): (r: CBlockIndex?)
      reads this
      requires IsChain(vChain)
      ensures r != null ==> r.pprev == pindex && Contains(r)
      ensures r == null <==> !Contains(pindex) || pindex == Tip()
    {
      if Contains(pindex) then At(pindex.nHeight + 1) else null
    }

    /** Afterwards the chain is the line of `pindex`, although the walk stops where the old chain is met. */
    method SetTip(pindex: CBlockIndex?)
      requires IsChain(vChain) && (pindex != null ==> pindex.Linked())
      modifies this
      ensures IsChain(vChain)
      ensures if pindex == null then vChain == [] else IsLineOf(vChain, pindex)
    {
      if pindex == null {
        vChain := [];
        return;
      }
      var n := pindex.nHeight + 1;
      vChain := Resized(vChain, n);
      ghost var resized := vChain;
      var p: CBlockIndex? := pindex;
      while p != null && vChain[p.nHeight] != p
        invariant |vChain| == n
        invariant p != null ==> p.Linked() && p.nHeight < n && p == pindex.Ancestor(p.nHeight)
        invariant forall i: nat :: i < Reached(p) <= n ==> vChain[i] == resized[i]
        invariant forall i: nat :: Reached(p) <= i < n ==> vChain[i] == pindex.Ancestor(i)
        decreases Reached(p)
      {
        pindex.AncestorIs(p.nHeight);
        vChain := vChain[p.nHeight := p];
        p := p.pprev;
      }
      if p != null {
        forall i: nat | i <= p.nHeight
          ensures vChain[i] == pindex.Ancestor(i)
        {
          ChainIsAncestry(old(vChain), p.nHeight, i);
          pindex.AncestorOfAncestor(p.nHeight, i);
        }
      }
      LineIsChain(vChain, pindex);
    }

    /** A block is in the chain exactly where the chain and its line agree. */
    ghost predicate Agree(pindex: CBlockIndex, h: nat)
      requires pindex.Linked() && h <= pindex.nHeight
      reads this
    {
      h < |vChain| && vChain[h] == pindex.Ancestor(h)
    }

    /** The highest block that is both in the chain and on the line of `pindex`. */
    method FindFork(pindex: CBlockIndex?, ghost tree: set<CBlockIndex>) returns (r: CBlockIndex?)
      requires IsChain(vChain) && ValidTree(tree) && (pindex != null ==> pindex in tree)
      ensures pindex == null ==> r == null
      ensures pindex != null && r == null ==> forall h: nat :: h <= pindex.nHeight ==> !Agree(pindex, h)
      ensures pindex != null && r != null ==> Contains(r) && r.nHeight <= pindex.nHeight && r == pindex.Ancestor(r.nHeight)
      ensures pindex != null && r != null ==> forall h: nat :: h <= pindex.nHeight ==> (Agree(pindex, h) <==> h <= r.nHeight)
    {
      hide CBlockIndex.Ancestor, CBlockIndex.Linked, IsChain, ValidTree;
      if pindex == null {
        return null;
      }
      InTree(pindex, tree);
      r := pindex;
      pindex.AncestorIs(pindex.nHeight);
      if r.nHeight > Height() {
        if Height() >= 0 {
          pindex.AncestorIs(Height());
        }
        ghost var turns;
        r, turns := r.GetAncestor(Height(), tree);
      }
      while r != null && !Contains(r)
        invariant r != null ==> r.Linked() && 0 <= r.nHeight <= pindex.nHeight && r == pindex.Ancestor(r.nHeight)
        invariant forall h: nat :: Reached(r) <= h <= pindex.nHeight ==> !Agree(pindex, h)
        decreases Reached(r)
      {
        pindex.AncestorIs(r.nHeight);
        r := r.pprev;
      }
      if r != null {
        forall h: nat | h <= r.nHeight
          ensures Agree(pindex, h)
        {
          ChainIsAncestry(vChain, r.nHeight, h);
          pindex.AncestorOfAncestor(r.nHeight, h);
        }
      }
    }

    /** The hashes of the ancestors of `start` at the locator heights. */
    method GetLocator(start: CBlockIndex?, ghost tree: set<CBlockIndex>) returns (vHave: seq<nat>)
      requires IsChain(vChain) && ValidTree(tree)
      requires start != null ==> start in tree
      requires forall b :: b in vChain ==> b in tree
      ensures start == null && vChain == [] ==> vHave == []
      ensures start != null || vChain != [] ==>
                var from := if start != null then start else Tip();
                vHave == HashesAt(from, LocatorHeights(from.nHeight, 1, 0))
    {
      vHave := [];
      var pindex := start;
      if pindex == null {
        pindex := Tip();
      }
      if pindex != null {
        vHave := LocatorFrom(pindex, tree);
      }
    }

    method LocatorFrom(from: CBlockIndex, ghost tree: set<CBlockIndex>) returns (vHave: seq<nat>)
      requires IsChain(vChain) && ValidTree(tree) && from in tree
      requires forall b :: b in vChain ==> b in tree
      ensures vHave == HashesAt(from, LocatorHeights(from.nHeight, 1, 0))
    {
      hide CBlockIndex.Ancestor, CBlockIndex.Linked, IsChain, ValidTree, HashesAt, LocatorHeights;
      InTree(from, tree);
      var nStep := 1;
      vHave := [];
      var pindex := from;
      from.AncestorIs(from.nHeight);
      while true
        invariant pindex in tree && 0 <= pindex.nHeight <= from.nHeight && pindex == from.Ancestor(pindex.nHeight)
        invariant nStep >= 1
        invariant vHave + HashesAt(from, LocatorHeights(pindex.nHeight, nStep, |vHave|)) == HashesAt(from, LocatorHeights(from.nHeight, 1, 0))
        decreases pindex.nHeight
      {
        LocatorStep(from, pindex, nStep, vHave);
        vHave := vHave + [pindex.hash];
        if pindex.nHeight == 0 {
          break;
        }
        pindex := Earlier(from, pindex, if pindex.nHeight - nStep > 0 then pindex.nHeight - nStep else 0, tree);
        if |vHave| > 10 {
          nStep := nStep * 2;
        }
      }
    }

    lemma LocatorStep(from: CBlockIndex, b: CBlockIndex, nStep: nat, vHave: seq<nat>)
      requires from.Linked() && 0 <= b.nHeight <= from.nHeight && b == from.Ancestor(b.nHeight) && nStep >= 1
      ensures var h, n := b.nHeight, |vHave|;
              vHave + HashesAt(from, LocatorHeights(h, nStep, n)) ==
              vHave + [b.hash] + if h == 0 then [] else
                HashesAt(from, LocatorHeights(if h > nStep then h - nStep else 0, if n + 1 > 10 then 2 * nStep else nStep, n + 1))
    {
    }

    /** By index where the block is in the chain, by the skip list where it is not. */
    method Earlier(ghost from: CBlockIndex, pindex: CBlockIndex, nHeight: nat, ghost tree: set<CBlockIndex>) returns (r: CBlockIndex)
      requires IsChain(vChain) && ValidTree(tree) && from in tree && pindex in tree
      requires forall b :: b in vChain ==> b in tree
      requires nHeight <= pindex.nHeight <= from.nHeight && pindex == from.Ancestor(pindex.nHeight)
      ensures r in tree && r.nHeight == nHeight && r == from.Ancestor(nHeight)
    {
      from.AncestorOfAncestor(pindex.nHeight, nHeight);
      from.AncestorIs(nHeight);
      AncestorInTree(pindex, nHeight, tree);
      if Contains(pindex) {
        ChainIsAncestry(vChain, pindex.nHeight, nHeight);
        r := At(nHeight);
      } else {
        ghost var turns;
        r, turns := pindex.GetAncestor(nHeight, tree);
      }
    }
  }

  // ---------------------------------------------------------------- the heights of a locator

  /** From `h` down: steps of `step`, doubled from the eleventh entry on, and height 0 at the end. */
  function LocatorHeights(h: nat, step: nat, size: nat): (r: seq<nat>)
    requires step >= 1
    ensures r != [] && r[0] == h
    ensures forall i :: 0 <= i < |r| ==> r[i] <= h
    decreases h
  {
    [h] + if h == 0 then [] else LocatorHeights(if h > step then h - step else 0, if size + 1 > 10 then 2 * step else step, size + 1)
  }

  ghost function HashesAt(b: CBlockIndex, heights: seq<nat>): (r: seq<nat>)
    requires b.Linked() && forall i :: 0 <= i < |heights| ==> heights[i] <= b.nHeight
    ensures |r| == |heights| && forall i :: 0 <= i < |r| ==> r[i] == b.Ancestor(heights[i]).hash
  {
    if heights == [] then [] else [b.Ancestor(heights[0]).hash] + HashesAt(b, heights[1..])
  }

  /** Strictly down to height 0. */
  lemma {:induction false} LocatorGoesDown(h: nat, step: nat, size: nat)
    requires step >= 1
    ensures var r := LocatorHeights(h, step, size);
            r[|r| - 1] == 0 && forall i, j :: 0 <= i < j < |r| ==> r[i] > r[j]
    decreases h
  {
    hide LocatorHeights;
    LocatorUnfolds(h, step, size);
    if h > 0 {
      LocatorGoesDown(if h > step then h - step else 0, if size + 1 > 10 then 2 * step else step, size + 1);
    }
  }

  lemma LocatorUnfolds(h: nat, step: nat, size: nat)
    requires step >= 1
    ensures LocatorHeights(h, step, size)
            == [h] + if h == 0 then []
                     else LocatorHeights(if h > step then h - step else 0, if size + 1 > 10 then 2 * step else step, size + 1)
  {
  }

  /** Once the steps double, an entry more costs twice the height. */
  lemma {:induction false} DoublingIsShort(h: nat, step: nat, size: nat)
    requires step >= 1 && size >= 10 && h > 0
    ensures |LocatorHeights(h, step, size)| >= 2
    ensures step * (Pow2(|LocatorHeights(h, step, size)| - 2) - 1) < h
    decreases h
  {
    var h' := if h > step then h - step else 0;
    var n := |LocatorHeights(h', 2 * step, size + 1)|;
    if h' > 0 {
      DoublingIsShort(h', 2 * step, size + 1);
      assert Pow2(n + 1 - 2) == 2 * Pow2(n - 2);
      assert step * (2 * Pow2(n - 2) - 1) == 2 * step * (Pow2(n - 2) - 1) + step;
    }
  }

  /** How far the k-th entry of a locator is below the first: one more each up to the tenth, then twice as far each time. */
  function Depth(k: nat): nat { if k <= 10 then k else 9 + Pow2(k - 10) }

  lemma {:induction false} LocatorFrom(h: nat, k: nat, i: nat)
    requires i < |LocatorHeights(h, Depth(k + 1) - Depth(k), k)|
    ensures Depth(k + i) >= Depth(k) && Depth(k + 1) > Depth(k)
    ensures LocatorHeights(h, Depth(k + 1) - Depth(k), k)[i] == Max(0, h - (Depth(k + i) - Depth(k)))
    decreases i
  {
    hide Pow2, Depth, LocatorHeights;
    StepDoubles(k);
    var step := Depth(k + 1) - Depth(k);
    if h == 0 {
      LocatorEnds(step, k);
    } else if i > 0 {
      LocatorNext(h, step, k, i);
      LocatorFrom(if h > step then h - step else 0, k + 1, i - 1);
    }
  }

  lemma LocatorEnds(step: nat, size: nat)
    requires step >= 1
    ensures |LocatorHeights(0, step, size)| == 1
  {
  }

  lemma StepDoubles(k: nat)
    ensures Depth(k + 1) - Depth(k) == if k <= 10 then 1 else Pow2(k - 10)
    ensures Depth(k + 2) - Depth(k + 1) == (if k + 1 > 10 then 2 else 1) * (Depth(k + 1) - Depth(k)) && Depth(k + 1) > Depth(k)
  {
    assert Pow2(0) == 1 && Pow2(1) == 2;
  }

  lemma LocatorNext(h: nat, step: nat, size: nat, i: nat)
    requires step >= 1 && h > 0 && 0 < i < |LocatorHeights(h, step, size)|
    ensures var r := LocatorHeights(if h > step then h - step else 0, if size + 1 > 10 then 2 * step else step, size + 1);
            i - 1 < |r| && LocatorHeights(h, step, size)[i] == r[i - 1]
  {
  }

  /** The heights of a locator, one by one. */
  lemma LocatorIs(h: nat, i: nat)
    requires i < |LocatorHeights(h, 1, 0)|
    ensures LocatorHeights(h, 1, 0)[i] == Max(0, h - (if i <= 10 then i else 9 + Pow2(i - 10)))
  {
    LocatorFrom(h, 0, i);
  }

  /** A locator has at most twelve entries, or one more for each doubling of the height. */
  lemma {:induction false} LocatorIsShort(h: nat)
    ensures var n := |LocatorHeights(h, 1, 0)|; n <= 12 || Pow2(n - 12) <= h
  {
    SlowStart(h, 0);
  }

  lemma {:induction false} SlowStart(h: nat, size: nat)
    requires size <= 10
    ensures var n := size + |LocatorHeights(h, 1, size)|; n <= 12 || Pow2(n - 12) <= h
    decreases 10 - size
  {
    if h > 0 && size == 10 {
      DoublingIsShort(h, 1, 10);
    } else if h > 0 {
      SlowStart(h - 1, size + 1);
    }
  }
}
