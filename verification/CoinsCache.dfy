/**
 The cache layers as objects. A layer sits on another layer or on the bottom store; every method
 keeps all layers below it truthful, and says what happens to the map the layer shows.
 */
module CoinsCache {
  import opened Coins
  import opened CoinsView

  /** Coins without outputs take up no memory. */
  ghost predicate EmptyIsFree(mem: CCoins -> nat) {
    forall c: CCoins :: c.vout == [] ==> mem(c) == 0
  }

  /** No entry has changed; a copy under `t`, at most, has come in, marked as new exactly if there is nothing below. */
  predicate CachedAtMost(was: EntryMap, now: EntryMap, t: Txid, below: CoinsMap) {
    now == was || (t !in was && t in now && now == was[t := now[t]] && !now[t].isDirty && (now[t].isFresh <==> t !in below))
  }

  lemma CachedNothing(m: EntryMap, t: Txid, below: CoinsMap)
    ensures CachedAtMost(m, m, t, below)
  {
  }

  ghost function LiveOf(m: CCoinsModifier?): Live {
    if m == null then NoModifier else Modifying(m.it, m.cachedCoinUsage)
  }

  class CCoinsViewCache {
    /** The view below: another cache, or the store when there is none. */
    const base: CCoinsViewCache?
    const disk: CCoinsViewDB
    /** All layers below this one. */
    ghost const below: set<CCoinsViewCache>
    /** DynamicMemoryUsage of coins. */
    const mem: CCoins -> nat

    var hasModifier: bool
    var hashBlock: BlockHash
    var cacheCoins: EntryMap
    var cachedCoinsUsage: nat

    ghost var live: CCoinsModifier?
    /** What this layer shows. */
    ghost var shown: CoinsMap

    ghost predicate Linked() {
      && this !in below
      && (if base == null then below == {} else below == {base} + base.below && base.disk == disk)
      && (forall l :: l in below ==> l.below <= below && l.disk == disk)
    }

    ghost predicate Stacked() {
      Linked() && forall l :: l in below ==> l.Linked()
    }

    /** This layer and all below it. */
    ghost function Layers(): set<CCoinsViewCache> {
      {this} + below
    }

    ghost function ShownBelow(): CoinsMap
      reads base, disk
    {
      if base == null then disk.Seen() else base.shown
    }

    /** Which block this layer stands for: its own, or else that of the view below. */
    ghost function Best(): BlockHash
      requires Stacked()
      reads Layers()`hashBlock, disk`hashBest
      decreases below, 1
    {
      if hashBlock != 0 then hashBlock else BestBelow()
    }

    ghost function BestBelow(): BlockHash
      requires Stacked()
      reads below`hashBlock, disk`hashBest
      decreases below, 0
    {
      if base == null then disk.hashBest else base.Best()
    }

    /** This layer is in order with respect to what the view below shows. */
    ghost predicate Own()
      reads this, base, disk
    {
      && shown == Overlay(ShownBelow(), cacheCoins)
      && LayerOk(ShownBelow(), cacheCoins, cachedCoinsUsage, LiveOf(live), mem)
      && (hasModifier <==> live != null) && (live != null ==> live.cache == this)
      && EmptyIsFree(mem)
    }

    ghost predicate ValidBelow()
      requires Stacked()
      reads below, disk
    {
      disk.Valid() && forall l :: l in below ==> l.Own() && !l.hasModifier
    }

    ghost predicate Valid()
      requires Stacked()
      reads Layers(), disk
    {
      ValidBelow() && Own()
    }

    /** Nothing that shows has changed, in this layer or just below. */
    twostate predicate ShowsTheSame()
      reads this, base, disk
    {
      shown == old(shown) && ShownBelow() == old(ShownBelow())
    }

    constructor (base: CCoinsViewCache?, disk: CCoinsViewDB, mem: CCoins -> nat)
      requires disk.Valid() && EmptyIsFree(mem)
      requires base != null ==> base.disk == disk && base.Stacked() && base.Valid() && !base.hasModifier
      ensures this.base == base && this.disk == disk && this.mem == mem
      ensures Stacked() && Valid() && !hasModifier && shown == ShownBelow() && hashBlock == 0
    {
      this.base, this.disk, this.mem := base, disk, mem;
      below := if base == null then {} else {base} + base.below;
      hasModifier, hashBlock, cacheCoins, cachedCoinsUsage, live := false, 0, map[], 0, null;
      new;
      EmptyIsOk(ShownBelow(), mem);
      Install(map[], 0, false, null);
    }

    /** The layer below is as it was, and so is what shows below it. */
    twostate predicate BaseStays()
      reads this, base, if base == null then {} else {base.base, base.disk}
    {
      base != null ==> old(allocated(base)) && base.cacheCoins == old(base.cacheCoins) && base.ShownBelow() == old(base.ShownBelow())
    }

    /** The new contents of this layer, in one go. */
    method Install(cacheCoins': EntryMap, usage': nat, hasModifier': bool, ghost m: CCoinsModifier?)
      requires Stacked() && ValidBelow() && EmptyIsFree(mem)
      requires (hasModifier' <==> m != null) && (m != null ==> m.cache == this)
      requires LayerOk(ShownBelow(), cacheCoins', usage', LiveOf(m), mem)
      modifies this`cacheCoins, this`cachedCoinsUsage, this`hasModifier, this`live, this`shown
      ensures Valid() && cacheCoins == cacheCoins' && live == m
      ensures ShownBelow() == old(ShownBelow()) && BaseStays()
    {
      hide LayerOk, Overlay;
      assert base != null ==> base.Linked() && base != this && base.base != this;
      cacheCoins, cachedCoinsUsage, hasModifier, live := cacheCoins', usage', hasModifier', m;
      shown := Overlay(ShownBelow(), cacheCoins);
      assert ValidBelow();
    }

    // ---------------------------------------------------------------- reading

    method FetchCoins(txid: Txid) returns (found: bool)
      requires Stacked() && Valid()
      modifies Layers()`cacheCoins, Layers()`cachedCoinsUsage, Layers()`hasModifier, Layers()`live, Layers()`shown
      ensures Valid() && ShowsTheSame() && live == old(live) && hasModifier == old(hasModifier)
      ensures found <==> txid in cacheCoins
      ensures !found ==> txid !in shown
      ensures CachedAtMost(old(cacheCoins), cacheCoins, txid, ShownBelow())
      decreases below, 1
    {
      hide LayerOk, EmptyIsFree;
      if txid in cacheCoins {
        return true;
      }
      var got, tmp := GetCoinsBelow(txid);
      if !got {
        return false;
      }
      FetchKeepsOk(ShownBelow(), cacheCoins, cachedCoinsUsage, LiveOf(live), mem, txid, tmp);
      Install(cacheCoins[txid := Entry(tmp, false, tmp.IsPruned())], cachedCoinsUsage + mem(tmp), hasModifier, live);
      return true;
    }

    /** base->GetCoins, whichever view the base is. */
    method GetCoinsBelow(txid: Txid) returns (got: bool, coins: CCoins)
      requires Stacked() && Valid()
      modifies below`cacheCoins, below`cachedCoinsUsage, below`hasModifier, below`live, below`shown
      ensures Valid() && ShowsTheSame()
      ensures got && !coins.IsPruned() ==> txid in ShownBelow() && ShownBelow()[txid] == coins
      ensures !got || coins.IsPruned() ==> txid !in ShownBelow()
      ensures coins.Clean()
      ensures base != null ==> CachedAtMost(old(base.cacheCoins), base.cacheCoins, txid, base.ShownBelow())
      ensures base != null ==> base.ShownBelow() == old(base.ShownBelow())
      decreases below, 0
    {
      if base == null {
        got, coins := disk.GetCoins(txid);
      } else {
        got, coins := base.GetCoins(txid);
      }
    }

    method GetCoins(txid: Txid) returns (got: bool, coins: CCoins)
      requires Stacked() && Valid()
      modifies Layers()`cacheCoins, Layers()`cachedCoinsUsage, Layers()`hasModifier, Layers()`live, Layers()`shown
      ensures Valid() && ShowsTheSame() && live == old(live) && hasModifier == old(hasModifier)
      ensures got && !coins.IsPruned() ==> txid in shown && shown[txid] == coins
      ensures !got || coins.IsPruned() ==> txid !in shown
      ensures !hasModifier ==> coins.Clean()
      ensures CachedAtMost(old(cacheCoins), cacheCoins, txid, ShownBelow())
      decreases below, 2
    {
      got := FetchCoins(txid);
      coins := if got then cacheCoins[txid].coins else EMPTY;
    }

    /**
     Looks only at whether there are outputs at all; coins are kept clean, so that is enough, but for
     an entry that a modifier is still working on.
     */
    method HaveCoins(txid: Txid) returns (r: bool)
      requires Stacked() && Valid()
      modifies Layers()`cacheCoins, Layers()`cachedCoinsUsage, Layers()`hasModifier, Layers()`live, Layers()`shown
      ensures Valid() && ShowsTheSame() && live == old(live)
      ensures live == null || live.it != txid ==> (r <==> txid in shown)
      ensures txid in shown ==> r
    {
      hide EmptyIsFree, LayerOk, Overlay;
      r := FetchCoins(txid);
      if r {
        NonEmptyShows(ShownBelow(), cacheCoins, cachedCoinsUsage, LiveOf(live), mem, txid);
        r := cacheCoins[txid].coins.vout != [];
      }
    }

    method GetBestBlock() returns (r: BlockHash)
      requires Stacked()
      modifies Layers()`hashBlock
      ensures r == Best() == old(Best()) && BestBelow() == old(BestBelow())
      ensures hashBlock == r && (old(hashBlock) == 0 && base != null ==> base.hashBlock == r)
      decreases below
    {
      if hashBlock == 0 {
        if base == null {
          hashBlock := disk.hashBest;
        } else {
          var h := base.GetBestBlock();
          hashBlock := h;
        }
      }
      r := hashBlock;
    }

    method SetBestBlock(hashBlockIn: BlockHash)
      requires Stacked()
      modifies this`hashBlock
      ensures hashBlock == hashBlockIn && Best() == if hashBlockIn != 0 then hashBlockIn else BestBelow()
      ensures old(Valid()) ==> Valid()
    {
      hide LayerOk, Overlay, EmptyIsFree;
      hashBlock := hashBlockIn;
    }

    method Uncache(txid: Txid)
      requires Stacked() && Valid()
      modifies this`cacheCoins, this`cachedCoinsUsage, this`hasModifier, this`live, this`shown
      ensures Valid() && ShowsTheSame() && live == old(live) && hasModifier == old(hasModifier)
      ensures cacheCoins == if txid in old(cacheCoins) && !old(cacheCoins[txid]).isDirty && !old(cacheCoins[txid]).isFresh
                            then old(cacheCoins) - {txid} else old(cacheCoins)
    {
      if txid in cacheCoins && !cacheCoins[txid].isDirty && !cacheCoins[txid].isFresh {
        UncacheKeepsOk(ShownBelow(), cacheCoins, cachedCoinsUsage, LiveOf(live), mem, txid);
        Install(cacheCoins - {txid}, cachedCoinsUsage - mem(cacheCoins[txid].coins), hasModifier, live);
      }
    }

    // ---------------------------------------------------------------- modifying one entry

    /** Hands out the entry for change; new if there is none anywhere. */
    method ModifyCoins(txid: Txid) returns (m: CCoinsModifier)
      requires Stacked() && Valid() && !hasModifier
      modifies Layers()`cacheCoins, Layers()`cachedCoinsUsage, Layers()`hasModifier, Layers()`live, Layers()`shown
      ensures Valid() && fresh(m) && live == m && m.it == txid && m.cache == this
      ensures ShowsTheSame()
      ensures if cacheCoins[txid].coins.IsPruned() then txid !in shown else txid in shown && shown[txid] == cacheCoins[txid].coins
      ensures cacheCoins == old(cacheCoins)[txid := cacheCoins[txid]] && cacheCoins[txid].isDirty
      ensures txid !in old(cacheCoins) ==> (cacheCoins[txid].isFresh <==> txid !in ShownBelow())
      ensures txid in old(cacheCoins) ==>
                cacheCoins[txid].isFresh == old(cacheCoins[txid].isFresh) && cacheCoins[txid].coins == old(cacheCoins[txid].coins)
      ensures base != null ==> CachedAtMost(old(base.cacheCoins), base.cacheCoins, txid, base.ShownBelow())
      ensures base != null ==> base.ShownBelow() == old(base.ShownBelow())
    {
      var e: Entry;
      var cachedCoinUsage := 0;
      if txid !in cacheCoins {
        var got, coins := GetCoinsBelow(txid);
        e := if !got then Entry(EMPTY, true, true) else Entry(coins, true, coins.IsPruned());
      } else {
        cachedCoinUsage := mem(cacheCoins[txid].coins);
        e := cacheCoins[txid].(isDirty := true);
        assert EntryTruthful(ShownBelow(), txid, cacheCoins[txid]);
      }
      m := HandOut(txid, e, cachedCoinUsage);
    }

    /** Takes the caller's word that there is nothing unspent below, nor in the cache, under this id. */
    method ModifyNewCoins(txid: Txid) returns (m: CCoinsModifier)
      requires Stacked() && Valid() && !hasModifier
      requires txid !in ShownBelow() && txid !in shown
      modifies this`cacheCoins, this`cachedCoinsUsage, this`hasModifier, this`live, this`shown
      ensures Valid() && fresh(m) && live == m && m.it == txid && m.cache == this
      ensures ShowsTheSame()
      ensures cacheCoins == old(cacheCoins)[txid := Entry(EMPTY, true, true)] && BaseStays()
    {
      if txid in cacheCoins {
        CleanedCoins(cacheCoins[txid].coins);
        assert mem(cacheCoins[txid].coins) == 0;
      }
      m := HandOut(txid, Entry(EMPTY, true, true), 0);
    }

    method HandOut(txid: Txid, e: Entry, usage: nat) returns (m: CCoinsModifier)
      requires Stacked() && Valid() && !hasModifier && e.isDirty && (e.isFresh ==> txid !in ShownBelow())
      requires if e.coins.IsPruned() then txid !in shown else txid in shown && shown[txid] == e.coins
      requires usage == if txid in cacheCoins then mem(cacheCoins[txid].coins) else 0
      modifies this`cacheCoins, this`cachedCoinsUsage, this`hasModifier, this`live, this`shown
      ensures Valid() && fresh(m) && live == m && m.it == txid && m.cache == this
      ensures cacheCoins == old(cacheCoins)[txid := e] && ShowsTheSame() && BaseStays()
    {
      ModifyKeepsOk(ShownBelow(), cacheCoins, cachedCoinsUsage, mem, txid, e);
      m := new CCoinsModifier(this, txid, usage);
      Install(cacheCoins[txid := e], cachedCoinsUsage, true, m);
    }

    // ---------------------------------------------------------------- flushing

    /** One entry of a child, written into this cache. */
    method WriteOne(t: Txid, e: Entry)
      requires Stacked() && Valid() && !hasModifier
      requires EntryTruthful(shown, t, e) && e.coins.Clean()
      modifies this`cacheCoins, this`cachedCoinsUsage, this`hasModifier, this`live, this`shown
      ensures Valid() && !hasModifier && shown == Overlay(old(shown), map[t := e])
      ensures forall u :: WrittenAt(old(cacheCoins), cacheCoins, map[t := e], u)
      ensures ShownBelow() == old(ShownBelow())
    {
      WriteKeepsOk(ShownBelow(), cacheCoins, cachedCoinsUsage, mem, t, e);
      var coins, usage := cacheCoins, cachedCoinsUsage;
      if e.isDirty {
        if t !in coins {
          if !(e.isFresh && e.coins.IsPruned()) {
            coins := coins[t := Entry(e.coins, true, e.isFresh)];
            usage := usage + mem(e.coins);
          }
        } else {
          if coins[t].isFresh && e.coins.IsPruned() {
            usage := usage - mem(coins[t].coins);
            coins := coins - {t};
          } else {
            usage := usage - mem(coins[t].coins);
            coins := coins[t := Entry(e.coins, true, coins[t].isFresh)];
            usage := usage + mem(e.coins);
          }
        }
      }
      assert coins == WriteEntry(cacheCoins, t, e);
      WriteEntryAt(cacheCoins, t, e);
      Install(coins, usage, false, null);
    }

    method BatchWrite(mapCoins: EntryMap, hashBlockIn: BlockHash)
      requires Stacked() && Valid() && !hasModifier
      requires Truthful(shown, mapCoins) && AllClean(mapCoins)
      modifies this
      ensures Valid() && !hasModifier && shown == Overlay(old(shown), mapCoins) && ShownBelow() == old(ShownBelow())
      ensures forall t :: WrittenAt(old(cacheCoins), cacheCoins, mapCoins, t)
      ensures hashBlock == hashBlockIn && BestBelow() == old(BestBelow())
    {
      hide LayerOk, Overlay, EmptyIsFree;
      WriteAll(mapCoins);
      hashBlock := hashBlockIn;
    }

    method WriteAll(mapCoins: EntryMap)
      requires Stacked() && Valid() && !hasModifier
      requires Truthful(shown, mapCoins) && AllClean(mapCoins)
      modifies this`cacheCoins, this`cachedCoinsUsage, this`hasModifier, this`live, this`shown
      ensures Valid() && !hasModifier && shown == Overlay(old(shown), mapCoins) && ShownBelow() == old(ShownBelow())
      ensures forall t :: WrittenAt(old(cacheCoins), cacheCoins, mapCoins, t)
    {
      hide LayerOk, Overlay, Halfway, EmptyIsFree, Usage, Own, WrittenAt;
      WritesNothing(cacheCoins, mapCoins);
      var rest := mapCoins;
      HalfwayEnds(shown, mapCoins);
      while rest != map[]
        invariant Valid() && !hasModifier && ShownBelow() == old(ShownBelow())
        invariant Part(rest, mapCoins)
        invariant shown == Halfway(old(shown), mapCoins, rest)
        invariant forall t :: WrittenAt(old(cacheCoins), cacheCoins, mapCoins - rest.Keys, t)
        decreases |rest|
      {
        var it :| it in rest;
        HalfwayOneMore(old(shown), mapCoins, rest, it);
        ghost var before := cacheCoins;
        WriteOne(it, rest[it]);
        WrittenOneMore(old(cacheCoins), before, cacheCoins, mapCoins, rest, it);
        rest := rest - {it};
      }
      AllWritten(mapCoins, rest);
    }

    /**
     The layer below now shows what this one showed, and this one is empty. The block hash goes down
     too, even when it is null: then the layer below forgets its own.
     */
    method Flush()
      requires Stacked() && Valid() && !hasModifier
      modifies this, base, disk
      ensures Valid() && !hasModifier && cacheCoins == map[] && hashBlock == old(hashBlock)
      ensures shown == old(shown) && ShownBelow() == old(shown)
      ensures base != null ==> base.hashBlock == hashBlock && base.ShownBelow() == old(base.ShownBelow())
      ensures base != null ==> base.BestBelow() == old(base.BestBelow())
      ensures base == null ==> disk.hashBest == if hashBlock != 0 then hashBlock else old(disk.hashBest)
      ensures base != null ==> forall t :: WrittenAt(old(base.cacheCoins), base.cacheCoins, old(cacheCoins), t)
      ensures base == null ==> forall t :: StoredAt(old(disk.db), disk.db, old(cacheCoins), t)
    {
      hide LayerOk, Overlay, WrittenAt, StoredAt;
      OkToFlush(ShownBelow(), cacheCoins, cachedCoinsUsage, mem);
      if base == null {
        disk.BatchWrite(cacheCoins, hashBlock);
      } else {
        base.BatchWrite(cacheCoins, hashBlock);
      }
      EmptyIsOk(ShownBelow(), mem);
      Install(map[], 0, false, null);
      FlushedBest();
    }

    /**
     Flush keeps the block this layer stands for, unless that was the own block of the layer below
     and nobody had asked for it here: then the block further below comes through.
     */
    twostate lemma FlushedBest()
      requires Stacked() && hashBlock == old(hashBlock)
      requires base != null ==> old(allocated(base)) && base.hashBlock == hashBlock && base.BestBelow() == old(base.BestBelow())
      requires base == null ==> disk.hashBest == if hashBlock != 0 then hashBlock else old(disk.hashBest)
      ensures Best() == old(Best()) <==>
        hashBlock != 0 || base == null || old(base.hashBlock) == 0 || old(base.hashBlock) == old(base.BestBelow())
    {
      if hashBlock == 0 && base != null {
        assert BestBelow() == base.Best() == base.BestBelow();
        assert old(BestBelow()) == old(base.Best());
      }
    }

    /** Of two layers of a stack one is below the other. */
    lemma {:induction false} Linear(k: CCoinsViewCache, l: CCoinsViewCache)
      requires Stacked() && k in Layers() && l in Layers()
      ensures k in l.Layers() || l in k.below
      decreases below
    {
      if k != this && l != this {
        base.Linear(k, l);
      }
    }

    /** Flushing a layer further down leaves the layers above it in order. */
    twostate lemma StaysValidAbove(l: CCoinsViewCache)
      requires Stacked() && l in below && old(Valid())
      requires forall k :: k in Layers() && k !in l.Layers() ==> unchanged(k)
      requires l.Valid() && !l.hasModifier && l.shown == old(l.shown)
      ensures Valid() && ShownBelow() == old(ShownBelow())
    {
      hide LayerOk, Overlay, EmptyIsFree;
      forall k | k in Layers()
        ensures k.Own() && (k in below ==> !k.hasModifier)
      {
        if k !in l.Layers() {
          Linear(k, l);
          assert k.Linked() && old(k.Own());
          assert k.base == l || l in k.base.below;
          assert k.ShownBelow() == old(k.ShownBelow());
        }
      }
    }
  }

  /** A reference to the entry being changed. */
  class CCoinsModifier {
    const cache: CCoinsViewCache
    const it: Txid
    const cachedCoinUsage: nat

    constructor (cache: CCoinsViewCache, it: Txid, usage: nat)
      ensures this.cache == cache && this.it == it && cachedCoinUsage == usage
    {
      this.cache, this.it, cachedCoinUsage := cache, it, usage;
    }

    /** Any change to the coins. */
    method Assign(c: CCoins)
      requires cache.Stacked() && cache.Valid() && cache.live == this
      modifies cache`cacheCoins, cache`cachedCoinsUsage, cache`hasModifier, cache`live, cache`shown
      ensures cache.Valid() && cache.live == this
      ensures cache.shown == Put(old(cache.shown), it, c) && cache.ShownBelow() == old(cache.ShownBelow())
      ensures cache.cacheCoins == old(cache.cacheCoins)[it := old(cache.cacheCoins[it]).(coins := c)]
      ensures cache.BaseStays()
    {
      AssignKeepsOk(cache.ShownBelow(), cache.cacheCoins, cache.cachedCoinsUsage, LiveOf(this), cache.mem, c);
      cache.Install(cache.cacheCoins[it := cache.cacheCoins[it].(coins := c)], cache.cachedCoinsUsage, true, this);
    }

    lemma LiveEntry()
      requires cache.Stacked() && cache.Valid() && cache.live == this
      ensures it in cache.cacheCoins
    {
    }

    /** The destructor: clean up, and drop the entry if it never existed below and is spent again. */
    method Release()
      requires cache.Stacked() && cache.Valid() && cache.live == this
      modifies cache`cacheCoins, cache`cachedCoinsUsage, cache`hasModifier, cache`live, cache`shown
      ensures cache.Valid() && !cache.hasModifier
      ensures cache.shown == Put(old(cache.shown), it, old(cache.cacheCoins[it].coins).Cleaned())
      ensures cache.ShownBelow() == old(cache.ShownBelow())
      ensures it in cache.cacheCoins <==> !(old(cache.cacheCoins[it]).isFresh && old(cache.cacheCoins[it]).coins.IsPruned())
      ensures it in cache.cacheCoins ==>
                cache.cacheCoins[it] == old(cache.cacheCoins[it]).(coins := old(cache.cacheCoins[it]).coins.Cleaned())
      ensures cache.cacheCoins - {it} == old(cache.cacheCoins) - {it}
      ensures cache.BaseStays()
    {
      hide LayerOk, Overlay, Put, EmptyIsFree;
      LiveEntry();
      ReleasedIs(cache.cacheCoins, it);
      ReleaseKeepsOk(cache.ShownBelow(), cache.cacheCoins, cache.cachedCoinsUsage, LiveOf(this), cache.mem);
      var e := cache.cacheCoins[it];
      var coins := Cleanup(e.coins);
      var usage := cache.cachedCoinsUsage - cachedCoinUsage;
      if e.isFresh && coins.IsPruned() {
        cache.Install(cache.cacheCoins - {it}, usage, false, null);
      } else {
        cache.Install(cache.cacheCoins[it := e.(coins := coins)], usage + cache.mem(coins), false, null);
      }
    }
  }

  /** A layer without a block of its own, flushed unasked, makes the layer below forget block 7. */
  method FlushForgets(mem: CCoins -> nat) returns (before: BlockHash, after: BlockHash)
    requires EmptyIsFree(mem)
    ensures before == 7 && after == 0
  {
    hide LayerOk, Overlay, EmptyIsFree, CCoinsViewCache.Own;
    var disk := new CCoinsViewDB();
    var base := new CCoinsViewCache(null, disk, mem);
    base.SetBestBlock(7);
    var child := new CCoinsViewCache(base, disk, mem);
    before := base.GetBestBlock();
    child.Flush();
    after := base.GetBestBlock();
  }

  // ---------------------------------------------------------------- whole runs

  datatype Op =
    | Look(n: nat, t: Txid)
    | Change(t: Txid, c: CCoins)
    | ChangeNew(t: Txid, c: CCoins)
    | Drop(n: nat, t: Txid)
    | FlushLayer(n: nat)

  /** What one operation does to the plain map the top of the stack shows. */
  function Changed(m: CoinsMap, op: Op): CoinsMap {
    if op.Change? || op.ChangeNew? then Put(m, op.t, op.c.Cleaned()) else m
  }

  function Replayed(m: CoinsMap, ops: seq<Op>): CoinsMap
    decreases |ops|
  {
    if ops == [] then m else Replayed(Changed(m, ops[0]), ops[1..])
  }

  /** ModifyNewCoins is called only for ids under which nothing unspent is shown, here or just below. */
  predicate Allowed(m: CoinsMap, low: CoinsMap, op: Op) { op.ChangeNew? ==> op.t !in m && op.t !in low }

  /** What shows below the top changes only when the top is flushed. */
  function Lowered(m: CoinsMap, low: CoinsMap, single: bool, op: Op): CoinsMap {
    if op.FlushLayer? && (op.n == 0 || single) then m else low
  }

  predicate AllAllowed(m: CoinsMap, low: CoinsMap, single: bool, ops: seq<Op>)
    decreases |ops|
  {
    ops == [] || (Allowed(m, low, ops[0]) && AllAllowed(Changed(m, ops[0]), Lowered(m, low, single, ops[0]), single, ops[1..]))
  }

  /** The layer `n` steps below the top, or the lowest one. */
  method LayerAt(top: CCoinsViewCache, n: nat) returns (l: CCoinsViewCache)
    requires top.Stacked() && top.Valid() && !top.hasModifier
    ensures l in top.Layers() && l.Stacked() && l.Valid() && !l.hasModifier
    ensures l.below <= top.below && l.disk == top.disk
    ensures l == top <==> n == 0 || top.base == null
  {
    hide LayerOk, Overlay, EmptyIsFree;
    l := top;
    var i := 0;
    while i < n && l.base != null
      invariant 0 <= i <= n
      invariant l in top.Layers() && l.Stacked() && l.Valid() && !l.hasModifier
      invariant l.below <= top.below && l.disk == top.disk
      invariant l == top <==> i == 0
      decreases n - i
    {
      assert l.base.Linked();
      l, i := l.base, i + 1;
    }
  }

  /** Flush the layer `n` steps below the top, if there is one. */
  method FlushAt(top: CCoinsViewCache, n: nat)
    requires top.Stacked() && top.Valid() && !top.hasModifier
    modifies top.Layers(), top.disk
    ensures top.Valid() && !top.hasModifier && top.shown == old(top.shown)
    ensures top.ShownBelow() == if n == 0 || top.base == null then top.shown else old(top.ShownBelow())
  {
    hide LayerOk, Overlay, EmptyIsFree, CCoinsViewCache.Own;
    var l := LayerAt(top, n);
    l.Flush();
    if l != top {
      top.Linear(top, l);
      assert forall k :: k in top.Layers() && k !in l.Layers() ==> unchanged(k);
      top.StaysValidAbove(l);
    }
  }

  /** Look up coins in the layer `n` steps below the top. */
  method LookAt(top: CCoinsViewCache, n: nat, t: Txid)
    requires top.Stacked() && top.Valid() && !top.hasModifier
    modifies top.Layers()
    ensures top.Valid() && !top.hasModifier && top.shown == old(top.shown) && top.ShownBelow() == old(top.ShownBelow())
  {
    hide LayerOk, Overlay, EmptyIsFree, CCoinsViewCache.Own;
    var l := LayerAt(top, n);
    var _, _ := l.GetCoins(t);
    if l != top {
      top.Linear(top, l);
      assert forall k :: k in top.Layers() && k !in l.Layers() ==> unchanged(k);
      top.StaysValidAbove(l);
    }
  }

  /** Evict coins from the layer `n` steps below the top. */
  method DropAt(top: CCoinsViewCache, n: nat, t: Txid)
    requires top.Stacked() && top.Valid() && !top.hasModifier
    modifies top.Layers()
    ensures top.Valid() && !top.hasModifier && top.shown == old(top.shown) && top.ShownBelow() == old(top.ShownBelow())
  {
    hide LayerOk, Overlay, EmptyIsFree, CCoinsViewCache.Own;
    var l := LayerAt(top, n);
    l.Uncache(t);
    if l != top {
      top.Linear(top, l);
      assert forall k :: k in top.Layers() && k !in l.Layers() ==> unchanged(k);
      top.StaysValidAbove(l);
    }
  }

  /** Only the entry under `t` has changed: it is gone if it was new to the layers below and is pruned, else has the coins. */
  predicate ChangedAt(was: EntryMap, now: EntryMap, t: Txid, c: CCoins, below: CoinsMap, isNew: bool) {
    var isFresh := if t in was && !isNew then was[t].isFresh else t !in below;
    && now - {t} == was - {t} && (t in now <==> !(isFresh && c.IsPruned()))
    && (t in now ==> now[t] == Entry(c.Cleaned(), true, isFresh))
  }

  /** Change coins through the layer at the top; `isNew` where the caller knows that there are none. */
  method ChangeTop(top: CCoinsViewCache, t: Txid, c: CCoins, isNew: bool)
    requires top.Stacked() && top.Valid() && !top.hasModifier
    requires isNew ==> t !in top.shown && t !in top.ShownBelow()
    modifies top.Layers(), top.disk
    ensures top.Valid() && !top.hasModifier
    ensures top.shown == Put(old(top.shown), t, c.Cleaned()) && top.ShownBelow() == old(top.ShownBelow())
    ensures ChangedAt(old(top.cacheCoins), top.cacheCoins, t, c, if isNew then map[] else top.ShownBelow(), isNew)
    ensures top.base != null ==>
              CachedAtMost(old(top.base.cacheCoins), top.base.cacheCoins, t, top.base.ShownBelow())
              && top.base.ShownBelow() == old(top.base.ShownBelow())
  {
    hide LayerOk, Overlay, Put, EmptyIsFree, CachedAtMost, CCoinsViewCache.Own;
    var m;
    if isNew {
      m := top.ModifyNewCoins(t);
      if top.base != null {
        CachedNothing(top.base.cacheCoins, t, top.base.ShownBelow());
      }
    } else {
      m := top.ModifyCoins(t);
    }
    LiveIsDirty(top);
    SetTo(m, c);
  }

  lemma LiveIsDirty(top: CCoinsViewCache)
    requires top.Stacked() && top.Valid() && top.live != null
    ensures top.live.it in top.cacheCoins && top.cacheCoins[top.live.it].isDirty
  {
  }

  /** Assigning through a modifier that then goes. */
  method SetTo(m: CCoinsModifier, c: CCoins)
    requires m.cache.Stacked() && m.cache.Valid() && m.cache.live == m
    requires m.it in m.cache.cacheCoins && m.cache.cacheCoins[m.it].isDirty
    modifies m.cache`cacheCoins, m.cache`cachedCoinsUsage, m.cache`hasModifier, m.cache`live, m.cache`shown
    ensures m.cache.Valid() && !m.cache.hasModifier
    ensures m.cache.shown == Put(old(m.cache.shown), m.it, c.Cleaned()) && m.cache.ShownBelow() == old(m.cache.ShownBelow())
    ensures m.cache.cacheCoins - {m.it} == old(m.cache.cacheCoins) - {m.it}
    ensures m.it in m.cache.cacheCoins <==> !(old(m.cache.cacheCoins[m.it]).isFresh && c.IsPruned())
    ensures m.it in m.cache.cacheCoins ==>
              m.cache.cacheCoins[m.it] == Entry(c.Cleaned(), true, old(m.cache.cacheCoins[m.it]).isFresh)
    ensures m.cache.BaseStays()
  {
    hide LayerOk, Overlay, Put, EmptyIsFree, CCoinsViewCache.Own;
    PutTwice(m.cache.shown, m.it, c, c.Cleaned());
    m.Assign(c);
    m.Release();
  }

  /** Coins made and spent again in a layer leave nothing there, if nothing was there or below under their id. */
  method MadeAndSpent(top: CCoinsViewCache, t: Txid, made: CCoins, spent: CCoins)
    requires top.Stacked() && top.Valid() && !top.hasModifier && spent.IsPruned()
    requires t !in top.cacheCoins && t !in top.ShownBelow()
    modifies top.Layers(), top.disk
    ensures top.Valid() && !top.hasModifier && top.cacheCoins == old(top.cacheCoins)
  {
    hide LayerOk, Overlay, Put, EmptyIsFree, CCoinsViewCache.Own;
    ghost var was := top.cacheCoins;
    ChangeTop(top, t, made, false);
    ChangeTop(top, t, spent, false);
    assert top.cacheCoins - {t} == was - {t};
    assert top.cacheCoins - {t} == top.cacheCoins && was - {t} == was;
  }

  /** New coins are flushed as new to the layer below. */
  method MadeAndFlushed(top: CCoinsViewCache, t: Txid, made: CCoins)
    requires top.Stacked() && top.Valid() && !top.hasModifier && top.base != null && !made.IsPruned()
    requires t !in top.cacheCoins && t !in top.base.cacheCoins && t !in top.base.ShownBelow()
    modifies top.Layers(), top.disk
    ensures top.Valid() && !top.hasModifier && top.cacheCoins == map[]
    ensures t in top.base.cacheCoins && top.base.cacheCoins[t].isFresh && top.base.cacheCoins[t].coins == made.Cleaned()
    ensures t in top.ShownBelow()
  {
    hide LayerOk, Put, EmptyIsFree, Overlay, CCoinsViewCache.Own;
    NotShown(top, t);
    CleanedCoins(made);
    ChangeTop(top, t, made, false);
    ghost var was, written := top.base.cacheCoins, top.cacheCoins;
    top.Flush();
    assert WrittenAt(was, top.base.cacheCoins, written, t);
    Shows(top, t);
  }

  lemma NotShown(top: CCoinsViewCache, t: Txid)
    requires top.Stacked() && top.Valid() && top.base != null && t !in top.base.cacheCoins && t !in top.base.ShownBelow()
    ensures t !in top.ShownBelow()
  {
    assert top.base.Own();
  }

  lemma Shows(top: CCoinsViewCache, t: Txid)
    requires top.Stacked() && top.Valid() && top.base != null && t in top.base.cacheCoins
    ensures t in top.ShownBelow() <==> !top.base.cacheCoins[t].coins.IsPruned()
  {
    assert top.base.Own();
  }

  /** Spent coins that the layer below knows to be new there are flushed away. */
  method SpentAndFlushed(top: CCoinsViewCache, t: Txid, spent: CCoins)
    requires top.Stacked() && top.Valid() && !top.hasModifier && top.base != null && spent.IsPruned()
    requires top.cacheCoins == map[] && t in top.base.cacheCoins && top.base.cacheCoins[t].isFresh && t in top.ShownBelow()
    modifies top.Layers(), top.disk
    ensures top.Valid() && !top.hasModifier && t !in top.cacheCoins && t !in top.base.cacheCoins
  {
    hide LayerOk, Put, EmptyIsFree, Overlay, CCoinsViewCache.Own;
    CleanedCoins(spent);
    ChangeTop(top, t, spent, false);
    ghost var was, written := top.base.cacheCoins, top.cacheCoins;
    top.Flush();
    assert WrittenAt(was, top.base.cacheCoins, written, t);
  }

  /** So coins made, flushed, spent and flushed again leave nothing in either layer. */
  method MadeFlushedAndSpent(top: CCoinsViewCache, t: Txid, made: CCoins, spent: CCoins)
    requires top.Stacked() && top.Valid() && !top.hasModifier && top.base != null && spent.IsPruned() && !made.IsPruned()
    requires t !in top.cacheCoins && t !in top.base.cacheCoins && t !in top.base.ShownBelow()
    modifies top.Layers(), top.disk
    ensures top.Valid() && !top.hasModifier && t !in top.cacheCoins && t !in top.base.cacheCoins
  {
    hide LayerOk, Put, EmptyIsFree, Overlay, CCoinsViewCache.Own, CCoinsViewCache.ValidBelow;
    MadeAndFlushed(top, t, made);
    SpentAndFlushed(top, t, spent);
  }

  method Perform(top: CCoinsViewCache, op: Op)
    requires top.Stacked() && top.Valid() && !top.hasModifier
    requires Allowed(top.shown, top.ShownBelow(), op)
    modifies top.Layers(), top.disk
    ensures top.Valid() && !top.hasModifier && top.shown == Changed(old(top.shown), op)
    ensures top.ShownBelow() == Lowered(old(top.shown), old(top.ShownBelow()), top.base == null, op)
  {
    hide LayerOk, Overlay, Put, EmptyIsFree, CCoinsViewCache.Own;
    match op {
    case Look(n, t) => LookAt(top, n, t);
    case Change(t, c) => ChangeTop(top, t, c, false);
    case ChangeNew(t, c) => ChangeTop(top, t, c, true);
    case Drop(n, t) => DropAt(top, n, t);
    case FlushLayer(n) => FlushAt(top, n);
    }
  }

  /**
   Any sequence of changes at the top, and lookups, evictions and flushes at any level, of a stack of
   any height shows at the top exactly what the changes alone would do to a plain map.
   */
  method Replay(top: CCoinsViewCache, ops: seq<Op>)
    requires top.Stacked() && top.Valid() && !top.hasModifier
    requires AllAllowed(top.shown, top.ShownBelow(), top.base == null, ops)
    modifies top.Layers(), top.disk
    ensures top.Valid() && !top.hasModifier
    ensures top.shown == Replayed(old(top.shown), ops)
  {
    hide LayerOk, Overlay, Changed, Lowered, Allowed, CCoinsViewCache.Own, EmptyIsFree;
    var i := 0;
    while i < |ops|
      invariant 0 <= i <= |ops|
      invariant top.Valid() && !top.hasModifier
      invariant AllAllowed(top.shown, top.ShownBelow(), top.base == null, ops[i..])
      invariant Replayed(top.shown, ops[i..]) == Replayed(old(top.shown), ops)
    {
      assert ops[i..][0] == ops[i] && ops[i..][1..] == ops[i + 1..];
      Perform(top, ops[i]);
      i := i + 1;
    }
  }
}
