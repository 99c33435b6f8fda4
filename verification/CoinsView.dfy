/** Stacked caches over the set of unspent coins. */
module CoinsView {
  import opened Coins

  // A cache layer holds some entries of the view below it; DIRTY marks an entry that may differ from
  // that view, FRESH one that the view below does not have. What a view shows is a plain map from
  // transaction ids to unpruned coins: pruned coins and no coins look the same.

  type Txid = nat
  /** 0 is the null hash. */
  type BlockHash = nat
  type CoinsMap = map<Txid, CCoins>
  type EntryMap = map<Txid, Entry>

  datatype Entry = Entry(coins: CCoins, isDirty: bool, isFresh: bool)

  // ---------------------------------------------------------------- what a layer shows

  /** The unpruned part of a store. */
  function Unpruned(m: CoinsMap): CoinsMap {
    map t | t in m && !m[t].IsPruned() :: m[t]
  }

  /** A layer seen through: its own entries where it has any, the view below elsewhere. */
  function Overlay(below: CoinsMap, cache: EntryMap): CoinsMap {
    map t | t in below.Keys + cache.Keys && (t in cache ==> !cache[t].coins.IsPruned()) ::
      if t in cache then cache[t].coins else below[t]
  }

  /** An entry tells the truth about the view below. */
  predicate EntryTruthful(below: CoinsMap, t: Txid, e: Entry) {
    && (e.isFresh ==> t !in below)
    && (!e.isDirty ==> if e.coins.IsPruned() then t !in below else t in below && below[t] == e.coins)
  }

  predicate Truthful(below: CoinsMap, cache: EntryMap) {
    forall t :: t in cache ==> EntryTruthful(below, t, cache[t])
  }

  // ---------------------------------------------------------------- writing one entry into the layer below

  /** What BatchWrite does with the entry `e` that a child has for `t`. */
  function WriteEntry(ours: EntryMap, t: Txid, e: Entry): EntryMap {
    if !e.isDirty then ours
    else if t !in ours then
      if e.isFresh && e.coins.IsPruned() then ours else ours[t := Entry(e.coins, true, e.isFresh)]
    else if ours[t].isFresh && e.coins.IsPruned() then ours - {t}
    else ours[t := Entry(e.coins, true, ours[t].isFresh)]
  }

  lemma WriteTruthful(below: CoinsMap, ours: EntryMap, t: Txid, e: Entry)
    requires Truthful(below, ours) && EntryTruthful(Overlay(below, ours), t, e)
    ensures Truthful(below, WriteEntry(ours, t, e))
  {
    var ours' := WriteEntry(ours, t, e);
    forall u | u in ours'
      ensures EntryTruthful(below, u, ours'[u])
    {
      if u == t && t in ours {
        assert EntryTruthful(below, t, ours[t]);
      }
    }
  }

  lemma WriteShows(below: CoinsMap, ours: EntryMap, t: Txid, e: Entry, u: Txid)
    requires Truthful(below, ours) && EntryTruthful(Overlay(below, ours), t, e)
    ensures var l, r := Overlay(below, WriteEntry(ours, t, e)), Overlay(Overlay(below, ours), map[t := e]);
            (u in l <==> u in r) && (u in l ==> l[u] == r[u])
  {
    if t in ours {
      assert EntryTruthful(below, t, ours[t]);
    }
  }

  /** Moving one entry down moves what it shows down, and what it claims stays true one level below. */
  lemma WriteEntryRefines(below: CoinsMap, ours: EntryMap, t: Txid, e: Entry)
    requires Truthful(below, ours)
    requires EntryTruthful(Overlay(below, ours), t, e)
    ensures Truthful(below, WriteEntry(ours, t, e))
    ensures Overlay(below, WriteEntry(ours, t, e)) == Overlay(Overlay(below, ours), map[t := e])
  {
    hide Overlay, Truthful, EntryTruthful, WriteEntry;
    WriteTruthful(below, ours, t, e);
    var l, r := Overlay(below, WriteEntry(ours, t, e)), Overlay(Overlay(below, ours), map[t := e]);
    forall u
      ensures (u in l <==> u in r) && (u in l ==> l[u] == r[u])
    {
      WriteShows(below, ours, t, e, u);
    }
    assert l.Keys == r.Keys;
  }

  /** The same for a store at the bottom, which knows no flags. */
  function StoreEntry(db: CoinsMap, t: Txid, e: Entry): CoinsMap {
    if !e.isDirty then db else if e.coins.IsPruned() then db - {t} else db[t := e.coins]
  }

  lemma StoreEntryRefines(db: CoinsMap, t: Txid, e: Entry)
    requires EntryTruthful(Unpruned(db), t, e)
    ensures Unpruned(StoreEntry(db, t, e)) == Overlay(Unpruned(db), map[t := e])
  {
    assert Unpruned(StoreEntry(db, t, e)).Keys == Overlay(Unpruned(db), map[t := e]).Keys;
  }

  lemma OverlayOneMore(below: CoinsMap, done: EntryMap, t: Txid, e: Entry)
    requires t !in done
    ensures Overlay(below, done[t := e]) == Overlay(Overlay(below, done), map[t := e])
  {
    var a, b := Overlay(below, done[t := e]), Overlay(Overlay(below, done), map[t := e]);
    forall x ensures (x in a <==> x in b) && (x in a ==> a[x] == b[x]) {
    }
  }

  /**
   What is cached under `t` after the entries of a child have been written: untouched without a dirty entry there.
   Nothing, if the child's coins are pruned and the entry here, or else the child's, is known not to exist
   below. Otherwise the child's coins, dirty, and fresh if the entry here was, or else the child's.
   */
  predicate WrittenAt(was: EntryMap, now: EntryMap, mapCoins: EntryMap, t: Txid) {
    if t !in mapCoins || !mapCoins[t].isDirty then
      (t in now <==> t in was) && (t in now ==> now[t] == was[t])
    else
      var isFresh := if t in was then was[t].isFresh else mapCoins[t].isFresh;
      && (t in now <==> !(isFresh && mapCoins[t].coins.IsPruned()))
      && (t in now ==> now[t].isDirty && now[t].isFresh == isFresh && now[t].coins == mapCoins[t].coins)
  }

  lemma WriteEntryAt(ours: EntryMap, t: Txid, e: Entry)
    ensures forall u :: WrittenAt(ours, WriteEntry(ours, t, e), map[t := e], u)
  {
  }

  /** What the store has under `t` afterwards. */
  predicate StoredAt(was: CoinsMap, now: CoinsMap, mapCoins: EntryMap, t: Txid) {
    if t !in mapCoins || !mapCoins[t].isDirty then
      (t in now <==> t in was) && (t in now ==> now[t] == was[t])
    else
      (t in now <==> !mapCoins[t].coins.IsPruned()) && (t in now ==> now[t] == mapCoins[t].coins)
  }

  predicate Part(rest: EntryMap, m: EntryMap) {
    forall t :: t in rest ==> t in m && rest[t] == m[t]
  }

  /** What shows when all of `m` but `rest` has been written over `below`. */
  function Halfway(below: CoinsMap, m: EntryMap, rest: EntryMap): CoinsMap {
    Overlay(below, m - rest.Keys)
  }

  lemma HalfwayOneMore(below: CoinsMap, m: EntryMap, rest: EntryMap, t: Txid)
    requires Part(rest, m) && t in rest && Truthful(below, m)
    ensures Part(rest - {t}, m)
    ensures EntryTruthful(Halfway(below, m, rest), t, rest[t])
    ensures Halfway(below, m, rest - {t}) == Overlay(Halfway(below, m, rest), map[t := rest[t]])
  {
    var done := m - rest.Keys;
    assert EntryTruthful(below, t, m[t]);
    assert (m - (rest - {t}).Keys).Keys == done[t := rest[t]].Keys;
    assert m - (rest - {t}).Keys == done[t := rest[t]];
    OverlayOneMore(below, done, t, rest[t]);
  }

  lemma StoredOneMore(was: CoinsMap, mid: CoinsMap, now: CoinsMap, m: EntryMap, rest: EntryMap, it: Txid)
    requires Part(rest, m) && it in rest
    requires forall t :: StoredAt(was, mid, m - rest.Keys, t)
    requires forall t :: StoredAt(mid, now, map[it := rest[it]], t)
    ensures forall t :: StoredAt(was, now, m - (rest - {it}).Keys, t)
  {
    forall t ensures StoredAt(was, now, m - (rest - {it}).Keys, t) {
      assert StoredAt(was, mid, m - rest.Keys, t) && StoredAt(mid, now, map[it := rest[it]], t);
    }
  }

  lemma WrittenOneMore(was: EntryMap, mid: EntryMap, now: EntryMap, m: EntryMap, rest: EntryMap, it: Txid)
    requires Part(rest, m) && it in rest
    requires forall t :: WrittenAt(was, mid, m - rest.Keys, t)
    requires forall t :: WrittenAt(mid, now, map[it := rest[it]], t)
    ensures forall t :: WrittenAt(was, now, m - (rest - {it}).Keys, t)
  {
    forall t ensures WrittenAt(was, now, m - (rest - {it}).Keys, t) {
      assert WrittenAt(was, mid, m - rest.Keys, t) && WrittenAt(mid, now, map[it := rest[it]], t);
    }
  }

  lemma WritesNothing(was: EntryMap, m: EntryMap)
    ensures forall t :: WrittenAt(was, was, m - m.Keys, t)
  {
  }

  lemma AllWritten(m: EntryMap, rest: EntryMap)
    requires rest == map[]
    ensures m - rest.Keys == m
  {
    assert rest.Keys == {};
  }

  lemma HalfwayEnds(below: CoinsMap, m: EntryMap)
    ensures Halfway(below, m, m) == below && Halfway(below, m, map[]) == Overlay(below, m)
  {
    assert m - m.Keys == map[];
    OverlayNothing(below);
    var none: EntryMap := map[];
    assert none.Keys == {};
    assert m - none.Keys == m;
  }

  lemma OverlayNothing(below: CoinsMap)
    ensures Overlay(below, map[]) == below
  {
    assert Overlay(below, map[]).Keys == below.Keys;
  }

  // ---------------------------------------------------------------- entries made, changed and dropped

  /** A copy of what is below shows nothing new. */
  lemma FetchShowsNothingNew(below: CoinsMap, cache: EntryMap, t: Txid, c: CCoins)
    requires Truthful(below, cache) && t !in cache
    requires if c.IsPruned() then t !in below else t in below && below[t] == c
    ensures Truthful(below, cache[t := Entry(c, false, c.IsPruned())])
    ensures Overlay(below, cache[t := Entry(c, false, c.IsPruned())]) == Overlay(below, cache)
  {
    assert Overlay(below, cache[t := Entry(c, false, c.IsPruned())]).Keys == Overlay(below, cache).Keys;
  }

  /** An entry without flags repeats the view below, so it can go. */
  lemma UncacheShowsNothingNew(below: CoinsMap, cache: EntryMap, t: Txid)
    requires Truthful(below, cache) && t in cache && !cache[t].isDirty
    ensures Overlay(below, cache - {t}) == Overlay(below, cache)
  {
    assert EntryTruthful(below, t, cache[t]);
    assert Overlay(below, cache - {t}).Keys == Overlay(below, cache).Keys;
  }

  /** So can a fresh entry that has become pruned. */
  lemma FreshPrunedShowsNothing(below: CoinsMap, cache: EntryMap, t: Txid)
    requires Truthful(below, cache) && t in cache && cache[t].isFresh && cache[t].coins.IsPruned()
    ensures Overlay(below, cache - {t}) == Overlay(below, cache)
  {
    assert EntryTruthful(below, t, cache[t]);
    assert Overlay(below, cache - {t}).Keys == Overlay(below, cache).Keys;
  }

  function Put(m: CoinsMap, t: Txid, c: CCoins): CoinsMap {
    if c.IsPruned() then m - {t} else m[t := c]
  }

  lemma PutTwice(m: CoinsMap, t: Txid, c: CCoins, d: CCoins)
    ensures Put(Put(m, t, c), t, d) == Put(m, t, d)
  {
    assert Put(Put(m, t, c), t, d).Keys == Put(m, t, d).Keys;
  }

  lemma DirtyEntryShows(below: CoinsMap, cache: EntryMap, t: Txid, e: Entry)
    ensures Overlay(below, cache[t := e]) == Put(Overlay(below, cache), t, e.coins)
    ensures Truthful(below, cache) && e.isDirty && (e.isFresh ==> t !in below) ==> Truthful(below, cache[t := e])
  {
    assert Overlay(below, cache[t := e]).Keys == Put(Overlay(below, cache), t, e.coins).Keys;
  }

  /**
   ModifyNewCoins marks its entry fresh without looking below. That is the truth exactly when
   nothing unspent is below; and exactly then spending the new coins leaves nothing behind.
   */
  lemma NewCoinsTruthfulIff(below: CoinsMap, cache: EntryMap, t: Txid, c: CCoins)
    requires Truthful(below, cache)
    ensures Truthful(below, cache[t := Entry(c, true, true)]) <==> t !in below
    ensures Overlay(below, cache - {t}) == Overlay(below, cache) - {t} <==> t !in below
  {
    var cache' := cache[t := Entry(c, true, true)];
    if t in below {
      assert !EntryTruthful(below, t, cache'[t]);
      assert t in Overlay(below, cache - {t});
    } else {
      assert Overlay(below, cache - {t}).Keys == (Overlay(below, cache) - {t}).Keys;
    }
  }

  // ---------------------------------------------------------------- memory accounting

  ghost function Usage(cache: EntryMap, mem: CCoins -> nat): nat {
    if cache == map[] then 0
    else
      var t :| t in cache;
      mem(cache[t].coins) + Usage(cache - {t}, mem)
  }

  lemma {:induction false} UsageWithout(cache: EntryMap, mem: CCoins -> nat, t: Txid)
    requires t in cache
    ensures Usage(cache, mem) == mem(cache[t].coins) + Usage(cache - {t}, mem)
    decreases |cache|
  {
    var u :| u in cache && Usage(cache, mem) == mem(cache[u].coins) + Usage(cache - {u}, mem);
    if u != t {
      UsageWithout(cache - {u}, mem, t);
      UsageWithout(cache - {t}, mem, u);
      assert cache - {u} - {t} == cache - {t} - {u};
    }
  }

  lemma UsageWith(cache: EntryMap, mem: CCoins -> nat, t: Txid, e: Entry)
    ensures Usage(cache[t := e], mem) == mem(e.coins) + Usage(cache - {t}, mem)
  {
    UsageWithout(cache[t := e], mem, t);
    assert cache[t := e] - {t} == cache - {t};
  }

  // ---------------------------------------------------------------- a layer in good order

  /** A modifier at work on one entry: which, and what the entry used to take up. */
  datatype Live = NoModifier | Modifying(it: Txid, usage: nat)

  /** The entries no modifier is working on. */
  function Settled(cache: EntryMap, live: Live): EntryMap {
    if live.Modifying? then cache - {live.it} else cache
  }

  ghost predicate Accounted(cache: EntryMap, usage: int, live: Live, mem: CCoins -> nat) {
    usage == Usage(Settled(cache, live), mem) + if live.Modifying? then live.usage else 0
  }

  predicate AllClean(cache: EntryMap) {
    forall t :: t in cache ==> cache[t].coins.Clean()
  }

  ghost predicate LayerOk(below: CoinsMap, cache: EntryMap, usage: int, live: Live, mem: CCoins -> nat) {
    && Truthful(below, cache)
    && AllClean(Settled(cache, live))
    && Accounted(cache, usage, live, mem)
    && (live.Modifying? ==> live.it in cache && cache[live.it].isDirty)
  }

  lemma EmptyIsOk(below: CoinsMap, mem: CCoins -> nat)
    ensures LayerOk(below, map[], 0, NoModifier, mem)
    ensures Overlay(below, map[]) == below
  {
    OverlayNothing(below);
  }

  /** What a layer without a modifier may hand to the layer below. */
  lemma OkToFlush(below: CoinsMap, cache: EntryMap, usage: int, mem: CCoins -> nat)
    requires LayerOk(below, cache, usage, NoModifier, mem)
    ensures Truthful(below, cache) && AllClean(cache)
  {
  }

  /** An entry that no modifier is working on shows exactly if it has any outputs at all. */
  lemma NonEmptyShows(below: CoinsMap, cache: EntryMap, usage: int, live: Live, mem: CCoins -> nat, t: Txid)
    requires LayerOk(below, cache, usage, live, mem) && t in cache
    ensures t in Overlay(below, cache) ==> cache[t].coins.vout != []
    ensures live.NoModifier? || live.it != t ==> (cache[t].coins.vout != [] <==> t in Overlay(below, cache))
  {
    CleanedCoins(cache[t].coins);
    assert live.NoModifier? || live.it != t ==> t in Settled(cache, live);
  }

  lemma FetchKeepsOk(below: CoinsMap, cache: EntryMap, usage: int, live: Live, mem: CCoins -> nat, t: Txid, c: CCoins)
    requires LayerOk(below, cache, usage, live, mem) && t !in cache && c.Clean()
    requires if c.IsPruned() then t !in below else t in below && below[t] == c
    ensures LayerOk(below, cache[t := Entry(c, false, c.IsPruned())], usage + mem(c), live, mem)
    ensures Overlay(below, cache[t := Entry(c, false, c.IsPruned())]) == Overlay(below, cache)
  {
    hide Overlay, Truthful, Usage;
    FetchShowsNothingNew(below, cache, t, c);
    var e := Entry(c, false, c.IsPruned());
    var settled := Settled(cache, live);
    UsageWith(settled, mem, t, e);
    assert settled - {t} == settled;
    assert Settled(cache[t := e], live) == settled[t := e];
  }

  lemma UncacheKeepsOk(below: CoinsMap, cache: EntryMap, usage: int, live: Live, mem: CCoins -> nat, t: Txid)
    requires LayerOk(below, cache, usage, live, mem) && t in cache && !cache[t].isDirty
    ensures LayerOk(below, cache - {t}, usage - mem(cache[t].coins), live, mem) && usage >= mem(cache[t].coins)
    ensures Overlay(below, cache - {t}) == Overlay(below, cache)
  {
    UncacheShowsNothingNew(below, cache, t);
    var settled := Settled(cache, live);
    UsageWithout(settled, mem, t);
    assert Settled(cache - {t}, live) == settled - {t};
  }

  /** Handing an entry to a modifier. `e` is what the modifier starts from. */
  lemma ModifyKeepsOk(below: CoinsMap, cache: EntryMap, usage: int, mem: CCoins -> nat, t: Txid, e: Entry)
    requires LayerOk(below, cache, usage, NoModifier, mem) && e.isDirty && (e.isFresh ==> t !in below)
    requires if e.coins.IsPruned() then t !in Overlay(below, cache) else t in Overlay(below, cache) && Overlay(below, cache)[t] == e.coins
    ensures var u := if t in cache then mem(cache[t].coins) else 0;
            LayerOk(below, cache[t := e], usage, Modifying(t, u), mem)
    ensures Overlay(below, cache[t := e]) == Overlay(below, cache)
  {
    if t in cache {
      UsageWithout(cache, mem, t);
    } else {
      assert cache - {t} == cache;
    }
    assert cache[t := e] - {t} == cache - {t};
    DirtyEntryShows(below, cache, t, e);
    PutSame(Overlay(below, cache), t, e.coins);
  }

  lemma PutSame(m: CoinsMap, t: Txid, c: CCoins)
    requires if c.IsPruned() then t !in m else t in m && m[t] == c
    ensures Put(m, t, c) == m
  {
    assert Put(m, t, c).Keys == m.Keys;
  }

  lemma AssignKeepsOk(below: CoinsMap, cache: EntryMap, usage: int, live: Live, mem: CCoins -> nat, c: CCoins)
    requires LayerOk(below, cache, usage, live, mem) && live.Modifying?
    ensures LayerOk(below, cache[live.it := cache[live.it].(coins := c)], usage, live, mem)
    ensures Overlay(below, cache[live.it := cache[live.it].(coins := c)]) == Put(Overlay(below, cache), live.it, c)
  {
    var e := cache[live.it].(coins := c);
    assert EntryTruthful(below, live.it, cache[live.it]);
    assert cache[live.it := e] - {live.it} == cache - {live.it};
    DirtyEntryShows(below, cache, live.it, e);
  }

  /** What is left when the modifier goes: cleaned coins, or nothing if they are pruned and never existed below. */
  function Released(cache: EntryMap, t: Txid): EntryMap
    requires t in cache
  {
    var e := cache[t].(coins := cache[t].coins.Cleaned());
    if e.isFresh && e.coins.IsPruned() then cache - {t} else cache[t := e]
  }

  lemma ReleasedIs(cache: EntryMap, t: Txid)
    requires t in cache
    ensures var cache' := Released(cache, t);
            && (t in cache' <==> !(cache[t].isFresh && cache[t].coins.IsPruned()))
            && (t in cache' ==> cache'[t] == cache[t].(coins := cache[t].coins.Cleaned()))
            && cache' - {t} == cache - {t}
  {
    CleanedCoins(cache[t].coins);
  }

  lemma ReleaseShows(below: CoinsMap, cache: EntryMap, t: Txid)
    requires Truthful(below, cache) && t in cache && cache[t].isDirty
    ensures Truthful(below, Released(cache, t))
    ensures Overlay(below, Released(cache, t)) == Put(Overlay(below, cache), t, cache[t].coins.Cleaned())
  {
    assert EntryTruthful(below, t, cache[t]);
    var e := cache[t].(coins := cache[t].coins.Cleaned());
    DirtyEntryShows(below, cache, t, e);
    if t !in Released(cache, t) {
      FreshPrunedShowsNothing(below, cache[t := e], t);
      assert cache[t := e] - {t} == cache - {t};
    }
  }

  lemma ReleaseKeepsOk(below: CoinsMap, cache: EntryMap, usage: int, live: Live, mem: CCoins -> nat)
    requires LayerOk(below, cache, usage, live, mem) && live.Modifying?
    ensures var t, cache' := live.it, Released(cache, live.it);
            LayerOk(below, cache', usage - live.usage + (if t in cache' then mem(cache'[t].coins) else 0), NoModifier, mem)
    ensures usage >= live.usage
    ensures Overlay(below, Released(cache, live.it)) == Put(Overlay(below, cache), live.it, cache[live.it].coins.Cleaned())
  {
    hide Truthful, Overlay;
    ReleaseShows(below, cache, live.it);
    CleanedCoins(cache[live.it].coins);
    UsageWith(cache, mem, live.it, cache[live.it].(coins := cache[live.it].coins.Cleaned()));
    var cache' := Released(cache, live.it);
    forall t | t in cache'
      ensures cache'[t].coins.Clean()
    {
      assert t != live.it ==> t in cache - {live.it} && cache'[t] == (cache - {live.it})[t];
    }
  }

  /** What one entry takes up, and the rest. */
  lemma UsageSplit(cache: EntryMap, mem: CCoins -> nat, t: Txid)
    ensures Usage(cache, mem) == Usage(cache - {t}, mem) + if t in cache then mem(cache[t].coins) else 0
  {
    if t in cache {
      UsageWithout(cache, mem, t);
    } else {
      assert cache - {t} == cache;
    }
  }

  lemma WriteElsewhere(cache: EntryMap, t: Txid, e: Entry)
    ensures WriteEntry(cache, t, e) - {t} == cache - {t}
    ensures AllClean(cache) && e.coins.Clean() ==> AllClean(WriteEntry(cache, t, e))
  {
  }

  lemma WriteKeepsOk(below: CoinsMap, cache: EntryMap, usage: int, mem: CCoins -> nat, t: Txid, e: Entry)
    requires LayerOk(below, cache, usage, NoModifier, mem)
    requires EntryTruthful(Overlay(below, cache), t, e) && e.coins.Clean()
    ensures var cache' := WriteEntry(cache, t, e);
            LayerOk(below, cache', usage - (if t in cache then mem(cache[t].coins) else 0) + (if t in cache' then mem(cache'[t].coins) else 0), NoModifier, mem)
    ensures t in cache ==> usage >= mem(cache[t].coins)
    ensures Overlay(below, WriteEntry(cache, t, e)) == Overlay(Overlay(below, cache), map[t := e])
  {
    hide Overlay, Truthful, EntryTruthful, WriteEntry, Usage;
    WriteEntryRefines(below, cache, t, e);
    WriteElsewhere(cache, t, e);
    UsageSplit(cache, mem, t);
    UsageSplit(WriteEntry(cache, t, e), mem, t);
  }

  // ---------------------------------------------------------------- the bottom store

  class CCoinsViewDB {
    var db: CoinsMap
    var hashBest: BlockHash

    ghost predicate Valid()
      reads this
    {
      forall t :: t in db ==> db[t].Clean()
    }

    ghost function Seen(): CoinsMap
      reads this
    {
      Unpruned(db)
    }

    constructor ()
      ensures Valid() && Seen() == map[] && hashBest == 0
    {
      db, hashBest := map[], 0;
    }

    method GetCoins(txid: Txid) returns (found: bool, coins: CCoins)
      requires Valid()
      ensures found && !coins.IsPruned() ==> txid in Seen() && Seen()[txid] == coins
      ensures !found || coins.IsPruned() ==> txid !in Seen()
      ensures coins.Clean()
    {
      if txid in db {
        return true, db[txid];
      }
      return false, EMPTY;
    }

    method StoreOne(t: Txid, e: Entry)
      requires Valid() && EntryTruthful(Seen(), t, e) && e.coins.Clean()
      modifies this`db
      ensures Valid() && db == StoreEntry(old(db), t, e)
      ensures forall u :: StoredAt(old(db), db, map[t := e], u)
      ensures Seen() == Overlay(old(Seen()), map[t := e])
    {
      StoreEntryRefines(db, t, e);
      if e.isDirty {
        if e.coins.IsPruned() {
          db := db - {t};
        } else {
          db := db[t := e.coins];
        }
      }
    }

    method BatchWrite(mapCoins: EntryMap, hashBlock: BlockHash)
      requires Valid() && Truthful(Seen(), mapCoins)
      requires forall t :: t in mapCoins ==> mapCoins[t].coins.Clean()
      modifies this
      ensures Valid() && Seen() == Overlay(old(Seen()), mapCoins)
      ensures forall t :: StoredAt(old(db), db, mapCoins, t)
      ensures hashBest == if hashBlock != 0 then hashBlock else old(hashBest)
    {
      hide Overlay, Halfway, Truthful;
      var rest := mapCoins;
      HalfwayEnds(Seen(), mapCoins);
      while rest != map[]
        invariant Valid() && hashBest == old(hashBest)
        invariant Part(rest, mapCoins)
        invariant Seen() == Halfway(old(Seen()), mapCoins, rest)
        invariant forall t :: StoredAt(old(db), db, mapCoins - rest.Keys, t)
        decreases |rest|
      {
        var it :| it in rest;
        HalfwayOneMore(old(Seen()), mapCoins, rest, it);
        ghost var before := db;
        StoreOne(it, rest[it]);
        StoredOneMore(old(db), before, db, mapCoins, rest, it);
        rest := rest - {it};
      }
      AllWritten(mapCoins, rest);
      if hashBlock != 0 {
        hashBest := hashBlock;
      }
    }
  }
}
