/** What an empty address manager makes of any file, whatever its version, bucket count, indices and repeated addresses. */
module AddrLoad {
  import opened AddrTables
  import opened MapOrder
  import opened AddrFile
  import opened Wrappers
  import opened Numbers

  // ---------------------------------------------------------------- which files can be read

  /** So many entries stand in the file from there on. */
  predicate Infos(toks: seq<Token>, at: nat, n: int) {
    n <= 0 || (at + n <= |toks| && forall k :: at <= k < at + n ==> toks[k].InfoTok?)
  }

  lemma InfosNext(toks: seq<Token>, at: nat, n: int)
    requires n > 0
    ensures Infos(toks, at, n) <==> at < |toks| && toks[at].InfoTok? && Infos(toks, at + 1, n - 1)
  {
  }

  predicate Indices(toks: seq<Token>, at: nat, n: int) {
    n <= 0 || (at + n <= |toks| && forall k :: at <= k < at + n ==> toks[k].IntTok?)
  }

  lemma IndicesNext(toks: seq<Token>, at: nat, n: int)
    requires n > 0
    ensures Indices(toks, at, n) <==> at < |toks| && toks[at].IntTok? && Indices(toks, at + 1, n - 1)
  {
  }

  lemma NoInfos(toks: seq<Token>, at: nat, n: int)
    requires n <= 0
    ensures Infos(toks, at, n) && Indices(toks, at, n)
  {
  }

  /** Where so many buckets end, if they are there. */
  function BucketsEnd(toks: seq<Token>, at: nat, n: int): Option<nat>
    decreases n
  {
    if n <= 0 then Some(at)
    else if at < |toks| && toks[at].IntTok? && Indices(toks, at + 1, toks[at].n) then
      BucketsEnd(toks, at + 1 + Max(0, toks[at].n), n - 1)
    else None
  }

  function BucketCount(toks: seq<Token>): int
    requires HasHeader(toks)
  {
    if toks[0].b != 0 then Xor30(toks[5].n) else toks[5].n
  }

  function NewAnnounced(toks: seq<Token>): int
    requires HasHeader(toks)
  {
    toks[3].n
  }

  function TriedAnnounced(toks: seq<Token>): int
    requires HasHeader(toks)
  {
    toks[4].n
  }

  /** As many entries as the header says, and all buckets with as many indices as they say. */
  predicate Readable(toks: seq<Token>) {
    && HasHeader(toks)
    && Infos(toks, 6, NewAnnounced(toks)) && Infos(toks, 6 + Max(0, NewAnnounced(toks)), TriedAnnounced(toks))
    && BucketsEnd(toks, 6 + Max(0, NewAnnounced(toks)) + Max(0, TriedAnnounced(toks)), BucketCount(toks)).Some?
  }

  lemma {:induction false} NewReadable(s: State, toks: seq<Token>, at: nat, n: int, nNew: int, usable: bool)
    ensures LoadNew(s, toks, at, n, nNew, usable).Load? <==> Infos(toks, at, nNew - n)
    ensures Infos(toks, at, nNew - n) ==> LoadNew(s, toks, at, n, nNew, usable).at == at + Max(0, nNew - n)
    decreases nNew - n
  {
    hide LoadNewEntry, Infos;
    if n < nNew {
      InfosNext(toks, at, nNew - n);
      if at < |toks| && toks[at].InfoTok? {
        NewReadable(LoadNewEntry(s, toks[at], n, usable), toks, at + 1, n + 1, nNew, usable);
      }
    } else {
      NoInfos(toks, at, nNew - n);
    }
  }

  lemma {:induction false} TriedReadable(s: State, toks: seq<Token>, at: nat, n: int, nTried: int, nLost: int)
    ensures LoadTried(s, toks, at, n, nTried, nLost).Load? <==> Infos(toks, at, nTried - n)
    ensures Infos(toks, at, nTried - n) ==> LoadTried(s, toks, at, n, nTried, nLost).at == at + Max(0, nTried - n)
    decreases nTried - n
  {
    hide LoadTriedEntry, TriedSlot, Infos;
    if n < nTried {
      InfosNext(toks, at, nTried - n);
      if at < |toks| && toks[at].InfoTok? {
        var info := ReadOver(EMPTY_INFO, toks[at]);
        var lost := TriedSlot(s.env, s.nKey, info.addr.service) in s.vvTried;
        TriedReadable(LoadTriedEntry(s, info), toks, at + 1, n + 1, nTried, if lost then nLost + 1 else nLost);
      }
    } else {
      NoInfos(toks, at, nTried - n);
    }
  }

  lemma {:induction false} BucketReadable(s: State, toks: seq<Token>, at: nat, bucket: int, n: int, nSize: int, usable: bool)
    ensures LoadBucket(s, toks, at, bucket, n, nSize, usable).Load? <==> Indices(toks, at, nSize - n)
    ensures Indices(toks, at, nSize - n) ==> LoadBucket(s, toks, at, bucket, n, nSize, usable).at == at + Max(0, nSize - n)
    decreases nSize - n
  {
    hide LoadIndex, Indices;
    if n < nSize {
      IndicesNext(toks, at, nSize - n);
      if at < |toks| && toks[at].IntTok? {
        BucketReadable(LoadIndex(s, bucket, toks[at].n, usable), toks, at + 1, bucket, n + 1, nSize, usable);
      }
    } else {
      NoInfos(toks, at, nSize - n);
    }
  }

  lemma {:induction false} BucketsReadable(s: State, toks: seq<Token>, at: nat, bucket: int, nUBuckets: int, usable: bool)
    ensures LoadBuckets(s, toks, at, bucket, nUBuckets, usable).Load? <==> BucketsEnd(toks, at, nUBuckets - bucket).Some?
    decreases nUBuckets - bucket
  {
    hide LoadBucket, Indices;
    if bucket < nUBuckets && at < |toks| && toks[at].IntTok? {
      BucketReadable(s, toks, at + 1, bucket, 0, toks[at].n, usable);
      var r := LoadBucket(s, toks, at + 1, bucket, 0, toks[at].n, usable);
      if r.Load? {
        BucketsReadable(r.state, toks, r.at, bucket + 1, nUBuckets, usable);
      }
    }
  }

  lemma TablesReadable(s: State, toks: seq<Token>)
    ensures ReadTables(s, toks).Load? <==> Readable(toks)
  {
    hide LoadNew, LoadTried, LoadBuckets, Infos, BucketsEnd;
    if HasHeader(toks) {
      var nUBuckets := BucketCount(toks);
      var usable := toks[0].b == 1 && nUBuckets == NEW_BUCKET_COUNT;
      var t := Clear(s, toks[2].nKey).(nNew := toks[3].n, nTried := toks[4].n);
      NewReadable(t, toks, 6, 0, t.nNew, usable);
      var r1 := LoadNew(t, toks, 6, 0, t.nNew, usable);
      if r1.Load? {
        TriedReadable(r1.state.(nIdCount := t.nNew), toks, r1.at, 0, t.nTried, 0);
        var r2 := LoadTried(r1.state.(nIdCount := t.nNew), toks, r1.at, 0, t.nTried, 0);
        if r2.Load? {
          BucketsReadable(r2.state, toks, r2.at, 0, nUBuckets, usable);
        }
      }
    }
  }

  // ---------------------------------------------------------------- what has been read

  /** Entries 0 to n - 1 stand in this order, those from `split` on are tried. */
  ghost predicate Rows(s: State, n: nat, split: nat) {
    && (forall k :: k in s.mapInfo <==> 0 <= k < n)
    && |s.vRandom| == n && (forall k :: 0 <= k < n ==> s.vRandom[k] == k)
    && (forall k :: 0 <= k < n ==> s.mapInfo[k].nRandomPos == k && (s.mapInfo[k].fInTried <==> k >= split))
  }

  /** Every address is known under the last entry that has it. */
  ghost predicate Listed(s: State) {
    && (forall ip :: ip in s.mapAddr ==> Indexed(s, ip))
    && (forall k :: k in s.mapInfo ==> s.Service(k).ip in s.mapAddr)
  }

  /** An entry is counted right, whether it is in a table or not. */
  ghost predicate RowCounted(s: State, k: int)
    requires k in s.mapInfo
  {
    var info := s.mapInfo[k];
    if info.fInTried then
      info.nRefCount == 0
      && TriedSlot(s.env, s.nKey, info.addr.service) in s.vvTried && s.vvTried[TriedSlot(s.env, s.nKey, info.addr.service)] == k
    else info.nRefCount == |SlotsOf(s.vvNew, k)| <= NEW_BUCKETS_PER_ADDRESS
  }

  /** The first `m` entries are counted, and every slot holds what may stand in it. */
  ghost predicate Filled(s: State, m: nat) {
    && (forall k :: k in s.mapInfo && k < m ==> RowCounted(s, k))
    && (forall sl :: sl in s.vvNew ==> NewSlotOk(s, sl))
    && (forall sl :: sl in s.vvTried ==> TriedSlotOk(s, sl))
  }

  /** All is right with `n` entries, where the first `m` are counted. */
  ghost predicate SoundFor(s: State, n: nat, split: nat, m: nat) { Rows(s, n, split) && Listed(s) && Filled(s, m) }

  ghost predicate Sound(s: State, n: nat, split: nat) { SoundFor(s, n, split, n) }

  // ---------------------------------------------------------------- reading keeps it

  /** The same entries with the same addresses. */
  ghost predicate SameAddresses(s: State, t: State) {
    s.mapInfo.Keys == t.mapInfo.Keys && forall id :: id in s.mapInfo ==> t.Service(id) == s.Service(id)
  }

  lemma SlotsOfNone(t: map<Slot, int>, k: int)
    requires forall sl :: sl in t ==> t[sl] != k
    ensures SlotsOf(t, k) == {}
  {
  }

  lemma SlotsOfOne(t: map<Slot, int>, sl: Slot, k: int, x: int)
    requires sl !in t
    ensures |SlotsOf(t[sl := k], x)| == |SlotsOf(t, x)| + if x == k then 1 else 0
  {
    if x == k {
      assert SlotsOf(t[sl := k], x) == SlotsOf(t, x) + {sl};
    } else {
      assert SlotsOf(t[sl := k], x) == SlotsOf(t, x);
    }
  }

  /** One more entry, in no table yet. */
  function Appended(s: State, n: nat, info: CAddrInfo): State {
    s.Put(n, info).(mapAddr := s.mapAddr[info.addr.service.ip := n], vRandom := s.vRandom + [n])
  }

  lemma RowAdded(s: State, n: nat, split: nat, info: CAddrInfo)
    requires Sound(s, n, split) && info.nRandomPos == n && (info.fInTried <==> n >= split)
    ensures SoundFor(Appended(s, n, info), n + 1, split, n) && SlotsOf(s.vvNew, n) == {}
  {
    hide Listed, Filled, SlotsOf;
    RowListed(s, n, info);
    RowFilled(s, n, info);
  }

  lemma RowListed(s: State, n: nat, info: CAddrInfo)
    requires Listed(s) && n !in s.mapInfo
    ensures Listed(Appended(s, n, info))
  {
    var t := Appended(s, n, info);
    forall ip | ip in t.mapAddr ensures Indexed(t, ip) {
      assert ip in s.mapAddr ==> Indexed(s, ip);
    }
  }

  lemma RowFilled(s: State, n: nat, info: CAddrInfo)
    requires Filled(s, n) && n !in s.mapInfo
    ensures Filled(Appended(s, n, info), n) && SlotsOf(s.vvNew, n) == {}
  {
    hide TriedSlot, NewSlotIn, SlotsOf;
    var t := Appended(s, n, info);
    forall k | k in t.mapInfo && k < n ensures RowCounted(t, k) {
      assert RowCounted(s, k);
    }
    forall sl | sl in t.vvNew ensures NewSlotOk(t, sl) {
      assert NewSlotOk(s, sl);
    }
    forall sl | sl in t.vvTried ensures TriedSlotOk(t, sl) {
      assert TriedSlotOk(s, sl);
    }
    assert forall sl :: sl in s.vvNew ==> NewSlotOk(s, sl);
    SlotsOfNone(s.vvNew, n);
  }

  /** An untried entry takes a free slot. */
  lemma SlotTaken(s: State, n: nat, split: nat, k: int, sl: Slot)
    requires Sound(s, n, split) && 0 <= k < split && k < n && sl !in s.vvNew
    requires s.mapInfo[k].nRefCount < NEW_BUCKETS_PER_ADDRESS
    requires 0 <= sl.bucket < NEW_BUCKET_COUNT && sl == NewSlotIn(s.env, s.nKey, s.Service(k), sl.bucket)
    ensures Sound(EnterNew(s, k, sl, s.mapInfo[k].nRefCount + 1), n, split)
  {
    hide NewSlotIn, Listed, Filled;
    var t := EnterNew(s, k, sl, s.mapInfo[k].nRefCount + 1);
    ListedStays(s, t);
    SlotTakenFilled(s, n, k, sl);
  }

  lemma ListedStays(s: State, t: State)
    requires Listed(s) && SameAddresses(s, t) && t.mapAddr == s.mapAddr
    ensures Listed(t)
  {
    forall ip | ip in t.mapAddr ensures Indexed(t, ip) {
      assert Indexed(s, ip);
    }
    assert forall k :: k in t.mapInfo ==> k in s.mapInfo;
  }

  lemma SlotTakenFilled(s: State, n: nat, k: int, sl: Slot)
    requires Filled(s, n) && k in s.mapInfo && !s.mapInfo[k].fInTried && sl !in s.vvNew
    requires s.mapInfo[k].nRefCount < NEW_BUCKETS_PER_ADDRESS
    requires 0 <= sl.bucket < NEW_BUCKET_COUNT && sl == NewSlotIn(s.env, s.nKey, s.Service(k), sl.bucket)
    ensures Filled(EnterNew(s, k, sl, s.mapInfo[k].nRefCount + 1), n)
  {
    hide NewSlotIn, RowCounted, NewSlotOk, TriedSlotOk;
    var t := EnterNew(s, k, sl, s.mapInfo[k].nRefCount + 1);
    forall x | x in t.mapInfo && x < n ensures RowCounted(t, x) {
      SlotTakenCounted(s, k, sl, x);
    }
    forall l | l in t.vvNew ensures NewSlotOk(t, l) {
      SlotTakenNew(s, k, sl, l);
    }
    forall l | l in t.vvTried ensures TriedSlotOk(t, l) {
      SlotTakenTried(s, k, sl, l);
    }
  }

  lemma SlotTakenCounted(s: State, k: int, sl: Slot, x: int)
    requires k in s.mapInfo && !s.mapInfo[k].fInTried && sl !in s.vvNew && x in s.mapInfo && RowCounted(s, x)
    requires s.mapInfo[k].nRefCount < NEW_BUCKETS_PER_ADDRESS
    ensures RowCounted(EnterNew(s, k, sl, s.mapInfo[k].nRefCount + 1), x)
  {
    hide TriedSlot, SlotsOf;
    SlotsOfOne(s.vvNew, sl, k, x);
  }

  lemma SlotTakenNew(s: State, k: int, sl: Slot, l: Slot)
    requires k in s.mapInfo && !s.mapInfo[k].fInTried && 0 <= sl.bucket < NEW_BUCKET_COUNT
    requires sl == NewSlotIn(s.env, s.nKey, s.Service(k), sl.bucket) && (l == sl || (l in s.vvNew && NewSlotOk(s, l)))
    ensures NewSlotOk(EnterNew(s, k, sl, s.mapInfo[k].nRefCount + 1), l)
  {
    hide NewSlotIn;
  }

  lemma SlotTakenTried(s: State, k: int, sl: Slot, l: Slot)
    requires k in s.mapInfo && l in s.vvTried && TriedSlotOk(s, l)
    ensures TriedSlotOk(EnterNew(s, k, sl, s.mapInfo[k].nRefCount + 1), l)
  {
    hide TriedSlot;
  }

  lemma NewEntrySound(s: State, tok: Token, n: nat, usable: bool)
    requires tok.InfoTok? && Sound(s, n, n)
    ensures Sound(LoadNewEntry(s, tok, n, usable), n + 1, n + 1)
  {
    hide NewBucket, BucketPosition, TriedSlot, Listed;
    var info := ReadOver(EMPTY_INFO, tok).(nRandomPos := n);
    assert s.Info(n) == EMPTY_INFO;
    RowsGrow(s, n);
    RowAdded(s, n, n + 1, info);
    var t := Appended(s, n, info);
    OneCounted(t, n, n + 1);
    var sl := NewSlot(s.env, s.nKey, info.addr.service, info.source);
    if !(usable || sl in s.vvNew) {
      SlotTaken(t, n + 1, n + 1, n, sl);
    }
  }

  lemma OneCounted(t: State, n: nat, split: nat)
    requires SoundFor(t, n + 1, split, n) && n < split && SlotsOf(t.vvNew, n) == {} && t.mapInfo[n].nRefCount == 0
    ensures Sound(t, n + 1, split)
  {
    hide TriedSlot, NewSlotIn;
    assert RowCounted(t, n);
  }

  /** Where no entry is tried the line between the two kinds may be drawn further up. */
  lemma RowsGrow(s: State, n: nat)
    requires Sound(s, n, n)
    ensures Sound(s, n, n + 1)
  {
  }

  lemma {:induction false} NewSound(s: State, toks: seq<Token>, at: nat, n: nat, nNew: nat, usable: bool)
    requires n <= nNew && Sound(s, n, n) && LoadNew(s, toks, at, n, nNew, usable).Load?
    ensures var t := LoadNew(s, toks, at, n, nNew, usable).state;
            Sound(t, nNew, nNew) && t == s.(mapInfo := t.mapInfo, mapAddr := t.mapAddr, vRandom := t.vRandom, vvNew := t.vvNew)
    decreases nNew - n
  {
    hide Sound;
    if n < nNew {
      NewEntrySound(s, toks[at], n, usable);
      NewEntryKeeps(s, toks[at], n, usable);
      hide LoadNewEntry;
      NewSound(LoadNewEntry(s, toks[at], n, usable), toks, at + 1, n + 1, nNew, usable);
    }
  }

  lemma NewEntryKeeps(s: State, tok: Token, n: int, usable: bool)
    requires tok.InfoTok?
    ensures var t := LoadNewEntry(s, tok, n, usable);
            t == s.(mapInfo := t.mapInfo, mapAddr := t.mapAddr, vRandom := t.vRandom, vvNew := t.vvNew)
  {
  }

  lemma TriedEntrySound(s: State, info: CAddrInfo, n: nat, split: nat)
    requires split <= n == s.nIdCount && Sound(s, n, split) && !info.fInTried && info.nRefCount == 0
    ensures var lost := TriedSlot(s.env, s.nKey, info.addr.service) in s.vvTried;
            Sound(LoadTriedEntry(s, info), if lost then n else n + 1, split)
  {
    hide TriedSlot, NewSlotIn, SlotsOf;
    var sl := TriedSlot(s.env, s.nKey, info.addr.service);
    if sl !in s.vvTried {
      RowAdded(s, n, split, info.(nRandomPos := n, fInTried := true));
      TriedSlotTaken(Appended(s, n, info.(nRandomPos := n, fInTried := true)), n, split, sl);
    }
  }

  lemma TriedSlotTaken(s: State, n: nat, split: nat, sl: Slot)
    requires SoundFor(s, n + 1, split, n) && split <= n && sl !in s.vvTried
    requires s.mapInfo[n].nRefCount == 0 && sl == TriedSlot(s.env, s.nKey, s.Service(n))
    ensures Sound(s.(vvTried := s.vvTried[sl := n], nIdCount := n + 1), n + 1, split)
  {
    hide TriedSlot, Filled, Listed;
    ListedStays(s, s.(vvTried := s.vvTried[sl := n], nIdCount := n + 1));
    TriedSlotFilled(s, n, sl);
  }

  lemma TriedSlotFilled(s: State, n: nat, sl: Slot)
    requires Filled(s, n) && n in s.mapInfo && s.mapInfo[n].fInTried && sl !in s.vvTried && forall x :: x in s.mapInfo ==> x <= n
    requires s.mapInfo[n].nRefCount == 0 && sl == TriedSlot(s.env, s.nKey, s.Service(n))
    ensures Filled(s.(vvTried := s.vvTried[sl := n], nIdCount := n + 1), n + 1)
  {
    hide TriedSlot, NewSlotIn, SlotsOf;
    var t := s.(vvTried := s.vvTried[sl := n], nIdCount := n + 1);
    forall x | x in t.mapInfo ensures RowCounted(t, x) {
      assert x < n ==> RowCounted(s, x);
    }
    forall l | l in t.vvNew ensures NewSlotOk(t, l) {
      assert NewSlotOk(s, l);
    }
    forall l | l in t.vvTried ensures TriedSlotOk(t, l) {
      assert l in s.vvTried ==> TriedSlotOk(s, l);
    }
  }

  /** The number of tried entries is corrected by those that were lost. */
  lemma {:induction false} TriedSound(s: State, toks: seq<Token>, at: nat, n: int, nTried: int, nLost: nat, split: nat)
    requires s.nIdCount >= split && Sound(s, s.nIdCount, split) && s.nTried == nTried
    requires nTried >= 0 ==> 0 <= n <= nTried && s.nIdCount - split + nLost == n
    requires LoadTried(s, toks, at, n, nTried, nLost).Load? && (nTried < 0 ==> n == 0 == nLost)
    ensures var t := LoadTried(s, toks, at, n, nTried, nLost).state;
            && t.nIdCount >= split && Sound(t, t.nIdCount, split) && t.nNew == s.nNew && t.env == s.env && t.nKey == s.nKey && t.vvNew == s.vvNew
            && t.nTried == if nTried >= 0 then t.nIdCount - split else nTried
    decreases nTried - n
  {
    hide Sound, TriedSlot;
    if n >= nTried {
      CountersFree(s, s.(nTried := s.nTried - nLost), s.nIdCount, split);
    } else {
      var info := ReadOver(EMPTY_INFO, toks[at]);
      var lost := TriedSlot(s.env, s.nKey, info.addr.service) in s.vvTried;
      TriedEntrySound(s, info, s.nIdCount, split);
      TriedSound(LoadTriedEntry(s, info), toks, at + 1, n + 1, nTried, if lost then nLost + 1 else nLost, split);
    }
  }

  /** None of this looks at the counters. */
  lemma CountersFree(s: State, t: State, n: nat, split: nat)
    requires Sound(s, n, split) && t == s.(nTried := t.nTried, nIdCount := t.nIdCount, nNew := t.nNew)
    ensures Sound(t, n, split)
  {
    hide Listed, Filled;
    ListedStays(s, t);
    FilledStays(s, t, n);
  }

  lemma FilledStays(s: State, t: State, n: nat)
    requires Filled(s, n) && t == s.(nTried := t.nTried, nIdCount := t.nIdCount, nNew := t.nNew)
    ensures Filled(t, n)
  {
    forall x | x in t.mapInfo && x < n ensures RowCounted(t, x) {
      assert RowCounted(s, x);
    }
    forall l | l in t.vvNew ensures NewSlotOk(t, l) {
      assert NewSlotOk(s, l);
    }
    forall l | l in t.vvTried ensures TriedSlotOk(t, l) {
      assert TriedSlotOk(s, l);
    }
  }

  /** Nothing has changed in the entries but reference counts. */
  ghost predicate EntriesStay(s: State, t: State) {
    t.mapInfo.Keys == s.mapInfo.Keys && forall id :: id in s.mapInfo ==> t.mapInfo[id] == s.mapInfo[id].(nRefCount := t.mapInfo[id].nRefCount)
  }

  lemma AddressesStay(s: State, t: State)
    requires EntriesStay(s, t)
    ensures SameAddresses(s, t)
  {
  }

  lemma IndexSound(s: State, bucket: int, nIndex: int, usable: bool, n: nat, split: nat)
    requires Sound(s, n, split) && split <= n && s.nNew == split && (usable ==> 0 <= bucket < NEW_BUCKET_COUNT)
    ensures Sound(LoadIndex(s, bucket, nIndex, usable), n, split)
    ensures EntriesStay(s, LoadIndex(s, bucket, nIndex, usable))
  {
    hide BucketPosition, Sound;
    if 0 <= nIndex < s.nNew {
      RowThere(s, n, split, nIndex);
      var sl := NewSlotIn(s.env, s.nKey, s.Service(nIndex), bucket);
      if usable && sl !in s.vvNew && s.Info(nIndex).nRefCount < NEW_BUCKETS_PER_ADDRESS {
        SlotTaken(s, n, split, nIndex, sl);
      } else {
        assert s.Put(nIndex, s.Info(nIndex)).mapInfo == s.mapInfo;
      }
    }
  }

  lemma RowThere(s: State, n: nat, split: nat, k: int)
    requires Sound(s, n, split) && 0 <= k < n
    ensures k in s.mapInfo
  {
  }

  lemma IndexKeeps(s: State, bucket: int, nIndex: int, usable: bool)
    ensures var t := LoadIndex(s, bucket, nIndex, usable); t == s.(mapInfo := t.mapInfo, vvNew := t.vvNew)
  {
  }

  lemma {:induction false} BucketSound(s: State, toks: seq<Token>, at: nat, bucket: int, n: int, nSize: int, usable: bool,
                                       rows: nat, split: nat)
    requires Sound(s, rows, split) && split <= rows && s.nNew == split && (usable ==> 0 <= bucket < NEW_BUCKET_COUNT)
    requires LoadBucket(s, toks, at, bucket, n, nSize, usable).Load?
    ensures var t := LoadBucket(s, toks, at, bucket, n, nSize, usable).state;
            Sound(t, rows, split) && EntriesStay(s, t) && t == s.(mapInfo := t.mapInfo, vvNew := t.vvNew)
    decreases nSize - n
  {
    hide Sound, LoadIndex;
    if n < nSize {
      IndexSound(s, bucket, toks[at].n, usable, rows, split);
      IndexKeeps(s, bucket, toks[at].n, usable);
      BucketSound(LoadIndex(s, bucket, toks[at].n, usable), toks, at + 1, bucket, n + 1, nSize, usable, rows, split);
    }
  }

  lemma {:induction false} BucketsSound(s: State, toks: seq<Token>, at: nat, bucket: nat, nUBuckets: int, usable: bool,
                                        rows: nat, split: nat)
    requires Sound(s, rows, split) && split <= rows && s.nNew == split && (usable ==> nUBuckets == NEW_BUCKET_COUNT)
    requires LoadBuckets(s, toks, at, bucket, nUBuckets, usable).Load?
    ensures var t := LoadBuckets(s, toks, at, bucket, nUBuckets, usable).state;
            Sound(t, rows, split) && EntriesStay(s, t) && t == s.(mapInfo := t.mapInfo, vvNew := t.vvNew)
    decreases nUBuckets - bucket
  {
    hide Sound, LoadBucket;
    if bucket < nUBuckets {
      BucketSound(s, toks, at + 1, bucket, 0, toks[at].n, usable, rows, split);
      var r := LoadBucket(s, toks, at + 1, bucket, 0, toks[at].n, usable);
      BucketsSound(r.state, toks, r.at, bucket + 1, nUBuckets, usable, rows, split);
    }
  }

  // ---------------------------------------------------------------- different addresses

  /** Where the entries end. */
  function EntriesEnd(toks: seq<Token>): nat
    requires HasHeader(toks)
  {
    6 + Max(0, NewAnnounced(toks)) + Max(0, TriedAnnounced(toks))
  }

  /** No two entries of the file have the same address. */
  ghost predicate Distinct(toks: seq<Token>, end: int) {
    forall p, q :: 0 <= p < q < end && q < |toks| && toks[p].InfoTok? && toks[q].InfoTok? ==>
      toks[p].addr.service.ip != toks[q].addr.service.ip
  }

  /** One of the tokens before `at` is an entry with this address. */
  ghost predicate Seen(toks: seq<Token>, at: int, ip: NetAddr) {
    exists p :: 0 <= p < at && p < |toks| && toks[p].InfoTok? && toks[p].addr.service.ip == ip
  }

  /** What has been read so far has different addresses, all of them from the file. */
  ghost predicate Apart(s: State, toks: seq<Token>, at: int) {
    && (forall id, other :: id in s.mapInfo && other in s.mapInfo && other != id ==> s.Service(id).ip != s.Service(other).ip)
    && (forall id :: id in s.mapInfo ==> Seen(toks, at, s.Service(id).ip))
  }

  /** One more entry of the file. */
  lemma ApartNext(s: State, t: State, toks: seq<Token>, at: nat, n: int, end: int)
    requires Apart(s, toks, at) && Distinct(toks, end) && at < end && at < |toks| && toks[at].InfoTok?
    requires forall id :: id in t.mapInfo ==> id == n || (id in s.mapInfo && t.Service(id) == s.Service(id))
    requires n in t.mapInfo ==> t.Service(n) == toks[at].addr.service || (n in s.mapInfo && t.Service(n) == s.Service(n))
    ensures Apart(t, toks, at + 1)
  {
    forall id | id in t.mapInfo ensures Seen(toks, at + 1, t.Service(id).ip) {
      assert id in s.mapInfo ==> Seen(toks, at, s.Service(id).ip);
    }
    forall id, other | id in t.mapInfo && other in t.mapInfo && other != id ensures t.Service(id).ip != t.Service(other).ip {
      assert id in s.mapInfo ==> Seen(toks, at, s.Service(id).ip);
      assert other in s.mapInfo ==> Seen(toks, at, s.Service(other).ip);
    }
  }

  lemma {:induction false} NewApart(s: State, toks: seq<Token>, at: nat, n: int, nNew: int, usable: bool, end: int)
    requires Apart(s, toks, at) && Distinct(toks, end) && at + Max(0, nNew - n) <= end
    requires LoadNew(s, toks, at, n, nNew, usable).Load?
    ensures var r := LoadNew(s, toks, at, n, nNew, usable); Apart(r.state, toks, r.at)
    decreases nNew - n
  {
    hide Apart, Distinct, NewBucket, BucketPosition;
    if n < nNew {
      var t := LoadNewEntry(s, toks[at], n, usable);
      ApartNext(s, t, toks, at, n, end);
      NewApart(t, toks, at + 1, n + 1, nNew, usable, end);
    }
  }

  lemma {:induction false} TriedApart(s: State, toks: seq<Token>, at: nat, n: int, nTried: int, nLost: int, end: int)
    requires Apart(s, toks, at) && Distinct(toks, end) && at + Max(0, nTried - n) <= end
    requires LoadTried(s, toks, at, n, nTried, nLost).Load?
    ensures var r := LoadTried(s, toks, at, n, nTried, nLost); Apart(r.state, toks, r.at)
    decreases nTried - n
  {
    hide Distinct, Seen, TriedSlot;
    if n < nTried {
      var info := ReadOver(EMPTY_INFO, toks[at]);
      var lost := TriedSlot(s.env, s.nKey, info.addr.service) in s.vvTried;
      ApartNext(s, LoadTriedEntry(s, info), toks, at, s.nIdCount, end);
      TriedApart(LoadTriedEntry(s, info), toks, at + 1, n + 1, nTried, if lost then nLost + 1 else nLost, end);
    }
  }

  lemma ApartStays(s: State, t: State, toks: seq<Token>, at: int)
    requires Apart(s, toks, at) && SameAddresses(s, t)
    ensures Apart(t, toks, at)
  {
    hide Seen;
    assert forall id :: id in t.mapInfo ==> id in s.mapInfo;
  }

  /** Whatever is in a file that can be read, all but index and counters is right before anything is deleted. */
  lemma TablesSound(s: State, toks: seq<Token>) returns (n: nat)
    requires Fresh(s, s.env) && Readable(toks) && NewAnnounced(toks) >= 0
    ensures ReadTables(s, toks).Load? && n >= NewAnnounced(toks)
    ensures var t := ReadTables(s, toks).state;
            && Sound(t, n, NewAnnounced(toks)) && t.nIdCount == n && t.nNew == NewAnnounced(toks)
            && t.nTried == (if TriedAnnounced(toks) >= 0 then n - NewAnnounced(toks) else TriedAnnounced(toks))
            && (Distinct(toks, EntriesEnd(toks)) ==> exists at :: Apart(t, toks, at))
  {
    hide LoadNew, LoadTried, LoadBuckets, Sound, Infos, BucketsEnd, Distinct, Apart, SameAddresses, EntriesStay;
    TablesReadable(s, toks);
    var nUBuckets := BucketCount(toks);
    var usable := toks[0].b == 1 && nUBuckets == NEW_BUCKET_COUNT;
    var t := Clear(s, toks[2].nKey).(nNew := toks[3].n, nTried := toks[4].n);
    NothingSound(t);
    NewSound(t, toks, 6, 0, t.nNew, usable);
    var r1 := LoadNew(t, toks, 6, 0, t.nNew, usable);
    var u := r1.state.(nIdCount := t.nNew);
    CountersFree(r1.state, u, t.nNew, t.nNew);
    TriedSound(u, toks, r1.at, 0, t.nTried, 0, t.nNew);
    var r2 := LoadTried(u, toks, r1.at, 0, t.nTried, 0);
    n := r2.state.nIdCount;
    BucketsSound(r2.state, toks, r2.at, 0, nUBuckets, usable, n, t.nNew);
    var end := EntriesEnd(toks);
    if Distinct(toks, end) {
      NothingApart(t, toks, 6);
      NewReadable(t, toks, 6, 0, t.nNew, usable);
      NewApart(t, toks, 6, 0, t.nNew, usable, end);
      SameEntriesApart(r1.state, u, toks, r1.at);
      TriedApart(u, toks, r1.at, 0, t.nTried, 0, end);
      AddressesStay(r2.state, LoadBuckets(r2.state, toks, r2.at, 0, nUBuckets, usable).state);
      ApartStays(r2.state, LoadBuckets(r2.state, toks, r2.at, 0, nUBuckets, usable).state, toks, r2.at);
    }
  }

  lemma SameEntriesApart(s: State, t: State, toks: seq<Token>, at: int)
    requires Apart(s, toks, at) && t.mapInfo == s.mapInfo
    ensures Apart(t, toks, at)
  {
    hide Seen;
    ApartStays(s, t, toks, at);
  }

  lemma NothingApart(s: State, toks: seq<Token>, at: int)
    requires s.mapInfo == map[]
    ensures Apart(s, toks, at)
  {
  }

  lemma NothingSound(s: State)
    requires s.mapInfo == map[] && s.mapAddr == map[] && s.vRandom == [] && s.vvNew == map[] && s.vvTried == map[]
    ensures Sound(s, 0, 0)
  {
  }

  // ---------------------------------------------------------------- deleting what is in no table

  ghost predicate SeatOf(s: State, id: int)
    requires id in s.mapInfo
  {
    0 <= s.mapInfo[id].nRandomPos < |s.vRandom| && s.vRandom[s.mapInfo[id].nRandomPos] == id
  }

  /** Positions and vRandom are inverse to each other, whatever the index says. */
  ghost predicate Seated(s: State) {
    (forall i :: 0 <= i < |s.vRandom| ==> Ordered(s, i)) && (forall id :: id in s.mapInfo ==> SeatOf(s, id))
  }

  lemma SwapSeat(s: State, t: State, p1: int, p2: int, id: int)
    requires 0 <= p1 < |s.vRandom| && 0 <= p2 < |s.vRandom| && Swapped(s, t, p1, p2)
    requires id in s.mapInfo && SeatOf(s, id) && Ordered(s, p1) && Ordered(s, p2)
    ensures id in t.mapInfo && SeatOf(t, id)
  {
  }

  lemma SwapSeated(s: State, p1: int, p2: int)
    requires Seated(s) && 0 <= p1 < |s.vRandom| && 0 <= p2 < |s.vRandom|
    ensures Seated(SwapRandom(s, p1, p2)) && Swapped(s, SwapRandom(s, p1, p2), p1, p2)
  {
    hide SwapRandom, SeatOf, Ordered;
    var t := SwapRandom(s, p1, p2);
    assert Ordered(s, p1) && Ordered(s, p2);
    SwapEntries(s, p1, p2);
    forall id | id in t.mapInfo ensures SeatOf(t, id) {
      SwapSeat(s, t, p1, p2, id);
    }
    forall i | 0 <= i < |t.vRandom| ensures Ordered(t, i) {
      SwapOrdered(s, t, p1, p2, i);
    }
  }

  lemma DropSeated(s: State, id: int)
    requires Seated(s) && id in s.mapInfo && |s.vRandom| > 0 && s.vRandom[|s.vRandom| - 1] == id
    ensures Seated(DropLast(s, id))
  {
    var t, last := DropLast(s, id), |s.vRandom| - 1;
    assert Ordered(s, last);
    forall x | x in t.mapInfo ensures SeatOf(t, x) {
      assert SeatOf(s, x);
    }
    forall i | 0 <= i < |t.vRandom| ensures Ordered(t, i) {
      assert Ordered(s, i);
    }
  }

  /** The assertions of Delete hold, and nothing changes but this entry, where another stands, and the index of the address. */
  lemma DeleteSeated(s: State, id: int)
    requires Seated(s) && id in s.mapInfo && !s.mapInfo[id].fInTried && s.mapInfo[id].nRefCount == 0
    ensures CanDelete(s, id)
    ensures var t := Delete(s, id);
            && Seated(t) && SameEntries(s.mapInfo - {id}, t.mapInfo)
            && t == s.(mapInfo := t.mapInfo, vRandom := t.vRandom, mapAddr := s.mapAddr - {s.Service(id).ip}, nNew := s.nNew - 1)
  {
    hide SwapRandom;
    assert SeatOf(s, id);
    var p, last := s.mapInfo[id].nRandomPos, |s.vRandom| - 1;
    assert Ordered(s, p) && Ordered(s, last);
    SwapSeated(s, p, last);
    SwapRest(s, p, last);
    hide Seated, Swapped;
    var u := SwapRandom(s, p, last);
    SwapEnds(s, u, p, last);
    DropSeated(u, id);
  }

  lemma SwapEnds(s: State, t: State, p: int, last: int)
    requires 0 <= p < |s.vRandom| && last == |s.vRandom| - 1 && Swapped(s, t, p, last) && s.vRandom[p] in s.mapInfo
    ensures |t.vRandom| == |s.vRandom| && t.vRandom[last] == s.vRandom[p] && SameEntries(s.mapInfo, t.mapInfo)
    ensures t.mapInfo[s.vRandom[p]].addr == s.mapInfo[s.vRandom[p]].addr
  {
  }

  /** The entries in no table. */
  function Strays(s: State): set<int> { set id | id in s.mapInfo && !s.mapInfo[id].fInTried && s.mapInfo[id].nRefCount == 0 }

  ghost predicate Forgotten(s: State, gone: set<int>, ip: NetAddr) { exists d :: d in gone && s.Service(d).ip == ip }

  /** State `t` is `s` without the entries in `gone`, and without all that is known under their addresses. */
  ghost predicate Without(s: State, t: State, gone: set<int>) {
    && Seated(t) && SameEntries(s.mapInfo - gone, t.mapInfo)
    && t == s.(mapInfo := t.mapInfo, mapAddr := t.mapAddr, vRandom := t.vRandom, nNew := s.nNew - |gone|)
    && (forall ip :: ip in t.mapAddr <==> ip in s.mapAddr && !Forgotten(s, gone, ip))
    && (forall ip :: ip in t.mapAddr ==> t.mapAddr[ip] == s.mapAddr[ip])
  }

  lemma OneGone(s: State, t: State, gone: set<int>, id: int)
    requires Without(s, t, gone) && gone <= Strays(s) && id in Strays(s) && id !in gone
    ensures CanDelete(t, id) && Without(s, Delete(t, id), gone + {id})
  {
    hide Delete, Seated;
    assert id in s.mapInfo - gone && Core(s.mapInfo[id]) == Core(t.mapInfo[id]);
    DeleteSeated(t, id);
    var u := Delete(t, id);
    StillSame(s.mapInfo, t.mapInfo, u.mapInfo, gone, id);
    forall ip ensures Forgotten(s, gone + {id}, ip) <==> Forgotten(s, gone, ip) || s.Service(id).ip == ip {
      if s.Service(id).ip == ip {
        assert id in gone + {id};
      }
    }
  }

  lemma StillSame(m: map<int, CAddrInfo>, n: map<int, CAddrInfo>, o: map<int, CAddrInfo>, gone: set<int>, id: int)
    requires SameEntries(m - gone, n) && SameEntries(n - {id}, o)
    ensures SameEntries(m - (gone + {id}), o)
  {
    forall x | x in o ensures x in m - gone && x != id && Core(m[x]) == Core(o[x]) {
      assert x in n - {id};
      assert Core((n - {id})[x]) == Core(o[x]);
      assert Core((m - gone)[x]) == Core(n[x]);
    }
    forall x | x in m - (gone + {id}) ensures x in o {
      assert x in m - gone;
      assert x in n - {id};
    }
  }

  /** Deleting goes through, and ends without the entries that were in no table. */
  lemma {:induction false} PruneGoes(s: State, t: State, gone: set<int>, ids: seq<int>, at: nat)
    requires Without(s, t, gone) && gone <= Strays(s) && NoRepeats(ids)
    requires forall id :: id in ids ==> id in s.mapInfo && id !in gone
    requires forall id :: id in Strays(s) ==> id in gone || id in ids
    ensures Prune(t, ids, at).Load? && Without(s, Prune(t, ids, at).state, Strays(s))
    decreases |ids|
  {
    hide Without, Delete;
    if ids == [] {
      assert forall id :: id in Strays(s) ==> id in gone;
      assert gone == Strays(s);
    } else {
      var id := ids[0];
      assert id in ids;
      Kept(s, t, gone, id);
      RestOnce(ids);
      if id in Strays(s) {
        OneGone(s, t, gone, id);
        PruneGoes(s, Delete(t, id), gone + {id}, ids[1..], at);
      } else {
        PruneGoes(s, t, gone, ids[1..], at);
      }
    }
  }

  lemma Kept(s: State, t: State, gone: set<int>, id: int)
    requires Without(s, t, gone) && id in s.mapInfo && id !in gone
    ensures t.Info(id).fInTried == s.mapInfo[id].fInTried && t.Info(id).nRefCount == s.mapInfo[id].nRefCount
  {
    assert Core((s.mapInfo - gone)[id]) == Core(t.mapInfo[id]);
  }

  lemma RestOnce(ids: seq<int>)
    requires ids != [] && NoRepeats(ids)
    ensures NoRepeats(ids[1..]) && (forall id :: id in ids <==> id == ids[0] || id in ids[1..]) && ids[0] !in ids[1..]
  {
    assert ids == [ids[0]] + ids[1..];
    forall j | 0 <= j < |ids[1..]| ensures ids[1..][j] != ids[0] {
      assert ids[1..][j] == ids[j + 1];
    }
  }

  // ---------------------------------------------------------------- what comes of any file

  lemma RowsSeated(s: State, n: nat, split: nat)
    requires Sound(s, n, split)
    ensures Without(s, s, {})
  {
    hide Listed, Filled;
    assert s.mapInfo - {} == s.mapInfo;
    forall i | 0 <= i < |s.vRandom| ensures Ordered(s, i) {
      assert i in s.mapInfo;
    }
  }

  /** A file that can be read is loaded: no assertion of Delete fails, and what is left has lost just the entries in no table. */
  lemma LoadsWithout(s: State, toks: seq<Token>)
    requires Fresh(s, s.env) && Readable(toks) && NewAnnounced(toks) >= 0
    ensures ReadTables(s, toks).Load? && LoadFile(s, toks).Load?
    ensures var t := ReadTables(s, toks).state; Without(t, LoadFile(s, toks).state, Strays(t))
  {
    hide Infos, BucketsEnd, ReadTables, Sound, Without, Prune, Strays, Sorted;
    var n := TablesSound(s, toks);
    var r := ReadTables(s, toks);
    RowsSeated(r.state, n, NewAnnounced(toks));
    SortedIsComplete(r.state.mapInfo.Keys);
    StraysAreThere(r.state);
    PruneGoes(r.state, r.state, {}, Sorted(r.state.mapInfo.Keys), r.at);
  }

  lemma StraysAreThere(s: State)
    ensures forall id :: id in Strays(s) ==> id in s.mapInfo.Keys
  {
  }

  ghost predicate AllTried(s: State) { forall id :: id in s.mapInfo ==> s.mapInfo[id].fInTried }

  lemma {:induction false} TriedStay(s: State, toks: seq<Token>, at: nat, n: int, nTried: int, nLost: int)
    requires AllTried(s) && LoadTried(s, toks, at, n, nTried, nLost).Load?
    ensures var t := LoadTried(s, toks, at, n, nTried, nLost).state; AllTried(t) && t.nNew == s.nNew
    decreases nTried - n
  {
    hide TriedSlot;
    if n < nTried {
      var info := ReadOver(EMPTY_INFO, toks[at]);
      var lost := TriedSlot(s.env, s.nKey, info.addr.service) in s.vvTried;
      TriedStay(LoadTriedEntry(s, info), toks, at + 1, n + 1, nTried, if lost then nLost + 1 else nLost);
    }
  }

  lemma {:induction false} NoneIndexed(s: State, toks: seq<Token>, at: nat, bucket: int, n: int, nSize: int, usable: bool)
    requires s.nNew < 0 && LoadBucket(s, toks, at, bucket, n, nSize, usable).Load?
    ensures LoadBucket(s, toks, at, bucket, n, nSize, usable).state == s
    decreases nSize - n
  {
    if n < nSize {
      NoneIndexed(s, toks, at + 1, bucket, n + 1, nSize, usable);
    }
  }

  lemma {:induction false} NoBucketIndexed(s: State, toks: seq<Token>, at: nat, bucket: int, nUBuckets: int, usable: bool)
    requires s.nNew < 0 && LoadBuckets(s, toks, at, bucket, nUBuckets, usable).Load?
    ensures LoadBuckets(s, toks, at, bucket, nUBuckets, usable).state == s
    decreases nUBuckets - bucket
  {
    if bucket < nUBuckets {
      NoneIndexed(s, toks, at + 1, bucket, 0, toks[at].n, usable);
      NoBucketIndexed(s, toks, LoadBucket(s, toks, at + 1, bucket, 0, toks[at].n, usable).at, bucket + 1, nUBuckets, usable);
    }
  }

  /** A negative number of new entries stays: none is read, and every entry there is is tried. */
  lemma NegativeStays(s: State, toks: seq<Token>)
    requires Fresh(s, s.env) && Readable(toks) && NewAnnounced(toks) < 0
    ensures LoadFile(s, toks).Load? && LoadFile(s, toks).state.nNew < 0
  {
    hide LoadTried, LoadBuckets, Readable;
    TablesReadable(s, toks);
    var nUBuckets := BucketCount(toks);
    var usable := toks[0].b == 1 && nUBuckets == NEW_BUCKET_COUNT;
    var t := Clear(s, toks[2].nKey).(nNew := toks[3].n, nTried := toks[4].n, nIdCount := toks[3].n);
    TriedStay(t, toks, 6, 0, t.nTried, 0);
    var r := LoadTried(t, toks, 6, 0, t.nTried, 0);
    NoBucketIndexed(r.state, toks, r.at, 0, nUBuckets, usable);
    SortedIsComplete(r.state.mapInfo.Keys);
    NothingToPrune(r.state, Sorted(r.state.mapInfo.Keys), ReadTables(s, toks).at);
  }

  /** An empty manager loads exactly the files that can be read: no assertion fails on the way. */
  lemma LoadsIff(s: State, toks: seq<Token>)
    requires Fresh(s, s.env)
    ensures LoadFile(s, toks).Load? <==> Readable(toks)
  {
    hide Infos, BucketsEnd, ReadTables, Prune;
    TablesReadable(s, toks);
    if Readable(toks) {
      if NewAnnounced(toks) >= 0 {
        LoadsWithout(s, toks);
      } else {
        NegativeStays(s, toks);
      }
    }
  }

  // ---------------------------------------------------------------- when that is consistent

  /** No entry that is in a table shares its address with another entry. */
  ghost predicate NoClash(s: State) {
    forall id, other :: id in s.mapInfo && other in s.mapInfo && id !in Strays(s) && other != id ==>
      s.Service(id).ip != s.Service(other).ip
  }

  lemma KeptEntry(s: State, t: State, id: int)
    requires Without(s, t, Strays(s)) && id in t.mapInfo
    ensures id in s.mapInfo && id !in Strays(s) && Core(t.mapInfo[id]) == Core(s.mapInfo[id])
  {
    assert id in s.mapInfo - Strays(s);
  }

  lemma KeptStays(s: State, t: State, id: int)
    requires Without(s, t, Strays(s)) && id in s.mapInfo && id !in Strays(s)
    ensures id in t.mapInfo && Core(t.mapInfo[id]) == Core(s.mapInfo[id])
  {
    assert id in s.mapInfo - Strays(s);
  }

  lemma HolderIsKept(s: State, n: nat, split: nat, sl: Slot)
    requires Sound(s, n, split)
    ensures sl in s.vvNew ==> s.vvNew[sl] in s.mapInfo && s.vvNew[sl] !in Strays(s)
    ensures sl in s.vvTried ==> s.vvTried[sl] in s.mapInfo && s.vvTried[sl] !in Strays(s)
  {
    hide TriedSlot, NewSlotIn;
    if sl in s.vvNew {
      assert NewSlotOk(s, sl);
      assert RowCounted(s, s.vvNew[sl]);
      assert sl in SlotsOf(s.vvNew, s.vvNew[sl]);
    }
    if sl in s.vvTried {
      assert TriedSlotOk(s, sl);
    }
  }

  lemma KeptRefs(s: State, id: int)
    requires id in s.mapInfo && id !in Strays(s)
    ensures s.mapInfo[id].fInTried || s.mapInfo[id].nRefCount != 0
  {
  }

  lemma KeptCounted(s: State, t: State, n: nat, split: nat, id: int)
    requires Sound(s, n, split) && Without(s, t, Strays(s)) && id in t.mapInfo
    ensures Counted(t, {}, id)
  {
    KeptEntry(s, t, id);
    KeptRefs(s, id);
    assert RowCounted(s, id);
    hide TriedSlot, SlotsOf, Strays, Seated, Rows, Listed, Filled;
  }

  lemma TablesAfter(s: State, t: State, n: nat, split: nat)
    requires Sound(s, n, split) && Without(s, t, Strays(s))
    ensures Tables(t, {})
  {
    hide Sound, Strays, Seated, Counted, NewSlotOk, TriedSlotOk;
    forall id | id in t.mapInfo ensures Counted(t, {}, id) {
      KeptCounted(s, t, n, split, id);
    }
    forall sl | sl in t.vvNew ensures NewSlotOk(t, sl) {
      KeptNewSlot(s, t, n, split, sl);
    }
    forall sl | sl in t.vvTried ensures TriedSlotOk(t, sl) {
      KeptTriedSlot(s, t, n, split, sl);
    }
  }

  lemma KeptNewSlot(s: State, t: State, n: nat, split: nat, sl: Slot)
    requires Sound(s, n, split) && Without(s, t, Strays(s)) && sl in t.vvNew
    ensures NewSlotOk(t, sl)
  {
    hide NewSlotIn, Strays, Seated;
    HolderIsKept(s, n, split, sl);
    KeptStays(s, t, s.vvNew[sl]);
    assert NewSlotOk(s, sl);
  }

  lemma KeptTriedSlot(s: State, t: State, n: nat, split: nat, sl: Slot)
    requires Sound(s, n, split) && Without(s, t, Strays(s)) && sl in t.vvTried
    ensures TriedSlotOk(t, sl)
  {
    hide TriedSlot, Strays, Seated;
    HolderIsKept(s, n, split, sl);
    KeptStays(s, t, s.vvTried[sl]);
    assert TriedSlotOk(s, sl);
  }

  function Interval(a: int, b: int): (r: set<int>)
    requires a <= b
    ensures forall k :: k in r <==> a <= k < b
    ensures |r| == b - a
    decreases b - a
  {
    if a == b then {} else Interval(a, b - 1) + {b - 1}
  }

  lemma TriedAre(s: State, t: State, n: nat, split: nat)
    requires Sound(s, n, split) && split <= n && Without(s, t, Strays(s))
    ensures TriedIds(t.mapInfo) == Interval(split, n)
  {
    hide Sound;
    forall id ensures id in TriedIds(t.mapInfo) <==> id in Interval(split, n) {
      RowKind(s, n, split, id);
      if id in t.mapInfo {
        KeptEntry(s, t, id);
      } else if split <= id < n {
        KeptStays(s, t, id);
      }
    }
  }

  lemma RowKind(s: State, n: nat, split: nat, id: int)
    requires Sound(s, n, split)
    ensures id in s.mapInfo <==> 0 <= id < n
    ensures id in s.mapInfo ==> (s.mapInfo[id].fInTried <==> id >= split)
  {
  }

  lemma NewAre(s: State, t: State, n: nat, split: nat)
    requires Sound(s, n, split) && split <= n && Without(s, t, Strays(s))
    ensures NewIds(t.mapInfo) == Interval(0, split) - Strays(s) && Strays(s) <= Interval(0, split)
  {
    hide Sound;
    forall id ensures id in NewIds(t.mapInfo) <==> id in Interval(0, split) && id !in Strays(s) {
      RowKind(s, n, split, id);
      if id in t.mapInfo {
        KeptEntry(s, t, id);
      } else if 0 <= id < split && id !in Strays(s) {
        KeptStays(s, t, id);
      }
    }
    forall id | id in Strays(s) ensures id in Interval(0, split) {
      RowKind(s, n, split, id);
    }
  }

  /** Only the number of tried entries can be wrong. */
  lemma TotalsAfter(s: State, t: State, n: nat, split: nat)
    requires Sound(s, n, split) && split <= n && s.nNew == split && Without(s, t, Strays(s))
    ensures Totals(t, 0) <==> s.nTried == n - split
  {
    TriedAre(s, t, n, split);
    NewAre(s, t, n, split);
    hide Sound, Strays, Interval, TriedIds, NewIds;
    RestSize(Interval(0, split), Strays(s));
  }

  lemma RestSize(a: set<int>, b: set<int>)
    requires b <= a
    ensures |a - b| == |a| - |b|
  {
    assert a == (a - b) + b;
  }

  /** What is known under an address that two entries have is not what it should be. */
  lemma ClashShows(s: State, t: State, id: int, other: int)
    requires Without(s, t, Strays(s)) && Lookups(t)
    requires id in s.mapInfo && other in s.mapInfo && id !in Strays(s) && other != id
    ensures s.Service(id).ip != s.Service(other).ip
  {
    hide Strays;
    KeptStays(s, t, id);
    assert Placed(t, id);
    if other in Strays(s) {
      assert Forgotten(s, Strays(s), s.Service(other).ip);
    } else {
      KeptStays(s, t, other);
      assert Placed(t, other);
    }
  }

  lemma KeptPlaced(s: State, t: State, n: nat, split: nat, id: int)
    requires Sound(s, n, split) && s.nIdCount == n && Without(s, t, Strays(s)) && NoClash(s) && id in t.mapInfo
    ensures Placed(t, id)
  {
    hide Strays, Filled, Ordered, NoClash;
    KeptEntry(s, t, id);
    KeptKnown(s, id);
    assert SeatOf(t, id);
  }

  /** Without a clash an entry in a table is known under its address, which no deleted entry has. */
  lemma KeptKnown(s: State, id: int)
    requires Listed(s) && NoClash(s) && id in s.mapInfo && id !in Strays(s)
    ensures var ip := s.Service(id).ip; ip in s.mapAddr && s.mapAddr[ip] == id && !Forgotten(s, Strays(s), ip)
  {
    hide Strays;
    assert Indexed(s, s.Service(id).ip);
    StraysAreThere(s);
  }

  lemma KeptIndexed(s: State, t: State, n: nat, split: nat, ip: NetAddr)
    requires Sound(s, n, split) && Without(s, t, Strays(s)) && ip in t.mapAddr
    ensures Indexed(t, ip)
  {
    hide Strays;
    assert Indexed(s, ip);
    var k := s.mapAddr[ip];
    assert k in Strays(s) ==> Forgotten(s, Strays(s), ip);
    KeptStays(s, t, k);
  }

  lemma LookupsAfter(s: State, t: State, n: nat, split: nat)
    requires Sound(s, n, split) && s.nIdCount == n && Without(s, t, Strays(s))
    ensures Lookups(t) <==> NoClash(s)
  {
    hide Sound, Strays;
    if NoClash(s) {
      forall id | id in t.mapInfo ensures Placed(t, id) {
        KeptPlaced(s, t, n, split, id);
      }
      forall ip | ip in t.mapAddr ensures Indexed(t, ip) {
        KeptIndexed(s, t, n, split, ip);
      }
    } else if Lookups(t) {
      forall id, other | id in s.mapInfo && other in s.mapInfo && id !in Strays(s) && other != id
        ensures s.Service(id).ip != s.Service(other).ip
      {
        ClashShows(s, t, id, other);
      }
    }
  }

  /**
   An empty manager is consistent after loading exactly if no count in the header is negative and no
   entry in a table shares its address with another entry. Where one does, the address is known under
   the later entry only, or under none at all if that is deleted for being in no table.
   */
  lemma LoadedConsistentIff(s: State, toks: seq<Token>)
    requires Fresh(s, s.env) && Readable(toks)
    ensures ReadTables(s, toks).Load? && LoadFile(s, toks).Load?
    ensures Consistent(LoadFile(s, toks).state) <==>
            NewAnnounced(toks) >= 0 && TriedAnnounced(toks) >= 0 && NoClash(ReadTables(s, toks).state)
  {
    hide Infos, BucketsEnd, ReadTables, LoadFile, Sound, Without, Strays, NoClash, Lookups, Tables;
    TablesReadable(s, toks);
    LoadsIff(s, toks);
    if NewAnnounced(toks) < 0 {
      NegativeStays(s, toks);
    } else {
      var n := TablesSound(s, toks);
      var t, u := ReadTables(s, toks).state, LoadFile(s, toks).state;
      LoadsWithout(s, toks);
      TablesAfter(t, u, n, NewAnnounced(toks));
      TotalsAfter(t, u, n, NewAnnounced(toks));
      LookupsAfter(t, u, n, NewAnnounced(toks));
      CountKept(t, u);
    }
  }

  /** Both for whoever does not know yet whether the manager is empty or the file can be read. */
  lemma FreshLoads(s: State, toks: seq<Token>)
    ensures Fresh(s, s.env) ==> (LoadFile(s, toks).Load? <==> Readable(toks))
    ensures Fresh(s, s.env) && Readable(toks) ==>
              ReadTables(s, toks).Load? && LoadFile(s, toks).Load?
              && (Consistent(LoadFile(s, toks).state) <==>
                  NewAnnounced(toks) >= 0 && TriedAnnounced(toks) >= 0 && NoClash(ReadTables(s, toks).state))
  {
    hide Infos, BucketsEnd, ReadTables, LoadFile, Consistent, NoClash;
    if Fresh(s, s.env) {
      LoadsIff(s, toks);
      if Readable(toks) {
        LoadedConsistentIff(s, toks);
      }
    }
  }

  lemma CountKept(s: State, t: State)
    requires Without(s, t, Strays(s))
    ensures t.nIdCount == s.nIdCount
  {
  }

  // ---------------------------------------------------------------- what the entries say

  /** The entry says what the file says. */
  predicate Says(info: CAddrInfo, tok: Token) {
    && tok.InfoTok? && info.addr == tok.addr && info.source == tok.source
    && info.nLastSuccess == tok.nLastSuccess && info.nAttempts == tok.nAttempts
  }

  /** The first n entries are those of the file. */
  ghost predicate NewSaid(s: State, toks: seq<Token>, n: int) { forall k :: 0 <= k < n ==> SaidAt(s, toks, k) }

  /** The k-th does. */
  predicate SaidAt(s: State, toks: seq<Token>, k: nat) { k in s.mapInfo && 6 + k < |toks| && Says(s.mapInfo[k], toks[6 + k]) }

  /** Entry `id` says what some token from `from` to `to` says. */
  ghost predicate SaidIn(s: State, id: int, toks: seq<Token>, from: nat, to: int) {
    id in s.mapInfo && exists q :: from <= q < to && q < |toks| && Says(s.mapInfo[id], toks[q])
  }

  /** The other entries are of those tokens; and where one of these belongs in "tried" it or another one is. */
  ghost predicate TriedSaid(s: State, toks: seq<Token>, split: int, from: nat, to: int) {
    && (forall id :: id in s.mapInfo && id >= split ==> SaidIn(s, id, toks, from, to))
    && (forall q :: from <= q < to && q < |toks| && toks[q].InfoTok? ==> TriedSlot(s.env, s.nKey, toks[q].addr.service) in s.vvTried)
  }

  lemma NewEntrySaid(s: State, toks: seq<Token>, n: nat, usable: bool)
    requires NewSaid(s, toks, n) && 6 + n < |toks| && toks[6 + n].InfoTok?
    ensures NewSaid(LoadNewEntry(s, toks[6 + n], n, usable), toks, n + 1)
  {
    hide NewSlot;
    var t := LoadNewEntry(s, toks[6 + n], n, usable);
    forall k | 0 <= k < n + 1 ensures SaidAt(t, toks, k) {
      assert k < n ==> SaidAt(s, toks, k);
    }
  }

  lemma {:induction false} NewIsSaid(s: State, toks: seq<Token>, n: nat, nNew: int, usable: bool)
    requires NewSaid(s, toks, n) && LoadNew(s, toks, 6 + n, n, nNew, usable).Load? && n <= nNew
    ensures NewSaid(LoadNew(s, toks, 6 + n, n, nNew, usable).state, toks, nNew)
    decreases nNew - n
  {
    hide NewSaid, LoadNewEntry;
    if n < nNew {
      NewEntrySaid(s, toks, n, usable);
      NewIsSaid(LoadNewEntry(s, toks[6 + n], n, usable), toks, n + 1, nNew, usable);
    }
  }

  lemma TriedEntrySaid(s: State, toks: seq<Token>, split: nat, from: nat, at: nat)
    requires from <= at < |toks| && toks[at].InfoTok? && s.nIdCount >= split && TriedSaid(s, toks, split, from, at)
    ensures TriedSaid(LoadTriedEntry(s, ReadOver(EMPTY_INFO, toks[at])), toks, split, from, at + 1)
  {
    hide TriedSlot;
    var t := LoadTriedEntry(s, ReadOver(EMPTY_INFO, toks[at]));
    forall id | id in t.mapInfo && id >= split ensures SaidIn(t, id, toks, from, at + 1) {
      if id in s.mapInfo && t.mapInfo[id] == s.mapInfo[id] {
        assert SaidIn(s, id, toks, from, at);
      } else {
        assert Says(t.mapInfo[id], toks[at]);
      }
    }
    forall q | from <= q < at + 1 && q < |toks| && toks[q].InfoTok?
      ensures TriedSlot(t.env, t.nKey, toks[q].addr.service) in t.vvTried
    {
      assert q < at ==> TriedSlot(s.env, s.nKey, toks[q].addr.service) in s.vvTried;
    }
  }

  lemma NewStaysSaid(s: State, info: CAddrInfo, toks: seq<Token>, split: nat)
    requires s.nIdCount >= split && NewSaid(s, toks, split)
    ensures NewSaid(LoadTriedEntry(s, info), toks, split) && LoadTriedEntry(s, info).nIdCount >= split
  {
    hide TriedSlot, Says;
    var t := LoadTriedEntry(s, info);
    forall k | 0 <= k < split ensures SaidAt(t, toks, k) {
      assert SaidAt(s, toks, k);
      assert t.mapInfo[k] == s.mapInfo[k];
    }
  }

  lemma {:induction false} TriedIsSaid(s: State, toks: seq<Token>, from: nat, at: nat, n: int, nTried: int, nLost: int, split: nat)
    requires from <= at && s.nIdCount >= split && NewSaid(s, toks, split) && TriedSaid(s, toks, split, from, at)
    requires LoadTried(s, toks, at, n, nTried, nLost).Load?
    ensures var r := LoadTried(s, toks, at, n, nTried, nLost); NewSaid(r.state, toks, split) && TriedSaid(r.state, toks, split, from, r.at)
    decreases nTried - n
  {
    hide NewSaid, TriedSaid, TriedSlot, LoadTriedEntry;
    if n < nTried {
      var info := ReadOver(EMPTY_INFO, toks[at]);
      var lost := TriedSlot(s.env, s.nKey, info.addr.service) in s.vvTried;
      TriedEntrySaid(s, toks, split, from, at);
      NewStaysSaid(s, info, toks, split);
      TriedIsSaid(LoadTriedEntry(s, info), toks, from, at + 1, n + 1, nTried, if lost then nLost + 1 else nLost, split);
    } else {
      SaidWithout(s, s.(nTried := s.nTried - nLost), toks, split, from, at);
    }
  }

  /** Neither counters nor reference counts nor the slots of "new" are looked at. */
  lemma SaidWithout(s: State, t: State, toks: seq<Token>, split: nat, from: nat, to: int)
    requires NewSaid(s, toks, split) && TriedSaid(s, toks, split, from, to)
    requires t.env == s.env && t.nKey == s.nKey && t.vvTried == s.vvTried && t.mapInfo.Keys == s.mapInfo.Keys
    requires forall id :: id in s.mapInfo ==> t.mapInfo[id] == s.mapInfo[id].(nRefCount := t.mapInfo[id].nRefCount)
    ensures NewSaid(t, toks, split) && TriedSaid(t, toks, split, from, to)
  {
    hide TriedSlot;
    forall k | 0 <= k < split ensures SaidAt(t, toks, k) {
      assert SaidAt(s, toks, k);
    }
    forall id | id in t.mapInfo && id >= split ensures SaidIn(t, id, toks, from, to) {
      assert SaidIn(s, id, toks, from, to);
      var q :| from <= q < to && q < |toks| && Says(s.mapInfo[id], toks[q]);
      assert Says(t.mapInfo[id], toks[q]);
    }
    forall q | from <= q < to && q < |toks| && toks[q].InfoTok?
      ensures TriedSlot(t.env, t.nKey, toks[q].addr.service) in t.vvTried
    {
      assert TriedSlot(s.env, s.nKey, toks[q].addr.service) in s.vvTried;
    }
  }

  // ---------------------------------------------------------------- what the buckets say

  /** Bucket b of the buckets from `at` on lists index k. */
  ghost predicate Lists(toks: seq<Token>, at: nat, b: nat, k: int) {
    match BucketsEnd(toks, at, b)
    case None => false
    case Some(p) => p < |toks| && toks[p].IntTok? && exists q :: p < q <= p + toks[p].n && q < |toks| && toks[q] == IntTok(k)
  }

  /** Slots hold what their bucket lists, and of what the first buckets list each is in its slot, or lost it to another, or has all eight. */
  ghost predicate AsListed(s: State, toks: seq<Token>, at: nat, done: int) {
    && (forall sl :: sl in s.vvNew ==> 0 <= sl.bucket < done && Lists(toks, at, sl.bucket, s.vvNew[sl]))
    && (forall b: nat, k :: b < done && 0 <= k < s.nNew && Lists(toks, at, b, k) ==> SettledIn(s, b, k))
  }

  predicate SettledIn(s: State, b: int, k: int) {
    k in s.mapInfo && (NewSlotIn(s.env, s.nKey, s.Service(k), b) in s.vvNew || s.mapInfo[k].nRefCount >= 8)
  }

  /** Once an entry is settled in a bucket it stays so. */
  lemma IndexSettles(s: State, bucket: int, nIndex: int, b: int, k: int)
    requires SettledIn(s, b, k)
    ensures SettledIn(LoadIndex(s, bucket, nIndex, true), b, k)
  {
    hide BucketPosition;
  }

  lemma IndexSettled(s: State, bucket: int, nIndex: int)
    requires 0 <= nIndex < s.nNew && nIndex in s.mapInfo
    ensures SettledIn(LoadIndex(s, bucket, nIndex, true), bucket, nIndex)
  {
    hide BucketPosition;
  }

  lemma IndexFills(s: State, bucket: int, nIndex: int, sl: Slot)
    requires sl in LoadIndex(s, bucket, nIndex, true).vvNew
    ensures sl in s.vvNew || (sl.bucket == bucket && LoadIndex(s, bucket, nIndex, true).vvNew[sl] == nIndex)
    ensures sl in s.vvNew ==> LoadIndex(s, bucket, nIndex, true).vvNew[sl] == s.vvNew[sl]
  {
    hide BucketPosition;
  }

  /** What reading one bucket does: it fills slots of that bucket with what is listed, and settles all that is. */
  lemma {:induction false} BucketListed(s: State, toks: seq<Token>, at: nat, bucket: int, n: int, nSize: int, rows: nat, split: nat)
    requires Sound(s, rows, split) && split <= rows && s.nNew == split && 0 <= bucket < NEW_BUCKET_COUNT
    requires LoadBucket(s, toks, at, bucket, n, nSize, true).Load?
    ensures var t := LoadBucket(s, toks, at, bucket, n, nSize, true).state;
            && t == s.(mapInfo := t.mapInfo, vvNew := t.vvNew)
            && (forall b, k :: SettledIn(s, b, k) ==> SettledIn(t, b, k))
            && (forall sl :: sl in s.vvNew ==> sl in t.vvNew && t.vvNew[sl] == s.vvNew[sl])
            && (forall sl :: sl in t.vvNew && sl !in s.vvNew ==>
                  sl.bucket == bucket && exists q :: at <= q < at + nSize - n && q < |toks| && toks[q] == IntTok(t.vvNew[sl]))
            && (forall q :: at <= q < at + nSize - n && q < |toks| && toks[q].IntTok? && 0 <= toks[q].n < s.nNew ==>
                  SettledIn(t, bucket, toks[q].n))
    decreases nSize - n
  {
    hide Sound, LoadIndex, SettledIn;
    if n < nSize {
      var u := LoadIndex(s, bucket, toks[at].n, true);
      IndexSound(s, bucket, toks[at].n, true, rows, split);
      IndexKeeps(s, bucket, toks[at].n, true);
      forall b, k | SettledIn(s, b, k) ensures SettledIn(u, b, k) {
        IndexSettles(s, bucket, toks[at].n, b, k);
      }
      if 0 <= toks[at].n < s.nNew {
        RowThere(s, rows, split, toks[at].n);
        IndexSettled(s, bucket, toks[at].n);
      }
      BucketListed(u, toks, at + 1, bucket, n + 1, nSize, rows, split);
      var t := LoadBucket(s, toks, at, bucket, n, nSize, true).state;
      SlotsListed(s, u, t, toks, at, bucket, nSize - n);
    }
  }

  lemma SlotsListed(s: State, u: State, t: State, toks: seq<Token>, at: nat, bucket: int, n: int)
    requires at < |toks| && toks[at].IntTok? && n > 0 && u == LoadIndex(s, bucket, toks[at].n, true)
    requires forall sl :: sl in u.vvNew ==> sl in t.vvNew && t.vvNew[sl] == u.vvNew[sl]
    requires forall sl :: sl in t.vvNew && sl !in u.vvNew ==>
               sl.bucket == bucket && exists q :: at + 1 <= q < at + n && q < |toks| && toks[q] == IntTok(t.vvNew[sl])
    ensures forall sl :: sl in s.vvNew ==> sl in t.vvNew && t.vvNew[sl] == s.vvNew[sl]
    ensures forall sl :: sl in t.vvNew && sl !in s.vvNew ==>
              sl.bucket == bucket && exists q :: at <= q < at + n && q < |toks| && toks[q] == IntTok(t.vvNew[sl])
  {
    forall sl | sl in s.vvNew ensures sl in u.vvNew && u.vvNew[sl] == s.vvNew[sl] {
      SlotStays(s, bucket, toks[at].n, sl);
    }
    forall sl | sl in t.vvNew && sl !in s.vvNew
      ensures sl.bucket == bucket && exists q :: at <= q < at + n && q < |toks| && toks[q] == IntTok(t.vvNew[sl])
    {
      if sl in u.vvNew {
        IndexFills(s, bucket, toks[at].n, sl);
        assert toks[at] == IntTok(t.vvNew[sl]);
      }
    }
  }

  lemma {:induction false} BucketsEndNext(toks: seq<Token>, at: nat, b: nat, p: nat)
    requires BucketsEnd(toks, at, b) == Some(p) && p < |toks| && toks[p].IntTok? && Indices(toks, p + 1, toks[p].n)
    ensures BucketsEnd(toks, at, b + 1) == Some(p + 1 + Max(0, toks[p].n))
    decreases b
  {
    hide Indices;
    if b > 0 {
      BucketsEndNext(toks, at + 1 + Max(0, toks[at].n), b - 1, p);
    }
  }

  lemma ListsIff(toks: seq<Token>, at: nat, b: nat, p: nat, k: int)
    requires BucketsEnd(toks, at, b) == Some(p) && p < |toks| && toks[p].IntTok?
    ensures Lists(toks, at, b, k) <==> exists q :: p < q <= p + toks[p].n && q < |toks| && toks[q] == IntTok(k)
  {
  }

  lemma BucketAsListed(s: State, t: State, toks: seq<Token>, at: nat, b: nat, p: nat)
    requires AsListed(s, toks, at, b) && BucketsEnd(toks, at, b) == Some(p) && p < |toks| && toks[p].IntTok? && t.nNew == s.nNew
    requires forall c, k :: SettledIn(s, c, k) ==> SettledIn(t, c, k)
    requires forall sl :: sl in s.vvNew ==> sl in t.vvNew && t.vvNew[sl] == s.vvNew[sl]
    requires forall sl :: sl in t.vvNew && sl !in s.vvNew ==>
               sl.bucket == b && exists q :: p + 1 <= q < p + 1 + toks[p].n && q < |toks| && toks[q] == IntTok(t.vvNew[sl])
    requires forall q :: p + 1 <= q < p + 1 + toks[p].n && q < |toks| && toks[q].IntTok? && 0 <= toks[q].n < s.nNew ==>
               SettledIn(t, b, toks[q].n)
    ensures AsListed(t, toks, at, b + 1)
  {
    hide SettledIn, BucketsEnd, Lists;
    forall sl | sl in t.vvNew ensures 0 <= sl.bucket < b + 1 && Lists(toks, at, sl.bucket, t.vvNew[sl]) {
      if sl in s.vvNew {
        assert Lists(toks, at, sl.bucket, s.vvNew[sl]);
      } else {
        ListsIff(toks, at, b, p, t.vvNew[sl]);
      }
    }
    forall c: nat, k | c < b + 1 && 0 <= k < t.nNew && Lists(toks, at, c, k) ensures SettledIn(t, c, k) {
      if c < b {
        assert SettledIn(s, c, k);
      } else {
        ListsIff(toks, at, b, p, k);
      }
    }
  }

  lemma {:induction false} BucketsListed(s: State, toks: seq<Token>, from: nat, at: nat, bucket: nat, rows: nat, split: nat)
    requires Sound(s, rows, split) && split <= rows && s.nNew == split && bucket <= NEW_BUCKET_COUNT
    requires AsListed(s, toks, from, bucket) && BucketsEnd(toks, from, bucket) == Some(at)
    requires LoadBuckets(s, toks, at, bucket, NEW_BUCKET_COUNT, true).Load?
    ensures var t := LoadBuckets(s, toks, at, bucket, NEW_BUCKET_COUNT, true).state;
            t == s.(mapInfo := t.mapInfo, vvNew := t.vvNew) && AsListed(t, toks, from, NEW_BUCKET_COUNT)
    decreases NEW_BUCKET_COUNT - bucket
  {
    hide Sound, LoadBucket, AsListed, BucketsEnd, Indices, SettledIn;
    if bucket < NEW_BUCKET_COUNT {
      var r := LoadBucket(s, toks, at + 1, bucket, 0, toks[at].n, true);
      BucketReadable(s, toks, at + 1, bucket, 0, toks[at].n, true);
      BucketSound(s, toks, at + 1, bucket, 0, toks[at].n, true, rows, split);
      BucketListed(s, toks, at + 1, bucket, 0, toks[at].n, rows, split);
      BucketAsListed(s, r.state, toks, from, bucket, at);
      BucketsEndNext(toks, from, bucket, at);
      BucketsListed(r.state, toks, from, r.at, bucket + 1, rows, split);
    }
  }

  /**
   Before anything is pruned the entries are those of the file, in "tried" as far as their slots were free; and if its buckets can
   be used, the slots of "new" hold what their buckets list, and miss what they list only for another entry or the ninth reference.
   */
  lemma LoadedSays(s: State, toks: seq<Token>)
    requires Fresh(s, s.env) && Readable(toks) && NewAnnounced(toks) >= 0
    ensures ReadTables(s, toks).Load?
    ensures var t, n := ReadTables(s, toks).state, NewAnnounced(toks);
            && NewSaid(t, toks, n) && TriedSaid(t, toks, n, 6 + n, EntriesEnd(toks)) && t.nNew == n
            && (Usable(toks) ==> AsListed(t, toks, EntriesEnd(toks), NEW_BUCKET_COUNT))
  {
    hide LoadNew, LoadTried, LoadBuckets, Infos, BucketsEnd, Sound, NewSaid, TriedSaid, AsListed;
    TablesReadable(s, toks);
    var nNew, usable := NewAnnounced(toks), Usable(toks);
    var t := Clear(s, toks[2].nKey).(nNew := toks[3].n, nTried := toks[4].n);
    NothingSound(t);
    NothingSaid(t, toks);
    NewIsSaid(t, toks, 0, nNew, usable);
    NewSound(t, toks, 6, 0, nNew, usable);
    NewReadable(t, toks, 6, 0, nNew, usable);
    var r1 := LoadNew(t, toks, 6, 0, nNew, usable);
    var u := r1.state.(nIdCount := nNew);
    CountersFree(r1.state, u, nNew, nNew);
    NoneTriedYet(r1.state, u, toks, nNew);
    TriedIsSaid(u, toks, 6 + nNew, r1.at, 0, t.nTried, 0, nNew);
    TriedSound(u, toks, r1.at, 0, t.nTried, 0, nNew);
    TriedReadable(u, toks, r1.at, 0, t.nTried, 0);
    var r2 := LoadTried(u, toks, r1.at, 0, t.nTried, 0);
    var rows := r2.state.nIdCount;
    BucketsSound(r2.state, toks, r2.at, 0, BucketCount(toks), usable, rows, nNew);
    var v := LoadBuckets(r2.state, toks, r2.at, 0, BucketCount(toks), usable).state;
    SaidWithout(r2.state, v, toks, nNew, 6 + nNew, r2.at);
    if usable {
      NewTakesNoSlot(t, toks, 6, 0, nNew);
      NothingListed(r2.state, toks, r2.at);
      BucketsListed(r2.state, toks, r2.at, r2.at, 0, rows, nNew);
    }
  }

  lemma NothingSaid(s: State, toks: seq<Token>)
    ensures NewSaid(s, toks, 0)
  {
  }

  lemma NoneTriedYet(s: State, t: State, toks: seq<Token>, n: nat)
    requires Sound(s, n, n) && NewSaid(s, toks, n) && t == s.(nIdCount := n)
    ensures NewSaid(t, toks, n) && TriedSaid(t, toks, n, 6 + n, 6 + n)
  {
    hide Says;
    forall k | 0 <= k < n ensures SaidAt(t, toks, k) {
      assert SaidAt(s, toks, k);
    }
    forall id | id in t.mapInfo ensures id < n {
      RowKind(s, n, n, id);
    }
  }

  lemma NothingListed(s: State, toks: seq<Token>, at: nat)
    requires s.vvNew == map[]
    ensures AsListed(s, toks, at, 0) && BucketsEnd(toks, at, 0) == Some(at)
  {
  }

  lemma {:induction false} NewTakesNoSlot(s: State, toks: seq<Token>, at: nat, n: int, nNew: int)
    requires LoadNew(s, toks, at, n, nNew, true).Load?
    ensures LoadNew(s, toks, at, n, nNew, true).state.vvNew == s.vvNew
    decreases nNew - n
  {
    if n < nNew {
      NewTakesNoSlot(LoadNewEntry(s, toks[at], n, true), toks, at + 1, n + 1, nNew);
    }
  }

  lemma SlotStays(s: State, bucket: int, nIndex: int, sl: Slot)
    requires sl in s.vvNew
    ensures sl in LoadIndex(s, bucket, nIndex, true).vvNew && LoadIndex(s, bucket, nIndex, true).vvNew[sl] == s.vvNew[sl]
  {
    hide BucketPosition;
  }

  // ---------------------------------------------------------------- files whose buckets cannot be used

  /** Where the k-th entry of the file belongs in "new", by its address and who told of it. */
  function FileHome(env: Env, toks: seq<Token>, k: int): Slot
    requires 0 <= k && 6 + k < |toks| && toks[6 + k].InfoTok? && toks[2].KeyTok?
  {
    NewSlot(env, toks[2].nKey, toks[6 + k].addr.service, toks[6 + k].source)
  }

  /** The first n entries are those of the file; each stands where it belongs, or an earlier one that belongs there does. */
  ghost predicate AtHome(s: State, toks: seq<Token>, n: nat) {
    && Infos(toks, 6, n) && |toks| > 6 && toks[2] == KeyTok(s.nKey)
    && (forall k :: 0 <= k < n ==> k in s.mapInfo && s.mapInfo[k].addr == toks[6 + k].addr && s.mapInfo[k].source == toks[6 + k].source)
    && (forall k :: 0 <= k < n ==> FileHome(s.env, toks, k) in s.vvNew && s.vvNew[FileHome(s.env, toks, k)] <= k)
    && (forall sl :: sl in s.vvNew ==> 0 <= s.vvNew[sl] < n && sl == FileHome(s.env, toks, s.vvNew[sl]))
  }

  lemma EntryAtHome(s: State, toks: seq<Token>, n: nat)
    requires AtHome(s, toks, n) && 6 + n < |toks| && toks[6 + n].InfoTok?
    ensures AtHome(LoadNewEntry(s, toks[6 + n], n, false), toks, n + 1)
  {
    hide FileHome;
    EntryTakesHome(s, toks, n);
    var home, t := FileHome(s.env, toks, n), LoadNewEntry(s, toks[6 + n], n, false);
    hide LoadNewEntry, Infos;
    assert Infos(toks, 6, n + 1) by {
      InfosMore(toks, n);
    }
  }

  lemma EntryTakesHome(s: State, toks: seq<Token>, n: nat)
    requires 6 + n < |toks| && toks[6 + n].InfoTok? && toks[2] == KeyTok(s.nKey)
    ensures var t, home := LoadNewEntry(s, toks[6 + n], n, false), FileHome(s.env, toks, n);
            && t.env == s.env && t.nKey == s.nKey && t.vvNew == (if home in s.vvNew then s.vvNew else s.vvNew[home := n])
            && n in t.mapInfo && t.mapInfo == s.mapInfo[n := t.mapInfo[n]]
            && t.mapInfo[n].addr == toks[6 + n].addr && t.mapInfo[n].source == toks[6 + n].source
  {
    hide NewSlot;
  }

  lemma InfosMore(toks: seq<Token>, n: nat)
    requires Infos(toks, 6, n) && 6 + n < |toks| && toks[6 + n].InfoTok?
    ensures Infos(toks, 6, n + 1)
  {
  }

  lemma {:induction false} NewAtHome(s: State, toks: seq<Token>, n: nat, nNew: nat)
    requires n <= nNew && AtHome(s, toks, n) && LoadNew(s, toks, 6 + n, n, nNew, false).Load?
    ensures AtHome(LoadNew(s, toks, 6 + n, n, nNew, false).state, toks, nNew)
    decreases nNew - n
  {
    hide AtHome, LoadNewEntry;
    if n < nNew {
      EntryAtHome(s, toks, n);
      NewAtHome(LoadNewEntry(s, toks[6 + n], n, false), toks, n + 1, nNew);
    }
  }

  lemma {:induction false} TriedAtHome(s: State, toks: seq<Token>, at: nat, n: int, nTried: int, nLost: int, split: nat)
    requires s.nIdCount >= split && AtHome(s, toks, split) && LoadTried(s, toks, at, n, nTried, nLost).Load?
    ensures AtHome(LoadTried(s, toks, at, n, nTried, nLost).state, toks, split)
    decreases nTried - n
  {
    hide TriedSlot, NewSlot;
    if n < nTried {
      var info := ReadOver(EMPTY_INFO, toks[at]);
      var lost := TriedSlot(s.env, s.nKey, info.addr.service) in s.vvTried;
      TriedAtHome(LoadTriedEntry(s, info), toks, at + 1, n + 1, nTried, if lost then nLost + 1 else nLost, split);
    }
  }

  lemma {:induction false} BucketUnused(s: State, toks: seq<Token>, at: nat, bucket: int, n: int, nSize: int)
    requires (forall k :: 0 <= k < s.nNew ==> k in s.mapInfo) && LoadBucket(s, toks, at, bucket, n, nSize, false).Load?
    ensures LoadBucket(s, toks, at, bucket, n, nSize, false).state == s
    decreases nSize - n
  {
    if n < nSize {
      assert 0 <= toks[at].n < s.nNew ==> s.Put(toks[at].n, s.Info(toks[at].n)).mapInfo == s.mapInfo;
      BucketUnused(s, toks, at + 1, bucket, n + 1, nSize);
    }
  }

  lemma {:induction false} BucketsUnused(s: State, toks: seq<Token>, at: nat, bucket: int, nUBuckets: int)
    requires (forall k :: 0 <= k < s.nNew ==> k in s.mapInfo) && LoadBuckets(s, toks, at, bucket, nUBuckets, false).Load?
    ensures LoadBuckets(s, toks, at, bucket, nUBuckets, false).state == s
    decreases nUBuckets - bucket
  {
    hide LoadBucket;
    if bucket < nUBuckets {
      BucketUnused(s, toks, at + 1, bucket, 0, toks[at].n);
      BucketsUnused(s, toks, LoadBucket(s, toks, at + 1, bucket, 0, toks[at].n, false).at, bucket + 1, nUBuckets);
    }
  }

  predicate Usable(toks: seq<Token>)
    requires HasHeader(toks)
  {
    toks[0].b == 1 && BucketCount(toks) == NEW_BUCKET_COUNT
  }

  lemma TablesAtHome(s: State, toks: seq<Token>)
    requires Fresh(s, s.env) && Readable(toks) && NewAnnounced(toks) > 0 && !Usable(toks)
    ensures ReadTables(s, toks).Load?
    ensures var t := ReadTables(s, toks).state; t.env == s.env && AtHome(t, toks, NewAnnounced(toks))
  {
    hide LoadNew, LoadTried, LoadBuckets, Infos, BucketsEnd, AtHome, Sound;
    TablesReadable(s, toks);
    var nNew := NewAnnounced(toks);
    var t := Clear(s, toks[2].nKey).(nNew := toks[3].n, nTried := toks[4].n);
    NobodyAtHome(t, toks);
    NothingSound(t);
    NewAtHome(t, toks, 0, nNew);
    NewSound(t, toks, 6, 0, nNew, false);
    var r1 := LoadNew(t, toks, 6, 0, nNew, false);
    var u := r1.state.(nIdCount := nNew);
    CountersFree(r1.state, u, nNew, nNew);
    HomeWithout(r1.state, u, toks, nNew);
    TriedAtHome(u, toks, r1.at, 0, t.nTried, 0, nNew);
    TriedSound(u, toks, r1.at, 0, t.nTried, 0, nNew);
    var r2 := LoadTried(u, toks, r1.at, 0, t.nTried, 0);
    EntriesThere(r2.state, toks, nNew);
    BucketsUnused(r2.state, toks, r2.at, 0, BucketCount(toks));
  }

  lemma NobodyAtHome(s: State, toks: seq<Token>)
    requires s.mapInfo == map[] && s.vvNew == map[] && Readable(toks) && s.nKey == toks[2].nKey && NewAnnounced(toks) > 0
    ensures AtHome(s, toks, 0)
  {
  }

  lemma HomeWithout(s: State, t: State, toks: seq<Token>, n: nat)
    requires AtHome(s, toks, n) && t == s.(nIdCount := t.nIdCount)
    ensures AtHome(t, toks, n)
  {
  }

  lemma EntriesThere(s: State, toks: seq<Token>, n: nat)
    requires AtHome(s, toks, n)
    ensures forall k :: 0 <= k < n ==> k in s.mapInfo
  {
  }

  /** Whether an entry of the file comes before all others that belong in the same slot of "new". */
  predicate FirstThere(env: Env, toks: seq<Token>, k: nat)
    requires Readable(toks) && k < NewAnnounced(toks)
  {
    forall j :: 0 <= j < k ==> FileHome(env, toks, j) != FileHome(env, toks, k)
  }

  /**
   Of a file of another version or bucket count each "new" entry is put, once, where it belongs by its source; where
   several belong in one slot the first of the file is kept.
   */
  lemma KeptAtHome(s: State, toks: seq<Token>, k: nat)
    requires Fresh(s, s.env) && Readable(toks) && !Usable(toks) && k < NewAnnounced(toks)
    ensures LoadFile(s, toks).Load?
    ensures var t := LoadFile(s, toks).state;
            && (k in t.mapInfo <==> FirstThere(s.env, toks, k))
            && (k in t.mapInfo ==>
                  && t.mapInfo[k].addr == toks[6 + k].addr && t.mapInfo[k].source == toks[6 + k].source
                  && !t.mapInfo[k].fInTried && t.mapInfo[k].nRefCount == 1
                  && FileHome(s.env, toks, k) in t.vvNew && t.vvNew[FileHome(s.env, toks, k)] == k)
  {
    hide BucketsEnd, ReadTables, LoadFile, Without, Strays, Listed, NewSlot;
    LoadsWithout(s, toks);
    TablesAtHome(s, toks);
    var n := TablesSound(s, toks);
    var t, u := ReadTables(s, toks).state, LoadFile(s, toks).state;
    var home := FileHome(s.env, toks, k);
    OwnerIsFirst(t, toks, NewAnnounced(toks), k);
    HomeCounts(t, toks, n, NewAnnounced(toks), k);
    TablesUnchanged(t, u);
    if t.vvNew[home] == k {
      KeptStays(t, u, k);
    } else if k in u.mapInfo {
      KeptEntry(t, u, k);
      assert false;
    }
  }

  lemma OwnerIsFirst(t: State, toks: seq<Token>, n: nat, k: nat)
    requires AtHome(t, toks, n) && Readable(toks) && k < n == NewAnnounced(toks)
    ensures t.vvNew[FileHome(t.env, toks, k)] == k <==> FirstThere(t.env, toks, k)
  {
    hide NewSlot, BucketsEnd;
    var first := t.vvNew[FileHome(t.env, toks, k)];
    if first != k {
      assert FileHome(t.env, toks, first) == FileHome(t.env, toks, k);
    }
  }

  lemma HomeCounts(t: State, toks: seq<Token>, n: nat, split: nat, k: nat)
    requires Sound(t, n, split) && AtHome(t, toks, split) && k < split <= n
    ensures !t.mapInfo[k].fInTried && t.mapInfo[k].nRefCount == if t.vvNew[FileHome(t.env, toks, k)] == k then 1 else 0
    ensures k in Strays(t) <==> t.vvNew[FileHome(t.env, toks, k)] != k
  {
    hide NewSlot, NewSlotOk, TriedSlotOk;
    var home := FileHome(t.env, toks, k);
    assert RowCounted(t, k);
    if t.vvNew[home] == k {
      assert SlotsOf(t.vvNew, k) == {home};
    } else {
      assert SlotsOf(t.vvNew, k) == {};
    }
  }

  lemma TablesUnchanged(s: State, t: State)
    requires Without(s, t, Strays(s))
    ensures t.vvNew == s.vvNew && t.env == s.env && t.nKey == s.nKey
  {
  }

  // ---------------------------------------------------------------- files with and without repeated addresses

  lemma ApartMeansNoClash(s: State, toks: seq<Token>, at: int)
    requires Apart(s, toks, at)
    ensures NoClash(s)
  {
    hide Seen, Strays;
  }

  /** If no address is repeated in the file, whatever its version, bucket count and indices, only the counts can be wrong. */
  lemma DistinctIsConsistentIff(s: State, toks: seq<Token>)
    requires Fresh(s, s.env) && Readable(toks) && Distinct(toks, EntriesEnd(toks))
    ensures LoadFile(s, toks).Load?
    ensures Consistent(LoadFile(s, toks).state) <==> NewAnnounced(toks) >= 0 && TriedAnnounced(toks) >= 0
  {
    hide Infos, BucketsEnd, ReadTables, LoadFile, Consistent, Sound, NoClash, Apart, Distinct;
    LoadedConsistentIff(s, toks);
    if NewAnnounced(toks) >= 0 {
      var n := TablesSound(s, toks);
      var t := ReadTables(s, toks).state;
      var at :| Apart(t, toks, at);
      ApartMeansNoClash(t, toks, at);
    }
  }

  /** A file of version 0 with an entry that is in "new" and again in "tried". */
  predicate InNewAndTried(toks: seq<Token>) {
    && HasHeader(toks) && toks[0].b == 0 && toks[3].n == 1 && toks[4].n == 1 && toks[5].n == 0
    && |toks| == 8 && toks[6].InfoTok? && toks[7] == toks[6]
  }

  /** A file of version 0 with an entry that is twice in "new". */
  predicate InNewTwice(toks: seq<Token>) {
    && HasHeader(toks) && toks[0].b == 0 && toks[3].n == 2 && toks[4].n == 0 && toks[5].n == 0
    && |toks| == 8 && toks[6].InfoTok? && toks[7] == toks[6]
  }

  /** In a consistent state every entry is found under its address. */
  lemma NotFound(s: State, id: int)
    requires id in s.mapInfo && !(s.Service(id).ip in s.mapAddr && s.mapAddr[s.Service(id).ip] == id)
    ensures !Consistent(s)
  {
    hide Tables, Totals;
    assert !Placed(s, id);
  }

  lemma NewAndTriedRead(s: State, toks: seq<Token>)
    requires Fresh(s, s.env) && InNewAndTried(toks)
    ensures ReadTables(s, toks).Load?
    ensures var t := ReadTables(s, toks).state;
            && t.mapInfo.Keys == {0, 1} && t.mapAddr == map[toks[6].addr.service.ip := 1]
            && t.Service(0) == t.Service(1) == toks[6].addr.service
            && t.mapInfo[0].nRefCount == 1 && t.mapInfo[1].fInTried
  {
    hide NewSlotIn, TriedSlot;
    var t := Clear(s, toks[2].nKey).(nNew := 1, nTried := 1);
    var t1 := LoadNewEntry(t, toks[6], 0, false);
    assert LoadNew(t, toks, 6, 0, 1, false) == LoadNew(t1, toks, 7, 1, 1, false) == Load(t1, 7);
    var u := t1.(nIdCount := 1);
    var t2 := LoadTriedEntry(u, ReadOver(EMPTY_INFO, toks[7]));
    assert LoadTried(u, toks, 7, 0, 1, 0) == LoadTried(t2, toks, 8, 1, 1, 0);
  }

  lemma TwiceRead(s: State, toks: seq<Token>)
    requires Fresh(s, s.env) && InNewTwice(toks)
    ensures Readable(toks) && ReadTables(s, toks).Load?
    ensures var t := ReadTables(s, toks).state;
            && t.mapInfo.Keys == {0, 1} && t.mapAddr == map[toks[6].addr.service.ip := 1]
            && t.Service(0) == t.Service(1) == toks[6].addr.service
            && t.mapInfo[0].nRefCount == 1 && t.mapInfo[1].nRefCount == 0 && !t.mapInfo[0].fInTried && !t.mapInfo[1].fInTried
  {
    hide NewSlotIn, TriedSlot;
    TablesReadable(s, toks);
    var t := Clear(s, toks[2].nKey).(nNew := 2, nTried := 0);
    var t1 := LoadNewEntry(t, toks[6], 0, false);
    var t2 := LoadNewEntry(t1, toks[7], 1, false);
    assert LoadNew(t, toks, 6, 0, 2, false) == Load(t2, 8) by {
      assert LoadNew(t2, toks, 8, 2, 2, false) == Load(t2, 8);
      assert LoadNew(t1, toks, 7, 1, 2, false) == LoadNew(t2, toks, 8, 2, 2, false);
    }
  }

  /** Of an address in "new" and in "tried" the index knows the tried entry only. */
  lemma Overwritten(s: State, toks: seq<Token>)
    requires Fresh(s, s.env) && InNewAndTried(toks)
    ensures LoadFile(s, toks).Load?
    ensures var t := LoadFile(s, toks).state;
            !Consistent(t) && t.mapInfo.Keys == {0, 1} && t.mapAddr == map[toks[6].addr.service.ip := 1]
  {
    hide ReadTables, Consistent, Prune, Sorted;
    NewAndTriedRead(s, toks);
    var r := ReadTables(s, toks);
    SortedIsComplete(r.state.mapInfo.Keys);
    NothingToPrune(r.state, Sorted(r.state.mapInfo.Keys), r.at);
    NotFound(r.state, 0);
  }

  /** Of an address twice in "new" the second entry goes, and the index does not know the first any more. */
  lemma Erased(s: State, toks: seq<Token>)
    requires Fresh(s, s.env) && InNewTwice(toks)
    ensures LoadFile(s, toks).Load?
    ensures var t := LoadFile(s, toks).state;
            !Consistent(t) && t.mapInfo.Keys == {0} && t.Service(0) == toks[6].addr.service && t.mapAddr == map[]
  {
    hide ReadTables, LoadFile, Seated, Consistent;
    TwiceRead(s, toks);
    LoadsWithout(s, toks);
    var t, u, ip := ReadTables(s, toks).state, LoadFile(s, toks).state, toks[6].addr.service.ip;
    assert Strays(t) == {1};
    KeptStays(t, u, 0);
    assert Forgotten(t, Strays(t), ip);
    forall id ensures id in u.mapInfo <==> id == 0 {
      if id in u.mapInfo {
        KeptEntry(t, u, id);
      }
    }
    NotFound(u, 0);
  }
}
