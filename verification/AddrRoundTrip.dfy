/**
 Reading back what was written: Unserialize after Serialize restores every entry, both tables and all
 counters, up to the numbering of the entries, and nothing is lost.

 The file is read in four phases: the entries of "new", those of "tried", the buckets of "new", and
 the pruning of entries without references. For each there is a predicate that says how far the state
 has been restored, and a lemma that reads the phase to its end; together they give a state that is
 the one written, with its entries renamed.
 */
module AddrRoundTrip {
  import opened AddrTables
  import opened MapOrder
  import opened AddrFile

  /** Slots hold the same entries; entry k of the copy is entry ids[k]. */
  ghost predicate SameTable(a: map<Slot, int>, b: map<Slot, int>, ids: seq<int>) {
    && (forall sl :: sl in b <==> sl in a)
    && (forall sl :: sl in b ==> 0 <= b[sl] < |ids| && ids[b[sl]] == a[sl])
  }

  ghost predicate SameIndex(a: map<NetAddr, int>, b: map<NetAddr, int>, ids: seq<int>) {
    && (forall ip :: ip in b <==> ip in a)
    && (forall ip :: ip in b ==> 0 <= b[ip] < |ids| && ids[b[ip]] == a[ip])
  }

  /**
   State `t` is state `s` with its entries numbered anew: entry k of `t` is entry ids[k] of `s`. Only
   the time of the last try, which is kept in memory only, and the order of vRandom are forgotten.
   */
  ghost predicate Renamed(s: State, t: State, ids: seq<int>) {
    && NoRepeats(ids) && (forall id :: id in ids <==> id in s.mapInfo)
    && t.env == s.env && t.nKey == s.nKey && t.nNew == s.nNew && t.nTried == s.nTried && t.nIdCount == |ids|
    && (forall k :: k in t.mapInfo <==> 0 <= k < |ids|)
    && (forall k :: k in t.mapInfo ==> t.mapInfo[k] == s.mapInfo[ids[k]].(nLastTry := 0, nRandomPos := k))
    && |t.vRandom| == |ids| && (forall k :: 0 <= k < |ids| ==> t.vRandom[k] == k)
    && SameIndex(s.mapAddr, t.mapAddr, ids)
    && SameTable(s.vvTried, t.vvTried, ids) && SameTable(s.vvNew, t.vvNew, ids)
  }

  // ---------------------------------------------------------------- a renamed state is consistent

  lemma Position(ids: seq<int>, id: int) returns (k: nat)
    requires id in ids
    ensures k < |ids| && ids[k] == id
  {
    k :| 0 <= k < |ids| && ids[k] == id;
  }

  lemma RenamedLookups(s: State, t: State, ids: seq<int>)
    requires Consistent(s) && Renamed(s, t, ids)
    ensures Lookups(t)
  {
    hide Tables, Totals, SameTable;
    forall k | k in t.mapInfo ensures Placed(t, k) {
      assert ids[k] in ids;
      assert Placed(s, ids[k]);
    }
    forall ip | ip in t.mapAddr ensures Indexed(t, ip) {
      assert Indexed(s, ip);
    }
    forall i | 0 <= i < |t.vRandom| ensures Ordered(t, i) {
    }
  }

  lemma SameSlots(a: map<Slot, int>, b: map<Slot, int>, ids: seq<int>, k: int)
    requires SameTable(a, b, ids) && NoRepeats(ids) && 0 <= k < |ids|
    ensures SlotsOf(b, k) == SlotsOf(a, ids[k])
  {
  }

  lemma RenamedCounted(s: State, t: State, ids: seq<int>, k: int)
    requires Tables(s, {}) && Renamed(s, t, ids) && k in t.mapInfo
    ensures Counted(t, {}, k)
  {
    hide TriedSlot, NewSlotIn, SlotsOf, SameIndex;
    assert ids[k] in ids;
    assert Counted(s, {}, ids[k]);
    SameSlots(s.vvNew, t.vvNew, ids, k);
  }

  lemma RenamedSlot(s: State, t: State, ids: seq<int>, sl: Slot)
    requires Tables(s, {}) && Renamed(s, t, ids)
    ensures sl in t.vvNew ==> NewSlotOk(t, sl)
    ensures sl in t.vvTried ==> TriedSlotOk(t, sl)
  {
    hide Counted, TriedSlot, NewSlotIn, SameIndex;
    if sl in t.vvNew {
      assert NewSlotOk(s, sl);
    }
    if sl in t.vvTried {
      assert TriedSlotOk(s, sl);
    }
  }

  lemma RenamedTables(s: State, t: State, ids: seq<int>)
    requires Tables(s, {}) && Renamed(s, t, ids)
    ensures Tables(t, {})
  {
    hide Counted, NewSlotOk, TriedSlotOk, Renamed;
    forall k | k in t.mapInfo ensures Counted(t, {}, k) {
      RenamedCounted(s, t, ids, k);
    }
    forall sl | sl in t.vvNew ensures NewSlotOk(t, sl) {
      RenamedSlot(s, t, ids, sl);
    }
    forall sl | sl in t.vvTried ensures TriedSlotOk(t, sl) {
      RenamedSlot(s, t, ids, sl);
    }
  }

  /** Numbers and ids are in one-to-one correspondence, so they can be counted alike. */
  lemma {:induction false} CountAlike(ids: seq<int>, ks: set<int>, xs: set<int>)
    requires NoRepeats(ids) && (forall k :: k in ks ==> 0 <= k < |ids| && ids[k] in xs)
    requires forall x :: x in xs ==> exists k :: k in ks && 0 <= k < |ids| && ids[k] == x
    ensures |ks| == |xs|
  {
    if ks == {} {
      assert forall x :: x !in xs;
      assert xs == {};
    } else {
      var k := Min(ks);
      forall x | x in xs - {ids[k]} ensures exists j :: j in ks - {k} && 0 <= j < |ids| && ids[j] == x {
        var j :| j in ks && 0 <= j < |ids| && ids[j] == x;
        assert j in ks - {k};
      }
      CountAlike(ids, ks - {k}, xs - {ids[k]});
    }
  }

  lemma RenamedEntry(s: State, t: State, ids: seq<int>, k: int)
    requires Renamed(s, t, ids) && k in t.mapInfo
    ensures 0 <= k < |ids| && ids[k] in s.mapInfo && t.mapInfo[k].fInTried == s.mapInfo[ids[k]].fInTried
  {
    var id := ids[k];
    assert id in ids;
  }

  lemma RenamedKinds(s: State, t: State, ids: seq<int>, x: int)
    requires Renamed(s, t, ids) && x in s.mapInfo
    ensures exists k :: k in t.mapInfo && 0 <= k < |ids| && ids[k] == x && t.mapInfo[k].fInTried == s.mapInfo[x].fInTried
  {
    hide SameIndex, SameTable, NoRepeats;
    var k := Position(ids, x);
    assert k in t.mapInfo;
    RenamedEntry(s, t, ids, k);
  }

  lemma RenamedCounts(s: State, t: State, ids: seq<int>)
    requires Renamed(s, t, ids)
    ensures |TriedIds(t.mapInfo)| == |TriedIds(s.mapInfo)| && |NewIds(t.mapInfo)| == |NewIds(s.mapInfo)|
  {
    assert NoRepeats(ids);
    hide Renamed, NoRepeats;
    var (tt, ts) := (TriedIds(t.mapInfo), TriedIds(s.mapInfo));
    var (nt, ns) := (NewIds(t.mapInfo), NewIds(s.mapInfo));
    forall k | k in t.mapInfo
      ensures 0 <= k < |ids| && (k in tt ==> ids[k] in ts) && (k in nt ==> ids[k] in ns)
    {
      RenamedEntry(s, t, ids, k);
    }
    forall x | x in s.mapInfo
      ensures x in ts ==> exists k :: k in tt && 0 <= k < |ids| && ids[k] == x
      ensures x in ns ==> exists k :: k in nt && 0 <= k < |ids| && ids[k] == x
    {
      RenamedKinds(s, t, ids, x);
    }
    CountAlike(ids, tt, ts);
    CountAlike(ids, nt, ns);
  }

  lemma RenamedTotals(s: State, t: State, ids: seq<int>)
    requires Consistent(s) && Renamed(s, t, ids)
    ensures Totals(t, 0)
  {
    hide Lookups, Tables, TriedIds, NewIds;
    RenamedCounts(s, t, ids);
  }

  lemma RenamedIsConsistent(s: State, t: State, ids: seq<int>)
    requires Consistent(s) && Renamed(s, t, ids)
    ensures Consistent(t)
  {
    hide Lookups, Tables, Totals;
    RenamedLookups(s, t, ids);
    RenamedTables(s, t, ids);
    RenamedTotals(s, t, ids);
  }

  // ---------------------------------------------------------------- the order of the file

  lemma {:induction false} NewOfIs(s: State, ids: seq<int>)
    requires NoRepeats(ids)
    ensures forall id :: id in NewOf(s, ids) <==> id in ids && s.Info(id).nRefCount != 0
    ensures NoRepeats(NewOf(s, ids))
  {
    if ids != [] {
      NewOfIs(s, ids[..|ids| - 1]);
      assert ids == ids[..|ids| - 1] + [ids[|ids| - 1]];
    }
  }

  lemma {:induction false} TriedOfIs(s: State, ids: seq<int>)
    requires NoRepeats(ids)
    ensures forall id :: id in TriedOf(s, ids) <==> id in ids && s.Info(id).fInTried
    ensures NoRepeats(TriedOf(s, ids))
  {
    if ids != [] {
      TriedOfIs(s, ids[..|ids| - 1]);
      assert ids == ids[..|ids| - 1] + [ids[|ids| - 1]];
    }
  }

  /** mapUnkIds gives every entry with references its place among them. */
  lemma {:induction false} UnkIdsIs(s: State, ids: seq<int>, id: int)
    requires NoRepeats(ids) && id in ids && s.Info(id).nRefCount != 0
    ensures var k := Unk(UnkIds(s, ids), id); 0 <= k < |NewOf(s, ids)| && NewOf(s, ids)[k] == id
  {
    var n := |ids| - 1;
    assert ids == ids[..n] + [ids[n]];
    if id != ids[n] {
      UnkIdsIs(s, ids[..n], id);
    }
  }

  ghost function Ids(s: State): seq<int> { Sorted(s.mapInfo.Keys) }

  ghost function NewList(s: State): seq<int> { NewOf(s, Ids(s)) }

  ghost function TriedList(s: State): seq<int> { TriedOf(s, Ids(s)) }

  /** The entries in the order in which the file has them; their new numbers. */
  ghost function FileOrder(s: State): seq<int> { NewList(s) + TriedList(s) }

  lemma RefCountIs(s: State)
    requires Tables(s, {})
    ensures forall id :: id in s.mapInfo ==> (s.mapInfo[id].nRefCount != 0 <==> !s.mapInfo[id].fInTried)
    ensures forall id :: id in s.mapInfo && s.mapInfo[id].fInTried ==> s.mapInfo[id].nRefCount == 0
  {
    hide TriedSlot, SlotsOf;
    forall id | id in s.mapInfo ensures s.mapInfo[id].nRefCount != 0 <==> !s.mapInfo[id].fInTried {
      assert Counted(s, {}, id);
    }
  }

  lemma FileOrderIsComplete(s: State)
    requires Consistent(s)
    ensures NoRepeats(FileOrder(s)) && forall id :: id in FileOrder(s) <==> id in s.mapInfo
    ensures forall id :: id in NewList(s) <==> id in s.mapInfo && !s.mapInfo[id].fInTried
    ensures forall id :: id in TriedList(s) <==> id in s.mapInfo && s.mapInfo[id].fInTried
    ensures |NewList(s)| == s.nNew && |TriedList(s)| == s.nTried
  {
    hide Lookups, Tables, NewOf, TriedOf, Sorted;
    SortedIsComplete(s.mapInfo.Keys);
    NewOfIs(s, Ids(s));
    TriedOfIs(s, Ids(s));
    RefCountIs(s);
    NoRepeatsTogether(NewList(s), TriedList(s));
    ElementsCount(NewList(s));
    ElementsCount(TriedList(s));
    SetsAre(s, NewList(s), TriedList(s));
  }

  lemma SetsAre(s: State, ns: seq<int>, ts: seq<int>)
    requires forall id :: id in ns <==> id in s.mapInfo && !s.mapInfo[id].fInTried
    requires forall id :: id in ts <==> id in s.mapInfo && s.mapInfo[id].fInTried
    ensures Elements(ns) == NewIds(s.mapInfo) && Elements(ts) == TriedIds(s.mapInfo)
  {
    assert forall id :: id in Elements(ns) <==> id in NewIds(s.mapInfo);
    assert forall id :: id in Elements(ts) <==> id in TriedIds(s.mapInfo);
  }

  lemma {:induction false} InfoTokensAre(s: State, ids: seq<int>)
    ensures |InfoTokens(s, ids)| == |ids|
    ensures forall k :: 0 <= k < |ids| ==> InfoTokens(s, ids)[k] == InfoToken(s.Info(ids[k]))
  {
    if ids != [] {
      InfoTokensAre(s, ids[..|ids| - 1]);
    }
  }

  /** The first part of the file: header, and one token for every entry in file order. */
  ghost predicate FileBegins(s: State, toks: seq<Token>) {
    && |toks| >= 6 + |FileOrder(s)| && toks[..6] == Header(s)
    && forall k :: 0 <= k < |FileOrder(s)| ==> toks[6 + k] == InfoToken(s.Info(FileOrder(s)[k]))
  }

  lemma FileBeginsSo(s: State)
    ensures FileBegins(s, FileOf(s))
    ensures FileOf(s)[6 + |FileOrder(s)|..] == BucketsTokens(s, UnkIds(s, Ids(s)), NEW_BUCKET_COUNT)
  {
    hide NewOf, TriedOf, Sorted, InfoTokens, BucketsTokens, UnkIds;
    InfoTokensAre(s, NewList(s));
    InfoTokensAre(s, TriedList(s));
  }

  // ---------------------------------------------------------------- reading the entries

  /** Entry k is as the file has it; the first `split` entries are those of "new". */
  ghost predicate Entry(s: State, t: State, ids: seq<int>, split: int, k: int)
    requires 0 <= k < |ids|
  {
    k in t.mapInfo
    && t.mapInfo[k] == s.Info(ids[k]).(nLastTry := 0, nRefCount := t.mapInfo[k].nRefCount, fInTried := k >= split,
                                       nRandomPos := k)
  }

  ghost predicate IndexRead(s: State, t: State, ids: seq<int>, n: int)
    requires n <= |ids|
  {
    && (forall ip :: ip in t.mapAddr ==> 0 <= t.mapAddr[ip] < n && s.Service(ids[t.mapAddr[ip]]).ip == ip)
    && (forall k :: 0 <= k < n ==> s.Service(ids[k]).ip in t.mapAddr && t.mapAddr[s.Service(ids[k]).ip] == k)
  }

  /** The first `n` entries have been read. */
  ghost predicate Entries(s: State, t: State, ids: seq<int>, split: int, n: int) {
    && 0 <= n <= |ids| && t.env == s.env && t.nKey == s.nKey && t.nNew == s.nNew && t.nTried == s.nTried
    && (forall k :: k in t.mapInfo <==> 0 <= k < n)
    && (forall k :: 0 <= k < n ==> Entry(s, t, ids, split, k))
    && |t.vRandom| == n && (forall k :: 0 <= k < n ==> t.vRandom[k] == k)
    && IndexRead(s, t, ids, n)
  }

  ghost predicate Unreferenced(t: State) { forall k :: k in t.mapInfo ==> t.mapInfo[k].nRefCount == 0 }

  /** No two entries have the same address. */
  lemma AddressesDiffer(s: State, ids: seq<int>, i: int, j: int)
    requires Lookups(s) && NoRepeats(ids) && 0 <= i < |ids| && 0 <= j < |ids| && i != j
    requires forall id :: id in ids ==> id in s.mapInfo
    ensures s.Service(ids[i]).ip != s.Service(ids[j]).ip
  {
    assert ids[i] in ids && ids[j] in ids;
    assert Placed(s, ids[i]) && Placed(s, ids[j]);
  }

  /** What reading one entry more makes of the state. */
  function Extended(t: State, n: int, info: CAddrInfo): State {
    t.Put(n, info).(mapAddr := t.mapAddr[info.addr.service.ip := n], vRandom := t.vRandom + [n])
  }

  lemma EntriesNext(s: State, t: State, ids: seq<int>, split: int, n: int, info: CAddrInfo)
    requires Lookups(s) && NoRepeats(ids) && (forall id :: id in ids ==> id in s.mapInfo)
    requires Entries(s, t, ids, split, n) && n < |ids|
    requires info == s.Info(ids[n]).(nLastTry := 0, nRefCount := 0, fInTried := n >= split, nRandomPos := n)
    ensures Entries(s, Extended(t, n, info), ids, split, n + 1)
    ensures Unreferenced(t) ==> Unreferenced(Extended(t, n, info))
  {
    hide Lookups;
    var u := Extended(t, n, info);
    forall k | 0 <= k < n + 1 ensures Entry(s, u, ids, split, k) {
      assert k < n ==> Entry(s, t, ids, split, k);
    }
    forall k | 0 <= k < n ensures s.Service(ids[k]).ip != s.Service(ids[n]).ip {
      AddressesDiffer(s, ids, k, n);
    }
    assert IndexRead(s, u, ids, n + 1);
  }

  lemma {:induction false} LoadNewReads(s: State, t: State, toks: seq<Token>, n: int) returns (u: State)
    requires Consistent(s) && FileBegins(s, toks) && 0 <= n <= |NewList(s)|
    requires Entries(s, t, FileOrder(s), |NewList(s)|, n) && Unreferenced(t) && t.vvNew == map[] && t.vvTried == map[]
    ensures LoadNew(t, toks, 6 + n, n, s.nNew, true) == Load(u, 6 + |NewList(s)|)
    ensures Entries(s, u, FileOrder(s), |NewList(s)|, |NewList(s)|) && Unreferenced(u)
    ensures u.vvNew == map[] && u.vvTried == map[]
    decreases |NewList(s)| - n
  {
    hide Lookups, Tables, Totals, NewList, TriedList, Entries, Unreferenced, NewSlot, LoadNewEntry;
    var ids, split := FileOrder(s), |NewList(s)|;
    FileOrderIsComplete(s);
    if n == split {
      u := t;
    } else {
      assert toks[6 + n] == InfoToken(s.Info(ids[n]));
      NewEntryRead(s, t, n);
      u := LoadNewReads(s, LoadNewEntry(t, toks[6 + n], n, true), toks, n + 1);
    }
  }

  lemma NewEntryRead(s: State, t: State, n: int)
    requires Consistent(s) && 0 <= n < |NewList(s)|
    requires Entries(s, t, FileOrder(s), |NewList(s)|, n) && Unreferenced(t)
    ensures var u := LoadNewEntry(t, InfoToken(s.Info(FileOrder(s)[n])), n, true);
            Entries(s, u, FileOrder(s), |NewList(s)|, n + 1) && Unreferenced(u) && u.vvNew == t.vvNew && u.vvTried == t.vvTried
  {
    hide Lookups, Tables, Totals, NewList, TriedList, Unreferenced, IndexRead;
    var ids, split := FileOrder(s), |NewList(s)|;
    FileOrderIsComplete(s);
    var info := s.Info(ids[n]).(nLastTry := 0, nRefCount := 0, fInTried := false, nRandomPos := n);
    EntriesNext(s, t, ids, split, n, info);
    assert LoadNewEntry(t, InfoToken(s.Info(ids[n])), n, true) == Extended(t, n, info);
  }

  /** The slots of "tried" that have been filled so far. */
  ghost predicate TriedRead(s: State, t: State, ids: seq<int>, split: int, n: int)
    requires n <= |ids|
  {
    && (forall sl :: sl in t.vvTried ==> split <= t.vvTried[sl] < n && 0 <= t.vvTried[sl]
                                         && sl == TriedSlot(s.env, s.nKey, s.Service(ids[t.vvTried[sl]])))
    && (forall k :: 0 <= split <= k < n ==> TriedSlot(s.env, s.nKey, s.Service(ids[k])) in t.vvTried
                                            && t.vvTried[TriedSlot(s.env, s.nKey, s.Service(ids[k]))] == k)
  }

  /** Two tried entries do not belong in the same slot, so none is lost. */
  lemma TriedSlotsDiffer(s: State, a: int, b: int)
    requires Tables(s, {}) && a in s.mapInfo && b in s.mapInfo && a != b && s.Info(a).fInTried && s.Info(b).fInTried
    ensures TriedSlot(s.env, s.nKey, s.Service(a)) != TriedSlot(s.env, s.nKey, s.Service(b))
  {
    hide TriedSlot;
    assert Counted(s, {}, a) && Counted(s, {}, b);
  }

  lemma FileOrderTried(s: State, k: int)
    requires Consistent(s) && 0 <= k < |FileOrder(s)|
    ensures FileOrder(s)[k] in s.mapInfo && (s.Info(FileOrder(s)[k]).fInTried <==> k >= |NewList(s)|)
  {
    hide Lookups, Tables, Totals, NewList, TriedList;
    FileOrderIsComplete(s);
    var id := FileOrder(s)[k];
    assert id in FileOrder(s);
    if k < |NewList(s)| {
      assert NewList(s)[k] == id && id in NewList(s);
    } else {
      assert TriedList(s)[k - |NewList(s)|] == id && id in TriedList(s);
    }
  }

  /** The slot for the next tried entry is free. */
  lemma TriedSlotIsFree(s: State, t: State, n: int)
    requires Consistent(s) && |NewList(s)| <= n < |FileOrder(s)|
    requires TriedRead(s, t, FileOrder(s), |NewList(s)|, n)
    ensures TriedSlot(s.env, s.nKey, s.Service(FileOrder(s)[n])) !in t.vvTried
  {
    hide Lookups, Tables, Totals, NewList, TriedList, FileOrder, TriedSlot;
    var ids := FileOrder(s);
    FileOrderIsComplete(s);
    FileOrderTried(s, n);
    var sl := TriedSlot(s.env, s.nKey, s.Service(ids[n]));
    if sl in t.vvTried {
      var k := t.vvTried[sl];
      FileOrderTried(s, k);
      TriedSlotsDiffer(s, ids[k], ids[n]);
    }
  }

  lemma TriedEntryRead(s: State, t: State, n: int)
    requires Consistent(s) && |NewList(s)| <= n < |FileOrder(s)|
    requires Entries(s, t, FileOrder(s), |NewList(s)|, n) && Unreferenced(t)
    requires TriedRead(s, t, FileOrder(s), |NewList(s)|, n) && t.nIdCount == n
    ensures TriedSlot(t.env, t.nKey, s.Service(FileOrder(s)[n])) !in t.vvTried
    ensures var u := LoadTriedEntry(t, ReadOver(EMPTY_INFO, InfoToken(s.Info(FileOrder(s)[n]))));
            Entries(s, u, FileOrder(s), |NewList(s)|, n + 1) && Unreferenced(u)
            && TriedRead(s, u, FileOrder(s), |NewList(s)|, n + 1) && u.nIdCount == n + 1 && u.vvNew == t.vvNew
  {
    hide Lookups, Tables, Totals, NewList, TriedList, FileOrder, TriedSlot, Unreferenced, IndexRead;
    var ids, split := FileOrder(s), |NewList(s)|;
    FileOrderIsComplete(s);
    FileOrderTried(s, n);
    TriedSlotIsFree(s, t, n);
    var info := s.Info(ids[n]).(nLastTry := 0, nRefCount := 0, fInTried := true, nRandomPos := n);
    RefCountIs(s);
    EntriesNext(s, t, ids, split, n, info);
    var sl := TriedSlot(s.env, s.nKey, s.Service(ids[n]));
    var u := LoadTriedEntry(t, ReadOver(EMPTY_INFO, InfoToken(s.Info(ids[n]))));
    var v := Extended(t, n, info);
    assert u == v.(vvTried := t.vvTried[sl := n], nIdCount := n + 1);
    SameEntriesRead(s, v, u, ids, split, n + 1);
  }

  lemma SameEntriesRead(s: State, t: State, u: State, ids: seq<int>, split: int, n: int)
    requires Entries(s, t, ids, split, n)
    requires u == t.(vvTried := u.vvTried, nIdCount := u.nIdCount)
    ensures Entries(s, u, ids, split, n)
    ensures Unreferenced(t) ==> Unreferenced(u)
  {
    forall k | 0 <= k < n ensures Entry(s, u, ids, split, k) {
      assert Entry(s, t, ids, split, k);
    }
  }

  lemma {:induction false} LoadTriedReads(s: State, t: State, toks: seq<Token>, m: int) returns (u: State)
    requires Consistent(s) && FileBegins(s, toks) && 0 <= m <= |TriedList(s)|
    requires Entries(s, t, FileOrder(s), |NewList(s)|, |NewList(s)| + m) && Unreferenced(t)
    requires TriedRead(s, t, FileOrder(s), |NewList(s)|, |NewList(s)| + m) && t.nIdCount == |NewList(s)| + m
    requires t.vvNew == map[]
    ensures LoadTried(t, toks, 6 + |NewList(s)| + m, m, s.nTried, 0) == Load(u, 6 + |FileOrder(s)|)
    ensures Entries(s, u, FileOrder(s), |NewList(s)|, |FileOrder(s)|) && Unreferenced(u)
    ensures TriedRead(s, u, FileOrder(s), |NewList(s)|, |FileOrder(s)|) && u.nIdCount == |FileOrder(s)|
    ensures u.vvNew == map[]
    decreases |TriedList(s)| - m
  {
    hide Lookups, Tables, Totals, NewList, TriedList, Entries, Unreferenced, TriedRead, TriedSlot, LoadTriedEntry;
    FileOrderIsComplete(s);
    if m == |TriedList(s)| {
      u := t;
      assert t.(nTried := t.nTried - 0) == t;
    } else {
      var n := |NewList(s)| + m;
      assert toks[6 + n] == InfoToken(s.Info(FileOrder(s)[n]));
      TriedEntryRead(s, t, n);
      TakesEnv(s, t, FileOrder(s), |NewList(s)|, n);
      u := LoadTriedReads(s, LoadTriedEntry(t, ReadOver(EMPTY_INFO, toks[6 + n])), toks, m + 1);
    }
  }

  lemma TakesEnv(s: State, t: State, ids: seq<int>, split: int, n: int)
    requires Entries(s, t, ids, split, n)
    ensures t.env == s.env && t.nKey == s.nKey
  {
  }

  // ---------------------------------------------------------------- reading the buckets

  ghost function SlotsBefore(t: map<Slot, int>, id: int, b: int, i: int): set<Slot> {
    set sl | sl in t && t[sl] == id && Before(sl, b, i)
  }

  /** The slots of "new" before position `i` of bucket `b` have been filled. */
  ghost predicate SlotsRead(a: map<Slot, int>, t: map<Slot, int>, ids: seq<int>, b: int, i: int) {
    && (forall sl :: sl in t <==> sl in a && Before(sl, b, i))
    && (forall sl :: sl in t ==> 0 <= t[sl] < |ids| && ids[t[sl]] == a[sl])
  }

  ghost predicate RefsRead(s: State, t: State, ids: seq<int>, b: int, i: int) {
    forall k :: 0 <= k < |ids| && k in t.mapInfo ==> t.mapInfo[k].nRefCount == |SlotsBefore(s.vvNew, ids[k], b, i)|
  }

  ghost predicate BucketRead(s: State, t: State, ids: seq<int>, b: int, i: int) {
    SlotsRead(s.vvNew, t.vvNew, ids, b, i) && RefsRead(s, t, ids, b, i)
  }

  lemma OneSlotMore(t: map<Slot, int>, id: int, b: int, i: int)
    ensures var sl := Slot(b, i);
            && SlotsBefore(t, id, b, i + 1) == SlotsBefore(t, id, b, i) + (if sl in t && t[sl] == id then {sl} else {})
            && |SlotsBefore(t, id, b, i + 1)| == |SlotsBefore(t, id, b, i)| + (if sl in t && t[sl] == id then 1 else 0)
  {
    var sl := Slot(b, i);
    var more := if sl in t && t[sl] == id then {sl} else {};
    assert forall l :: l in SlotsBefore(t, id, b, i + 1) <==> l in SlotsBefore(t, id, b, i) || l in more;
    assert SlotsBefore(t, id, b, i + 1) == SlotsBefore(t, id, b, i) + more;
    assert sl !in SlotsBefore(t, id, b, i);
  }

  /** An empty slot is passed over. */
  lemma EmptySlotRead(s: State, t: State, ids: seq<int>, b: int, i: int)
    requires BucketRead(s, t, ids, b, i) && Slot(b, i) !in s.vvNew
    ensures BucketRead(s, t, ids, b, i + 1)
  {
    hide SlotsBefore;
    forall k | 0 <= k < |ids| && k in t.mapInfo
      ensures t.mapInfo[k].nRefCount == |SlotsBefore(s.vvNew, ids[k], b, i + 1)|
    {
      OneSlotMore(s.vvNew, ids[k], b, i);
    }
  }

  /** One more entry in a slot, and one reference more. */
  lemma FilledSlotRead(s: State, t: State, ids: seq<int>, b: int, i: int, k: int)
    requires BucketRead(s, t, ids, b, i) && Slot(b, i) in s.vvNew
    requires NoRepeats(ids) && 0 <= k < |ids| && ids[k] == s.vvNew[Slot(b, i)] && k in t.mapInfo
    ensures BucketRead(s, EnterNew(t, k, Slot(b, i), t.Info(k).nRefCount + 1), ids, b, i + 1)
  {
    hide SlotsBefore;
    var u := EnterNew(t, k, Slot(b, i), t.Info(k).nRefCount + 1);
    forall j | 0 <= j < |ids| && j in u.mapInfo
      ensures u.mapInfo[j].nRefCount == |SlotsBefore(s.vvNew, ids[j], b, i + 1)|
    {
      OneSlotMore(s.vvNew, ids[j], b, i);
    }
  }

  lemma EntriesStay(s: State, t: State, ids: seq<int>, split: int, k: int, sl: Slot, nRefCount: int)
    requires Entries(s, t, ids, split, |ids|) && 0 <= k < |ids|
    ensures Entries(s, EnterNew(t, k, sl, nRefCount), ids, split, |ids|)
  {
    var u := EnterNew(t, k, sl, nRefCount);
    forall j | 0 <= j < |ids| ensures Entry(s, u, ids, split, j) {
      assert Entry(s, t, ids, split, j);
    }
  }

  /** While not all slots of an entry have been read it has fewer than eight references. */
  lemma RoomForReference(s: State, sl: Slot)
    requires Consistent(s) && sl in s.vvNew
    ensures |SlotsBefore(s.vvNew, s.vvNew[sl], sl.bucket, sl.pos)| < NEW_BUCKETS_PER_ADDRESS
    ensures s.vvNew[sl] in s.mapInfo && s.Info(s.vvNew[sl]).nRefCount != 0
    ensures 0 <= sl.bucket < NEW_BUCKET_COUNT && 0 <= sl.pos < BUCKET_SIZE
    ensures sl == NewSlotIn(s.env, s.nKey, s.Service(s.vvNew[sl]), sl.bucket)
  {
    hide TriedSlot, Lookups;
    var id := s.vvNew[sl];
    assert NewSlotOk(s, sl) && Counted(s, {}, id);
    var before := SlotsBefore(s.vvNew, id, sl.bucket, sl.pos);
    assert sl !in before && before + {sl} <= SlotsOf(s.vvNew, id);
    SubsetSize(before + {sl}, SlotsOf(s.vvNew, id));
  }

  /** Reading the index of an entry fills the slot it was in. */
  lemma IndexReads(s: State, t: State, b: int, i: int)
    requires Consistent(s) && Slot(b, i) in s.vvNew
    requires Entries(s, t, FileOrder(s), |NewList(s)|, |FileOrder(s)|) && BucketRead(s, t, FileOrder(s), b, i)
    ensures var u := LoadIndex(t, b, Unk(UnkIds(s, Ids(s)), s.vvNew[Slot(b, i)]), true);
            && Entries(s, u, FileOrder(s), |NewList(s)|, |FileOrder(s)|) && BucketRead(s, u, FileOrder(s), b, i + 1)
            && u == t.(mapInfo := u.mapInfo, vvNew := u.vvNew)
  {
    hide Lookups, Tables, Totals, TriedSlot, TriedList, Sorted, UnkIds, SlotsBefore, IndexRead, BucketPosition;
    var sl := Slot(b, i);
    var ids, id := FileOrder(s), s.vvNew[sl];
    FileOrderIsComplete(s);
    RoomForReference(s, sl);
    SortedIsComplete(s.mapInfo.Keys);
    UnkIdsIs(s, Ids(s), id);
    var k := Unk(UnkIds(s, Ids(s)), id);
    assert ids[k] == id && Entry(s, t, ids, |NewList(s)|, k);
    FilledSlotRead(s, t, ids, b, i, k);
    EntriesStay(s, t, ids, |NewList(s)|, k, sl, t.Info(k).nRefCount + 1);
    assert LoadIndex(t, b, k, true) == EnterNew(t, k, sl, t.Info(k).nRefCount + 1);
  }

  lemma {:induction false} IndexTokensAre(u: map<int, int>, ids: seq<int>)
    ensures |IndexTokens(u, ids)| == |ids|
    ensures forall k :: 0 <= k < |ids| ==> IndexTokens(u, ids)[k] == IntTok(Unk(u, ids[k]))
  {
    if ids != [] {
      IndexTokensAre(u, ids[..|ids| - 1]);
    }
  }

  lemma {:induction false} BucketIdsGrow(t: map<Slot, int>, b: int, i: nat, n: nat)
    requires i < n && Slot(b, i) in t
    ensures |BucketIds(t, b, i)| < |BucketIds(t, b, n)| && BucketIds(t, b, n)[|BucketIds(t, b, i)|] == t[Slot(b, i)]
    decreases n
  {
    if i < n - 1 {
      BucketIdsGrow(t, b, i, n - 1);
    }
  }

  lemma {:induction false} BucketsGrow(s: State, u: map<int, int>, b: nat, n: nat)
    requires b < n
    ensures |BucketsTokens(s, u, b)| + |BucketTokens(s, u, b)| <= |BucketsTokens(s, u, n)|
    ensures BucketsTokens(s, u, n)[|BucketsTokens(s, u, b)|..][..|BucketTokens(s, u, b)|] == BucketTokens(s, u, b)
    decreases n
  {
    hide BucketTokens;
    if b < n - 1 {
      BucketsGrow(s, u, b, n - 1);
      SliceOfPrefix(BucketsTokens(s, u, n - 1), BucketTokens(s, u, n - 1), |BucketsTokens(s, u, b)|, |BucketTokens(s, u, b)|);
    } else {
      assert BucketsTokens(s, u, n)[|BucketsTokens(s, u, b)|..] == BucketTokens(s, u, b);
    }
  }

  lemma SliceOfPrefix(a: seq<Token>, c: seq<Token>, from: nat, len: nat)
    requires from + len <= |a|
    ensures (a + c)[from..][..len] == a[from..][..len]
  {
  }

  /** The tokens of bucket `b` stand at `at`. */
  ghost predicate BucketAt(s: State, toks: seq<Token>, at: nat, b: int) {
    var ids := BucketIds(s.vvNew, b, BUCKET_SIZE);
    && at + 1 + |ids| <= |toks| && toks[at] == IntTok(|ids|)
    && forall j :: 0 <= j < |ids| ==> toks[at + 1 + j] == IntTok(Unk(UnkIds(s, Ids(s)), ids[j]))
  }

  lemma BucketStands(s: State, toks: seq<Token>, base: nat, b: nat)
    requires b < NEW_BUCKET_COUNT && base <= |toks|
    requires toks[base..] == BucketsTokens(s, UnkIds(s, Ids(s)), NEW_BUCKET_COUNT)
    ensures BucketAt(s, toks, base + |BucketsTokens(s, UnkIds(s, Ids(s)), b)|, b)
    ensures |BucketsTokens(s, UnkIds(s, Ids(s)), b + 1)|
            == |BucketsTokens(s, UnkIds(s, Ids(s)), b)| + 1 + |BucketIds(s.vvNew, b, BUCKET_SIZE)|
  {
    hide BucketIds, UnkIds, Ids, IndexTokens, Unk;
    var u := UnkIds(s, Ids(s));
    BucketsGrow(s, u, b, NEW_BUCKET_COUNT);
    IndexTokensAre(u, BucketIds(s.vvNew, b, BUCKET_SIZE));
    BucketElements(toks, base, |BucketsTokens(s, u, b)|, BucketsTokens(s, u, NEW_BUCKET_COUNT), BucketTokens(s, u, b));
  }

  lemma BucketElements(toks: seq<Token>, base: nat, off: nat, all: seq<Token>, bucket: seq<Token>)
    requires base <= |toks| && toks[base..] == all && off + |bucket| <= |all| && all[off..][..|bucket|] == bucket
    ensures base + off + |bucket| <= |toks|
    ensures forall j :: 0 <= j < |bucket| ==> toks[base + off + j] == bucket[j]
  {
    forall j | 0 <= j < |bucket| ensures toks[base + off + j] == bucket[j] {
      assert bucket[j] == all[off..][..|bucket|][j] == all[off + j] == toks[base..][off + j];
    }
  }

  /** What the reading of buckets keeps. */
  ghost predicate BucketState(s: State, t: State, b: int, i: int) {
    && Entries(s, t, FileOrder(s), |NewList(s)|, |FileOrder(s)|) && BucketRead(s, t, FileOrder(s), b, i)
    && TriedRead(s, t, FileOrder(s), |NewList(s)|, |FileOrder(s)|) && t.nIdCount == |FileOrder(s)|
  }

  lemma BucketStateNext(s: State, t: State, b: int, i: nat)
    requires Consistent(s) && BucketState(s, t, b, i)
    ensures Slot(b, i) !in s.vvNew ==> BucketState(s, t, b, i + 1)
    ensures Slot(b, i) in s.vvNew ==> BucketState(s, LoadIndex(t, b, Unk(UnkIds(s, Ids(s)), s.vvNew[Slot(b, i)]), true), b, i + 1)
  {
    hide Consistent, Entries, BucketRead, FileOrder, NewList, UnkIds, Ids, LoadIndex, TriedSlot;
    if Slot(b, i) in s.vvNew {
      IndexReads(s, t, b, i);
    } else {
      EmptySlotRead(s, t, FileOrder(s), b, i);
    }
  }

  lemma {:induction false} LoadBucketReads(s: State, t: State, toks: seq<Token>, at: nat, b: nat, i: nat) returns (u: State)
    requires Consistent(s) && BucketAt(s, toks, at, b) && i <= BUCKET_SIZE && BucketState(s, t, b, i)
    ensures LoadBucket(t, toks, at + 1 + |BucketIds(s.vvNew, b, i)|, b, |BucketIds(s.vvNew, b, i)|,
                       |BucketIds(s.vvNew, b, BUCKET_SIZE)|, true)
            == Load(u, at + 1 + |BucketIds(s.vvNew, b, BUCKET_SIZE)|)
    ensures BucketState(s, u, b, BUCKET_SIZE)
    decreases BUCKET_SIZE - i
  {
    hide Consistent, BucketState, UnkIds, Ids, LoadIndex;
    if i == BUCKET_SIZE {
      u := t;
    } else {
      BucketStateNext(s, t, b, i);
      if Slot(b, i) in s.vvNew {
        BucketIdsGrow(s.vvNew, b, i, BUCKET_SIZE);
        u := LoadBucketReads(s, LoadIndex(t, b, Unk(UnkIds(s, Ids(s)), s.vvNew[Slot(b, i)]), true), toks, at, b, i + 1);
      } else {
        u := LoadBucketReads(s, t, toks, at, b, i + 1);
      }
    }
  }

  /** A bucket read to its end is the next bucket at its beginning. */
  lemma NextBucket(s: State, t: State, b: int)
    requires Consistent(s) && BucketState(s, t, b, BUCKET_SIZE)
    ensures BucketState(s, t, b + 1, 0)
  {
    hide Lookups, Totals, TriedSlot, FileOrder, NewList, Entries, BucketPosition, TriedRead, Counted;
    assert forall sl :: sl in s.vvNew ==> NewSlotOk(s, sl);
    forall id ensures SlotsBefore(s.vvNew, id, b + 1, 0) == SlotsBefore(s.vvNew, id, b, BUCKET_SIZE) {
    }
  }

  lemma {:induction false} LoadBucketsReads(s: State, t: State, toks: seq<Token>, base: nat, b: nat) returns (u: State)
    requires Consistent(s) && b <= NEW_BUCKET_COUNT && BucketState(s, t, b, 0) && base <= |toks|
    requires toks[base..] == BucketsTokens(s, UnkIds(s, Ids(s)), NEW_BUCKET_COUNT)
    ensures LoadBuckets(t, toks, base + |BucketsTokens(s, UnkIds(s, Ids(s)), b)|, b, NEW_BUCKET_COUNT, true)
            == Load(u, base + |BucketsTokens(s, UnkIds(s, Ids(s)), NEW_BUCKET_COUNT)|)
    ensures BucketState(s, u, NEW_BUCKET_COUNT, 0)
    decreases NEW_BUCKET_COUNT - b
  {
    hide Consistent, BucketState, UnkIds, Ids, BucketsTokens, LoadBucket;
    if b == NEW_BUCKET_COUNT {
      u := t;
    } else {
      BucketStands(s, toks, base, b);
      var at := base + |BucketsTokens(s, UnkIds(s, Ids(s)), b)|;
      var v := LoadBucketReads(s, t, toks, at, b, 0);
      NextBucket(s, v, b);
      assert LoadBucket(t, toks, at + 1, b, 0, |BucketIds(s.vvNew, b, BUCKET_SIZE)|, true)
          == Load(v, at + 1 + |BucketIds(s.vvNew, b, BUCKET_SIZE)|);
      u := LoadBucketsReads(s, v, toks, base, b + 1);
    }
  }

  // ---------------------------------------------------------------- the round trip

  lemma AllSlotsRead(s: State)
    requires Tables(s, {})
    ensures forall sl :: sl in s.vvNew ==> Before(sl, NEW_BUCKET_COUNT, 0)
    ensures forall id :: SlotsBefore(s.vvNew, id, NEW_BUCKET_COUNT, 0) == SlotsOf(s.vvNew, id)
  {
    hide NewSlotIn, TriedSlot, Counted;
    assert forall sl :: sl in s.vvNew ==> NewSlotOk(s, sl);
    forall id ensures SlotsBefore(s.vvNew, id, NEW_BUCKET_COUNT, 0) == SlotsOf(s.vvNew, id) {
    }
  }

  /** Everything has been read, so everything is there. */
  lemma ReadIsRenamed(s: State, t: State)
    requires Consistent(s) && BucketState(s, t, NEW_BUCKET_COUNT, 0)
    ensures Renamed(s, t, FileOrder(s))
  {
    hide Lookups, Tables, Totals, FileOrder, NewList, TriedList, TriedSlot, IndexRead, TriedRead, BucketRead, Entry, NoRepeats,
      SameIndex, SameTable;
    var ids := FileOrder(s);
    FileOrderIsComplete(s);
    ReadNew(s, t);
    forall k | k in t.mapInfo
      ensures 0 <= k < |ids| && ids[k] in s.mapInfo && t.mapInfo[k] == s.mapInfo[ids[k]].(nLastTry := 0, nRandomPos := k)
    {
      ReadEntry(s, t, k);
    }
    ReadIndex(s, t, ids);
    ReadTried(s, t);
  }

  lemma ReadNew(s: State, t: State)
    requires Consistent(s) && BucketRead(s, t, FileOrder(s), NEW_BUCKET_COUNT, 0)
    ensures SameTable(s.vvNew, t.vvNew, FileOrder(s))
  {
    hide Lookups, Tables, Totals, FileOrder, RefsRead;
    AllSlotsRead(s);
  }

  lemma ReadEntry(s: State, t: State, k: int)
    requires Consistent(s) && BucketState(s, t, NEW_BUCKET_COUNT, 0) && k in t.mapInfo
    ensures 0 <= k < |FileOrder(s)| && FileOrder(s)[k] in s.mapInfo
    ensures t.mapInfo[k] == s.mapInfo[FileOrder(s)[k]].(nLastTry := 0, nRandomPos := k)
  {
    hide Lookups, Tables, Totals, FileOrder, NewList, TriedList, TriedSlot, IndexRead, TriedRead, SlotsBefore, SlotsOf;
    var ids := FileOrder(s);
    FileOrderIsComplete(s);
    AllSlotsRead(s);
    assert ids[k] in ids;
    assert Entry(s, t, ids, |NewList(s)|, k);
    FileOrderTried(s, k);
    CountIs(s, ids[k]);
  }

  lemma CountIs(s: State, id: int)
    requires Tables(s, {}) && id in s.mapInfo
    ensures s.mapInfo[id].nRefCount == |SlotsOf(s.vvNew, id)|
  {
    hide TriedSlot, NewSlotIn;
    assert Counted(s, {}, id);
    if s.mapInfo[id].fInTried {
      assert forall sl :: sl in s.vvNew ==> NewSlotOk(s, sl);
      assert SlotsOf(s.vvNew, id) == {};
    }
  }

  lemma ReadIndex(s: State, t: State, ids: seq<int>)
    requires Lookups(s) && IndexRead(s, t, ids, |ids|) && forall id :: id in ids <==> id in s.mapInfo
    ensures SameIndex(s.mapAddr, t.mapAddr, ids)
  {
    forall ip ensures ip in t.mapAddr <==> ip in s.mapAddr {
      if ip in s.mapAddr {
        assert Indexed(s, ip);
        var k := Position(ids, s.mapAddr[ip]);
      }
      if ip in t.mapAddr {
        assert ids[t.mapAddr[ip]] in ids;
        assert Placed(s, ids[t.mapAddr[ip]]);
      }
    }
    forall ip | ip in t.mapAddr ensures ids[t.mapAddr[ip]] == s.mapAddr[ip] {
      assert ids[t.mapAddr[ip]] in ids;
      assert Placed(s, ids[t.mapAddr[ip]]);
    }
  }

  lemma ReadTried(s: State, t: State)
    requires Consistent(s) && TriedRead(s, t, FileOrder(s), |NewList(s)|, |FileOrder(s)|)
    ensures SameTable(s.vvTried, t.vvTried, FileOrder(s))
  {
    hide Lookups, Totals, FileOrder, NewList, TriedList, TriedSlot, NewSlotIn;
    var ids := FileOrder(s);
    FileOrderIsComplete(s);
    forall sl ensures sl in t.vvTried <==> sl in s.vvTried {
      if sl in s.vvTried {
        assert TriedSlotOk(s, sl);
        var k := Position(ids, s.vvTried[sl]);
        FileOrderTried(s, k);
      }
      if sl in t.vvTried {
        FileOrderTried(s, t.vvTried[sl]);
        assert Counted(s, {}, ids[t.vvTried[sl]]);
      }
    }
    forall sl | sl in t.vvTried ensures ids[t.vvTried[sl]] == s.vvTried[sl] {
      FileOrderTried(s, t.vvTried[sl]);
      assert Counted(s, {}, ids[t.vvTried[sl]]);
    }
  }

  /**
   Reading the file of a consistent manager into a fresh one gives the same manager with its entries
   numbered anew: no entry, slot, reference or count is lost, and the result is consistent.
   */
  lemma RoundTrip(s: State, base: State) returns (t: State)
    requires Consistent(s) && Fresh(base, s.env)
    ensures LoadFile(base, FileOf(s)) == Load(t, |FileOf(s)|)
    ensures Renamed(s, t, FileOrder(s)) && Consistent(t)
  {
    hide Consistent, Entries, FileOrder, NewList, TriedList, FileOf, Renamed, BucketState, TriedRead, Unreferenced,
      LoadNew, LoadTried, LoadBuckets, Prune, BucketsTokens, UnkIds, Ids, Sorted;
    var toks := FileOf(s);
    FileBeginsSo(s);
    HeaderIs(s, toks);
    var t0 := Clear(base, s.nKey).(nNew := s.nNew, nTried := s.nTried);
    NothingReadYet(s, t0);
    var t1 := LoadNewReads(s, t0, toks, 0);
    FileOrderIsComplete(s);
    OnlyNewRead(s, t1);
    var t2 := LoadTriedReads(s, t1.(nIdCount := s.nNew), toks, 0);
    NoBucketReadYet(s, t2);
    var base0 := 6 + |FileOrder(s)|;
    NoBuckets(s, UnkIds(s, Ids(s)));
    var t3 := LoadBucketsReads(s, t2, toks, base0, 0);
    ReadIsRenamed(s, t3);
    RenamedIsConsistent(s, t3, FileOrder(s));
    AllStays(t3, base0 + |BucketsTokens(s, UnkIds(s, Ids(s)), NEW_BUCKET_COUNT)|);
    t := t3;
  }

  lemma NoBuckets(s: State, u: map<int, int>)
    ensures BucketsTokens(s, u, 0) == []
  {
  }

  lemma HeaderIs(s: State, toks: seq<Token>)
    requires FileBegins(s, toks)
    ensures HasHeader(toks) && toks[0].b == 1 && toks[2].nKey == s.nKey && toks[3].n == s.nNew && toks[4].n == s.nTried
    ensures Xor30(toks[5].n) == NEW_BUCKET_COUNT
  {
    forall k | 0 <= k < 6 ensures toks[k] == Header(s)[k] {
      assert toks[..6][k] == toks[k];
    }
  }

  lemma NothingReadYet(s: State, t: State)
    requires t.env == s.env && t.nKey == s.nKey && t.nNew == s.nNew && t.nTried == s.nTried
    requires t.mapInfo == map[] && t.mapAddr == map[] && t.vRandom == []
    ensures Entries(s, t, FileOrder(s), |NewList(s)|, 0) && Unreferenced(t)
  {
  }

  lemma OnlyNewRead(s: State, t: State)
    requires Entries(s, t, FileOrder(s), |NewList(s)|, |NewList(s)|) && Unreferenced(t) && t.vvTried == map[]
    ensures var u := t.(nIdCount := s.nNew);
            Entries(s, u, FileOrder(s), |NewList(s)|, |NewList(s)|) && Unreferenced(u)
            && TriedRead(s, u, FileOrder(s), |NewList(s)|, |NewList(s)|)
  {
    hide FileOrder, NewList;
    SameEntriesRead(s, t, t.(nIdCount := s.nNew), FileOrder(s), |NewList(s)|, |NewList(s)|);
  }

  lemma NoBucketReadYet(s: State, t: State)
    requires Consistent(s) && Entries(s, t, FileOrder(s), |NewList(s)|, |FileOrder(s)|) && Unreferenced(t)
    requires TriedRead(s, t, FileOrder(s), |NewList(s)|, |FileOrder(s)|) && t.nIdCount == |FileOrder(s)| && t.vvNew == map[]
    ensures BucketState(s, t, 0, 0)
  {
    hide FileOrder, NewList, Entries, TriedRead, TriedSlot, Lookups, Totals, BucketPosition, Counted;
    assert forall sl :: sl in s.vvNew ==> NewSlotOk(s, sl);
    forall id ensures SlotsBefore(s.vvNew, id, 0, 0) == {} {
    }
  }

  lemma AllStays(t: State, at: nat)
    requires Consistent(t)
    ensures Prune(t, Sorted(t.mapInfo.Keys), at) == Load(t, at)
  {
    hide Lookups, Tables, Totals, Sorted, Prune;
    SortedIsComplete(t.mapInfo.Keys);
    RefCountIs(t);
    NothingToPrune(t, Sorted(t.mapInfo.Keys), at);
  }

  /** Clear() forgets the tables but not the maps, so what it leaves is consistent only if there was nothing. */
  lemma ClearLeavesEntries(s: State, nKey: int)
    requires Consistent(s)
    ensures Consistent(Clear(s, nKey)) <==> s.mapInfo == map[]
  {
    hide Tables, Totals;
    var t := Clear(s, nKey);
    if s.mapInfo == map[] {
      assert forall ip :: ip in s.mapAddr ==> Indexed(s, ip);
      assert s.mapAddr == map[];
      assert t == Initial(s.env, nKey);
      InitialIsConsistent(s.env, nKey);
    } else {
      var id := Min(s.mapInfo.Keys);
      assert !Placed(t, id);
    }
  }
}
