/**
 The authors' own consistency check of the address manager: what it decides, that it decides it,
 and that no run of operations makes it fail.
 */
module AddrCheck {
  import opened AddrTables
  import opened MapOrder
  import opened AddrMan
  import Ops = AddrOps

  // ---------------------------------------------------------------- what is checked

  /** mapAddr[ip], which makes an entry 0 where there is none. */
  function Owner(mapAddr: map<NetAddr, int>, ip: NetAddr): int { if ip in mapAddr then mapAddr[ip] else 0 }

  /** The check may add addresses, under the id zero that operator[] gives them. */
  ghost predicate SameOwners(was: map<NetAddr, int>, now: map<NetAddr, int>) {
    forall ip :: Owner(now, ip) == Owner(was, ip)
  }

  lemma StillSameOwners(a: map<NetAddr, int>, b: map<NetAddr, int>, c: map<NetAddr, int>)
    ensures SameOwners(a, a)
    ensures SameOwners(a, b) && SameOwners(b, c) ==> SameOwners(a, c)
  {
  }

  ghost predicate AllAddressesIn(m: map<int, CAddrInfo>, mapAddr: map<NetAddr, int>) {
    forall id :: id in m ==> m[id].addr.service.ip in mapAddr
  }

  lemma AddressIn(m: map<int, CAddrInfo>, mapAddr: map<NetAddr, int>, id: int)
    requires id in m
    ensures AllAddressesIn(m, mapAddr) ==> m[id].addr.service.ip in mapAddr
  {
  }

  predicate EntryPasses(s: State, id: int)
    requires id in s.mapInfo
  {
    var info := s.mapInfo[id];
    && (if info.fInTried then info.nLastSuccess != 0 && info.nRefCount == 0
        else 1 <= info.nRefCount <= NEW_BUCKETS_PER_ADDRESS)
    && Owner(s.mapAddr, info.addr.service.ip) == id
    && 0 <= info.nRandomPos < |s.vRandom| && s.vRandom[info.nRandomPos] == id
    && info.nLastTry >= 0 && info.nLastSuccess >= 0
  }

  /** Every occupied slot is right, and every entry is in as many slots as it should be. */
  ghost predicate TriedPasses(s: State) {
    && (forall sl :: sl in s.vvTried ==> TriedSlotOk(s, sl))
    && (forall id :: id in TriedIds(s.mapInfo) ==> SlotsOf(s.vvTried, id) != {})
  }

  ghost predicate NewPasses(s: State) {
    && (forall sl :: sl in s.vvNew ==> NewSlotOk(s, sl))
    && (forall id :: id in NewIds(s.mapInfo) ==> |SlotsOf(s.vvNew, id)| == s.Info(id).nRefCount)
  }

  ghost predicate Passes(s: State) {
    && |s.vRandom| == s.nTried + s.nNew
    && (forall id :: id in s.mapInfo ==> EntryPasses(s, id))
    && Totals(s, 0) && TriedPasses(s) && NewPasses(s) && s.nKey != 0
  }

  /** Between operations, the check passes exactly if the times it looks at are in order and there is a key. */
  lemma ConsistentPassesIff(s: State)
    requires Consistent(s)
    ensures Passes(s) <==> Ops.Dated(s) && s.nKey != 0
  {
    hide TriedSlotOk, NewSlotOk, TriedSlot, NewSlotIn;
    Ops.SizeIsTheSum(s);
    forall id | id in s.mapInfo ensures EntryPasses(s, id) <==> Ops.DatesOk(s.mapInfo[id]) {
      assert Placed(s, id) && Counted(s, {}, id);
    }
    forall id | id in TriedIds(s.mapInfo) ensures SlotsOf(s.vvTried, id) != {} {
      assert Counted(s, {}, id);
      assert TriedSlot(s.env, s.nKey, s.Service(id)) in SlotsOf(s.vvTried, id);
    }
    forall id | id in NewIds(s.mapInfo) ensures |SlotsOf(s.vvNew, id)| == s.Info(id).nRefCount {
      assert Counted(s, {}, id);
    }
    assert (forall id :: id in s.mapInfo ==> EntryPasses(s, id)) <==> Ops.Dated(s);
  }

  /** The index knows no address but those of the entries, and all of these; ids are those that have been given out. */
  ghost predicate WellIndexed(s: State) {
    && (forall ip :: ip in s.mapAddr ==> Indexed(s, ip)) && AllAddressesIn(s.mapInfo, s.mapAddr)
    && s.nIdCount >= 0 && forall id :: id in s.mapInfo ==> 0 <= id < s.nIdCount
  }

  function Places(m: map<int, CAddrInfo>): set<int> { set id | id in m :: m[id].nRandomPos }

  /** Entries in different places take up as many places as there are. */
  lemma {:induction false} PlacesCount(m: map<int, CAddrInfo>)
    requires forall id, other :: id in m && other in m && id != other ==> m[id].nRandomPos != m[other].nRandomPos
    ensures |Places(m)| == |m|
    decreases |m|
  {
    if m == map[] {
      assert Places(m) == {};
    } else {
      var id :| id in m;
      var rest := m - {id};
      PlacesCount(rest);
      assert m.Keys == rest.Keys + {id};
      assert forall x :: x in rest ==> rest[x] == m[x];
      assert Places(m) == Places(rest) + {m[id].nRandomPos};
      assert m[id].nRandomPos !in Places(rest);
    }
  }

  /** As many places as there are leave none free. */
  lemma {:induction false} AllTaken(places: set<int>, n: nat)
    requires (forall p :: p in places ==> 0 <= p < n) && |places| >= n
    ensures forall i :: 0 <= i < n ==> i in places
    decreases n
  {
    if n > 0 {
      if n - 1 !in places {
        AtMostBelow(places, n - 1);
      }
      AllTaken(places - {n - 1}, n - 1);
      forall i | 0 <= i < n ensures i in places {
        assert i < n - 1 ==> i in places - {n - 1};
      }
    }
  }

  lemma {:induction false} AtMostBelow(places: set<int>, n: nat)
    requires forall p :: p in places ==> 0 <= p < n
    ensures |places| <= n
    decreases n
  {
    if n == 0 {
      assert forall p :: p !in places;
    } else {
      AtMostBelow(places - {n - 1}, n - 1);
    }
  }

  lemma CheckedIsOrdered(s: State)
    requires (forall id :: id in s.mapInfo ==> EntryPasses(s, id)) && |s.vRandom| == |s.mapInfo|
    ensures forall i :: 0 <= i < |s.vRandom| ==> Ordered(s, i)
  {
    PlacesCount(s.mapInfo);
    AllTaken(Places(s.mapInfo), |s.vRandom|);
    forall i | 0 <= i < |s.vRandom| ensures Ordered(s, i) {
      assert i in Places(s.mapInfo);
      var id :| id in s.mapInfo && s.mapInfo[id].nRandomPos == i;
      assert EntryPasses(s, id);
    }
  }

  lemma CheckedIsCounted(s: State, id: int)
    requires EntryPassesIn(s, id) && TriedPasses(s) && NewPasses(s)
    ensures Counted(s, {}, id)
  {
    hide TriedSlot, NewSlotIn;
    if s.mapInfo[id].fInTried {
      assert id in TriedIds(s.mapInfo);
      var sl :| sl in SlotsOf(s.vvTried, id);
      assert TriedSlotOk(s, sl);
    } else {
      assert id in NewIds(s.mapInfo);
    }
  }

  predicate EntryPassesIn(s: State, id: int) { id in s.mapInfo && EntryPasses(s, id) }

  /** The check misses nothing else: with an index like that, it passes exactly for consistent states with times in order and a key. */
  lemma PassesIff(s: State)
    requires WellIndexed(s)
    ensures Passes(s) <==> Consistent(s) && Ops.Dated(s) && s.nKey != 0
  {
    hide TriedSlotOk, NewSlotOk, TriedSlot, NewSlotIn;
    if Consistent(s) {
      ConsistentPassesIff(s);
    }
    if Passes(s) {
      TriedOrNew(s.mapInfo);
      CheckedIsOrdered(s);
      forall id | id in s.mapInfo ensures Placed(s, id) && Counted(s, {}, id) {
        assert EntryPasses(s, id) && s.mapInfo[id].addr.service.ip in s.mapAddr;
        CheckedIsCounted(s, id);
      }
    }
  }

  lemma TriedOrNew(m: map<int, CAddrInfo>)
    ensures |m| == |TriedIds(m)| + |NewIds(m)|
  {
    assert m.Keys == TriedIds(m) + NewIds(m) && TriedIds(m) !! NewIds(m);
    assert |m| == |m.Keys|;
  }

  /** No operation draws a new key. */
  lemma StepKeepsKey(s: State, op: Ops.Op)
    requires Consistent(s)
    ensures Ops.Step(s, op).nKey == s.nKey
  {
    hide Inv, Ops.HeardAgain, Ops.MaySpread, Ops.CanTake, MakeTried, Ops.Place, ClearNew, Delete, BucketPosition, NewBucket, TriedBucket;
    match op
    case AddOp(addr, source, nTimePenalty, nNow, roll) =>
      if s.env.routable(addr.service.ip) {
        if Known(s, addr.service.ip) {
          var id := s.mapAddr[addr.service.ip];
          var info := Ops.HeardAgain(s.Info(id), addr, nTimePenalty, nNow);
          Ops.HeardAgainSame(s.Info(id), addr, nTimePenalty, nNow);
          Ops.SpreadKeeps(s, id, info);
          if Ops.MaySpread(info, addr, roll) {
            Ops.MaySpreadMeans(info, addr, roll);
            PlaceKeepsKey(s.Put(id, info), id, NewSlot(s.env, s.nKey, s.Service(id), source), nNow, {});
          }
        } else {
          Ops.HeardKeeps(s, addr, source, nTimePenalty);
          PlaceKeepsKey(Ops.Heard(s, addr, source, nTimePenalty), s.nIdCount,
                        NewSlot(s.env, s.nKey, addr.service, source), nNow, {s.nIdCount});
        }
      }
    case GoodOp(service, nTime) =>
      if Ops.IsExactly(s, service) {
        var id := s.mapAddr[service.ip];
        var t := Ops.Succeeded(s, id, nTime);
        Ops.NoteKeeps(s, id, t.Info(id));
        if !t.Info(id).fInTried {
          MakeTriedKeepsKey(t, id);
        }
      }
    case GetAddrOp(rolls, nNow) => GetAddrKeepsKey(s, 0, [], Ops.Share(|s.vRandom|), rolls, nNow);
    case _ =>
  }

  lemma DeleteKeepsKey(s: State, id: int)
    requires 0 <= s.Info(id).nRandomPos < |s.vRandom|
    ensures Delete(s, id).nKey == s.nKey
  {
  }

  lemma ClearNewKeepsKey(s: State, sl: Slot)
    requires CanClear(s, sl)
    ensures ClearNew(s, sl).nKey == s.nKey
  {
    hide Delete;
    if sl in s.vvNew {
      DeleteKeepsKey(Unref(s, s.vvNew[sl]).(vvNew := s.vvNew - {sl}), s.vvNew[sl]);
    }
  }

  lemma PlaceKeepsKey(s: State, id: int, sl: Slot, nNow: int, pending: set<int>)
    requires Ops.CanPlace(s, id, pending)
    ensures Ops.Place(s, id, sl, nNow, pending).nKey == s.nKey
  {
    hide Inv, Delete, ClearNew, Ops.CanTake;
    ClearNewKeeps(s, sl, pending, 0);
    ClearNewKeepsKey(s, sl);
    if s.Info(id).nRefCount == 0 {
      InvTables(s, pending, 0);
      PendingCanGo(s, id, pending);
      DeleteKeepsKey(s, id);
    }
  }

  lemma MakeTriedKeepsKey(s: State, id: int)
    requires Consistent(s) && id in s.mapInfo && !s.Info(id).fInTried
    ensures CanMakeTried(s, id) && MakeTried(s, id).nKey == s.nKey
  {
    hide Inv, ClearNew, TriedSlot, NewSlot;
    MakeTriedKeeps(s, id);
    var t, sl := LeaveNew(s, id), TriedSlot(s.env, s.nKey, s.Service(id));
    if sl in t.vvTried {
      ClearNewKeepsKey(LeaveTried(t, sl), HomeSlot(t, t.vvTried[sl]));
    }
  }

  lemma SwapKeepsKey(s: State, p1: nat, p2: nat)
    requires p1 < |s.vRandom| && p2 < |s.vRandom|
    ensures SwapRandom(s, p1, p2).nKey == s.nKey
  {
  }

  lemma {:induction false} GetAddrKeepsKey(s: State, n: nat, vAddr: seq<Address>, nNodes: nat, rolls: nat -> nat, nNow: int)
    requires n <= |s.vRandom|
    ensures Ops.GetAddrFrom(s, n, vAddr, nNodes, rolls, nNow).state.nKey == s.nKey
    decreases |s.vRandom| - n
  {
    hide IsTerrible, SwapRandom, Ops.GetAddrFrom;
    if n == |s.vRandom| || |vAddr| >= nNodes {
      Ops.GetAddrFromDone(s, n, vAddr, nNodes, rolls, nNow);
    } else {
      Ops.GetAddrFromNext(s, n, vAddr, nNodes, rolls, nNow);
      SwapKeepsKey(s, n, rolls(n) % (|s.vRandom| - n) + n);
      var t := SwapRandom(s, n, rolls(n) % (|s.vRandom| - n) + n);
      var info := t.Info(t.vRandom[n]);
      GetAddrKeepsKey(t, n + 1, vAddr + if IsTerrible(info, nNow) then [] else [info.addr], nNodes, rolls, nNow);
    }
  }

  /** A new manager passes the check after any operations that are told the time. */
  lemma {:induction false} RunPasses(s: State, ops: seq<Ops.Op>)
    requires Consistent(s) && Ops.Dated(s) && s.nKey != 0
    requires forall i :: 0 <= i < |ops| ==> Ops.Timely(ops[i])
    ensures Passes(Ops.Run(s, ops))
    decreases |ops|
  {
    hide Inv, Ops.Dated, Passes, Ops.Timely;
    if ops == [] {
      ConsistentPassesIff(s);
    } else {
      assert Ops.Timely(ops[0]);
      Ops.StepKeeps(s, ops[0]);
      Ops.StepKeepsDates(s, ops[0]);
      StepKeepsKey(s, ops[0]);
      RunPasses(Ops.Step(s, ops[0]), ops[1..]);
    }
  }

  lemma NewManagerPasses(env: Env, nKey: int, ops: seq<Ops.Op>)
    requires nKey != 0 && forall i :: 0 <= i < |ops| ==> Ops.Timely(ops[i])
    ensures Consistent(Initial(env, nKey)) && Passes(Ops.Run(Initial(env, nKey), ops))
  {
    hide Inv, Passes;
    InitialIsConsistent(env, nKey);
    RunPasses(Initial(env, nKey), ops);
  }

  // ---------------------------------------------------------------- the entries

  /** The entries that have been gone through. */
  function Part(m: map<int, CAddrInfo>, ids: seq<int>): map<int, CAddrInfo> { map id | id in m && id in ids :: m[id] }

  function RefCounts(m: map<int, CAddrInfo>): map<int, int> { map id | id in m && !m[id].fInTried :: m[id].nRefCount }

  method CheckEntry(am: CAddrMan, n: int) returns (r: int)
    requires n in am.mapInfo
    modifies am`mapAddr
    ensures r == 0 <==> EntryPasses(old(am.View()), n)
    ensures SameOwners(old(am.mapAddr), am.mapAddr)
    ensures am.mapInfo[n].addr.service.ip in old(am.mapAddr) ==> am.mapAddr == old(am.mapAddr)
  {
    hide Occupied;
    var info := am.mapInfo[n];
    if info.fInTried {
      if info.nLastSuccess == 0 {
        return -1;
      }
      if info.nRefCount != 0 {
        return -2;
      }
    } else {
      if info.nRefCount < 0 || info.nRefCount > NEW_BUCKETS_PER_ADDRESS {
        return -3;
      }
      if info.nRefCount == 0 {
        return -4;
      }
    }
    if info.addr.service.ip !in am.mapAddr {
      am.mapAddr := am.mapAddr[info.addr.service.ip := 0];
    }
    if am.mapAddr[info.addr.service.ip] != n {
      return -5;
    }
    if info.nRandomPos < 0 || info.nRandomPos >= |am.vRandom| || am.vRandom[info.nRandomPos] != n {
      return -14;
    }
    if info.nLastTry < 0 {
      return -6;
    }
    if info.nLastSuccess < 0 {
      return -8;
    }
    r := 0;
  }

  lemma SameEntryPasses(s: State, t: State, id: int)
    requires id in s.mapInfo && t == s.(mapAddr := t.mapAddr)
    requires SameOwners(s.mapAddr, t.mapAddr)
    ensures EntryPasses(t, id) <==> EntryPasses(s, id)
  {
  }

  lemma PartMore(m: map<int, CAddrInfo>, ids: seq<int>, i: nat)
    requires i < |ids| && ids[i] in m
    ensures Part(m, ids[..i + 1]) == Part(m, ids[..i])[ids[i] := m[ids[i]]]
    ensures TriedIds(Part(m, ids[..i + 1])) == TriedIds(Part(m, ids[..i])) + if m[ids[i]].fInTried then {ids[i]} else {}
    ensures !m[ids[i]].fInTried ==> RefCounts(Part(m, ids[..i + 1])) == RefCounts(Part(m, ids[..i]))[ids[i] := m[ids[i]].nRefCount]
    ensures m[ids[i]].fInTried ==> RefCounts(Part(m, ids[..i + 1])) == RefCounts(Part(m, ids[..i]))
  {
    assert forall id :: id in ids[..i + 1] <==> id in ids[..i] || id == ids[i];
    var p, q := Part(m, ids[..i]), Part(m, ids[..i + 1]);
    assert forall id :: id in q ==> q[id] == m[id];
    assert forall id :: id in p ==> p[id] == m[id];
    assert q == p[ids[i] := m[ids[i]]];
  }

  method CheckEntries(am: CAddrMan) returns (r: int, setTried: set<int>, mapNew: map<int, int>)
    modifies am`mapAddr
    ensures r == 0 <==> forall id :: id in am.mapInfo ==> EntryPasses(old(am.View()), id)
    ensures r == 0 ==> setTried == TriedIds(am.mapInfo) && mapNew == RefCounts(am.mapInfo)
    ensures SameOwners(old(am.mapAddr), am.mapAddr)
    ensures AllAddressesIn(am.mapInfo, old(am.mapAddr)) ==> am.mapAddr == old(am.mapAddr)
  {
    hide Occupied, EntryPasses, SameOwners, AllAddressesIn, TriedIds, RefCounts, Part;
    ghost var s := am.View();
    StillSameOwners(s.mapAddr, s.mapAddr, s.mapAddr);
    setTried, mapNew := {}, map[];
    var ids := SortKeys(am.mapInfo);
    SortedIsComplete(am.mapInfo.Keys);
    PartEnds(am.mapInfo, ids);
    for i := 0 to |ids|
      invariant forall k :: 0 <= k < i ==> EntryPasses(s, ids[k])
      invariant setTried == TriedIds(Part(am.mapInfo, ids[..i])) && mapNew == RefCounts(Part(am.mapInfo, ids[..i]))
      invariant SameOwners(s.mapAddr, am.mapAddr)
      invariant AllAddressesIn(am.mapInfo, s.mapAddr) ==> am.mapAddr == s.mapAddr
    {
      var n := ids[i];
      SameEntryPasses(s, am.View(), n);
      PartMore(am.mapInfo, ids, i);
      AddressIn(am.mapInfo, s.mapAddr, n);
      ghost var before := am.mapAddr;
      r := CheckEntry(am, n);
      StillSameOwners(s.mapAddr, before, am.mapAddr);
      if r != 0 {
        return;
      }
      if am.mapInfo[n].fInTried {
        setTried := setTried + {n};
      } else {
        mapNew := mapNew[n := am.mapInfo[n].nRefCount];
      }
    }
    r := 0;
    forall id | id in am.mapInfo ensures EntryPasses(s, id) {
      var k :| 0 <= k < |ids| && ids[k] == id;
    }
  }

  lemma PartEnds(m: map<int, CAddrInfo>, ids: seq<int>)
    requires forall id :: id in ids <==> id in m
    ensures TriedIds(Part(m, ids[..0])) == {} && RefCounts(Part(m, ids[..0])) == map[]
    ensures TriedIds(Part(m, ids[..|ids|])) == TriedIds(m) && RefCounts(Part(m, ids[..|ids|])) == RefCounts(m)
  {
    assert ids[..|ids|] == ids;
    assert forall id :: id in m ==> id in ids;
    assert Part(m, ids) == m;
    assert Part(m, ids[..0]) == map[];
  }

  // ---------------------------------------------------------------- the tables

  /** The slots that have been gone through. */
  function Seen(t: map<Slot, int>, n: int, i: int): map<Slot, int> { map sl | sl in t && Before(sl, n, i) :: t[sl] }

  lemma SeenMore(t: map<Slot, int>, n: int, i: int)
    ensures Slot(n, i) !in Seen(t, n, i)
    ensures Slot(n, i) in t ==> Seen(t, n, i + 1) == Seen(t, n, i)[Slot(n, i) := t[Slot(n, i)]]
    ensures Slot(n, i) !in t ==> Seen(t, n, i + 1) == Seen(t, n, i)
  {
    forall sl ensures Before(sl, n, i + 1) <==> Before(sl, n, i) || sl == Slot(n, i) {
    }
  }

  lemma SeenRow(t: map<Slot, int>, n: int, width: int)
    requires forall sl :: sl in t ==> 0 <= sl.pos < width
    ensures Seen(t, n, width) == Seen(t, n + 1, 0)
  {
  }

  lemma SeenEnds(t: map<Slot, int>, height: int)
    requires forall sl :: sl in t ==> 0 <= sl.bucket < height && 0 <= sl.pos
    ensures Seen(t, 0, 0) == map[] && Seen(t, height, 0) == t
  {
  }

  lemma InGrid(t: array2<int>)
    ensures forall sl :: sl in Occupied(t) ==> 0 <= sl.bucket < t.Length0 && 0 <= sl.pos < t.Length1
  {
  }

  /** What is known of "tried" after some of its slots: they are right, and what they hold is struck out. */
  ghost predicate TriedSeen(s: State, seen: map<Slot, int>, setTried: set<int>) {
    && (forall sl :: sl in seen ==> sl in s.vvTried && s.vvTried[sl] == seen[sl] && TriedSlotOk(s, sl))
    && (forall id :: id in setTried <==> id in TriedIds(s.mapInfo) && SlotsOf(seen, id) == {})
  }

  /** And of "new": what is left of the counts. */
  ghost predicate NewSeen(s: State, seen: map<Slot, int>, mapNew: map<int, int>) {
    && (forall sl :: sl in seen ==> sl in s.vvNew && s.vvNew[sl] == seen[sl] && NewSlotOk(s, sl))
    && (forall id :: id in mapNew ==> mapNew[id] > 0)
    && (forall id :: id in NewIds(s.mapInfo) ==>
          |SlotsOf(seen, id)| + (if id in mapNew then mapNew[id] else 0) == s.Info(id).nRefCount)
    && mapNew.Keys <= NewIds(s.mapInfo)
  }

  method CheckTriedSlot(am: CAddrMan, n: int, i: int, setTried: set<int>) returns (r: int, rest: set<int>)
    requires am.Shape() && 0 <= n < TRIED_BUCKET_COUNT && 0 <= i < BUCKET_SIZE
    requires TriedSeen(am.View(), Seen(am.View().vvTried, n, i), setTried)
    ensures r == 0 ==> TriedSeen(am.View(), Seen(am.View().vvTried, n, i + 1), rest)
    ensures r != 0 ==> !TriedPasses(am.View())
  {
    hide Occupied, Seen, TriedBucket, BucketPosition;
    ghost var s, sl := am.View(), Slot(n, i);
    ReadSlot(am.vvTried, n, i);
    SeenMore(s.vvTried, n, i);
    r, rest := 0, setTried;
    if am.vvTried[n, i] != -1 {
      var id := am.vvTried[n, i];
      TriedOnlyOnce(s, Seen(s.vvTried, n, i), setTried, sl);
      if id !in setTried {
        return -11, rest;
      }
      var service := am.mapInfo[id].addr.service;
      if TriedBucket(am.env, am.nKey, service) != n {
        return -17, rest;
      }
      if BucketPosition(am.env, am.nKey, service, false, n) != i {
        return -18, rest;
      }
      rest := setTried - {id};
      TriedStruck(s, Seen(s.vvTried, n, i), setTried, sl);
    }
  }

  lemma TriedOnlyOnce(s: State, seen: map<Slot, int>, setTried: set<int>, sl: Slot)
    requires TriedSeen(s, seen, setTried) && sl in s.vvTried && sl !in seen
    ensures s.vvTried[sl] in setTried ==> s.vvTried[sl] in s.mapInfo && s.mapInfo[s.vvTried[sl]].fInTried
    ensures TriedSlotOk(s, sl) ==> s.vvTried[sl] in setTried
  {
    hide TriedSlotOk;
    var id := s.vvTried[sl];
    if TriedSlotOk(s, sl) {
      TriedIsIn(s, sl);
      forall other | other in seen ensures seen[other] == id ==> other == sl {
        OnePlace(s, other, sl);
      }
      assert SlotsOf(seen, id) == {};
    }
  }

  lemma TriedIsIn(s: State, sl: Slot)
    requires sl in s.vvTried && TriedSlotOk(s, sl)
    ensures s.vvTried[sl] in TriedIds(s.mapInfo)
  {
  }

  lemma OnePlace(s: State, a: Slot, b: Slot)
    requires a in s.vvTried && b in s.vvTried && TriedSlotOk(s, a) && TriedSlotOk(s, b)
    ensures s.vvTried[a] == s.vvTried[b] ==> a == b
  {
  }

  lemma TriedStruck(s: State, seen: map<Slot, int>, setTried: set<int>, sl: Slot)
    requires TriedSeen(s, seen, setTried) && sl in s.vvTried && sl !in seen && TriedSlotOk(s, sl)
    ensures TriedSeen(s, seen[sl := s.vvTried[sl]], setTried - {s.vvTried[sl]})
  {
    hide TriedSlotOk, SlotsOf, TriedIds;
    var id := s.vvTried[sl];
    forall x ensures SlotsOf(seen[sl := id], x) == {} <==> SlotsOf(seen, x) == {} && x != id {
      SlotsPut(seen, sl, id, x);
    }
  }

  method CheckNewSlot(am: CAddrMan, n: int, i: int, mapNew: map<int, int>) returns (r: int, rest: map<int, int>)
    requires am.Shape() && 0 <= n < NEW_BUCKET_COUNT && 0 <= i < BUCKET_SIZE
    requires NewSeen(am.View(), Seen(am.View().vvNew, n, i), mapNew)
    ensures r == 0 ==> NewSeen(am.View(), Seen(am.View().vvNew, n, i + 1), rest)
    ensures r != 0 ==> !NewPasses(am.View())
  {
    hide Occupied, Seen, BucketPosition;
    ghost var s, sl := am.View(), Slot(n, i);
    ReadSlot(am.vvNew, n, i);
    SeenMore(s.vvNew, n, i);
    r, rest := 0, mapNew;
    if am.vvNew[n, i] != -1 {
      var id := am.vvNew[n, i];
      NewNotTooOften(s, Seen(s.vvNew, n, i), mapNew, sl);
      if id !in mapNew {
        return -12, rest;
      }
      if BucketPosition(am.env, am.nKey, am.mapInfo[id].addr.service, true, n) != i {
        return -19, rest;
      }
      NewStruck(s, Seen(s.vvNew, n, i), mapNew, sl);
      rest := mapNew[id := mapNew[id] - 1];
      if rest[id] == 0 {
        rest := rest - {id};
      }
    }
  }

  lemma NewNotTooOften(s: State, seen: map<Slot, int>, mapNew: map<int, int>, sl: Slot)
    requires NewSeen(s, seen, mapNew) && sl in s.vvNew && sl !in seen
    ensures s.vvNew[sl] in mapNew ==> s.vvNew[sl] in s.mapInfo && !s.mapInfo[s.vvNew[sl]].fInTried
    ensures NewPasses(s) ==> s.vvNew[sl] in mapNew
  {
    hide NewSlotIn;
    var id := s.vvNew[sl];
    if NewPasses(s) {
      assert NewSlotOk(s, sl);
      assert id in NewIds(s.mapInfo);
      assert SlotsOf(seen, id) + {sl} <= SlotsOf(s.vvNew, id);
      SubsetSize(SlotsOf(seen, id) + {sl}, SlotsOf(s.vvNew, id));
    }
  }

  function Decremented(m: map<int, int>, id: int): map<int, int>
    requires id in m
  {
    if m[id] == 1 then m - {id} else m[id := m[id] - 1]
  }

  lemma NewStruck(s: State, seen: map<Slot, int>, mapNew: map<int, int>, sl: Slot)
    requires NewSeen(s, seen, mapNew) && sl in s.vvNew && sl !in seen && NewSlotOk(s, sl) && s.vvNew[sl] in mapNew
    ensures NewSeen(s, seen[sl := s.vvNew[sl]], Decremented(mapNew, s.vvNew[sl]))
  {
    hide NewSlotOk, SlotsOf, NewIds;
    var id := s.vvNew[sl];
    forall x ensures |SlotsOf(seen[sl := id], x)| == |SlotsOf(seen, x)| + if x == id then 1 else 0 {
      SlotsPut(seen, sl, id, x);
    }
  }

  method CheckTriedTable(am: CAddrMan, setTried: set<int>) returns (r: int, rest: set<int>)
    requires am.Shape() && setTried == TriedIds(am.mapInfo)
    ensures r == 0 ==> TriedSeen(am.View(), am.View().vvTried, rest)
    ensures r != 0 ==> !TriedPasses(am.View())
  {
    hide Occupied, Seen, TriedPasses, TriedSlotOk;
    ghost var s := am.View();
    InGrid(am.vvTried);
    SeenEnds(s.vvTried, TRIED_BUCKET_COUNT);
    rest := setTried;
    for n := 0 to TRIED_BUCKET_COUNT
      invariant TriedSeen(s, Seen(s.vvTried, n, 0), rest)
    {
      for i := 0 to BUCKET_SIZE
        invariant TriedSeen(s, Seen(s.vvTried, n, i), rest)
      {
        r, rest := CheckTriedSlot(am, n, i, rest);
        if r != 0 {
          return;
        }
      }
      SeenRow(s.vvTried, n, BUCKET_SIZE);
    }
    r := 0;
  }

  method CheckNewTable(am: CAddrMan, mapNew: map<int, int>) returns (r: int, rest: map<int, int>)
    requires am.Shape() && mapNew == RefCounts(am.mapInfo) && forall id :: id in mapNew ==> mapNew[id] > 0
    ensures r == 0 ==> NewSeen(am.View(), am.View().vvNew, rest)
    ensures r != 0 ==> !NewPasses(am.View())
  {
    hide Occupied, Seen, NewPasses, NewSlotOk;
    ghost var s := am.View();
    InGrid(am.vvNew);
    SeenEnds(s.vvNew, NEW_BUCKET_COUNT);
    rest := mapNew;
    for n := 0 to NEW_BUCKET_COUNT
      invariant NewSeen(s, Seen(s.vvNew, n, 0), rest)
    {
      for i := 0 to BUCKET_SIZE
        invariant NewSeen(s, Seen(s.vvNew, n, i), rest)
      {
        r, rest := CheckNewSlot(am, n, i, rest);
        if r != 0 {
          return;
        }
      }
      SeenRow(s.vvNew, n, BUCKET_SIZE);
    }
    r := 0;
  }

  lemma NothingStruck(s: State, setTried: set<int>, mapNew: map<int, int>)
    requires TriedSeen(s, s.vvTried, setTried) && NewSeen(s, s.vvNew, mapNew)
    ensures TriedPasses(s) <==> setTried == {}
    ensures NewPasses(s) <==> mapNew == map[]
  {
    hide TriedSlotOk, NewSlotOk, SlotsOf, TriedIds, NewIds;
    if setTried != {} {
      assert (forall id :: id !in setTried) ==> setTried == {};
      var id :| id in setTried;
      assert SlotsOf(s.vvTried, id) == {};
    }
    if mapNew != map[] {
      assert (forall id :: id !in mapNew) ==> mapNew == map[];
      var id :| id in mapNew;
      assert id in NewIds(s.mapInfo);
    }
  }

  /** Check_: zero exactly for a state that passes, which it leaves alone where every address is indexed. */
  method Check_(am: CAddrMan) returns (r: int)
    requires am.Shape()
    modifies am`mapAddr
    ensures r == 0 <==> Passes(old(am.View()))
    ensures Consistent(old(am.View())) ==> am.View() == old(am.View())
  {
    hide Occupied, Inv, EntryPasses, TriedPasses, NewPasses, TriedSeen, NewSeen;
    ghost var s := am.View();
    if |am.vRandom| != am.nTried + am.nNew {
      return -7;
    }
    AllIndexed(s);
    var setTried, mapNew;
    r, setTried, mapNew := CheckEntries(am);
    if r != 0 {
      return;
    }
    Positive(s);
    if |setTried| != am.nTried {
      return -9;
    }
    if |mapNew| != am.nNew {
      return -10;
    }
    SameTablesPass(s, am.View());
    r, setTried := CheckTriedTable(am, setTried);
    if r != 0 {
      return;
    }
    r, mapNew := CheckNewTable(am, mapNew);
    if r != 0 {
      return;
    }
    NothingStruck(am.View(), setTried, mapNew);
    if |setTried| != 0 {
      return -13;
    }
    if |mapNew| != 0 {
      return -15;
    }
    if am.nKey == 0 {
      return -16;
    }
    r := 0;
  }

  lemma AllIndexed(s: State)
    ensures Consistent(s) ==> AllAddressesIn(s.mapInfo, s.mapAddr)
  {
    if Consistent(s) {
      forall id | id in s.mapInfo ensures s.mapInfo[id].addr.service.ip in s.mapAddr {
        assert Placed(s, id);
      }
    }
  }

  lemma Positive(s: State)
    requires forall id :: id in s.mapInfo ==> EntryPasses(s, id)
    ensures forall id :: id in RefCounts(s.mapInfo) ==> RefCounts(s.mapInfo)[id] > 0
    ensures |RefCounts(s.mapInfo)| == |NewIds(s.mapInfo)|
  {
    forall id | id in RefCounts(s.mapInfo) ensures RefCounts(s.mapInfo)[id] > 0 {
      assert EntryPasses(s, id);
    }
    assert RefCounts(s.mapInfo).Keys == NewIds(s.mapInfo);
  }

  lemma SameTablesPass(s: State, t: State)
    requires t == s.(mapAddr := t.mapAddr)
    ensures TriedPasses(t) <==> TriedPasses(s)
    ensures NewPasses(t) <==> NewPasses(s)
  {
    hide TriedSlot, NewSlotIn;
    assert forall sl :: sl in s.vvTried ==> TriedSlotOk(s, sl) == TriedSlotOk(t, sl);
    assert forall sl :: sl in s.vvNew ==> NewSlotOk(s, sl) == NewSlotOk(t, sl);
  }
}
