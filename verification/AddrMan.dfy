/**
 The address manager object: it changes its maps, its vector and its two tables of buckets in place,
 and every method does to the abstract state what the operation of the same name says.

 Slots that hold -1 are absent from the tables of the abstract state. Pointers to entries are
 ids here, so writing through one is an update of mapInfo.
 */
module AddrMan {
  import opened Bits
  import opened AddrTables
  import opened MapOrder
  import opened File = AddrFile
  import Loading = AddrLoad
  import RoundTrip = AddrRoundTrip
  import Ops = AddrOps
  import Numbers

  /** All slots of a table. */
  ghost function Grid(m: nat, n: nat): set<Slot> {
    set b, p | 0 <= b < m && 0 <= p < n :: Slot(b, p)
  }

  /** The slots of a table that do not hold -1. */
  ghost function Occupied(t: array2<int>): map<Slot, int>
    reads t
  {
    map sl | sl in Grid(t.Length0, t.Length1) && t[sl.bucket, sl.pos] != -1 :: t[sl.bucket, sl.pos]
  }

  method Write(t: array2<int>, b: int, p: int, id: int)
    requires 0 <= b < t.Length0 && 0 <= p < t.Length1
    modifies t
    ensures Occupied(t) == Written(old(Occupied(t)), Slot(b, p), id)
  {
    t[b, p] := id;
  }

  lemma ReadSlot(t: array2<int>, b: int, p: int)
    requires 0 <= b < t.Length0 && 0 <= p < t.Length1
    ensures Slot(b, p) in Occupied(t) <==> t[b, p] != -1
    ensures Slot(b, p) in Occupied(t) ==> Occupied(t)[Slot(b, p)] == t[b, p]
  {
  }

  class CAddrMan {
    const env: Env
    var nKey: int
    var nIdCount: int
    var mapInfo: map<int, CAddrInfo>
    var mapAddr: map<NetAddr, int>
    var vRandom: seq<int>
    var nTried: int
    const vvTried: array2<int>
    var nNew: int
    const vvNew: array2<int>

    ghost predicate Shape() {
      && vvTried.Length0 == TRIED_BUCKET_COUNT && vvTried.Length1 == BUCKET_SIZE
      && vvNew.Length0 == NEW_BUCKET_COUNT && vvNew.Length1 == BUCKET_SIZE && vvNew != vvTried
    }

    ghost function View(): State
      reads this, vvTried, vvNew
    {
      State(env, nKey, nIdCount, mapInfo, mapAddr, vRandom, nTried, Occupied(vvTried), nNew, Occupied(vvNew))
    }

    /** What holds between operations. */
    ghost predicate Valid()
      reads this, vvTried, vvNew
    {
      Shape() && Consistent(View())
    }

    /** The constructor, with the random key that Clear() draws. */
    constructor (env: Env, key: int)
      ensures Valid() && View() == Initial(env, key)
      ensures fresh(vvTried) && fresh(vvNew)
    {
      this.env, nKey := env, key;
      nIdCount, mapInfo, mapAddr, vRandom, nTried, nNew := 0, map[], map[], [], 0, 0;
      vvTried := new int[TRIED_BUCKET_COUNT, BUCKET_SIZE]((i, j) => -1);
      vvNew := new int[NEW_BUCKET_COUNT, BUCKET_SIZE]((i, j) => -1);
      new;
      assert Occupied(vvTried) == map[] && Occupied(vvNew) == map[];
      InitialIsConsistent(env, key);
    }

    // -------------------------------------------------------------- the small operations

    method Create(addr: Address, source: NetAddr) returns (nId: int)
      modifies this
      ensures View() == AddrTables.Create(old(View()), addr, source) && nId == old(nIdCount)
    {
      nId := nIdCount;
      nIdCount := nIdCount + 1;
      mapInfo := mapInfo[nId := NewInfo(addr, source)];
      mapAddr := mapAddr[addr.service.ip := nId];
      mapInfo := mapInfo[nId := mapInfo[nId].(nRandomPos := |vRandom|)];
      vRandom := vRandom + [nId];
    }

    method SwapRandom(nRndPos1: nat, nRndPos2: nat)
      requires nRndPos1 != nRndPos2 ==> nRndPos1 < |vRandom| && nRndPos2 < |vRandom|
                                        && vRandom[nRndPos1] in mapInfo && vRandom[nRndPos2] in mapInfo
      modifies this
      ensures View() == AddrTables.SwapRandom(old(View()), nRndPos1, nRndPos2)
    {
      hide Occupied;
      if nRndPos1 == nRndPos2 {
        return;
      }
      var nId1 := vRandom[nRndPos1];
      var nId2 := vRandom[nRndPos2];
      assert nId1 in mapInfo;
      assert nId2 in mapInfo;
      mapInfo := mapInfo[nId1 := mapInfo[nId1].(nRandomPos := nRndPos2)];
      mapInfo := mapInfo[nId2 := mapInfo[nId2].(nRandomPos := nRndPos1)];
      vRandom := vRandom[nRndPos1 := nId2];
      vRandom := vRandom[nRndPos2 := nId1];
    }

    method Delete(nId: int)
      requires CanDelete(View(), nId)
      modifies this
      ensures View() == AddrTables.Delete(old(View()), nId)
    {
      hide Occupied, AddrTables.SwapRandom;
      ghost var s := View();
      var info := mapInfo[nId];
      assert !info.fInTried;
      assert info.nRefCount == 0;
      SwapKeepsAddress(s, info.nRandomPos, |vRandom| - 1, nId);
      SwapRandom(info.nRandomPos, |vRandom| - 1);
      vRandom := vRandom[..|vRandom| - 1];
      mapAddr := mapAddr - {info.addr.service.ip};
      mapInfo := mapInfo - {nId};
      nNew := nNew - 1;
    }

    method ClearNew(nUBucket: int, nUBucketPos: int, ghost pending: set<int>, ghost uncounted: int)
      requires Shape() && Inv(View(), pending, uncounted)
      requires 0 <= nUBucket < NEW_BUCKET_COUNT && 0 <= nUBucketPos < BUCKET_SIZE
      modifies this, vvNew
      ensures CanClear(old(View()), Slot(nUBucket, nUBucketPos))
      ensures View() == AddrTables.ClearNew(old(View()), Slot(nUBucket, nUBucketPos))
    {
      hide Lookups, Tables, Totals, Inv, AddrTables.Delete, Occupied;
      ghost var s, sl := View(), Slot(nUBucket, nUBucketPos);
      ReadSlot(vvNew, nUBucket, nUBucketPos);
      ClearNewKeeps(s, sl, pending, uncounted);
      if vvNew[nUBucket, nUBucketPos] != -1 {
        var nIdDelete := vvNew[nUBucket, nUBucketPos];
        InvTables(s, pending, uncounted);
        SlotIsCounted(s, sl, pending);
        UnrefKeeps(s, sl, pending, uncounted);
        assert mapInfo[nIdDelete].nRefCount > 0;
        mapInfo := mapInfo[nIdDelete := mapInfo[nIdDelete].(nRefCount := mapInfo[nIdDelete].nRefCount - 1)];
        Write(vvNew, nUBucket, nUBucketPos, -1);
        assert View() == Unref(s, nIdDelete).(vvNew := s.vvNew - {sl});
        if mapInfo[nIdDelete].nRefCount == 0 {
          InvTables(View(), pending + {nIdDelete}, uncounted);
          PendingCanGo(View(), nIdDelete, pending + {nIdDelete});
          Delete(nIdDelete);
        }
      }
    }

    // -------------------------------------------------------------- to "tried" and back

    /** Removes an entry from all buckets of "new". */
    method LeaveAllNew(nId: int)
      requires Valid() && nId in mapInfo && !mapInfo[nId].fInTried
      modifies this, vvNew
      ensures View() == LeaveNew(old(View()), nId)
      ensures nId in mapInfo && mapInfo[nId].nRefCount == 0
    {
      hide Occupied, Consistent, BucketPosition;
      ghost var s := View();
      NothingLeft(s, nId);
      for bucket := 0 to NEW_BUCKET_COUNT
        invariant View() == LeavingNew(s, nId, bucket)
      {
        var pos := BucketPosition(env, nKey, mapInfo[nId].addr.service, true, bucket);
        ReadSlot(vvNew, bucket, pos);
        LeaveOneBucket(s, nId, bucket);
        if vvNew[bucket, pos] == nId {
          Write(vvNew, bucket, pos, -1);
          mapInfo := mapInfo[nId := mapInfo[nId].(nRefCount := mapInfo[nId].nRefCount - 1)];
        }
      }
      AllLeft(s, nId);
      nNew := nNew - 1;
      assert mapInfo[nId].nRefCount == 0;
    }

    /** Moves the entry in a slot of "tried" back to "new". */
    method Evict(nKBucket: int, nKBucketPos: int, ghost nId: int)
      requires Shape() && Inv(View(), {nId}, 1) && nId in mapInfo
      requires 0 <= nKBucket < TRIED_BUCKET_COUNT && 0 <= nKBucketPos < BUCKET_SIZE
      requires Slot(nKBucket, nKBucketPos) in View().vvTried
      modifies this, vvNew, vvTried
      ensures CanEvict(old(View()), Slot(nKBucket, nKBucketPos))
      ensures View() == AddrTables.Evict(old(View()), Slot(nKBucket, nKBucketPos))
    {
      hide Inv, AddrTables.ClearNew, Occupied, BucketPosition, NewBucket;
      ghost var s, sl := View(), Slot(nKBucket, nKBucketPos);
      ReadSlot(vvTried, nKBucket, nKBucketPos);
      LeaveTriedKeeps(s, sl, {nId}, 1);
      EvictKeeps(s, sl, nId);
      var nIdEvict := vvTried[nKBucket, nKBucketPos];
      assert nIdEvict in mapInfo;
      var infoOld := mapInfo[nIdEvict];
      mapInfo := mapInfo[nIdEvict := infoOld.(fInTried := false)];
      Write(vvTried, nKBucket, nKBucketPos, -1);
      nTried := nTried - 1;
      ghost var t := View();
      assert t == LeaveTried(s, sl);

      var nUBucket := NewBucket(env, nKey, infoOld.addr.service, infoOld.source);
      var nUBucketPos := BucketPosition(env, nKey, infoOld.addr.service, true, nUBucket);
      ClearNew(nUBucket, nUBucketPos, {nId} + {nIdEvict}, 2);
      StillThere(t, Slot(nUBucket, nUBucketPos), nIdEvict, {nId} + {nIdEvict}, 2);
      ReadSlot(vvNew, nUBucket, nUBucketPos);
      assert vvNew[nUBucket, nUBucketPos] == -1;

      mapInfo := mapInfo[nIdEvict := mapInfo[nIdEvict].(nRefCount := 1)];
      IdIsNotMinusOne(s, nIdEvict, {nId}, 1);
      Write(vvNew, nUBucket, nUBucketPos, nIdEvict);
      nNew := nNew + 1;
    }

    method MakeTried(nId: int)
      requires Valid() && nId in mapInfo && !mapInfo[nId].fInTried
      modifies this, vvNew, vvTried
      ensures CanMakeTried(old(View()), nId)
      ensures View() == AddrTables.MakeTried(old(View()), nId)
      ensures Valid()
    {
      hide Inv, AddrTables.Evict, Occupied, BucketPosition, TriedBucket;
      ghost var s := View();
      MakeTriedKeeps(s, nId);
      LeaveNewKeeps(s, nId);
      IdIsNotMinusOne(s, nId, {}, 0);
      LeaveAllNew(nId);
      ghost var t := View();
      var service := mapInfo[nId].addr.service;
      var nKBucket := TriedBucket(env, nKey, service);
      var nKBucketPos := BucketPosition(env, nKey, service, false, nKBucket);
      ghost var sl := Slot(nKBucket, nKBucketPos);
      ReadSlot(vvTried, nKBucket, nKBucketPos);
      if vvTried[nKBucket, nKBucketPos] != -1 {
        EvictKeeps(t, sl, nId);
        Evict(nKBucket, nKBucketPos, nId);
      }
      ReadSlot(vvTried, nKBucket, nKBucketPos);
      assert vvTried[nKBucket, nKBucketPos] == -1;
      Write(vvTried, nKBucket, nKBucketPos, nId);
      nTried := nTried + 1;
      mapInfo := mapInfo[nId := mapInfo[nId].(fInTried := true)];
    }

    // -------------------------------------------------------------- what the network code calls

    /** Looks an address up; `nId` is its id where it is found. */
    method Find(addr: NetAddr) returns (found: bool, nId: int)
      ensures found <==> Known(View(), addr)
      ensures found ==> nId == mapAddr[addr] && nId in mapInfo
    {
      found, nId := false, 0;
      if addr in mapAddr {
        nId := mapAddr[addr];
        found := nId in mapInfo;
      }
    }

    /** Finds a bucket of "new" that an entry is in, beginning with bucket `nRnd`. */
    method FindBucket(nId: int, nRnd: nat) returns (nUBucket: int)
      requires Valid() && nId in mapInfo
      ensures nUBucket == -1 ==> !Ops.InSomeBucket(View(), nId)
      ensures nUBucket != -1 ==> Ops.InSomeBucket(View(), nId)
    {
      hide Inv, Occupied;
      ghost var s := View();
      IdIsNotMinusOne(s, nId, {}, 0);
      nUBucket := -1;
      for n := 0 to NEW_BUCKET_COUNT
        invariant nUBucket == -1
        invariant forall m :: 0 <= m < n ==> !Ops.InBucket(s, nId, Probe(m, nRnd))
      {
        var nB := Probe(n, nRnd);
        var nBpos := BucketPosition(env, nKey, mapInfo[nId].addr.service, true, nB);
        ReadSlot(vvNew, nB, nBpos);
        if vvNew[nB, nBpos] == nId {
          assert Ops.InBucket(s, nId, nB);
          return nB;
        }
      }
      AllBucketsSearched(s, nId, nRnd);
    }

    /** `nRnd` is the bucket RandomInt picks to begin the search with. */
    method Good_(addr: Service, nTime: int, nRnd: nat)
      requires Valid()
      modifies this, vvNew, vvTried
      ensures View() == Ops.Good(old(View()), addr, nTime)
      ensures Valid()
    {
      hide Inv, AddrTables.MakeTried, Occupied;
      ghost var s := View();
      Ops.GoodKeeps(s, addr, nTime);
      var found, nId := Find(addr.ip);
      if !found || mapInfo[nId].addr.service != addr {
        return;
      }
      mapInfo := mapInfo[nId := mapInfo[nId].(nLastSuccess := nTime, nLastTry := nTime, nAttempts := 0)];
      ghost var t := View();
      assert t == Ops.Succeeded(s, nId, nTime);
      Ops.NoteKeeps(s, nId, mapInfo[nId]);
      if mapInfo[nId].fInTried {
        return;
      }
      var nUBucket := FindBucket(nId, nRnd);
      if nUBucket == -1 {
        return;
      }
      MakeTried(nId);
    }

    /** Adds an address; `nNow` is the adjusted time and `roll` what RandomInt draws from. */
    method Add_(addr: Address, source: NetAddr, nTimePenalty: int, nNow: int, roll: nat) returns (fNew: bool)
      requires Valid()
      modifies this, vvNew
      ensures Ops.Added(View(), fNew) == Ops.Add(old(View()), addr, source, nTimePenalty, nNow, roll)
      ensures Valid()
      ensures fNew <==> env.routable(addr.service.ip) && !Known(old(View()), addr.service.ip)
      ensures fNew ==> (Known(View(), addr.service.ip)
                        <==> Ops.Vacant(old(View()), NewSlot(env, old(nKey), addr.service, source), nNow))
    {
      hide Inv, Occupied, Ops.Place, Ops.HeardAgain, Ops.Heard, Ops.MaySpread, NewBucket, BucketPosition, NewSlot, Ops.Vacant, Ops.CanPlace;
      ghost var s := View();
      Ops.NewIfVacant(s, addr, source, nTimePenalty, nNow, roll);
      Ops.AddKeeps(s, addr, source, nTimePenalty, nNow, roll);
      if !env.routable(addr.service.ip) {
        return false;
      }
      var found, nId := Find(addr.service.ip);
      ghost var pending := {};
      if found {
        Ops.HeardAgainSame(mapInfo[nId], addr, nTimePenalty, nNow);
        Ops.SpreadKeeps(s, nId, Ops.HeardAgain(mapInfo[nId], addr, nTimePenalty, nNow));
        var pinfo := Refreshed(mapInfo[nId], addr, nTimePenalty, nNow);
        mapInfo := mapInfo[nId := pinfo];
        var spread := WantsSlot(pinfo, addr, roll);
        if !spread {
          return false;
        }
        Ops.MaySpreadMeans(pinfo, addr, roll);
        fNew := false;
      } else {
        Ops.HeardKeeps(s, addr, source, nTimePenalty);
        nId := Hear(addr, source, nTimePenalty);
        fNew := true;
        pending := {nId};
        Ops.HeardFields(s, addr, source, nTimePenalty);
      }
      Place(nId, source, nNow, pending);
    }

    /** A new entry, its time lowered by the penalty. */
    method Hear(addr: Address, source: NetAddr, nTimePenalty: int) returns (nId: int)
      modifies this
      ensures View() == Ops.Heard(old(View()), addr, source, nTimePenalty) && nId == old(nIdCount)
    {
      hide Occupied;
      nId := Create(addr, source);
      mapInfo := mapInfo[nId := Ops.WithTime(mapInfo[nId], Numbers.Max(0, mapInfo[nId].addr.nTime - nTimePenalty))];
      nNew := nNew + 1;
    }

    /** Whether the entry may take a slot of "new" that is not its own. */
    method MayInsert(nUBucket: int, nUBucketPos: int, nId: int, nNow: int, ghost pending: set<int>) returns (fInsert: bool)
      requires Shape() && Inv(View(), pending, 0) && nId in mapInfo
      requires 0 <= nUBucket < NEW_BUCKET_COUNT && 0 <= nUBucketPos < BUCKET_SIZE
      ensures fInsert <==> Ops.CanTake(View(), nId, Slot(nUBucket, nUBucketPos), nNow)
    {
      hide Inv, Occupied, IsTerrible;
      ghost var s, sl := View(), Slot(nUBucket, nUBucketPos);
      ReadSlot(vvNew, nUBucket, nUBucketPos);
      fInsert := vvNew[nUBucket, nUBucketPos] == -1;
      if !fInsert {
        InvTables(s, pending, 0);
        SlotIsCounted(s, sl, pending);
        var infoExisting := mapInfo[vvNew[nUBucket, nUBucketPos]];
        if IsTerrible(infoExisting, nNow) || (infoExisting.nRefCount > 1 && mapInfo[nId].nRefCount == 0) {
          fInsert := true;
        }
      }
    }

    /** The last part of Add_: takes a slot of "new", or drops the entry if it has none. */
    method Place(nId: int, source: NetAddr, nNow: int, ghost pending: set<int>)
      requires Shape() && Ops.CanPlace(View(), nId, pending)
      modifies this, vvNew
      ensures View() == Ops.Place(old(View()), nId, NewSlot(env, old(nKey), old(View()).Service(nId), source), nNow, pending)
    {
      hide Inv, Occupied, AddrTables.ClearNew, AddrTables.Delete, NewBucket, BucketPosition, Ops.CanTake;
      ghost var s := View();
      var nUBucket := NewBucket(env, nKey, mapInfo[nId].addr.service, source);
      var nUBucketPos := BucketPosition(env, nKey, mapInfo[nId].addr.service, true, nUBucket);
      ghost var sl := Slot(nUBucket, nUBucketPos);
      ReadSlot(vvNew, nUBucket, nUBucketPos);
      IdIsNotMinusOne(s, nId, pending, 0);
      if vvNew[nUBucket, nUBucketPos] != nId {
        var fInsert := MayInsert(nUBucket, nUBucketPos, nId, nNow, pending);
        if fInsert {
          Others(s, sl, nId, pending);
          ClearNew(nUBucket, nUBucketPos, pending, 0);
          mapInfo := mapInfo[nId := mapInfo[nId].(nRefCount := mapInfo[nId].nRefCount + 1)];
          Write(vvNew, nUBucket, nUBucketPos, nId);
        } else if mapInfo[nId].nRefCount == 0 {
          InvTables(s, pending, 0);
          PendingCanGo(s, nId, pending);
          Delete(nId);
        }
      }
    }

    method Attempt_(addr: Service, nTime: int)
      requires Valid()
      modifies this
      ensures View() == Ops.Attempt(old(View()), addr, nTime)
      ensures Valid()
    {
      hide Inv, Occupied;
      Ops.UpdatesKeep(View(), addr, nTime, 0);
      var found, nId := Find(addr.ip);
      if !found || mapInfo[nId].addr.service != addr {
        return;
      }
      mapInfo := mapInfo[nId := mapInfo[nId].(nLastTry := nTime, nAttempts := mapInfo[nId].nAttempts + 1)];
    }

    method Connected_(addr: Service, nTime: int)
      requires Valid()
      modifies this
      ensures View() == Ops.Connected(old(View()), addr, nTime)
      ensures Valid()
    {
      hide Inv, Occupied;
      Ops.UpdatesKeep(View(), addr, nTime, 0);
      var found, nId := Find(addr.ip);
      if !found || mapInfo[nId].addr.service != addr {
        return;
      }
      var nUpdateInterval := 20 * 60;
      if nTime - mapInfo[nId].addr.nTime > nUpdateInterval {
        mapInfo := mapInfo[nId := Ops.WithTime(mapInfo[nId], nTime)];
      }
    }

    method SetServices_(addr: Service, nServices: nat)
      requires Valid()
      modifies this
      ensures View() == Ops.SetServices(old(View()), addr, nServices)
      ensures Valid()
    {
      hide Inv, Occupied;
      Ops.UpdatesKeep(View(), addr, 0, nServices);
      var found, nId := Find(addr.ip);
      if !found || mapInfo[nId].addr.service != addr {
        return;
      }
      mapInfo := mapInfo[nId := mapInfo[nId].(addr := mapInfo[nId].addr.(nServices := nServices))];
    }

    /** Swaps a random entry to position `n`. */
    method PickOne(n: nat, nRndPos: nat) returns (ai: CAddrInfo)
      requires Valid() && n <= nRndPos < |vRandom|
      modifies this
      ensures Valid() && View() == AddrTables.SwapRandom(old(View()), n, nRndPos)
      ensures ai == View().Info(vRandom[n])
    {
      hide Inv, Occupied, AddrTables.SwapRandom;
      InvTables(View(), {}, 0);
      Ops.SwapShuffles(View(), n, nRndPos);
      InfoAt(View(), n);
      InfoAt(View(), nRndPos);
      SwapRandom(n, nRndPos);
      InvTables(View(), {}, 0);
      InfoAt(View(), n);
      assert vRandom[n] in mapInfo;
      ai := mapInfo[vRandom[n]];
    }

    /** `rolls(n)` is the random number drawn for position n. */
    method GetAddr_(rolls: nat -> nat, nNow: int) returns (vAddr: seq<Address>)
      requires Valid()
      modifies this
      ensures Ops.Picked(View(), vAddr) == Ops.GetAddr(old(View()), rolls, nNow)
      ensures Valid()
    {
      hide Inv, Occupied, AddrTables.SwapRandom, IsTerrible, Ops.GetAddrFrom, SameEntries;
      ghost var s := View();
      Ops.GetAddrPicks(s, rolls, nNow);
      var nNodes := Ops.GETADDR_MAX_PCT * |vRandom| / 100;
      if nNodes > Ops.GETADDR_MAX {
        nNodes := Ops.GETADDR_MAX;
      }
      vAddr := [];
      var n := 0;
      while n < |vRandom|
        invariant n <= |vRandom| && Consistent(View())
        invariant Ops.GetAddrFrom(View(), n, vAddr, nNodes, rolls, nNow) == Ops.GetAddr(s, rolls, nNow)
        decreases |vRandom| - n
      {
        if |vAddr| >= nNodes {
          break;
        }
        Ops.GetAddrFromNext(View(), n, vAddr, nNodes, rolls, nNow);
        var nRndPos := rolls(n) % (|vRandom| - n) + n;
        var ai := PickOne(n, nRndPos);
        assert vAddr + [] == vAddr;
        if !IsTerrible(ai, nNow) {
          vAddr := vAddr + [ai.addr];
        }
        n := n + 1;
      }
      Ops.GetAddrFromDone(View(), n, vAddr, nNodes, rolls, nNow);
    }

    // -------------------------------------------------------------- the file

    /** Serialize: the assertions that nNew and nTried are right are proved on the way. */
    method Serialize() returns (toks: seq<Token>)
      requires Valid()
      ensures toks == FileOf(View())
    {
      hide Inv, Occupied, NewOf, TriedOf, UnkIds, InfoTokens, BucketsTokens;
      ghost var s := View();
      toks := [ByteTok(1), ByteTok(32), KeyTok(nKey), IntTok(nNew), IntTok(nTried), IntTok(Xor30(NEW_BUCKET_COUNT))];
      var ids := SortKeys(mapInfo);
      SortedIsComplete(mapInfo.Keys);
      RoundTrip.FileOrderIsComplete(s);
      var infos, mapUnkIds := SerializeNew(ids);
      toks := toks + infos;
      infos := SerializeTried(ids);
      toks := toks + infos;
      var buckets := SerializeBuckets(mapUnkIds);
      toks := toks + buckets;
    }

    method SerializeNew(ids: seq<int>) returns (toks: seq<Token>, mapUnkIds: map<int, int>)
      requires forall id :: id in ids ==> id in mapInfo
      requires |NewOf(View(), ids)| == nNew
      ensures toks == InfoTokens(View(), NewOf(View(), ids)) && mapUnkIds == UnkIds(View(), ids)
    {
      hide Occupied, NewOf, UnkIds, InfoTokens;
      ghost var s := View();
      toks, mapUnkIds := [], map[];
      var nIds := 0;
      ListsStart(s, ids);
      for i := 0 to |ids|
        invariant mapUnkIds == UnkIds(s, ids[..i]) && nIds == |NewOf(s, ids[..i])|
        invariant toks == InfoTokens(s, NewOf(s, ids[..i]))
      {
        ListsNext(s, ids, i);
        mapUnkIds := mapUnkIds[ids[i] := nIds];
        var info := mapInfo[ids[i]];
        if info.nRefCount != 0 {
          NewOfGrows(s, ids, i + 1);
          assert nIds != nNew;
          TokensNext(s, NewOf(s, ids[..i]), ids[i]);
          toks := toks + [InfoToken(info)];
          nIds := nIds + 1;
        }
      }
      assert ids[..|ids|] == ids;
    }

    method SerializeTried(ids: seq<int>) returns (toks: seq<Token>)
      requires forall id :: id in ids ==> id in mapInfo
      requires |TriedOf(View(), ids)| == nTried
      ensures toks == InfoTokens(View(), TriedOf(View(), ids))
    {
      hide Occupied, TriedOf, InfoTokens;
      ghost var s := View();
      toks := [];
      var nIds := 0;
      ListsStart(s, ids);
      for i := 0 to |ids|
        invariant nIds == |TriedOf(s, ids[..i])| && toks == InfoTokens(s, TriedOf(s, ids[..i]))
      {
        ListsNext(s, ids, i);
        var info := mapInfo[ids[i]];
        if info.fInTried {
          TriedOfGrows(s, ids, i + 1);
          assert nIds != nTried;
          TokensNext(s, TriedOf(s, ids[..i]), ids[i]);
          toks := toks + [InfoToken(info)];
          nIds := nIds + 1;
        }
      }
      assert ids[..|ids|] == ids;
    }

    method SerializeBuckets(mapUnkIds: map<int, int>) returns (toks: seq<Token>)
      requires Shape()
      ensures toks == BucketsTokens(View(), mapUnkIds, NEW_BUCKET_COUNT)
    {
      hide Occupied;
      ghost var s := View();
      toks := [];
      for bucket := 0 to NEW_BUCKET_COUNT
        invariant toks == BucketsTokens(s, mapUnkIds, bucket)
      {
        var nSize := 0;
        for i := 0 to BUCKET_SIZE
          invariant nSize == |BucketIds(s.vvNew, bucket, i)|
        {
          ReadSlot(vvNew, bucket, i);
          if vvNew[bucket, i] != -1 {
            nSize := nSize + 1;
          }
        }
        var indexes: seq<Token> := [];
        for i := 0 to BUCKET_SIZE
          invariant indexes == IndexTokens(mapUnkIds, BucketIds(s.vvNew, bucket, i))
        {
          ReadSlot(vvNew, bucket, i);
          if vvNew[bucket, i] != -1 {
            IndexesNext(mapUnkIds, BucketIds(s.vvNew, bucket, i), vvNew[bucket, i]);
            var nIndex := Unk(mapUnkIds, vvNew[bucket, i]);
            indexes := indexes + [IntTok(nIndex)];
          } else {
            assert BucketIds(s.vvNew, bucket, i) + [] == BucketIds(s.vvNew, bucket, i);
          }
        }
        toks := toks + ([IntTok(nSize)] + indexes);
      }
    }

    /** Clear(); mapInfo and mapAddr stay as they are. */
    method Clear(key: int)
      requires Shape()
      modifies this, vvNew, vvTried
      ensures View() == File.Clear(old(View()), key)
    {
      hide Occupied;
      vRandom := [];
      nKey := key;
      ClearTable(vvNew);
      ClearTable(vvTried);
      nIdCount, nTried, nNew := 0, 0, 0;
    }

    /**
     Unserialize; `ok` is false where it throws or an assertion fails. An empty manager loads every file
     that is long enough, and its state then is consistent exactly if no count is negative and no
     entry in a table shares its address.
     */
    method Unserialize(toks: seq<Token>, randomKey: int) returns (ok: bool)
      requires Shape()
      modifies this, vvNew, vvTried
      ensures ok <==> LoadFile(old(View()), toks).Load?
      ensures ok ==> View() == LoadFile(old(View()), toks).state
      ensures ok ==> |toks| >= 6 && toks[1] == ByteTok(32)
      ensures Fresh(old(View()), env) ==> (ok <==> Loading.Readable(toks))
      ensures Fresh(old(View()), env) && ok ==>
                (Consistent(View()) <==> Loading.NewAnnounced(toks) >= 0 && Loading.TriedAnnounced(toks) >= 0
                                         && Loading.NoClash(ReadTables(old(View()), toks).state))
    {
      hide Occupied, ReadTables, Prune, Consistent, Loading.Readable, Loading.NoClash;
      Loading.FreshLoads(View(), toks);
      var at;
      ok, at := UnserializeTables(toks, randomKey);
      if ok {
        ok := PruneEntries(at);
      }
    }

    /** Everything but the pruning. */
    method UnserializeTables(toks: seq<Token>, randomKey: int) returns (ok: bool, at: nat)
      requires Shape()
      modifies this, vvNew, vvTried
      ensures ok <==> ReadTables(old(View()), toks).Load?
      ensures ok ==> Load(View(), at) == ReadTables(old(View()), toks)
      ensures ok ==> |toks| >= 6 && toks[1] == ByteTok(32)
    {
      hide Occupied, LoadNew, LoadTried, LoadBuckets;
      Clear(randomKey);
      if !(|toks| >= 6 && toks[0].ByteTok? && toks[1].ByteTok? && toks[1].b == 32 && toks[2].KeyTok?
           && toks[3].IntTok? && toks[4].IntTok? && toks[5].IntTok?) {
        return false, 0;
      }
      var nVersion := toks[0].b;
      nKey, nNew, nTried := toks[2].nKey, toks[3].n, toks[4].n;
      var nUBuckets := toks[5].n;
      if nVersion != 0 {
        nUBuckets := Xor30(nUBuckets);
      }
      var usable := nVersion == 1 && nUBuckets == NEW_BUCKET_COUNT;
      ok, at := UnserializeNew(toks, usable);
      if !ok {
        return;
      }
      nIdCount := nNew;
      ok, at := UnserializeTried(toks, at);
      if !ok {
        return;
      }
      ok, at := UnserializeBuckets(toks, at, nUBuckets, usable);
    }

    method UnserializeNew(toks: seq<Token>, usable: bool) returns (ok: bool, at: nat)
      requires Shape()
      modifies this, vvNew
      ensures ok <==> LoadNew(old(View()), toks, 6, 0, old(nNew), usable).Load?
      ensures ok ==> Load(View(), at) == LoadNew(old(View()), toks, 6, 0, old(nNew), usable)
      ensures nNew == old(nNew) && nTried == old(nTried)
    {
      hide Occupied, LoadNewEntry;
      at := 6;
      var n := 0;
      while n < nNew
        invariant 0 <= n && nNew == old(nNew) && nTried == old(nTried)
        invariant LoadNew(View(), toks, at, n, nNew, usable) == LoadNew(old(View()), toks, 6, 0, nNew, usable)
        decreases nNew - n
      {
        if !(at < |toks| && toks[at].InfoTok?) {
          return false, at;
        }
        ReadNewEntry(toks[at], n, usable);
        at := at + 1;
        n := n + 1;
      }
      ok := true;
    }

    method ReadNewEntry(tok: Token, n: nat, usable: bool)
      requires Shape() && tok.InfoTok?
      modifies this, vvNew
      ensures View() == LoadNewEntry(old(View()), tok, n, usable)
      ensures nNew == old(nNew) && nTried == old(nTried)
    {
      hide Occupied, NewBucket, BucketPosition;
      var info := ReadOver(if n in mapInfo then mapInfo[n] else EMPTY_INFO, tok);
      mapInfo := mapInfo[n := info.(nRandomPos := |vRandom|)];
      mapAddr := mapAddr[info.addr.service.ip := n];
      vRandom := vRandom + [n];
      if !usable {
        var nUBucket := NewBucket(env, nKey, info.addr.service, info.source);
        var nUBucketPos := BucketPosition(env, nKey, info.addr.service, true, nUBucket);
        ReadSlot(vvNew, nUBucket, nUBucketPos);
        if vvNew[nUBucket, nUBucketPos] == -1 {
          Write(vvNew, nUBucket, nUBucketPos, n);
          mapInfo := mapInfo[n := mapInfo[n].(nRefCount := mapInfo[n].nRefCount + 1)];
        }
      }
    }

    method UnserializeTried(toks: seq<Token>, from: nat) returns (ok: bool, at: nat)
      requires Shape()
      modifies this, vvTried
      ensures ok <==> LoadTried(old(View()), toks, from, 0, old(nTried), 0).Load?
      ensures ok ==> Load(View(), at) == LoadTried(old(View()), toks, from, 0, old(nTried), 0)
    {
      hide Occupied, LoadTriedEntry, TriedBucket, BucketPosition;
      at := from;
      var n, nLost := 0, 0;
      while n < nTried
        invariant 0 <= n && nTried == old(nTried)
        invariant LoadTried(View(), toks, at, n, nTried, nLost) == LoadTried(old(View()), toks, from, 0, nTried, 0)
        decreases nTried - n
      {
        if !(at < |toks| && toks[at].InfoTok?) {
          return false, at;
        }
        var lost := ReadTriedEntry(toks[at]);
        at := at + 1;
        n := n + 1;
        nLost := if lost then nLost + 1 else nLost;
      }
      nTried := nTried - nLost;
      ok := true;
    }

    method ReadTriedEntry(tok: Token) returns (lost: bool)
      requires Shape() && tok.InfoTok?
      modifies this, vvTried
      ensures View() == LoadTriedEntry(old(View()), ReadOver(EMPTY_INFO, tok))
      ensures lost <==> TriedSlot(env, old(nKey), tok.addr.service) in old(View()).vvTried
      ensures nTried == old(nTried)
    {
      hide Occupied, TriedBucket, BucketPosition;
      var info := ReadOver(EMPTY_INFO, tok);
      var nKBucket := TriedBucket(env, nKey, info.addr.service);
      var nKBucketPos := BucketPosition(env, nKey, info.addr.service, false, nKBucket);
      ReadSlot(vvTried, nKBucket, nKBucketPos);
      lost := vvTried[nKBucket, nKBucketPos] != -1;
      if !lost {
        info := info.(nRandomPos := |vRandom|, fInTried := true);
        vRandom := vRandom + [nIdCount];
        mapInfo := mapInfo[nIdCount := info];
        mapAddr := mapAddr[info.addr.service.ip := nIdCount];
        Write(vvTried, nKBucket, nKBucketPos, nIdCount);
        nIdCount := nIdCount + 1;
      }
    }

    method UnserializeBuckets(toks: seq<Token>, from: nat, nUBuckets: int, usable: bool) returns (ok: bool, at: nat)
      requires Shape() && (usable ==> nUBuckets == NEW_BUCKET_COUNT)
      modifies this, vvNew
      ensures ok <==> LoadBuckets(old(View()), toks, from, 0, nUBuckets, usable).Load?
      ensures ok ==> Load(View(), at) == LoadBuckets(old(View()), toks, from, 0, nUBuckets, usable)
    {
      hide Occupied, LoadBucket;
      at := from;
      var bucket := 0;
      while bucket < nUBuckets
        invariant 0 <= bucket
        invariant LoadBuckets(View(), toks, at, bucket, nUBuckets, usable) == LoadBuckets(old(View()), toks, from, 0, nUBuckets, usable)
        decreases nUBuckets - bucket
      {
        if !(at < |toks| && toks[at].IntTok?) {
          return false, at;
        }
        var nSize := toks[at].n;
        ok, at := UnserializeBucket(toks, at + 1, bucket, nSize, usable);
        if !ok {
          return;
        }
        bucket := bucket + 1;
      }
      ok := true;
    }

    method UnserializeBucket(toks: seq<Token>, from: nat, bucket: nat, nSize: int, usable: bool) returns (ok: bool, at: nat)
      requires Shape() && (usable ==> bucket < NEW_BUCKET_COUNT)
      modifies this, vvNew
      ensures ok <==> LoadBucket(old(View()), toks, from, bucket, 0, nSize, usable).Load?
      ensures ok ==> Load(View(), at) == LoadBucket(old(View()), toks, from, bucket, 0, nSize, usable)
    {
      hide Occupied, LoadIndex;
      at := from;
      var n := 0;
      while n < nSize
        invariant 0 <= n
        invariant LoadBucket(View(), toks, at, bucket, n, nSize, usable) == LoadBucket(old(View()), toks, from, bucket, 0, nSize, usable)
        decreases nSize - n
      {
        if !(at < |toks| && toks[at].IntTok?) {
          return false, at;
        }
        ReadIndex(bucket, toks[at].n, usable);
        at := at + 1;
        n := n + 1;
      }
      ok := true;
    }

    method ReadIndex(bucket: nat, nIndex: int, usable: bool)
      requires Shape() && (usable ==> bucket < NEW_BUCKET_COUNT)
      modifies this, vvNew
      ensures View() == LoadIndex(old(View()), bucket, nIndex, usable)
    {
      hide Occupied, BucketPosition;
      if nIndex >= 0 && nIndex < nNew {
        var info := if nIndex in mapInfo then mapInfo[nIndex] else EMPTY_INFO;
        mapInfo := mapInfo[nIndex := info];
        if usable {
          var nUBucketPos := BucketPosition(env, nKey, info.addr.service, true, bucket);
          ReadSlot(vvNew, bucket, nUBucketPos);
          if vvNew[bucket, nUBucketPos] == -1 && info.nRefCount < NEW_BUCKETS_PER_ADDRESS {
            mapInfo := mapInfo[nIndex := info.(nRefCount := info.nRefCount + 1)];
            Write(vvNew, bucket, nUBucketPos, nIndex);
          }
        }
      }
    }

    /** Deletes the entries that are in no table. */
    method PruneEntries(ghost at: nat) returns (ok: bool)
      requires Shape()
      modifies this
      ensures ok <==> Prune(old(View()), Sorted(old(mapInfo).Keys), at).Load?
      ensures ok ==> Load(View(), at) == Prune(old(View()), Sorted(old(mapInfo).Keys), at)
    {
      hide Occupied, AddrTables.Delete;
      var ids := SortKeys(mapInfo);
      var i := 0;
      while i < |ids|
        invariant 0 <= i <= |ids|
        invariant Prune(View(), ids[i..], at) == Prune(old(View()), ids, at)
      {
        assert ids[i..][0] == ids[i] && ids[i..][1..] == ids[i + 1..];
        var info := if ids[i] in mapInfo then mapInfo[ids[i]] else EMPTY_INFO;
        if !info.fInTried && info.nRefCount == 0 {
          var last := |vRandom| - 1;
          if ids[i] !in mapInfo || !(0 <= info.nRandomPos <= last)
             || (info.nRandomPos != last && (vRandom[info.nRandomPos] !in mapInfo || vRandom[last] !in mapInfo)) {
            return false;
          }
          Delete(ids[i]);
        }
        i := i + 1;
      }
      ok := true;
    }
  }

  method ClearTable(t: array2<int>)
    modifies t
    ensures Occupied(t) == map[]
  {
    for b := 0 to t.Length0
      invariant forall i, j :: 0 <= i < b && 0 <= j < t.Length1 ==> t[i, j] == -1
    {
      for p := 0 to t.Length1
        invariant forall i, j :: 0 <= i < b && 0 <= j < t.Length1 ==> t[i, j] == -1
        invariant forall j :: 0 <= j < p ==> t[b, j] == -1
      {
        t[b, p] := -1;
      }
    }
  }

  /** The keys of a map in the order in which it is gone through. */
  method SortKeys(m: map<int, CAddrInfo>) returns (ids: seq<int>)
    ensures ids == Sorted(m.Keys)
  {
    var todo := m.Keys;
    ids := [];
    while todo != {}
      invariant ids + Sorted(todo) == Sorted(m.Keys)
      decreases |todo|
    {
      MinExists(todo);
      ghost var least: int :| IsMin(todo, least);
      var id :| id in todo && forall y :: y in todo ==> id <= y;
      assert id == Min(todo);
      assert ids + ([id] + Sorted(todo - {id})) == ids + [id] + Sorted(todo - {id});
      ids := ids + [id];
      todo := todo - {id};
    }
    assert ids + [] == ids;
  }

  lemma ListsStart(s: State, ids: seq<int>)
    ensures NewOf(s, ids[..0]) == [] == TriedOf(s, ids[..0]) && UnkIds(s, ids[..0]) == map[] && InfoTokens(s, []) == []
  {
  }

  lemma ListsNext(s: State, ids: seq<int>, i: nat)
    requires i < |ids|
    ensures NewOf(s, ids[..i + 1]) == if s.Info(ids[i]).nRefCount != 0 then NewOf(s, ids[..i]) + [ids[i]] else NewOf(s, ids[..i])
    ensures TriedOf(s, ids[..i + 1]) == if s.Info(ids[i]).fInTried then TriedOf(s, ids[..i]) + [ids[i]] else TriedOf(s, ids[..i])
    ensures UnkIds(s, ids[..i + 1]) == UnkIds(s, ids[..i])[ids[i] := |NewOf(s, ids[..i])|]
  {
    assert ids[..i + 1][..i] == ids[..i];
  }

  lemma TokensNext(s: State, ids: seq<int>, id: int)
    ensures InfoTokens(s, ids + [id]) == InfoTokens(s, ids) + [InfoToken(s.Info(id))]
  {
    assert (ids + [id])[..|ids|] == ids;
  }

  lemma IndexesNext(u: map<int, int>, ids: seq<int>, id: int)
    ensures IndexTokens(u, ids + [id]) == IndexTokens(u, ids) + [IntTok(Unk(u, id))]
  {
    assert (ids + [id])[..|ids|] == ids;
  }

  lemma {:induction false} NewOfGrows(s: State, ids: seq<int>, i: nat)
    requires i <= |ids|
    ensures |NewOf(s, ids[..i])| <= |NewOf(s, ids)|
    decreases |ids|
  {
    if i == |ids| {
      assert ids[..i] == ids;
    } else {
      NewOfGrows(s, ids[..|ids| - 1], i);
      assert ids[..|ids| - 1][..i] == ids[..i];
    }
  }

  lemma {:induction false} TriedOfGrows(s: State, ids: seq<int>, i: nat)
    requires i <= |ids|
    ensures |TriedOf(s, ids[..i])| <= |TriedOf(s, ids)|
    decreases |ids|
  {
    if i == |ids| {
      assert ids[..i] == ids;
    } else {
      TriedOfGrows(s, ids[..|ids| - 1], i);
      assert ids[..|ids| - 1][..i] == ids[..i];
    }
  }

  /** The first part of Add_ for an address we know. */
  method Refreshed(info: CAddrInfo, addr: Address, nTimePenalty: int, nNow: int) returns (pinfo: CAddrInfo)
    ensures pinfo == Ops.HeardAgain(info, addr, nTimePenalty, nNow)
  {
    pinfo := info;
    var fCurrentlyOnline := nNow - addr.nTime < 24 * 60 * 60;
    var nUpdateInterval := if fCurrentlyOnline then 60 * 60 else 24 * 60 * 60;
    if addr.nTime != 0 && (pinfo.addr.nTime == 0 || pinfo.addr.nTime < addr.nTime - nUpdateInterval - nTimePenalty) {
      pinfo := Ops.WithTime(pinfo, Numbers.Max(0, addr.nTime - nTimePenalty));
    }
    pinfo := pinfo.(addr := pinfo.addr.(nServices := Or(pinfo.addr.nServices, addr.nServices)));
  }

  /** The tests that keep an address we know from taking one more slot. */
  method WantsSlot(pinfo: CAddrInfo, addr: Address, roll: nat) returns (wants: bool)
    ensures wants <==> Ops.MaySpread(pinfo, addr, roll)
  {
    if addr.nTime == 0 || (pinfo.addr.nTime != 0 && addr.nTime <= pinfo.addr.nTime) {
      return false;
    }
    if pinfo.fInTried {
      return false;
    }
    if pinfo.nRefCount == NEW_BUCKETS_PER_ADDRESS {
      return false;
    }
    var nFactor, n := 1, 0;
    while n < pinfo.nRefCount
      invariant 0 <= n && (n <= pinfo.nRefCount || n == 0) && nFactor == Pow2(n)
    {
      nFactor := nFactor * 2;
      n := n + 1;
    }
    if nFactor > 1 && roll % nFactor != 0 {
      return false;
    }
    return true;
  }

  lemma Others(s: State, sl: Slot, id: int, pending: set<int>)
    requires Ops.CanPlace(s, id, pending) && (sl in s.vvNew ==> s.vvNew[sl] != id)
    ensures CanClear(s, sl) && id in AddrTables.ClearNew(s, sl).mapInfo
  {
    hide Inv, AddrTables.ClearNew;
    ClearNewKeeps(s, sl, pending, 0);
  }

  function Probe(n: nat, nRnd: nat): nat { (n + nRnd) % NEW_BUCKET_COUNT }

  /** Beginning anywhere the search goes through all buckets. */
  lemma AllBucketsSearched(s: State, id: int, nRnd: nat)
    requires forall m :: 0 <= m < NEW_BUCKET_COUNT ==> !Ops.InBucket(s, id, Probe(m, nRnd))
    ensures !Ops.InSomeBucket(s, id)
  {
    forall b | 0 <= b < NEW_BUCKET_COUNT ensures !Ops.InBucket(s, id, b) {
      var m := (b - nRnd) % NEW_BUCKET_COUNT;
      assert Probe(m, nRnd) == b;
    }
  }

  lemma StillThere(s: State, sl: Slot, id: int, pending: set<int>, uncounted: int)
    requires Inv(s, pending, uncounted) && id in pending && id in s.mapInfo
    ensures CanClear(s, sl) && id in AddrTables.ClearNew(s, sl).mapInfo
    ensures Core(AddrTables.ClearNew(s, sl).mapInfo[id]) == Core(s.mapInfo[id])
    ensures sl !in AddrTables.ClearNew(s, sl).vvNew
  {
    hide Inv, AddrTables.ClearNew;
    ClearNewKeeps(s, sl, pending, uncounted);
  }

  lemma IdIsNotMinusOne(s: State, id: int, pending: set<int>, uncounted: int)
    requires Inv(s, pending, uncounted) && id in s.mapInfo
    ensures id != -1
  {
    assert Placed(s, id);
  }

  /** The state when the first `b` buckets of "new" have been gone through. */
  ghost function LeavingNew(s: State, id: int, b: int): State {
    s.Put(id, s.Info(id).(nRefCount := |SlotsFrom(s.vvNew, id, b)|)).(vvNew := Without(s.vvNew, id, b))
  }

  ghost function Without(t: map<Slot, int>, id: int, b: int): map<Slot, int> {
    map sl | sl in t && !(t[sl] == id && sl.bucket < b) :: t[sl]
  }

  ghost function SlotsFrom(t: map<Slot, int>, id: int, b: int): set<Slot> {
    set sl | sl in t && t[sl] == id && b <= sl.bucket
  }

  lemma NothingLeft(s: State, id: int)
    requires Consistent(s) && id in s.mapInfo && !s.Info(id).fInTried
    ensures LeavingNew(s, id, 0) == s
    ensures 0 <= id
  {
    hide NewSlotIn, TriedSlot;
    assert Counted(s, {}, id) && Placed(s, id);
    assert forall sl :: sl in s.vvNew ==> NewSlotOk(s, sl);
    assert SlotsFrom(s.vvNew, id, 0) == SlotsOf(s.vvNew, id);
    assert LeavingNew(s, id, 0).vvNew == s.vvNew;
    assert LeavingNew(s, id, 0).mapInfo == s.mapInfo;
  }

  /** In bucket `b` an entry can only be in the slot of its hash. */
  lemma LeaveOneBucket(s: State, id: int, b: int)
    requires Consistent(s) && id in s.mapInfo && 0 <= b < NEW_BUCKET_COUNT
    ensures var t := LeavingNew(s, id, b);
            var sl := NewSlotIn(s.env, s.nKey, s.Service(id), b);
            && sl.bucket == b
            && LeavingNew(s, id, b + 1)
            == if sl in t.vvNew && t.vvNew[sl] == id
               then Unref(t, id).(vvNew := t.vvNew - {sl}) else t
  {
    hide Consistent, BucketPosition, SlotsFrom, Without;
    OnlySlot(s, id, b);
    OneSlotLess(s.vvNew, id, b, NewSlotIn(s.env, s.nKey, s.Service(id), b));
  }

  lemma OneSlotLess(t: map<Slot, int>, id: int, b: int, sl: Slot)
    requires forall l :: l in t && t[l] == id && l.bucket == b ==> l == sl
    requires sl.bucket == b
    ensures sl in Without(t, id, b) && Without(t, id, b)[sl] == id <==> sl in t && t[sl] == id
    ensures sl in t && t[sl] == id ==> Without(t, id, b + 1) == Without(t, id, b) - {sl}
                                       && |SlotsFrom(t, id, b + 1)| == |SlotsFrom(t, id, b)| - 1
    ensures !(sl in t && t[sl] == id) ==> Without(t, id, b + 1) == Without(t, id, b)
                                          && SlotsFrom(t, id, b + 1) == SlotsFrom(t, id, b)
  {
    if sl in t && t[sl] == id {
      assert SlotsFrom(t, id, b + 1) == SlotsFrom(t, id, b) - {sl};
    }
  }

  lemma OnlySlot(s: State, id: int, b: int)
    requires Consistent(s)
    ensures forall sl :: sl in s.vvNew && s.vvNew[sl] == id && sl.bucket == b ==> sl == NewSlotIn(s.env, s.nKey, s.Service(id), b)
  {
    hide NewSlotIn;
    assert forall sl :: sl in s.vvNew ==> NewSlotOk(s, sl);
  }

  lemma AllLeft(s: State, id: int)
    requires Consistent(s)
    ensures LeavingNew(s, id, NEW_BUCKET_COUNT).(nNew := s.nNew - 1) == LeaveNew(s, id)
    ensures LeavingNew(s, id, NEW_BUCKET_COUNT).Info(id).nRefCount == 0
  {
    BucketsEnd(s);
    hide Consistent;
    AllWithout(s.vvNew, id, NEW_BUCKET_COUNT);
  }

  lemma BucketsEnd(s: State)
    requires Tables(s, {})
    ensures forall sl :: sl in s.vvNew ==> sl.bucket < NEW_BUCKET_COUNT
  {
    hide NewSlotIn, TriedSlot, Counted;
    assert forall sl :: sl in s.vvNew ==> NewSlotOk(s, sl);
  }

  lemma AllWithout(t: map<Slot, int>, id: int, n: int)
    requires forall sl :: sl in t ==> sl.bucket < n
    ensures SlotsFrom(t, id, n) == {}
    ensures Without(t, id, n) == map sl | sl in t && t[sl] != id :: t[sl]
  {
  }

  lemma SwapKeepsAddress(s: State, p1: nat, p2: nat, id: int)
    requires p1 < |s.vRandom| && p2 < |s.vRandom|
    ensures AddrTables.SwapRandom(s, p1, p2).Service(id) == s.Service(id)
  {
  }

  lemma InfoAt(s: State, i: int)
    requires Lookups(s) && 0 <= i < |s.vRandom|
    ensures s.vRandom[i] in s.mapInfo
  {
    assert Ordered(s, i);
  }

  lemma InvTables(s: State, pending: set<int>, uncounted: int)
    requires Inv(s, pending, uncounted)
    ensures Tables(s, pending) && Lookups(s)
  {
  }
}
