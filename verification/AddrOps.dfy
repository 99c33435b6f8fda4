/** The operations of the address manager that the network code calls, and whole runs of them. */
module AddrOps {
  import opened Bits
  import opened AddrTables
  import opened MapOrder
  import opened Numbers

  const GETADDR_MAX_PCT := 23
  const GETADDR_MAX := 2500

  // ---------------------------------------------------------------- what is remembered of an entry

  /** An entry without the bookkeeping of the tables. */
  function Trace(info: CAddrInfo): CAddrInfo { info.(nRefCount := 0, fInTried := false, nRandomPos := -1) }

  /** All entries but those in `lost` are still there, and say what they said. */
  ghost predicate Remembers(s: State, t: State, lost: set<int>) {
    && (forall x :: x in t.mapInfo <==> x in s.mapInfo && x !in lost)
    && (forall x :: x in t.mapInfo ==> Trace(t.mapInfo[x]) == Trace(s.mapInfo[x]))
  }

  /** Clearing a slot loses an entry exactly when that slot was its last. */
  ghost function LostByClear(s: State, sl: Slot): set<int> {
    if sl in s.vvNew && s.Info(s.vvNew[sl]).nRefCount == 1 then {s.vvNew[sl]} else {}
  }

  lemma ClearNewLoses(s: State, sl: Slot, pending: set<int>, uncounted: int)
    requires Inv(s, pending, uncounted)
    ensures CanClear(s, sl) && Remembers(s, ClearNew(s, sl), LostByClear(s, sl))
  {
    hide Lookups, Tables, Totals, Delete;
    ClearNewKeeps(s, sl, pending, uncounted);
    if sl in s.vvNew {
      var id := s.vvNew[sl];
      SlotIsCounted(s, sl, pending);
      UnrefKeeps(s, sl, pending, uncounted);
      var t := Unref(s, id).(vvNew := s.vvNew - {sl});
      if t.Info(id).nRefCount == 0 {
        DeleteKeeps(t, id, pending + {id}, uncounted);
        forall x | x in Delete(t, id).mapInfo ensures Trace(Delete(t, id).mapInfo[x]) == Trace(s.mapInfo[x]) {
          assert Core(Delete(t, id).mapInfo[x]) == Core((t.mapInfo - {id})[x]);
        }
      }
    }
  }

  /** The entry that making `id` tried may lose. */
  ghost function LostByTrying(s: State, id: int): set<int> {
    var sl := TriedSlot(s.env, s.nKey, s.Service(id));
    if sl in s.vvTried then LostByClear(LeaveNew(s, id), HomeSlot(s, s.vvTried[sl])) else {}
  }

  /** An entry in "new" again: one reference, in the slot where it belongs. */
  ghost predicate BackHome(t: State, e: int, home: Slot) {
    e in t.mapInfo && !t.Info(e).fInTried && t.Info(e).nRefCount == 1 && home in t.vvNew && t.vvNew[home] == e
  }

  lemma EvictLoses(s: State, sl: Slot, id: int)
    requires Inv(s, {id}, 1) && id in s.mapInfo && sl in s.vvTried
    ensures CanEvict(s, sl)
    ensures Remembers(s, Evict(s, sl), LostByClear(s, HomeSlot(s, s.vvTried[sl])))
    ensures BackHome(Evict(s, sl), s.vvTried[sl], HomeSlot(s, s.vvTried[sl]))
  {
    hide Lookups, Tables, Totals, TriedSlot, NewSlot, ClearNew;
    var e := s.vvTried[sl];
    var usl := HomeSlot(s, e);
    var t := LeaveTried(s, sl);
    LeaveTriedKeeps(s, sl, {id}, 1);
    ClearNewKeeps(t, usl, {id} + {e}, 2);
    ClearNewLoses(t, usl, {id} + {e}, 2);
    var u := ClearNew(t, usl);
    assert e in u.mapInfo && Core(u.mapInfo[e]) == Core(t.mapInfo[e]);
    forall x | x in s.mapInfo ensures Trace(t.mapInfo[x]) == Trace(s.mapInfo[x]) {
    }
  }

  lemma TriedIsNotNew(s: State, sl: Slot, id: int)
    requires Tables(s, {}) && sl in s.vvTried && id in s.mapInfo && !s.Info(id).fInTried
    ensures s.vvTried[sl] != id && s.vvTried[sl] in s.mapInfo
  {
    assert TriedSlotOk(s, sl);
  }

  /**
   Making an entry tried puts it in its slot of "tried". The entry that stood there goes back to
   "new", with one reference, where it belongs by its source. No other entry is lost than the one
   that had its only place there.
   */
  lemma MakeTriedMoves(s: State, id: int)
    requires Consistent(s) && id in s.mapInfo && !s.Info(id).fInTried
    ensures CanMakeTried(s, id)
    ensures var t := MakeTried(s, id);
            && id in t.mapInfo && t.Info(id).fInTried && id !in LostByTrying(s, id)
            && t.vvTried == s.vvTried[TriedSlot(s.env, s.nKey, s.Service(id)) := id]
            && Remembers(s, t, LostByTrying(s, id))
    ensures var sl := TriedSlot(s.env, s.nKey, s.Service(id));
            sl in s.vvTried ==> BackHome(MakeTried(s, id), s.vvTried[sl], HomeSlot(s, s.vvTried[sl]))
  {
    hide Lookups, Tables, Totals, TriedSlot, NewSlot, Evict;
    var sl := TriedSlot(s.env, s.nKey, s.Service(id));
    var t := LeaveNew(s, id);
    LeaveNewKeeps(s, id);
    if sl in t.vvTried {
      TriedIsNotNew(s, sl, id);
      EvictKeeps(t, sl, id);
      EvictLoses(t, sl, id);
      assert Trace(Evict(t, sl).mapInfo[id]) == Trace(t.mapInfo[id]);
    }
  }

  // ---------------------------------------------------------------- updates of one entry

  /** Whether the service, port and all, is one we know. */
  predicate IsExactly(s: State, addr: Service) {
    Known(s, addr.ip) && s.Service(s.mapAddr[addr.ip]) == addr
  }

  /** Changes what is remembered of an entry and nothing the tables depend on. */
  lemma NoteKeeps(s: State, id: int, info: CAddrInfo)
    requires Consistent(s) && id in s.mapInfo
    requires info.addr.service == s.Service(id) && info.nRandomPos == s.Info(id).nRandomPos
    requires info.nRefCount == s.Info(id).nRefCount && info.fInTried == s.Info(id).fInTried
    ensures Consistent(s.Put(id, info))
  {
    hide Lookups, Tables, Totals;
    PutKeepsLookups(s, id, info);
    PutKeepsTables(s, id, info, {});
    PutKeepsTotals(s, id, info, 0);
  }

  function Attempt(s: State, addr: Service, nTime: int): State {
    if !IsExactly(s, addr) then s
    else
      var id := s.mapAddr[addr.ip];
      s.Put(id, s.Info(id).(nLastTry := nTime, nAttempts := s.Info(id).nAttempts + 1))
  }

  /** The time of an entry is stored in 32 bits. */
  function WithTime(info: CAddrInfo, nTime: int): CAddrInfo {
    info.(addr := info.addr.(nTime := nTime % 0x1_0000_0000))
  }

  function Connected(s: State, addr: Service, nTime: int): State {
    if !IsExactly(s, addr) then s
    else
      var id := s.mapAddr[addr.ip];
      if nTime - s.Info(id).addr.nTime > 20 * 60 then s.Put(id, WithTime(s.Info(id), nTime)) else s
  }

  function SetServices(s: State, addr: Service, nServices: nat): State {
    if !IsExactly(s, addr) then s
    else
      var id := s.mapAddr[addr.ip];
      s.Put(id, s.Info(id).(addr := s.Info(id).addr.(nServices := nServices)))
  }

  // ---------------------------------------------------------------- Good_

  /** What the search over all buckets of "new" looks for. */
  predicate InBucket(s: State, id: int, b: int) {
    var sl := NewSlotIn(s.env, s.nKey, s.Service(id), b);
    sl in s.vvNew && s.vvNew[sl] == id
  }

  predicate InSomeBucket(s: State, id: int) {
    exists b :: 0 <= b < NEW_BUCKET_COUNT && InBucket(s, id, b)
  }

  /** The entry after a connection to it has succeeded. */
  function Succeeded(s: State, id: int, nTime: int): State {
    s.Put(id, s.Info(id).(nLastSuccess := nTime, nLastTry := nTime, nAttempts := 0))
  }

  ghost function Good(s: State, addr: Service, nTime: int): State
    requires Consistent(s)
  {
    if !IsExactly(s, addr) then s
    else
      var id := s.mapAddr[addr.ip];
      var t := Succeeded(s, id, nTime);
      if t.Info(id).fInTried || !InSomeBucket(t, id) then t
      else
        NoteKeeps(s, id, t.Info(id));
        MakeTriedKeeps(t, id);
        MakeTried(t, id)
  }

  /** An untried entry is in some bucket, so the bail-out for "no bucket is found" is never taken. */
  lemma SomeBucketIsFound(s: State, id: int)
    requires Consistent(s) && id in s.mapInfo && !s.Info(id).fInTried
    ensures InSomeBucket(s, id)
  {
    assert Counted(s, {}, id);
    assert SlotsOf(s.vvNew, id) != {};
    var sl :| sl in SlotsOf(s.vvNew, id);
    assert NewSlotOk(s, sl);
    assert InBucket(s, id, sl.bucket);
  }

  /**
   Good_ keeps the invariant, and a known service is in "tried" afterwards, with the time of its
   success; nothing is lost but what an eviction overwrites.
   */
  lemma GoodKeeps(s: State, addr: Service, nTime: int)
    requires Consistent(s)
    ensures Consistent(Good(s, addr, nTime))
    ensures IsExactly(s, addr) ==>
              var id := s.mapAddr[addr.ip]; var t := Succeeded(s, id, nTime);
              && id in Good(s, addr, nTime).mapInfo && Good(s, addr, nTime).Info(id).fInTried
              && Good(s, addr, nTime).Info(id).nLastSuccess == nTime
              && Remembers(t, Good(s, addr, nTime), if s.Info(id).fInTried then {} else LostByTrying(t, id))
    ensures !IsExactly(s, addr) ==> Good(s, addr, nTime) == s
  {
    hide Lookups, Tables, Totals, MakeTried, LostByTrying;
    if IsExactly(s, addr) {
      var id := s.mapAddr[addr.ip];
      var t := Succeeded(s, id, nTime);
      NoteKeeps(s, id, t.Info(id));
      if !t.Info(id).fInTried {
        SomeBucketIsFound(t, id);
        MakeTriedKeeps(t, id);
        MakeTriedMoves(t, id);
        assert Trace(MakeTried(t, id).mapInfo[id]) == Trace(t.mapInfo[id]);
      }
    }
  }

  // ---------------------------------------------------------------- Add_

  const DAY := 24 * 60 * 60

  /** An address we know is heard of again: its time and services are brought up to date. */
  function HeardAgain(info: CAddrInfo, addr: Address, nTimePenalty: int, nNow: int): CAddrInfo {
    var nUpdateInterval := if nNow - addr.nTime < DAY then 60 * 60 else DAY;
    var t :=
      if addr.nTime != 0 && (info.addr.nTime == 0 || info.addr.nTime < addr.nTime - nUpdateInterval - nTimePenalty)
      then WithTime(info, Max(0, addr.nTime - nTimePenalty)) else info;
    t.(addr := t.addr.(nServices := Or(t.addr.nServices, addr.nServices)))
  }

  /** Whether an address we know is to be given one more slot; the more it has the less likely. */
  predicate MaySpread(info: CAddrInfo, addr: Address, roll: nat) {
    && addr.nTime != 0 && (info.addr.nTime == 0 || addr.nTime > info.addr.nTime)
    && !info.fInTried && info.nRefCount != NEW_BUCKETS_PER_ADDRESS
    && (info.nRefCount <= 0 || roll % Pow2(info.nRefCount) == 0)
  }

  /** Whether a slot can be taken: it is free, its entry is terrible, or that entry has other slots and ours has none. */
  predicate CanTake(s: State, id: int, sl: Slot, nNow: int) {
    sl !in s.vvNew
    || IsTerrible(s.Info(s.vvNew[sl]), nNow)
    || (s.Info(s.vvNew[sl]).nRefCount > 1 && s.Info(id).nRefCount == 0)
  }

  ghost predicate CanPlace(s: State, id: int, pending: set<int>) {
    Inv(s, pending, 0) && id in s.mapInfo && !s.Info(id).fInTried && s.Info(id).nRefCount < NEW_BUCKETS_PER_ADDRESS
    && pending == if s.Info(id).nRefCount == 0 then {id} else {}
  }

  /** The last part of Add_: the entry takes a slot, or is dropped if it has none. */
  ghost function Place(s: State, id: int, sl: Slot, nNow: int, pending: set<int>): State
    requires CanPlace(s, id, pending)
  {
    if sl in s.vvNew && s.vvNew[sl] == id then s
    else if CanTake(s, id, sl, nNow) then
      ClearNewKeeps(s, sl, pending, 0);
      var t := ClearNew(s, sl);
      EnterNew(t, id, sl, t.Info(id).nRefCount + 1)
    else if s.Info(id).nRefCount == 0 then
      PendingCanGo(s, id, pending);
      Delete(s, id)
    else s
  }

  lemma PlaceKeeps(s: State, id: int, sl: Slot, nNow: int, pending: set<int>)
    requires CanPlace(s, id, pending)
    requires 0 <= sl.bucket < NEW_BUCKET_COUNT && sl == NewSlotIn(s.env, s.nKey, s.Service(id), sl.bucket)
    ensures Consistent(Place(s, id, sl, nNow, pending))
    ensures CanTake(s, id, sl, nNow) ==> id in Place(s, id, sl, nNow, pending).mapInfo
                                         && sl in Place(s, id, sl, nNow, pending).vvNew
                                         && Place(s, id, sl, nNow, pending).vvNew[sl] == id
    ensures !CanTake(s, id, sl, nNow) && s.Info(id).nRefCount == 0 ==> id !in Place(s, id, sl, nNow, pending).mapInfo
    ensures Place(s, id, sl, nNow, pending).vvTried == s.vvTried
  {
    hide Lookups, Tables, Totals, NewSlotIn, ClearNew, Delete, CanTake, Inv;
    if sl in s.vvNew && s.vvNew[sl] == id {
      SlotCounted(s, sl, pending);
    } else if CanTake(s, id, sl, nNow) {
      ClearNewKeeps(s, sl, pending, 0);
      var t := ClearNew(s, sl);
      if sl in s.vvNew {
        assert Core(t.mapInfo[id]) == Core(s.mapInfo[id]);
      }
      EnterNewKeeps(t, id, sl, pending, 0);
      assert pending - {id} == {};
    } else if s.Info(id).nRefCount == 0 {
      DeleteKeeps(s, id, pending, 0);
      assert pending - {id} == {};
      assert SameEntries(s.mapInfo - {id}, Delete(s, id).mapInfo);
    }
  }

  lemma SlotCounted(s: State, sl: Slot, pending: set<int>)
    requires Inv(s, pending, 0) && sl in s.vvNew
    ensures s.Info(s.vvNew[sl]).nRefCount > 0
  {
    SlotIsCounted(s, sl, pending);
  }

  /** What taking or not getting a slot loses. */
  ghost function PlaceLost(s: State, id: int, sl: Slot, nNow: int): set<int> {
    if sl in s.vvNew && s.vvNew[sl] == id then {}
    else if CanTake(s, id, sl, nNow) then LostByClear(s, sl)
    else if s.Info(id).nRefCount == 0 then {id}
    else {}
  }

  lemma PlaceLoses(s: State, id: int, sl: Slot, nNow: int, pending: set<int>)
    requires CanPlace(s, id, pending)
    ensures Remembers(s, Place(s, id, sl, nNow, pending), PlaceLost(s, id, sl, nNow))
  {
    hide Lookups, Tables, Totals, ClearNew, Delete, CanTake, Inv;
    if sl in s.vvNew && s.vvNew[sl] == id {
    } else if CanTake(s, id, sl, nNow) {
      ClearNewKeeps(s, sl, pending, 0);
      ClearNewLoses(s, sl, pending, 0);
      var t := ClearNew(s, sl);
      if sl in s.vvNew {
        assert Core(t.mapInfo[id]) == Core(s.mapInfo[id]);
      }
    } else if s.Info(id).nRefCount == 0 {
      DeleteKeeps(s, id, pending, 0);
      forall x | x in Delete(s, id).mapInfo ensures Trace(Delete(s, id).mapInfo[x]) == Trace(s.mapInfo[x]) {
        assert Core(Delete(s, id).mapInfo[x]) == Core((s.mapInfo - {id})[x]);
      }
    }
  }

  /** A new entry, its time lowered by the penalty. */
  function Heard(s: State, addr: Address, source: NetAddr, nTimePenalty: int): State {
    var t := Create(s, addr, source);
    var info := WithTime(t.Info(s.nIdCount), Max(0, addr.nTime - nTimePenalty));
    t.Put(s.nIdCount, info).(nNew := t.nNew + 1)
  }

  lemma HeardKeeps(s: State, addr: Address, source: NetAddr, nTimePenalty: int)
    requires Consistent(s) && !Known(s, addr.service.ip)
    ensures CanPlace(Heard(s, addr, source, nTimePenalty), s.nIdCount, {s.nIdCount})
  {
    hide Lookups, Tables, Totals;
    var c := Create(s, addr, source).(nNew := s.nNew + 1);
    CreateKeeps(s, addr, source);
    var info := WithTime(c.Info(s.nIdCount), Max(0, addr.nTime - nTimePenalty));
    PutKeepsLookups(c, s.nIdCount, info);
    PutKeepsTables(c, s.nIdCount, info, {s.nIdCount});
    PutKeepsTotals(c, s.nIdCount, info, 0);
    assert Heard(s, addr, source, nTimePenalty) == c.Put(s.nIdCount, info);
  }

  datatype Added = Added(state: State, fNew: bool)

  /** Add_ */
  ghost function Add(s: State, addr: Address, source: NetAddr, nTimePenalty: int, nNow: int, roll: nat): Added
    requires Consistent(s)
  {
    if !s.env.routable(addr.service.ip) then Added(s, false)
    else if Known(s, addr.service.ip) then
      var id := s.mapAddr[addr.service.ip];
      var info := HeardAgain(s.Info(id), addr, nTimePenalty, nNow);
      var t := s.Put(id, info);
      if !MaySpread(info, addr, roll) then Added(t, false)
      else
        SpreadKeeps(s, id, info);
        Added(Place(t, id, NewSlot(s.env, s.nKey, s.Service(id), source), nNow, {}), false)
    else
      HeardKeeps(s, addr, source, nTimePenalty);
      var t := Heard(s, addr, source, nTimePenalty);
      Added(Place(t, s.nIdCount, NewSlot(s.env, s.nKey, addr.service, source), nNow, {s.nIdCount}), true)
  }

  lemma SpreadKeeps(s: State, id: int, info: CAddrInfo)
    requires Consistent(s) && id in s.mapInfo
    requires info.addr.service == s.Service(id) && info.nRandomPos == s.Info(id).nRandomPos
    requires info.nRefCount == s.Info(id).nRefCount && info.fInTried == s.Info(id).fInTried
    ensures Consistent(s.Put(id, info))
    ensures !info.fInTried && info.nRefCount != NEW_BUCKETS_PER_ADDRESS ==> CanPlace(s.Put(id, info), id, {})
  {
    NoteKeeps(s, id, info);
    assert Counted(s.Put(id, info), {}, id);
  }

  /** Whether the first slot a new address gets can be taken. */
  predicate WillFit(s: State, addr: Address, source: NetAddr, nTimePenalty: int, nNow: int) {
    CanTake(Heard(s, addr, source, nTimePenalty), s.nIdCount, NewSlot(s.env, s.nKey, addr.service, source), nNow)
  }

  /**
   Add_ keeps the invariant. It reports a new address exactly when a routable one was not known; that
   address is known afterwards exactly when its slot could be taken, so "new" is reported as well for
   an address that has been dropped again.
   */
  lemma AddKeeps(s: State, addr: Address, source: NetAddr, nTimePenalty: int, nNow: int, roll: nat)
    requires Consistent(s)
    ensures Consistent(Add(s, addr, source, nTimePenalty, nNow, roll).state)
    ensures Add(s, addr, source, nTimePenalty, nNow, roll).fNew
            <==> s.env.routable(addr.service.ip) && !Known(s, addr.service.ip)
    ensures Add(s, addr, source, nTimePenalty, nNow, roll).fNew ==>
              (Known(Add(s, addr, source, nTimePenalty, nNow, roll).state, addr.service.ip)
               <==> WillFit(s, addr, source, nTimePenalty, nNow))
  {
    hide Place, HeardAgain, Heard, MaySpread, CanTake, TriedSlot, NewBucket, BucketPosition, CanPlace;
    if s.env.routable(addr.service.ip) {
      if Known(s, addr.service.ip) {
        var id := s.mapAddr[addr.service.ip];
        var info := HeardAgain(s.Info(id), addr, nTimePenalty, nNow);
        HeardAgainSame(s.Info(id), addr, nTimePenalty, nNow);
        SpreadKeeps(s, id, info);
        if MaySpread(info, addr, roll) {
          MaySpreadMeans(info, addr, roll);
          PlaceKeeps(s.Put(id, info), id, NewSlot(s.env, s.nKey, s.Service(id), source), nNow, {});
        }
      } else {
        NewEntryPlaced(s, addr, source, nTimePenalty, nNow);
      }
    }
  }

  /** One group, one bucket, one position: every address belongs in the same slot. */
  const CROWDED := Env((parts: seq<Part>) => 0, (ip: NetAddr) => [], (s: Service) => [], (ip: NetAddr) => true)

  /** An address heard of at time 1000. */
  function At1000(ip: NetAddr): Address { Address(Service(ip, 8333), 0, 1000) }

  lemma FirstHeard(ip: NetAddr)
    ensures var t := Heard(Initial(CROWDED, 1), At1000(ip), [], 0);
            && t.env == CROWDED && t.nKey == 1 && t.nIdCount == 1 && t.vvNew == map[] && t.mapAddr == map[ip := 0]
            && t.mapInfo == map[0 := NewInfo(At1000(ip), []).(nRandomPos := 0)]
  {
  }

  lemma FreeSlotTaken(s: State, id: int, sl: Slot, nNow: int, pending: set<int>)
    requires CanPlace(s, id, pending) && sl !in s.vvNew
    ensures Place(s, id, sl, nNow, pending) == EnterNew(s, id, sl, s.Info(id).nRefCount + 1)
  {
    hide CanPlace;
  }

  /** What adding one address to a new manager with such a hash gives. */
  lemma FirstAdded(ip: NetAddr)
    ensures Consistent(Initial(CROWDED, 1))
    ensures var r := Add(Initial(CROWDED, 1), At1000(ip), [], 0, 1000, 0);
            && r.state.env == CROWDED && r.state.nKey == 1 && r.state.nIdCount == 1
            && r.state.mapAddr == map[ip := 0] && 0 in r.state.mapInfo
            && r.state.mapInfo[0] == NewInfo(At1000(ip), []).(nRefCount := 1, nRandomPos := 0)
            && r.state.vvNew == map[Slot(0, 0) := 0]
  {
    hide Heard, Place, CanPlace, Inv;
    InitialIsConsistent(CROWDED, 1);
    var s := Initial(CROWDED, 1);
    assert !Known(s, ip);
    HeardKeeps(s, At1000(ip), [], 0);
    FirstHeard(ip);
    assert NewSlot(CROWDED, 1, At1000(ip).service, []) == Slot(0, 0);
    FreeSlotTaken(Heard(s, At1000(ip), [], 0), 0, Slot(0, 0), 1000, {0});
  }

  /** A second address with the same slot is reported as new, and is not known. */
  lemma NewButDropped(ip: NetAddr, other: NetAddr)
    requires other != ip
    ensures Consistent(Initial(CROWDED, 1))
    ensures (AddKeeps(Initial(CROWDED, 1), At1000(ip), [], 0, 1000, 0);
             var r := Add(Add(Initial(CROWDED, 1), At1000(ip), [], 0, 1000, 0).state, At1000(other), [], 0, 1000, 0);
             r.fNew && !Known(r.state, other))
  {
    hide Add, Inv;
    FirstAdded(ip);
    AddKeeps(Initial(CROWDED, 1), At1000(ip), [], 0, 1000, 0);
    var s := Add(Initial(CROWDED, 1), At1000(ip), [], 0, 1000, 0).state;
    assert NewSlot(CROWDED, 1, At1000(other).service, []) == Slot(0, 0);
    assert !IsTerrible(s.mapInfo[0], 1000);
    assert !WillFit(s, At1000(other), [], 0, 1000);
    AddKeeps(s, At1000(other), [], 0, 1000, 0);
  }

  lemma HeardAgainSame(info: CAddrInfo, addr: Address, nTimePenalty: int, nNow: int)
    ensures var t := HeardAgain(info, addr, nTimePenalty, nNow);
            t == info.(addr := info.addr.(nTime := t.addr.nTime, nServices := t.addr.nServices))
  {
  }

  lemma MaySpreadMeans(info: CAddrInfo, addr: Address, roll: nat)
    requires MaySpread(info, addr, roll)
    ensures !info.fInTried && info.nRefCount != NEW_BUCKETS_PER_ADDRESS
  {
  }

  lemma NewEntryPlaced(s: State, addr: Address, source: NetAddr, nTimePenalty: int, nNow: int)
    requires Consistent(s) && !Known(s, addr.service.ip)
    ensures var t := Heard(s, addr, source, nTimePenalty);
            var sl := NewSlot(s.env, s.nKey, addr.service, source);
            && CanPlace(t, s.nIdCount, {s.nIdCount})
            && Consistent(Place(t, s.nIdCount, sl, nNow, {s.nIdCount}))
            && (Known(Place(t, s.nIdCount, sl, nNow, {s.nIdCount}), addr.service.ip) <==> CanTake(t, s.nIdCount, sl, nNow))
  {
    hide Place, CanTake, TriedSlot, NewBucket, BucketPosition, Lookups, Tables, Totals;
    var id := s.nIdCount;
    var t := Heard(s, addr, source, nTimePenalty);
    var sl := NewSlot(s.env, s.nKey, addr.service, source);
    HeardKeeps(s, addr, source, nTimePenalty);
    PlaceKeeps(t, id, sl, nNow, {id});
    var u := Place(t, id, sl, nNow, {id});
    PlaceLoses(t, id, sl, nNow, {id});
    HeardFields(s, addr, source, nTimePenalty);
    OneIdPerAddress(t, u, id, PlaceLost(t, id, sl, nNow), {id}, {});
  }

  lemma HeardFields(s: State, addr: Address, source: NetAddr, nTimePenalty: int)
    ensures s.nIdCount in Heard(s, addr, source, nTimePenalty).mapInfo
    ensures Heard(s, addr, source, nTimePenalty).Service(s.nIdCount) == addr.service
    ensures Heard(s, addr, source, nTimePenalty).env == s.env && Heard(s, addr, source, nTimePenalty).nKey == s.nKey
  {
  }

  /** No other entry can have the address of entry `id`. */
  lemma OneIdPerAddress(s: State, t: State, id: int, lost: set<int>, pending: set<int>, pending': set<int>)
    requires Inv(s, pending, 0) && Inv(t, pending', 0) && Remembers(s, t, lost) && id in s.mapInfo
    ensures Known(t, s.Service(id).ip) <==> id in t.mapInfo
  {
    var ip := s.Service(id).ip;
    if id in t.mapInfo {
      assert Trace(t.mapInfo[id]) == Trace(s.mapInfo[id]) && Placed(t, id);
    }
    if Known(t, ip) {
      var y := t.mapAddr[ip];
      assert Indexed(t, ip) && Trace(t.mapInfo[y]) == Trace(s.mapInfo[y]);
      assert Placed(s, y) && Placed(s, id);
    }
  }

  // ---------------------------------------------------------------- what the operations do, told without them

  /**
   An entry not worth keeping: it was not tried within the last minute, and its time is unset, more than ten minutes
   ahead or more than thirty days old, or it never answered in three attempts, or not in a week and ten attempts.
   */
  predicate Hopeless(info: CAddrInfo, nNow: int) {
    && (info.nLastTry == 0 || nNow - info.nLastTry > 60)
    && (|| info.addr.nTime == 0 || info.addr.nTime - nNow > 600 || nNow - info.addr.nTime > 2_592_000
        || (info.nLastSuccess == 0 && info.nAttempts >= 3)
        || (nNow - info.nLastSuccess > 604_800 && info.nAttempts >= 10))
  }

  lemma HopelessIff(info: CAddrInfo, nNow: int)
    ensures IsTerrible(info, nNow) <==> Hopeless(info, nNow)
  {
  }

  /** The entry of a service is found exactly if there is one, port and all. */
  lemma ExactlyIff(s: State, addr: Service)
    requires Consistent(s)
    ensures IsExactly(s, addr) <==> exists id :: id in s.mapInfo && s.Service(id) == addr
    ensures forall id :: id in s.mapInfo && s.Service(id) == addr ==> s.mapAddr[addr.ip] == id
  {
    hide Tables, Totals;
    forall id | id in s.mapInfo && s.Service(id) == addr ensures IsExactly(s, addr) && s.mapAddr[addr.ip] == id {
      assert Placed(s, id);
    }
    if IsExactly(s, addr) {
      assert Indexed(s, addr.ip);
    }
  }

  /** Only the entry of this service, if there is one, has changed, and has become what `f` makes of it. */
  ghost predicate OnlyChanged(s: State, t: State, addr: Service, f: CAddrInfo -> CAddrInfo) {
    && t == s.(mapInfo := t.mapInfo) && t.mapInfo.Keys == s.mapInfo.Keys
    && forall id :: id in s.mapInfo ==> t.mapInfo[id] == if s.Service(id) == addr then f(s.mapInfo[id]) else s.mapInfo[id]
  }

  /** What an attempt to connect, an open connection and the services told by a peer leave in the entry of that service. */
  lemma UpdatesMean(s: State, addr: Service, nTime: int, nServices: nat)
    requires Consistent(s)
    ensures OnlyChanged(s, Attempt(s, addr, nTime), addr, (info: CAddrInfo) => info.(nAttempts := info.nAttempts + 1, nLastTry := nTime))
    ensures OnlyChanged(s, SetServices(s, addr, nServices), addr, (info: CAddrInfo) => info.(addr := info.addr.(nServices := nServices)))
    ensures OnlyChanged(s, Connected(s, addr, nTime), addr,
                        (info: CAddrInfo) => if nTime - info.addr.nTime <= 1200 then info
                                else info.(addr := Address(info.addr.service, info.addr.nServices, nTime % 0x1_0000_0000)))
  {
    hide Inv;
    ExactlyIff(s, addr);
  }

  /**
   After a success the entry of that service is in "tried", with the time of it and no failed attempts; of all other
   entries at most one is lost, and what is remembered of the rest stays.
   */
  lemma GoodMeans(s: State, addr: Service, nTime: int) returns (lost: set<int>)
    requires Consistent(s)
    ensures var t := Good(s, addr, nTime);
            && |lost| <= 1 && t.mapInfo.Keys == s.mapInfo.Keys - lost
            && (forall id :: id in t.mapInfo && s.Service(id) != addr ==> Trace(t.mapInfo[id]) == Trace(s.mapInfo[id]))
            && (forall id :: id in s.mapInfo && s.Service(id) == addr ==>
                  id in t.mapInfo && t.mapInfo[id].fInTried
                  && Trace(t.mapInfo[id]) == Trace(s.mapInfo[id].(nLastSuccess := nTime, nLastTry := nTime, nAttempts := 0)))
            && ((forall id :: id in s.mapInfo ==> s.Service(id) != addr) ==> t == s)
  {
    hide Inv, Good, LostByTrying;
    ExactlyIff(s, addr);
    GoodKeeps(s, addr, nTime);
    lost := {};
    if IsExactly(s, addr) {
      var id := s.mapAddr[addr.ip];
      var u := Succeeded(s, id, nTime);
      if !s.Info(id).fInTried {
        lost := LostByTrying(u, id) * u.mapInfo.Keys;
        AtMostOne(u, id);
        SubsetSize(lost, LostByTrying(u, id));
      }
      forall x ensures x in Good(s, addr, nTime).mapInfo.Keys <==> x in s.mapInfo.Keys - lost {
        assert x in u.mapInfo.Keys <==> x in s.mapInfo.Keys;
      }
    }
  }

  lemma AtMostOne(s: State, id: int)
    ensures |LostByTrying(s, id)| <= 1
  {
  }

  /** The slots of "new" a state has after this one is given to an entry. */
  lemma PlaceSlots(s: State, id: int, sl: Slot, nNow: int, pending: set<int>)
    requires CanPlace(s, id, pending)
    ensures var t := Place(s, id, sl, nNow, pending);
            if CanTake(s, id, sl, nNow) && !(sl in s.vvNew && s.vvNew[sl] == id) then
              t.vvNew == s.vvNew[sl := id] && id in t.mapInfo
              && t.mapInfo[id] == s.mapInfo[id].(nRefCount := s.mapInfo[id].nRefCount + 1, nRandomPos := t.mapInfo[id].nRandomPos)
            else t.vvNew == s.vvNew && (s.mapInfo[id].nRefCount > 0 ==> t == s)
  {
    hide Lookups, Tables, Totals, Delete, CanTake;
    if !(sl in s.vvNew && s.vvNew[sl] == id) {
      if CanTake(s, id, sl, nNow) {
        ClearNewKeeps(s, sl, pending, 0);
        ClearedSlots(s, sl);
        if sl in s.vvNew {
          assert Core(ClearNew(s, sl).mapInfo[id]) == Core(s.mapInfo[id]);
        }
      } else if s.Info(id).nRefCount == 0 {
        PendingCanGo(s, id, pending);
        DeletedSlots(s, id);
      }
    }
  }

  lemma ClearedSlots(s: State, sl: Slot)
    requires CanClear(s, sl)
    ensures ClearNew(s, sl).vvNew == s.vvNew - {sl} && (sl !in s.vvNew ==> ClearNew(s, sl) == s)
  {
    hide Delete;
    if sl in s.vvNew {
      DeletedSlots(Unref(s, s.vvNew[sl]).(vvNew := s.vvNew - {sl}), s.vvNew[sl]);
    }
  }

  lemma DeletedSlots(s: State, id: int)
    requires 0 <= s.Info(id).nRandomPos < |s.vRandom|
    ensures Delete(s, id).vvNew == s.vvNew
  {
  }

  /** Whether the slot of a new address is free or holds what may be overwritten. */
  predicate Vacant(s: State, sl: Slot, nNow: int) {
    sl !in s.vvNew || Hopeless(s.Info(s.vvNew[sl]), nNow) || s.Info(s.vvNew[sl]).nRefCount > 1
  }

  /**
   A routable address that was not known is known afterwards exactly if its slot was free, or held an entry that is
   hopeless or has another slot. Then it has that slot and no other, says who told of it, and its time is lowered by
   the penalty, not below zero; nothing but the entry overwritten can be lost. Otherwise no slot has changed.
   */
  lemma AddNewMeans(s: State, addr: Address, source: NetAddr, nTimePenalty: int, nNow: int, roll: nat)
    requires Consistent(s) && s.env.routable(addr.service.ip) && !Known(s, addr.service.ip)
    ensures var r := Add(s, addr, source, nTimePenalty, nNow, roll);
            var t, sl := r.state, NewSlot(s.env, s.nKey, addr.service, source);
            && r.fNew && (Known(t, addr.service.ip) <==> Vacant(s, sl, nNow))
            && (Known(t, addr.service.ip) ==>
                  var id := t.mapAddr[addr.service.ip];
                  var nTime := if addr.nTime > nTimePenalty then addr.nTime - nTimePenalty else 0;
                  && id !in s.mapInfo && t.vvNew == s.vvNew[sl := id]
                  && t.mapInfo[id] == CAddrInfo(addr.(nTime := nTime % 0x1_0000_0000), source, 0, 0, 0, 1, false, t.mapInfo[id].nRandomPos)
                  && (forall x :: x in s.mapInfo && x !in t.mapInfo ==> sl in s.vvNew && s.vvNew[sl] == x && s.mapInfo[x].nRefCount == 1))
            && (!Known(t, addr.service.ip) ==> t.vvNew == s.vvNew && t.mapInfo.Keys == s.mapInfo.Keys)
  {
    hide Place, Heard, CanTake, TriedSlot, NewBucket, BucketPosition, Lookups, Tables, Totals, IsTerrible, Hopeless;
    var id, sl := s.nIdCount, NewSlot(s.env, s.nKey, addr.service, source);
    var u := Heard(s, addr, source, nTimePenalty);
    HeardEntry(s, addr, source, nTimePenalty);
    FreshId(s);
    NewEntryPlaced(s, addr, source, nTimePenalty, nNow);
    PlaceSlots(u, id, sl, nNow, {id});
    PlaceKeeps(u, id, sl, nNow, {id});
    PlaceLoses(u, id, sl, nNow, {id});
    VacantIff(s, u, id, sl, nNow);
    var t := Place(u, id, sl, nNow, {id});
    if CanTake(u, id, sl, nNow) {
      KnownAs(t, id);
      assert t.Service(id) == addr.service;
    } else {
      forall x ensures x in t.mapInfo <==> x in s.mapInfo {
        assert x in u.mapInfo <==> x in s.mapInfo || x == id;
      }
    }
  }

  lemma KnownAs(s: State, id: int)
    requires Consistent(s) && id in s.mapInfo
    ensures Known(s, s.Service(id).ip) && s.mapAddr[s.Service(id).ip] == id
  {
    hide Tables, Totals;
    assert Placed(s, id);
  }

  lemma NewIfVacant(s: State, addr: Address, source: NetAddr, nTimePenalty: int, nNow: int, roll: nat)
    requires Consistent(s)
    ensures var r := Add(s, addr, source, nTimePenalty, nNow, roll);
            && (r.fNew <==> s.env.routable(addr.service.ip) && !Known(s, addr.service.ip))
            && (r.fNew ==> (Known(r.state, addr.service.ip) <==> Vacant(s, NewSlot(s.env, s.nKey, addr.service, source), nNow)))
  {
    hide Add, Inv, Vacant, NewSlot;
    AddKeeps(s, addr, source, nTimePenalty, nNow, roll);
    if Add(s, addr, source, nTimePenalty, nNow, roll).fNew {
      AddNewMeans(s, addr, source, nTimePenalty, nNow, roll);
    }
  }

  lemma HeardEntry(s: State, addr: Address, source: NetAddr, nTimePenalty: int)
    ensures var u, id := Heard(s, addr, source, nTimePenalty), s.nIdCount;
            && u.env == s.env && u.nKey == s.nKey && u.vvNew == s.vvNew && u.mapInfo == s.mapInfo[id := u.mapInfo[id]]
            && u.mapInfo[id]
               == CAddrInfo(addr.(nTime := (if addr.nTime > nTimePenalty then addr.nTime - nTimePenalty else 0) % 0x1_0000_0000),
                            source, 0, 0, 0, 0, false, |s.vRandom|)
  {
  }

  /** The time a known address has after it was heard of again: the one told, less the penalty, if that is news enough. */
  function TimeHeard(was: nat, told: nat, nTimePenalty: int, nNow: int): nat {
    var interval := if nNow - told < 86400 then 3600 else 86400;
    if told > 0 && (was == 0 || was + interval + nTimePenalty < told) then
      (if told > nTimePenalty then told - nTimePenalty else 0) % 0x1_0000_0000
    else was
  }

  /** When an entry with references gets one more: it is told a later time, is not tried, has fewer than eight, and is lucky. */
  predicate Spreads(info: CAddrInfo, nTime: nat, told: nat, roll: nat) {
    && told > 0 && (nTime == 0 || nTime < told) && !info.fInTried && info.nRefCount < 8 && roll % Pow2(Max(0, info.nRefCount)) == 0
  }

  /** The slot it is sent to is free, or another entry's that is hopeless. */
  predicate Yields(s: State, id: int, sl: Slot, nNow: int) {
    sl !in s.vvNew || (s.vvNew[sl] != id && Hopeless(s.Info(s.vvNew[sl]), nNow))
  }

  lemma HeardAgainMeans(info: CAddrInfo, addr: Address, nTimePenalty: int, nNow: int)
    ensures var now := HeardAgain(info, addr, nTimePenalty, nNow);
            && now == info.(addr := Address(info.addr.service, now.addr.nServices,
                                            TimeHeard(info.addr.nTime, addr.nTime, nTimePenalty, nNow)))
            && forall b: nat :: Bit(now.addr.nServices, b) <==> Bit(info.addr.nServices, b) || Bit(addr.nServices, b)
  {
    forall b: nat ensures Bit(Or(info.addr.nServices, addr.nServices), b) <==> Bit(info.addr.nServices, b) || Bit(addr.nServices, b) {
      OrBit(info.addr.nServices, addr.nServices, b);
    }
  }

  /**
   A known address is never lost by being heard of again. Its entry gets the time and all the services told; and one
   slot more, the one its group and that of the source lead to, exactly if it spreads and the slot yields.
   */
  lemma AddKnownMeans(s: State, addr: Address, source: NetAddr, nTimePenalty: int, nNow: int, roll: nat)
    requires Consistent(s) && s.env.routable(addr.service.ip) && Known(s, addr.service.ip)
    ensures var r := Add(s, addr, source, nTimePenalty, nNow, roll);
            var t, id := r.state, s.mapAddr[addr.service.ip];
            var was, sl := s.mapInfo[id], NewSlot(s.env, s.nKey, s.mapInfo[id].addr.service, source);
            var nTime := TimeHeard(was.addr.nTime, addr.nTime, nTimePenalty, nNow);
            var spreads := Spreads(was, nTime, addr.nTime, roll) && Yields(s, id, sl, nNow);
            && !r.fNew && id in t.mapInfo
            && t.mapInfo[id]
               == was.(addr := Address(was.addr.service, t.mapInfo[id].addr.nServices, nTime),
                       nRefCount := was.nRefCount + (if spreads then 1 else 0), nRandomPos := t.mapInfo[id].nRandomPos)
            && (forall b: nat :: Bit(t.mapInfo[id].addr.nServices, b) <==> Bit(was.addr.nServices, b) || Bit(addr.nServices, b))
            && t.vvNew == (if spreads then s.vvNew[sl := id] else s.vvNew)
  {
    hide Place, HeardAgain, Heard, MaySpread, CanTake, TriedSlot, NewBucket, BucketPosition, CanPlace, Inv, IsTerrible, Hopeless,
      TimeHeard, Spreads, Yields, Bit;
    var id := s.mapAddr[addr.service.ip];
    var info := HeardAgain(s.Info(id), addr, nTimePenalty, nNow);
    HeardAgainMeans(s.Info(id), addr, nTimePenalty, nNow);
    SpreadKeeps(s, id, info);
    SpreadsIff(s, id, info, addr, roll);
    if MaySpread(info, addr, roll) {
      MaySpreadMeans(info, addr, roll);
      var t, sl := s.Put(id, info), NewSlot(s.env, s.nKey, s.Service(id), source);
      PlaceSlots(t, id, sl, nNow, {});
      YieldsIff(s, t, id, sl, nNow);
    }
  }

  lemma SpreadsIff(s: State, id: int, info: CAddrInfo, addr: Address, roll: nat)
    requires Consistent(s) && id in s.mapInfo && info == s.mapInfo[id].(addr := info.addr)
    ensures MaySpread(info, addr, roll) <==> Spreads(s.mapInfo[id], info.addr.nTime, addr.nTime, roll)
    ensures MaySpread(info, addr, roll) ==> info.nRefCount > 0
  {
    hide Lookups, Totals, NewSlotOk, TriedSlotOk, TriedSlot;
    assert Counted(s, {}, id);
  }

  lemma YieldsIff(s: State, t: State, id: int, sl: Slot, nNow: int)
    requires Consistent(s) && id in s.mapInfo && t == s.Put(id, t.Info(id)) && t.mapInfo[id].nRefCount > 0
    ensures Yields(s, id, sl, nNow) <==> CanTake(t, id, sl, nNow) && !(sl in t.vvNew && t.vvNew[sl] == id)
  {
    hide Lookups, Totals, IsTerrible, Hopeless;
    if sl in s.vvNew {
      HopelessIff(s.Info(s.vvNew[sl]), nNow);
    }
  }

  lemma VacantIff(s: State, u: State, id: int, sl: Slot, nNow: int)
    requires Consistent(s) && id !in s.mapInfo && id in u.mapInfo && u.vvNew == s.vvNew && u.mapInfo == s.mapInfo[id := u.mapInfo[id]]
    requires u.mapInfo[id].nRefCount == 0
    ensures Vacant(s, sl, nNow) <==> CanTake(u, id, sl, nNow)
    ensures sl in s.vvNew ==> s.vvNew[sl] in s.mapInfo
  {
    hide IsTerrible, Hopeless, Lookups, Totals, NewSlotIn;
    if sl in s.vvNew {
      assert NewSlotOk(s, sl);
      HopelessIff(s.Info(s.vvNew[sl]), nNow);
    }
  }

  // ---------------------------------------------------------------- GetAddr_

  datatype Picked = Picked(state: State, vAddr: seq<Address>)

  function Share(size: nat): nat {
    var nNodes := GETADDR_MAX_PCT * size / 100;
    if nNodes > GETADDR_MAX then GETADDR_MAX else nNodes
  }

  /** The addresses of the first `n` entries of vRandom that are not terrible. */
  function Gathered(s: State, n: nat, nNow: int): seq<Address>
    requires n <= |s.vRandom|
  {
    if n == 0 then []
    else
      var info := s.Info(s.vRandom[n - 1]);
      Gathered(s, n - 1, nNow) + if IsTerrible(info, nNow) then [] else [info.addr]
  }

  /** The loop of GetAddr_ from position `n` on: a partial shuffle. */
  function GetAddrFrom(s: State, n: nat, vAddr: seq<Address>, nNodes: nat, rolls: nat -> nat, nNow: int): Picked
    requires n <= |s.vRandom|
    decreases |s.vRandom| - n
  {
    if n == |s.vRandom| || |vAddr| >= nNodes then Picked(s, vAddr)
    else
      var t := SwapRandom(s, n, rolls(n) % (|s.vRandom| - n) + n);
      var info := t.Info(t.vRandom[n]);
      GetAddrFrom(t, n + 1, vAddr + if IsTerrible(info, nNow) then [] else [info.addr], nNodes, rolls, nNow)
  }

  function GetAddr(s: State, rolls: nat -> nat, nNow: int): Picked {
    GetAddrFrom(s, 0, [], Share(|s.vRandom|), rolls, nNow)
  }

  lemma GetAddrFromNext(s: State, n: nat, vAddr: seq<Address>, nNodes: nat, rolls: nat -> nat, nNow: int)
    requires n < |s.vRandom| && |vAddr| < nNodes
    ensures var t := SwapRandom(s, n, rolls(n) % (|s.vRandom| - n) + n);
            && |t.vRandom| == |s.vRandom|
            && GetAddrFrom(s, n, vAddr, nNodes, rolls, nNow)
               == var info := t.Info(t.vRandom[n]);
                  GetAddrFrom(t, n + 1, vAddr + if IsTerrible(info, nNow) then [] else [info.addr], nNodes, rolls, nNow)
  {
    hide SwapRandom, IsTerrible;
  }

  lemma GetAddrFromDone(s: State, n: nat, vAddr: seq<Address>, nNodes: nat, rolls: nat -> nat, nNow: int)
    requires n <= |s.vRandom| && (n == |s.vRandom| || |vAddr| >= nNodes)
    ensures GetAddrFrom(s, n, vAddr, nNodes, rolls, nNow) == Picked(s, vAddr)
  {
  }

  /** Swapping later positions does not change what has been gathered. */
  lemma {:induction false} GatheredStays(s: State, n: nat, p1: nat, p2: nat, nNow: int)
    requires Lookups(s) && n <= p1 < |s.vRandom| && n <= p2 < |s.vRandom|
    ensures Gathered(SwapRandom(s, p1, p2), n, nNow) == Gathered(s, n, nNow)
  {
    hide SwapRandom, Lookups, IsTerrible;
    SwapIsAPermutation(s, p1, p2);
    if n > 0 {
      GatheredStays(s, n - 1, p1, p2, nNow);
      SameJudgement(s, SwapRandom(s, p1, p2), s.vRandom[n - 1], nNow);
    }
  }

  lemma SameJudgement(s: State, t: State, id: int, nNow: int)
    requires SameEntries(s.mapInfo, t.mapInfo)
    ensures s.Info(id).addr == t.Info(id).addr && (IsTerrible(s.Info(id), nNow) <==> IsTerrible(t.Info(id), nNow))
  {
    if id in s.mapInfo {
      assert Core(s.mapInfo[id]) == Core(t.mapInfo[id]);
    }
  }

  /** What a shuffle leaves as it is. */
  ghost predicate Shuffled(s: State, t: State) {
    && SameEntries(s.mapInfo, t.mapInfo) && |t.vRandom| == |s.vRandom|
    && t == s.(mapInfo := t.mapInfo, vRandom := t.vRandom)
  }

  lemma SwapShuffles(s: State, p1: int, p2: int)
    requires Consistent(s) && 0 <= p1 < |s.vRandom| && 0 <= p2 < |s.vRandom|
    ensures Consistent(SwapRandom(s, p1, p2)) && Shuffled(s, SwapRandom(s, p1, p2))
  {
    hide Lookups, Tables, Totals, SwapRandom;
    SwapIsAPermutation(s, p1, p2);
    SwapKeeps(s, p1, p2, {}, 0);
  }

  lemma ShuffledTransitive(s: State, t: State, u: State)
    requires Shuffled(s, t) && Shuffled(t, u)
    ensures Shuffled(s, u)
  {
    forall id | id in s.mapInfo ensures Core(s.mapInfo[id]) == Core(u.mapInfo[id]) {
      assert Core(s.mapInfo[id]) == Core(t.mapInfo[id]);
    }
  }

  /** A loop that has gathered from the first `m` entries of vRandom and may stop there. */
  ghost predicate MayStop(r: Picked, m: nat, nNodes: nat, nNow: int) {
    && m <= |r.state.vRandom| && r.vAddr == Gathered(r.state, m, nNow) && |r.vAddr| <= nNodes
    && (m == |r.state.vRandom| || |r.vAddr| == nNodes)
  }

  lemma {:induction false} GetAddrFromKeeps(s: State, n: nat, nNodes: nat, rolls: nat -> nat, nNow: int) returns (m: nat)
    requires Consistent(s) && n <= |s.vRandom| && |Gathered(s, n, nNow)| <= nNodes
    ensures var r := GetAddrFrom(s, n, Gathered(s, n, nNow), nNodes, rolls, nNow);
            Consistent(r.state) && Shuffled(s, r.state) && MayStop(r, m, nNodes, nNow)
    decreases |s.vRandom| - n
  {
    hide Inv, SwapRandom, IsTerrible, Shuffled, GetAddrFrom;
    var vAddr := Gathered(s, n, nNow);
    if n == |s.vRandom| || |vAddr| >= nNodes {
      m := n;
      GetAddrFromDone(s, n, vAddr, nNodes, rolls, nNow);
      ShuffledToItself(s);
    } else {
      var p := rolls(n) % (|s.vRandom| - n) + n;
      var t := SwapRandom(s, n, p);
      SwapShuffles(s, n, p);
      ConsistentLookups(s);
      GatheredStays(s, n, n, p, nNow);
      m := GetAddrFromKeeps(t, n + 1, nNodes, rolls, nNow);
      GetAddrFromNext(s, n, vAddr, nNodes, rolls, nNow);
      ShuffledTransitive(s, t, GetAddrFrom(s, n, vAddr, nNodes, rolls, nNow).state);
    }
  }

  lemma ShuffledToItself(s: State)
    ensures Shuffled(s, s)
  {
  }

  lemma ConsistentLookups(s: State)
    requires Consistent(s)
    ensures Lookups(s)
  {
  }

  /** Gathered addresses belong to entries that are not terrible, and no address is gathered twice. */
  lemma {:induction false} GatheredOnce(s: State, n: nat, nNow: int)
    requires Lookups(s) && n <= |s.vRandom|
    ensures forall a :: a in Gathered(s, n, nNow) ==> IsGathered(s, n, a, nNow)
    ensures forall k :: 0 <= k < n && !IsTerrible(s.Info(s.vRandom[k]), nNow) ==> s.Info(s.vRandom[k]).addr in Gathered(s, n, nNow)
    ensures forall i, j :: 0 <= i < j < |Gathered(s, n, nNow)| ==>
              Gathered(s, n, nNow)[i].service.ip != Gathered(s, n, nNow)[j].service.ip
  {
    hide IsTerrible, Lookups;
    if n > 0 {
      GatheredOnce(s, n - 1, nNow);
      forall a | IsGathered(s, n - 1, a, nNow)
        ensures IsGathered(s, n, a, nNow) && a.service.ip != s.Service(s.vRandom[n - 1]).ip
      {
        GatheredOthers(s, n, a, nNow);
      }
    }
  }

  lemma GatheredOthers(s: State, n: nat, a: Address, nNow: int)
    requires Lookups(s) && 0 < n <= |s.vRandom| && IsGathered(s, n - 1, a, nNow)
    ensures IsGathered(s, n, a, nNow) && a.service.ip != s.Service(s.vRandom[n - 1]).ip
  {
    hide IsTerrible;
    var k :| 0 <= k < n - 1 && a == s.Info(s.vRandom[k]).addr && !IsTerrible(s.Info(s.vRandom[k]), nNow);
    assert Ordered(s, k) && Placed(s, s.vRandom[k]);
    assert Ordered(s, n - 1) && Placed(s, s.vRandom[n - 1]);
  }

  ghost predicate IsGathered(s: State, n: nat, a: Address, nNow: int)
    requires n <= |s.vRandom|
  {
    exists k :: 0 <= k < n && a == s.Info(s.vRandom[k]).addr && !IsTerrible(s.Info(s.vRandom[k]), nNow)
  }

  /**
   GetAddr_ shuffles and changes nothing else. It returns no address twice, only entries that are not
   terrible, at most the share it may give away, and all such entries if it returns less.
   */
  lemma GetAddrPicks(s: State, rolls: nat -> nat, nNow: int)
    requires Consistent(s)
    ensures var r := GetAddr(s, rolls, nNow);
            && Consistent(r.state) && Shuffled(s, r.state)
            && 100 * |r.vAddr| <= 23 * |s.vRandom| && |r.vAddr| <= 2500
            && (forall i, j :: 0 <= i < j < |r.vAddr| ==> r.vAddr[i].service.ip != r.vAddr[j].service.ip)
            && (forall a :: a in r.vAddr ==> Known(s, a.service.ip) && s.Info(s.mapAddr[a.service.ip]).addr == a
                                             && !IsTerrible(s.Info(s.mapAddr[a.service.ip]), nNow))
            && (100 * (|r.vAddr| + 1) <= 23 * |s.vRandom| && |r.vAddr| < 2500 ==>
                  forall id :: id in s.mapInfo && !IsTerrible(s.mapInfo[id], nNow) ==> s.mapInfo[id].addr in r.vAddr)
  {
    hide Tables, Totals, IsTerrible, GetAddrFrom, Gathered;
    GatheredNone(s, nNow);
    var m := GetAddrFromKeeps(s, 0, Share(|s.vRandom|), rolls, nNow);
    var r := GetAddr(s, rolls, nNow);
    GatheredOnce(r.state, m, nNow);
    forall a | a in r.vAddr
      ensures Known(s, a.service.ip) && s.Info(s.mapAddr[a.service.ip]).addr == a
              && !IsTerrible(s.Info(s.mapAddr[a.service.ip]), nNow)
    {
      assert IsGathered(r.state, m, a, nNow);
      var k :| 0 <= k < m && a == r.state.Info(r.state.vRandom[k]).addr && !IsTerrible(r.state.Info(r.state.vRandom[k]), nNow);
      assert Ordered(r.state, k);
      SameJudgement(s, r.state, r.state.vRandom[k], nNow);
      assert Placed(s, r.state.vRandom[k]);
    }
    if |r.vAddr| < Share(|s.vRandom|) {
      forall id | id in s.mapInfo && !IsTerrible(s.mapInfo[id], nNow) ensures s.mapInfo[id].addr in r.vAddr {
        assert Placed(r.state, id);
        SameJudgement(s, r.state, id, nNow);
      }
    }
  }

  lemma GatheredNone(s: State, nNow: int)
    ensures Gathered(s, 0, nNow) == []
  {
  }

  // ---------------------------------------------------------------- runs

  datatype Op =
    | AddOp(addr: Address, source: NetAddr, nTimePenalty: int, nNow: int, roll: nat)
    | GoodOp(service: Service, nTime: int)
    | AttemptOp(service: Service, nTime: int)
    | ConnectedOp(service: Service, nTime: int)
    | SetServicesOp(service: Service, nServices: nat)
    | GetAddrOp(rolls: nat -> nat, nNow: int)

  ghost function Step(s: State, op: Op): State
    requires Consistent(s)
  {
    match op
    case AddOp(addr, source, nTimePenalty, nNow, roll) => Add(s, addr, source, nTimePenalty, nNow, roll).state
    case GoodOp(service, nTime) => Good(s, service, nTime)
    case AttemptOp(service, nTime) => Attempt(s, service, nTime)
    case ConnectedOp(service, nTime) => Connected(s, service, nTime)
    case SetServicesOp(service, nServices) => SetServices(s, service, nServices)
    case GetAddrOp(rolls, nNow) => GetAddr(s, rolls, nNow).state
  }

  lemma StepKeeps(s: State, op: Op)
    requires Consistent(s)
    ensures Consistent(Step(s, op))
  {
    hide Inv, Add, Good, GetAddr, IsTerrible;
    match op
    case AddOp(addr, source, nTimePenalty, nNow, roll) => AddKeeps(s, addr, source, nTimePenalty, nNow, roll);
    case GoodOp(service, nTime) => GoodKeeps(s, service, nTime);
    case AttemptOp(service, nTime) => UpdatesKeep(s, service, nTime, 0);
    case ConnectedOp(service, nTime) => UpdatesKeep(s, service, nTime, 0);
    case SetServicesOp(service, nServices) => UpdatesKeep(s, service, 0, nServices);
    case GetAddrOp(rolls, nNow) => GetAddrPicks(s, rolls, nNow);
  }

  lemma UpdatesKeep(s: State, addr: Service, nTime: int, nServices: nat)
    requires Consistent(s)
    ensures Consistent(Attempt(s, addr, nTime))
    ensures Consistent(Connected(s, addr, nTime))
    ensures Consistent(SetServices(s, addr, nServices))
  {
    hide Inv;
    if IsExactly(s, addr) {
      var id := s.mapAddr[addr.ip];
      NoteKeeps(s, id, Attempt(s, addr, nTime).Info(id));
      NoteKeeps(s, id, Connected(s, addr, nTime).Info(id));
      NoteKeeps(s, id, SetServices(s, addr, nServices).Info(id));
    }
  }

  /** The state after a run of operations. */
  ghost function Run(s: State, ops: seq<Op>): (t: State)
    requires Consistent(s)
    ensures Consistent(t)
    decreases |ops|
  {
    if ops == [] then s
    else
      StepKeeps(s, ops[0]);
      Run(Step(s, ops[0]), ops[1..])
  }

  /** size() counts every entry once, in one of the two tables. */
  lemma SizeIsTheSum(s: State)
    requires Consistent(s)
    ensures |s.vRandom| == s.nNew + s.nTried == |s.mapInfo|
  {
    hide Tables, Lookups, NewIds, TriedIds;
    IdsSplit(s.mapInfo);
    OrderIsComplete(s);
    ElementsCount(s.vRandom);
    assert forall id :: id in s.mapInfo.Keys <==> id in Elements(s.vRandom);
    assert s.mapInfo.Keys == Elements(s.vRandom);
  }

  lemma IdsSplit(m: map<int, CAddrInfo>)
    ensures |m| == |NewIds(m)| + |TriedIds(m)|
  {
    assert forall id :: id in m.Keys <==> id in NewIds(m) + TriedIds(m);
    assert m.Keys == NewIds(m) + TriedIds(m);
  }

  /** vRandom has every id once. */
  lemma OrderIsComplete(s: State)
    requires Lookups(s)
    ensures NoRepeats(s.vRandom) && forall id :: id in s.vRandom <==> id in s.mapInfo
  {
    forall i, j | 0 <= i < j < |s.vRandom| ensures s.vRandom[i] != s.vRandom[j] {
      assert Ordered(s, i) && Ordered(s, j);
    }
    forall id ensures id in s.vRandom <==> id in s.mapInfo {
      if id in s.mapInfo {
        assert Placed(s, id);
      }
      if id in s.vRandom {
        var i :| 0 <= i < |s.vRandom| && s.vRandom[i] == id;
        assert Ordered(s, i);
      }
    }
  }

  // ---------------------------------------------------------------- the times that Check_ looks at

  ghost predicate DatesOk(info: CAddrInfo) {
    info.nLastTry >= 0 && info.nLastSuccess >= 0 && (info.fInTried ==> info.nLastSuccess != 0)
  }

  ghost predicate Dated(s: State) {
    forall id :: id in s.mapInfo ==> DatesOk(s.mapInfo[id])
  }

  /** Times are told after 1970. */
  predicate Timely(op: Op) {
    match op
    case GoodOp(_, nTime) => nTime > 0
    case AttemptOp(_, nTime) => nTime >= 0
    case _ => true
  }

  /** Entries that were not in "tried" before and have not been put there now are not. */
  lemma TriedBefore(s: State, t: State, pending: set<int>, id: int, sl: Slot)
    requires Inv(s, pending, 0) && Consistent(t)
    requires t.vvTried == s.vvTried || (t.vvTried == s.vvTried[sl := id])
    ensures forall x :: x in t.mapInfo && t.mapInfo[x].fInTried ==> x == id || (x in s.mapInfo && s.mapInfo[x].fInTried)
  {
    hide TriedSlot, NewSlotIn, Lookups;
    forall x | x in t.mapInfo && t.mapInfo[x].fInTried
      ensures x == id || (x in s.mapInfo && s.mapInfo[x].fInTried)
    {
      assert Counted(t, {}, x);
      var l := TriedSlot(t.env, t.nKey, t.Service(x));
      assert l in s.vvTried ==> TriedSlotOk(s, l);
    }
  }

  /** An operation that is told the time keeps the times in order. */
  lemma StepKeepsDates(s: State, op: Op)
    requires Consistent(s) && Dated(s) && Timely(op)
    ensures Dated(Step(s, op))
  {
    hide Inv, Add, Good, GetAddr, IsTerrible;
    match op
    case AddOp(addr, source, nTimePenalty, nNow, roll) => AddKeepsDates(s, addr, source, nTimePenalty, nNow, roll);
    case GoodOp(service, nTime) => GoodKeepsDates(s, service, nTime);
    case AttemptOp(service, nTime) =>
    case ConnectedOp(service, nTime) =>
    case SetServicesOp(service, nServices) =>
    case GetAddrOp(rolls, nNow) =>
      GetAddrPicks(s, rolls, nNow);
      SameDates(s, GetAddr(s, rolls, nNow).state);
  }

  lemma SameDates(s: State, t: State)
    requires Dated(s) && SameEntries(s.mapInfo, t.mapInfo)
    ensures Dated(t)
  {
    forall id | id in t.mapInfo ensures DatesOk(t.mapInfo[id]) {
      assert Core(s.mapInfo[id]) == Core(t.mapInfo[id]) && DatesOk(s.mapInfo[id]);
    }
  }

  lemma GoodKeepsDates(s: State, addr: Service, nTime: int)
    requires Consistent(s) && Dated(s) && nTime > 0
    ensures Dated(Good(s, addr, nTime))
  {
    hide Inv, MakeTried, LostByTrying, TriedSlot;
    if IsExactly(s, addr) {
      var id := s.mapAddr[addr.ip];
      var t := Succeeded(s, id, nTime);
      NoteKeeps(s, id, t.Info(id));
      if !t.Info(id).fInTried {
        SomeBucketIsFound(t, id);
        MakeTriedKeeps(t, id);
        MakeTriedMoves(t, id);
        TriedBefore(t, MakeTried(t, id), {}, id, TriedSlot(t.env, t.nKey, t.Service(id)));
        RememberedDates(t, MakeTried(t, id), LostByTrying(t, id), id);
      }
    }
  }

  lemma RememberedDates(s: State, t: State, lost: set<int>, id: int)
    requires Dated(s) && Remembers(s, t, lost)
    requires forall x :: x in t.mapInfo && t.mapInfo[x].fInTried ==> x == id || (x in s.mapInfo && s.mapInfo[x].fInTried)
    requires id in s.mapInfo ==> s.mapInfo[id].nLastSuccess != 0 || (id in t.mapInfo ==> !t.mapInfo[id].fInTried)
    ensures Dated(t)
  {
    forall x | x in t.mapInfo ensures DatesOk(t.mapInfo[x]) {
      assert Trace(t.mapInfo[x]) == Trace(s.mapInfo[x]) && DatesOk(s.mapInfo[x]);
    }
  }

  lemma AddKeepsDates(s: State, addr: Address, source: NetAddr, nTimePenalty: int, nNow: int, roll: nat)
    requires Consistent(s) && Dated(s)
    ensures Dated(Add(s, addr, source, nTimePenalty, nNow, roll).state)
  {
    hide Inv, Place, PlaceLost, HeardAgain, Heard, MaySpread, CanTake, TriedSlot, NewBucket, BucketPosition, CanPlace, Remembers;
    if s.env.routable(addr.service.ip) {
      if Known(s, addr.service.ip) {
        var id := s.mapAddr[addr.service.ip];
        var info := HeardAgain(s.Info(id), addr, nTimePenalty, nNow);
        HeardAgainSame(s.Info(id), addr, nTimePenalty, nNow);
        SpreadKeeps(s, id, info);
        if MaySpread(info, addr, roll) {
          MaySpreadMeans(info, addr, roll);
          PlaceKeepsDates(s.Put(id, info), id, NewSlot(s.env, s.nKey, s.Service(id), source), nNow, {});
        }
      } else {
        HeardKeeps(s, addr, source, nTimePenalty);
        HeardDates(s, addr, source, nTimePenalty);
        HeardFields(s, addr, source, nTimePenalty);
        PlaceKeepsDates(Heard(s, addr, source, nTimePenalty), s.nIdCount, NewSlot(s.env, s.nKey, addr.service, source), nNow, {s.nIdCount});
      }
    }
  }

  lemma HeardDates(s: State, addr: Address, source: NetAddr, nTimePenalty: int)
    requires Dated(s)
    ensures Dated(Heard(s, addr, source, nTimePenalty))
  {
  }

  lemma PlaceKeepsDates(s: State, id: int, sl: Slot, nNow: int, pending: set<int>)
    requires CanPlace(s, id, pending) && Dated(s)
    requires 0 <= sl.bucket < NEW_BUCKET_COUNT && sl == NewSlotIn(s.env, s.nKey, s.Service(id), sl.bucket)
    ensures Dated(Place(s, id, sl, nNow, pending))
  {
    hide Inv, Place, PlaceLost, CanTake, TriedSlot, NewSlotIn;
    PlaceKeeps(s, id, sl, nNow, pending);
    PlaceLoses(s, id, sl, nNow, pending);
    var t := Place(s, id, sl, nNow, pending);
    TriedBefore(s, t, pending, id, sl);
    PlacedUntried(s, t, pending, id);
    RememberedDates(s, t, PlaceLost(s, id, sl, nNow), id);
  }

  lemma PlacedUntried(s: State, t: State, pending: set<int>, id: int)
    requires Inv(s, pending, 0) && Consistent(t) && t.vvTried == s.vvTried
    requires id in s.mapInfo && !s.Info(id).fInTried
    ensures id in t.mapInfo ==> !t.mapInfo[id].fInTried
  {
    hide TriedSlot, NewSlotIn, Lookups;
    var l := TriedSlot(t.env, t.nKey, t.Service(id));
    assert l in s.vvTried ==> TriedSlotOk(s, l);
    assert id in t.mapInfo ==> Counted(t, {}, id);
  }
}
