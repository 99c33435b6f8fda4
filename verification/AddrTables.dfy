/**
 The state of the address manager as a value: what every operation computes, and the invariant that
 its two tables, two maps, permuted vector and counters keep.
 */
module AddrTables {
  import opened Numbers

  const TRIED_BUCKET_COUNT := 256
  const NEW_BUCKET_COUNT := 1024
  const BUCKET_SIZE := 64
  const TRIED_BUCKETS_PER_GROUP := 8
  const NEW_BUCKETS_PER_SOURCE_GROUP := 64
  const NEW_BUCKETS_PER_ADDRESS := 8
  const HORIZON_DAYS := 30
  const RETRIES := 3
  const MAX_FAILURES := 10
  const MIN_FAIL_DAYS := 7

  /** The sixteen bytes of an address. */
  type NetAddr = seq<byte>

  datatype Service = Service(ip: NetAddr, port: nat)
  datatype Address = Address(service: Service, nServices: nat, nTime: uint32)

  datatype CAddrInfo = CAddrInfo(
    addr: Address,
    source: NetAddr,
    nLastSuccess: int,
    nAttempts: int,
    nLastTry: int,
    nRefCount: int,
    fInTried: bool,
    nRandomPos: int)

  const EMPTY_INFO := NewInfo(Address(Service([], 0), 0, 0), [])

  /** What the constructor of CAddrInfo makes of an address. */
  function NewInfo(addr: Address, source: NetAddr): CAddrInfo {
    CAddrInfo(addr, source, 0, 0, 0, 0, false, -1)
  }

  predicate IsTerrible(info: CAddrInfo, nNow: int) {
    if info.nLastTry != 0 && info.nLastTry >= nNow - 60 then false
    else if info.addr.nTime > nNow + 10 * 60 then true
    else if info.addr.nTime == 0 || nNow - info.addr.nTime > HORIZON_DAYS * 24 * 60 * 60 then true
    else if info.nLastSuccess == 0 && info.nAttempts >= RETRIES then true
    else nNow - info.nLastSuccess > MIN_FAIL_DAYS * 24 * 60 * 60 && info.nAttempts >= MAX_FAILURES
  }

  // ---------------------------------------------------------------- buckets

  /** What is hashed: keys, byte strings and small numbers. */
  datatype Part = Secret(nKey: int) | Data(bytes: seq<byte>) | Number(n: int)

  /** The parts of the program that are not modelled: the hash, address groups and routability. */
  datatype Env = Env(cheapHash: seq<Part> -> nat, group: NetAddr -> seq<byte>, key: Service -> seq<byte>,
                     routable: NetAddr -> bool)

  datatype Slot = Slot(bucket: int, pos: int)

  function TriedBucket(env: Env, nKey: int, s: Service): (b: int)
    ensures 0 <= b < TRIED_BUCKET_COUNT
  {
    var hash1 := env.cheapHash([Secret(nKey), Data(env.key(s))]);
    env.cheapHash([Secret(nKey), Data(env.group(s.ip)), Number(hash1 % TRIED_BUCKETS_PER_GROUP)]) % TRIED_BUCKET_COUNT
  }

  function NewBucket(env: Env, nKey: int, s: Service, src: NetAddr): (b: int)
    ensures 0 <= b < NEW_BUCKET_COUNT
  {
    var hash1 := env.cheapHash([Secret(nKey), Data(env.group(s.ip)), Data(env.group(src))]);
    env.cheapHash([Secret(nKey), Data(env.group(src)), Number(hash1 % NEW_BUCKETS_PER_SOURCE_GROUP)]) % NEW_BUCKET_COUNT
  }

  function BucketPosition(env: Env, nKey: int, s: Service, fNew: bool, bucket: int): (p: int)
    ensures 0 <= p < BUCKET_SIZE
  {
    env.cheapHash([Secret(nKey), Number(if fNew then 'N' as int else 'K' as int), Number(bucket), Data(env.key(s))])
    % BUCKET_SIZE
  }

  /** Where in "tried" an address belongs. */
  function TriedSlot(env: Env, nKey: int, s: Service): Slot {
    var b := TriedBucket(env, nKey, s);
    Slot(b, BucketPosition(env, nKey, s, false, b))
  }

  /** Where in bucket `b` of "new" an address belongs. */
  function NewSlotIn(env: Env, nKey: int, s: Service, b: int): Slot {
    Slot(b, BucketPosition(env, nKey, s, true, b))
  }

  /** Where in "new" an address belongs, given who told of it. */
  function NewSlot(env: Env, nKey: int, s: Service, src: NetAddr): Slot {
    NewSlotIn(env, nKey, s, NewBucket(env, nKey, s, src))
  }

  /** What the places of an address depend on: in "new" also on who told of it, and in both on the secret key. */
  lemma SlotsAre(env: Env, nKey: int, s: Service, src: NetAddr)
    ensures var b := NewSlot(env, nKey, s, src).bucket;
            && b == env.cheapHash([Secret(nKey), Data(env.group(src)),
                                   Number(env.cheapHash([Secret(nKey), Data(env.group(s.ip)), Data(env.group(src))]) % 64)]) % 1024
            && NewSlot(env, nKey, s, src).pos == env.cheapHash([Secret(nKey), Number(78), Number(b), Data(env.key(s))]) % 64
    ensures var b := TriedSlot(env, nKey, s).bucket;
            && b == env.cheapHash([Secret(nKey), Data(env.group(s.ip)),
                                   Number(env.cheapHash([Secret(nKey), Data(env.key(s))]) % 8)]) % 256
            && TriedSlot(env, nKey, s).pos == env.cheapHash([Secret(nKey), Number(75), Number(b), Data(env.key(s))]) % 64
  {
  }

  /** The values of a function at 0 to n - 1. */
  function Images(f: nat -> int, n: nat): (r: set<int>)
    ensures |r| <= n && forall k :: 0 <= k < n ==> f(k) in r
  {
    if n == 0 then {} else Images(f, n - 1) + {f(n - 1)}
  }

  /** What the peers of one group tell goes to 64 buckets of "new" at most. */
  lemma BucketsOfSource(env: Env, nKey: int, group: seq<byte>) returns (buckets: set<int>)
    ensures |buckets| <= 64
    ensures forall s: Service, src: NetAddr :: env.group(src) == group ==> NewBucket(env, nKey, s, src) in buckets
  {
    var f := (k: nat) => env.cheapHash([Secret(nKey), Data(group), Number(k)]) % NEW_BUCKET_COUNT;
    buckets := Images(f, 64);
    forall s: Service, src: NetAddr | env.group(src) == group ensures NewBucket(env, nKey, s, src) in buckets {
      var hash1 := env.cheapHash([Secret(nKey), Data(env.group(s.ip)), Data(env.group(src))]);
      assert NewBucket(env, nKey, s, src) == f(hash1 % 64);
    }
  }

  /** And what they tell of the addresses of one group goes to one bucket. */
  lemma BucketOfGroups(env: Env, nKey: int, s: Service, s': Service, src: NetAddr, src': NetAddr)
    requires env.group(s.ip) == env.group(s'.ip) && env.group(src) == env.group(src')
    ensures NewBucket(env, nKey, s, src) == NewBucket(env, nKey, s', src')
  {
  }

  /** The addresses of one group go to eight buckets of "tried" at most. */
  lemma BucketsOfGroup(env: Env, nKey: int, group: seq<byte>) returns (buckets: set<int>)
    ensures |buckets| <= 8
    ensures forall s: Service :: env.group(s.ip) == group ==> TriedBucket(env, nKey, s) in buckets
  {
    var f := (k: nat) => env.cheapHash([Secret(nKey), Data(group), Number(k)]) % TRIED_BUCKET_COUNT;
    buckets := Images(f, 8);
    forall s: Service | env.group(s.ip) == group ensures TriedBucket(env, nKey, s) in buckets {
      assert TriedBucket(env, nKey, s) == f(env.cheapHash([Secret(nKey), Data(env.key(s))]) % 8);
    }
  }

  /** Slots are gone through bucket by bucket. */
  predicate Before(sl: Slot, b: int, i: int) { sl.bucket < b || (sl.bucket == b && sl.pos < i) }

  /** A table after `id` has been written to a slot. */
  function Written(t: map<Slot, int>, sl: Slot, id: int): map<Slot, int> {
    if id == -1 then t - {sl} else t[sl := id]
  }

  // ---------------------------------------------------------------- the state

  /** A slot that holds -1 is absent from its table. */
  datatype State = State(
    env: Env,
    nKey: int,
    nIdCount: int,
    mapInfo: map<int, CAddrInfo>,
    mapAddr: map<NetAddr, int>,
    vRandom: seq<int>,
    nTried: int,
    vvTried: map<Slot, int>,
    nNew: int,
    vvNew: map<Slot, int>)
  {
    /** mapInfo[id], which makes a default entry where there is none. */
    function Info(id: int): CAddrInfo {
      if id in mapInfo then mapInfo[id] else EMPTY_INFO
    }

    function Service(id: int): Service { Info(id).addr.service }

    function Put(id: int, info: CAddrInfo): State { this.(mapInfo := mapInfo[id := info]) }
  }

  function Initial(env: Env, nKey: int): State {
    State(env, nKey, 0, map[], map[], [], 0, map[], 0, map[])
  }

  // ---------------------------------------------------------------- the operations

  /** Finds an id by network address. */
  predicate Known(s: State, ip: NetAddr) { ip in s.mapAddr && s.mapAddr[ip] in s.mapInfo }

  function Create(s: State, addr: Address, source: NetAddr): State {
    s.(nIdCount := s.nIdCount + 1,
       mapInfo := s.mapInfo[s.nIdCount := NewInfo(addr, source).(nRandomPos := |s.vRandom|)],
       mapAddr := s.mapAddr[addr.service.ip := s.nIdCount],
       vRandom := s.vRandom + [s.nIdCount])
  }

  function SwapRandom(s: State, p1: int, p2: int): (t: State)
    requires p1 != p2 ==> 0 <= p1 < |s.vRandom| && 0 <= p2 < |s.vRandom|
    ensures |t.vRandom| == |s.vRandom|
  {
    if p1 == p2 then s
    else
      var id1, id2 := s.vRandom[p1], s.vRandom[p2];
      var t := s.Put(id1, s.Info(id1).(nRandomPos := p2));
      t.Put(id2, t.Info(id2).(nRandomPos := p1)).(vRandom := s.vRandom[p1 := id2][p2 := id1])
  }

  /** What the assertions of Delete, and of SwapRandom inside it, ask for. */
  predicate CanDelete(s: State, id: int) {
    && id in s.mapInfo && !s.Info(id).fInTried && s.Info(id).nRefCount == 0
    && 0 <= s.Info(id).nRandomPos < |s.vRandom|
    && (s.Info(id).nRandomPos != |s.vRandom| - 1 ==>
          s.vRandom[s.Info(id).nRandomPos] in s.mapInfo && s.vRandom[|s.vRandom| - 1] in s.mapInfo)
  }

  /** The last entry of vRandom takes the place of the deleted one. */
  function Delete(s: State, id: int): State
    requires 0 <= s.Info(id).nRandomPos < |s.vRandom|
  {
    DropLast(SwapRandom(s, s.Info(id).nRandomPos, |s.vRandom| - 1), id)
  }

  /** The last entry of vRandom is dropped, with all that is known of it. */
  function DropLast(s: State, id: int): State
    requires |s.vRandom| > 0
  {
    s.(vRandom := s.vRandom[..|s.vRandom| - 1],
       mapAddr := s.mapAddr - {s.Service(id).ip},
       mapInfo := s.mapInfo - {id},
       nNew := s.nNew - 1)
  }

  /** One reference less. */
  function Unref(s: State, id: int): State {
    s.Put(id, s.Info(id).(nRefCount := s.Info(id).nRefCount - 1))
  }

  /** What the assertions inside SwapRandom ask of ClearNew's callers. */
  predicate CanClear(s: State, sl: Slot) {
    sl in s.vvNew ==> 0 <= s.Info(s.vvNew[sl]).nRandomPos < |s.vRandom|
  }

  /** One slot of "new" is emptied; an entry that was nowhere else is deleted. */
  function ClearNew(s: State, sl: Slot): State
    requires CanClear(s, sl)
  {
    if sl !in s.vvNew then s
    else
      var id := s.vvNew[sl];
      var t := Unref(s, id).(vvNew := s.vvNew - {sl});
      if t.Info(id).nRefCount == 0 then Delete(t, id) else t
  }

  /** An entry is given a slot of "new". */
  function EnterNew(s: State, id: int, sl: Slot, nRefCount: int): State {
    s.Put(id, s.Info(id).(nRefCount := nRefCount)).(vvNew := s.vvNew[sl := id])
  }

  /** An entry is taken out of every slot of "new". */
  function LeaveNew(s: State, id: int): State {
    s.Put(id, s.Info(id).(nRefCount := 0)).(
      vvNew := map sl | sl in s.vvNew && s.vvNew[sl] != id :: s.vvNew[sl],
      nNew := s.nNew - 1)
  }

  /** An entry is taken out of its slot of "tried". */
  function LeaveTried(s: State, sl: Slot): State
    requires sl in s.vvTried
  {
    var id := s.vvTried[sl];
    s.Put(id, s.Info(id).(fInTried := false)).(vvTried := s.vvTried - {sl}, nTried := s.nTried - 1)
  }

  function EnterTried(s: State, id: int, sl: Slot): State {
    s.Put(id, s.Info(id).(fInTried := true)).(vvTried := s.vvTried[sl := id], nTried := s.nTried + 1)
  }

  /** Where an entry belongs in "new" by the source it was first heard from. */
  function HomeSlot(s: State, id: int): Slot {
    NewSlot(s.env, s.nKey, s.Service(id), s.Info(id).source)
  }

  predicate CanEvict(s: State, sl: Slot) {
    sl in s.vvTried && CanClear(LeaveTried(s, sl), HomeSlot(s, s.vvTried[sl]))
  }

  /** The entry in a slot of "tried" goes back to "new", over whatever stands where it belongs there. */
  function Evict(s: State, sl: Slot): State
    requires CanEvict(s, sl)
  {
    var idEvict := s.vvTried[sl];
    var usl := HomeSlot(s, idEvict);
    var t := EnterNew(ClearNew(LeaveTried(s, sl), usl), idEvict, usl, 1);
    t.(nNew := t.nNew + 1)
  }

  predicate CanMakeTried(s: State, id: int) {
    var sl := TriedSlot(s.env, s.nKey, s.Service(id));
    sl in s.vvTried ==> CanEvict(LeaveNew(s, id), sl)
  }

  function MakeTried(s: State, id: int): State
    requires CanMakeTried(s, id)
  {
    var sl := TriedSlot(s.env, s.nKey, s.Service(id));
    var t := LeaveNew(s, id);
    EnterTried(if sl in t.vvTried then Evict(t, sl) else t, id, sl)
  }

  // ---------------------------------------------------------------- the invariant

  /** The slots of a table that hold an id. */
  function SlotsOf(t: map<Slot, int>, id: int): set<Slot> { set sl | sl in t && t[sl] == id }

  function TriedIds(m: map<int, CAddrInfo>): set<int> { set id | id in m && m[id].fInTried }

  function NewIds(m: map<int, CAddrInfo>): set<int> { set id | id in m && !m[id].fInTried }

  /** An entry is known under its address and stands where its position in vRandom says. */
  ghost predicate Placed(s: State, id: int)
    requires id in s.mapInfo
  {
    var info := s.mapInfo[id];
    && 0 <= id < s.nIdCount
    && info.addr.service.ip in s.mapAddr && s.mapAddr[info.addr.service.ip] == id
    && 0 <= info.nRandomPos < |s.vRandom| && s.vRandom[info.nRandomPos] == id
  }

  /**
   A tried entry is in its one slot of "tried" and in no slot of "new"; the reference count of any
   other entry is the number of slots of "new" that hold it. Entries in `pending` are in no table.
   */
  ghost predicate Counted(s: State, pending: set<int>, id: int)
    requires id in s.mapInfo
  {
    var info := s.mapInfo[id];
    if info.fInTried then
      id !in pending && info.nRefCount == 0
      && TriedSlot(s.env, s.nKey, info.addr.service) in s.vvTried && s.vvTried[TriedSlot(s.env, s.nKey, info.addr.service)] == id
    else
      info.nRefCount == |SlotsOf(s.vvNew, id)|
      && if id in pending then info.nRefCount == 0 else 1 <= info.nRefCount <= NEW_BUCKETS_PER_ADDRESS
  }

  ghost predicate Indexed(s: State, ip: NetAddr)
    requires ip in s.mapAddr
  {
    s.mapAddr[ip] in s.mapInfo && s.Service(s.mapAddr[ip]).ip == ip
  }

  ghost predicate Ordered(s: State, i: int)
    requires 0 <= i < |s.vRandom|
  {
    s.vRandom[i] in s.mapInfo && s.Info(s.vRandom[i]).nRandomPos == i
  }

  /** A slot of "new" holds an untried entry, at the position its hash gives. */
  ghost predicate NewSlotOk(s: State, sl: Slot)
    requires sl in s.vvNew
  {
    && 0 <= sl.bucket < NEW_BUCKET_COUNT
    && s.vvNew[sl] in s.mapInfo && !s.Info(s.vvNew[sl]).fInTried
    && sl == NewSlotIn(s.env, s.nKey, s.Service(s.vvNew[sl]), sl.bucket)
  }

  /** A slot of "tried" holds a tried entry whose one place it is. */
  ghost predicate TriedSlotOk(s: State, sl: Slot)
    requires sl in s.vvTried
  {
    && s.vvTried[sl] in s.mapInfo && s.Info(s.vvTried[sl]).fInTried
    && sl == TriedSlot(s.env, s.nKey, s.Service(s.vvTried[sl]))
  }

  ghost predicate Lookups(s: State) {
    && (forall id :: id in s.mapInfo ==> Placed(s, id))
    && (forall ip :: ip in s.mapAddr ==> Indexed(s, ip))
    && (forall i :: 0 <= i < |s.vRandom| ==> Ordered(s, i))
  }

  ghost predicate Tables(s: State, pending: set<int>) {
    && (forall id :: id in s.mapInfo ==> Counted(s, pending, id))
    && (forall sl :: sl in s.vvNew ==> NewSlotOk(s, sl))
    && (forall sl :: sl in s.vvTried ==> TriedSlotOk(s, sl))
  }

  /** The counters; `uncounted` untried entries are not in nNew at the moment. */
  ghost predicate Totals(s: State, uncounted: int) {
    s.nTried == |TriedIds(s.mapInfo)| && s.nNew == |NewIds(s.mapInfo)| - uncounted
  }

  /** What holds between the steps of an operation. */
  ghost predicate Inv(s: State, pending: set<int>, uncounted: int) {
    Lookups(s) && Tables(s, pending) && Totals(s, uncounted) && s.nIdCount >= 0
  }

  /** What holds between operations. */
  ghost predicate Consistent(s: State) { Inv(s, {}, 0) }

  lemma InitialIsConsistent(env: Env, nKey: int)
    ensures Consistent(Initial(env, nKey))
  {
    var s := Initial(env, nKey);
    assert TriedIds(s.mapInfo) == {} && NewIds(s.mapInfo) == {};
  }

  // ---------------------------------------------------------------- counting

  lemma SlotsPut(t: map<Slot, int>, sl: Slot, id: int, x: int)
    requires sl !in t
    ensures SlotsOf(t[sl := id], x) == SlotsOf(t, x) + if x == id then {sl} else {}
    ensures |SlotsOf(t[sl := id], x)| == |SlotsOf(t, x)| + if x == id then 1 else 0
  {
  }

  lemma SlotsDrop(t: map<Slot, int>, sl: Slot, x: int)
    requires sl in t
    ensures SlotsOf(t - {sl}, x) == SlotsOf(t, x) - {sl}
    ensures |SlotsOf(t - {sl}, x)| == |SlotsOf(t, x)| - if x == t[sl] then 1 else 0
  {
    assert SlotsOf(t - {sl}, x) == SlotsOf(t, x) - {sl};
  }

  /** The counts after one entry has been replaced, or added. */
  lemma IdsPut(m: map<int, CAddrInfo>, id: int, info: CAddrInfo)
    ensures TriedIds(m[id := info]) == TriedIds(m) - {id} + if info.fInTried then {id} else {}
    ensures NewIds(m[id := info]) == NewIds(m) - {id} + if info.fInTried then {} else {id}
  {
  }

  lemma IdsKept(m: map<int, CAddrInfo>, id: int, info: CAddrInfo)
    requires id in m && info.fInTried == m[id].fInTried
    ensures TriedIds(m[id := info]) == TriedIds(m) && NewIds(m[id := info]) == NewIds(m)
  {
    hide TriedIds, NewIds;
    IdsPut(m, id, info);
    IdsOf(m, id);
  }

  lemma IdsOf(m: map<int, CAddrInfo>, id: int)
    requires id in m
    ensures id in TriedIds(m) <==> m[id].fInTried
    ensures id in NewIds(m) <==> !m[id].fInTried
  {
  }

  lemma IdsMoved(m: map<int, CAddrInfo>, id: int, info: CAddrInfo)
    requires id in m && info.fInTried != m[id].fInTried
    ensures |TriedIds(m[id := info])| == |TriedIds(m)| + if info.fInTried then 1 else -1
    ensures |NewIds(m[id := info])| == |NewIds(m)| + if info.fInTried then -1 else 1
  {
    hide TriedIds, NewIds;
    IdsPut(m, id, info);
    IdsOf(m, id);
    SetMove(TriedIds(m), id, info.fInTried);
    SetMove(NewIds(m), id, !info.fInTried);
  }

  lemma SetMove(ids: set<int>, id: int, enters: bool)
    requires id in ids <==> !enters
    ensures |ids - {id} + if enters then {id} else {}| == |ids| + if enters then 1 else -1
  {
    if enters {
      assert ids - {id} == ids;
    } else {
      assert ids - {id} + {} == ids - {id};
    }
  }

  lemma IdsDrop(m: map<int, CAddrInfo>, id: int)
    ensures TriedIds(m - {id}) == TriedIds(m) - {id}
    ensures NewIds(m - {id}) == NewIds(m) - {id}
  {
  }

  // ---------------------------------------------------------------- the small operations

  /** The check against mapInfo in Find never fails. */
  lemma KnownIff(s: State, ip: NetAddr)
    requires Lookups(s)
    ensures Known(s, ip) <==> ip in s.mapAddr
  {
    if ip in s.mapAddr {
      assert Indexed(s, ip);
    }
  }

  lemma CreateLookups(s: State, addr: Address, source: NetAddr)
    requires Lookups(s) && s.nIdCount >= 0 && addr.service.ip !in s.mapAddr
    ensures Lookups(Create(s, addr, source))
  {
    var t := Create(s, addr, source);
    forall id | id in t.mapInfo ensures Placed(t, id) {
      assert id in s.mapInfo ==> Placed(s, id);
    }
    forall ip | ip in t.mapAddr ensures Indexed(t, ip) {
      assert ip in s.mapAddr ==> Indexed(s, ip);
      assert ip in s.mapAddr ==> Placed(s, s.mapAddr[ip]);
    }
    forall i | 0 <= i < |t.vRandom| ensures Ordered(t, i) {
      assert i < |s.vRandom| ==> Ordered(s, i) && Placed(s, s.vRandom[i]);
    }
  }

  /** A new entry is in no table yet. */
  lemma CreateKeeps(s: State, addr: Address, source: NetAddr)
    requires Inv(s, {}, 0) && !Known(s, addr.service.ip)
    ensures Inv(Create(s, addr, source).(nNew := s.nNew + 1), {s.nIdCount}, 0)
  {
    hide Lookups, Tables, Totals;
    var c := Create(s, addr, source);
    KnownIff(s, addr.service.ip);
    CreateLookups(s, addr, source);
    SameLookups(c, c.(nNew := s.nNew + 1));
    FreshId(s);
    CreateTotals(s, addr, source);
    CreateTables(s, addr, source);
  }

  lemma CreateTotals(s: State, addr: Address, source: NetAddr)
    requires Totals(s, 0) && s.nIdCount !in s.mapInfo
    ensures Totals(Create(s, addr, source).(nNew := s.nNew + 1), 0)
  {
    IdsAdded(s.mapInfo, s.nIdCount, NewInfo(addr, source).(nRandomPos := |s.vRandom|));
    hide TriedIds, NewIds;
  }

  lemma IdsAdded(m: map<int, CAddrInfo>, id: int, info: CAddrInfo)
    requires id !in m && !info.fInTried
    ensures |TriedIds(m[id := info])| == |TriedIds(m)| && |NewIds(m[id := info])| == |NewIds(m)| + 1
  {
    IdsPut(m, id, info);
    IdsIn(m, id);
    hide TriedIds, NewIds;
    assert TriedIds(m[id := info]) == TriedIds(m);
    assert NewIds(m[id := info]) == NewIds(m) + {id};
  }

  lemma IdsIn(m: map<int, CAddrInfo>, id: int)
    requires id !in m
    ensures id !in TriedIds(m) && id !in NewIds(m)
  {
  }

  lemma CreateTables(s: State, addr: Address, source: NetAddr)
    requires Tables(s, {}) && s.nIdCount !in s.mapInfo
    ensures Tables(Create(s, addr, source).(nNew := s.nNew + 1), {s.nIdCount})
  {
    hide TriedSlot, NewSlotIn;
    var id0 := s.nIdCount;
    var t := Create(s, addr, source).(nNew := s.nNew + 1);
    forall sl | sl in t.vvNew ensures NewSlotOk(t, sl) {
      assert NewSlotOk(s, sl);
    }
    forall sl | sl in t.vvTried ensures TriedSlotOk(t, sl) {
      assert TriedSlotOk(s, sl);
    }
    assert SlotsOf(s.vvNew, id0) == {};
    forall id | id in t.mapInfo ensures Counted(t, {id0}, id) {
      assert id != id0 ==> Counted(s, {}, id);
    }
  }

  lemma FreshId(s: State)
    requires Lookups(s)
    ensures s.nIdCount !in s.mapInfo
  {
    assert s.nIdCount in s.mapInfo ==> Placed(s, s.nIdCount);
  }

  /** The lookups depend on these fields and on no others. */
  lemma SameLookups(s: State, t: State)
    requires Lookups(s)
    requires t.mapInfo == s.mapInfo && t.mapAddr == s.mapAddr && t.vRandom == s.vRandom && t.nIdCount == s.nIdCount
    ensures Lookups(t)
  {
    forall id | id in t.mapInfo ensures Placed(t, id) { assert Placed(s, id); }
    forall ip | ip in t.mapAddr ensures Indexed(t, ip) { assert Indexed(s, ip); }
    forall i | 0 <= i < |t.vRandom| ensures Ordered(t, i) { assert Ordered(s, i); }
  }

  /** An entry without where it stands in vRandom. */
  function Core(info: CAddrInfo): CAddrInfo { info.(nRandomPos := -1) }

  /** Entries differ in no more than where they stand in vRandom. */
  ghost predicate SameEntries(m: map<int, CAddrInfo>, m': map<int, CAddrInfo>) {
    && (forall id :: id in m <==> id in m')
    && (forall id :: id in m ==> Core(m[id]) == Core(m'[id]))
  }

  lemma SwapIsAPermutation(s: State, p1: int, p2: int)
    requires Lookups(s) && 0 <= p1 < |s.vRandom| && 0 <= p2 < |s.vRandom|
    ensures SameEntries(s.mapInfo, SwapRandom(s, p1, p2).mapInfo)
    ensures SwapRandom(s, p1, p2)
            == s.(mapInfo := SwapRandom(s, p1, p2).mapInfo, vRandom := s.vRandom[p1 := s.vRandom[p2]][p2 := s.vRandom[p1]])
  {
    hide Lookups, Ordered;
    PlacesOrdered(s, p1, p2);
    SwapEntries(s, p1, p2);
    SwapRest(s, p1, p2);
  }

  lemma PlacesOrdered(s: State, p1: int, p2: int)
    requires Lookups(s) && 0 <= p1 < |s.vRandom| && 0 <= p2 < |s.vRandom|
    ensures Ordered(s, p1) && Ordered(s, p2)
  {
  }

  lemma SwapRest(s: State, p1: int, p2: int)
    requires 0 <= p1 < |s.vRandom| && 0 <= p2 < |s.vRandom|
    ensures var t := SwapRandom(s, p1, p2); t == s.(mapInfo := t.mapInfo, vRandom := t.vRandom)
  {
  }

  /** State `t` is `s` with two places exchanged. */
  ghost predicate Swapped(s: State, t: State, p1: int, p2: int)
    requires 0 <= p1 < |s.vRandom| && 0 <= p2 < |s.vRandom|
  {
    var id1, id2 := s.vRandom[p1], s.vRandom[p2];
    && t.nIdCount == s.nIdCount && t.mapAddr == s.mapAddr && t.vRandom == s.vRandom[p1 := id2][p2 := id1]
    && t.mapInfo.Keys == s.mapInfo.Keys
    && (forall id :: id in s.mapInfo ==>
         t.mapInfo[id]
         == s.mapInfo[id].(nRandomPos := if id == id1 then p2 else if id == id2 then p1 else s.mapInfo[id].nRandomPos))
  }

  lemma SwapEntries(s: State, p1: int, p2: int)
    requires 0 <= p1 < |s.vRandom| && 0 <= p2 < |s.vRandom| && Ordered(s, p1) && Ordered(s, p2)
    ensures Swapped(s, SwapRandom(s, p1, p2), p1, p2)
  {
  }

  lemma SwapPlaced(s: State, t: State, p1: int, p2: int, id: int)
    requires 0 <= p1 < |s.vRandom| && 0 <= p2 < |s.vRandom| && Swapped(s, t, p1, p2)
    requires id in s.mapInfo && Placed(s, id) && Ordered(s, p1) && Ordered(s, p2)
    ensures Placed(t, id)
  {
  }

  lemma SwapOrdered(s: State, t: State, p1: int, p2: int, i: int)
    requires 0 <= p1 < |s.vRandom| && 0 <= p2 < |s.vRandom| && Swapped(s, t, p1, p2)
    requires 0 <= i < |s.vRandom| && Ordered(s, i) && Ordered(s, p1) && Ordered(s, p2)
    ensures Ordered(t, i)
  {
    assert i != p1 ==> s.vRandom[i] != s.vRandom[p1];
    assert i != p2 ==> s.vRandom[i] != s.vRandom[p2];
  }

  lemma SwapLookups(s: State, p1: int, p2: int)
    requires Lookups(s) && 0 <= p1 < |s.vRandom| && 0 <= p2 < |s.vRandom|
    ensures Lookups(SwapRandom(s, p1, p2))
  {
    hide SwapRandom, Placed, Ordered;
    var t := SwapRandom(s, p1, p2);
    assert Ordered(s, p1) && Ordered(s, p2);
    SwapEntries(s, p1, p2);
    forall id | id in t.mapInfo ensures Placed(t, id) {
      SwapPlaced(s, t, p1, p2, id);
    }
    forall ip | ip in t.mapAddr ensures Indexed(t, ip) {
      assert Indexed(s, ip);
    }
    forall i | 0 <= i < |t.vRandom| ensures Ordered(t, i) {
      SwapOrdered(s, t, p1, p2, i);
    }
  }

  /** The tables and the counters do not depend on where entries stand in vRandom. */
  lemma SameTables(s: State, t: State, pending: set<int>, uncounted: int)
    requires Tables(s, pending) && Totals(s, uncounted)
    requires SameEntries(s.mapInfo, t.mapInfo)
    requires t.env == s.env && t.nKey == s.nKey && t.vvNew == s.vvNew && t.vvTried == s.vvTried
    requires t.nNew == s.nNew && t.nTried == s.nTried
    ensures Tables(t, pending) && Totals(t, uncounted)
  {
    hide TriedSlot, NewSlotIn;
    SameIds(s.mapInfo, t.mapInfo);
    forall id | id in t.mapInfo ensures Counted(t, pending, id) { assert Counted(s, pending, id); }
    forall sl | sl in t.vvNew ensures NewSlotOk(t, sl) { assert NewSlotOk(s, sl); }
    forall sl | sl in t.vvTried ensures TriedSlotOk(t, sl) { assert TriedSlotOk(s, sl); }
  }

  lemma SameIds(m: map<int, CAddrInfo>, m': map<int, CAddrInfo>)
    requires SameEntries(m, m')
    ensures TriedIds(m') == TriedIds(m) && NewIds(m') == NewIds(m)
  {
    forall id ensures id in TriedIds(m') <==> id in TriedIds(m) {
      assert id in m ==> Core(m[id]) == Core(m'[id]);
    }
    forall id ensures id in NewIds(m') <==> id in NewIds(m) {
      assert id in m ==> Core(m[id]) == Core(m'[id]);
    }
  }

  lemma SwapKeeps(s: State, p1: int, p2: int, pending: set<int>, uncounted: int)
    requires Inv(s, pending, uncounted) && 0 <= p1 < |s.vRandom| && 0 <= p2 < |s.vRandom|
    ensures Inv(SwapRandom(s, p1, p2), pending, uncounted)
  {
    hide Lookups, Tables, Totals, SwapRandom;
    SwapIsAPermutation(s, p1, p2);
    SwapLookups(s, p1, p2);
    SameTables(s, SwapRandom(s, p1, p2), pending, uncounted);
  }

  /** What the assertions of Delete ask for holds of a pending entry. */
  lemma PendingCanGo(s: State, id: int, pending: set<int>)
    requires Lookups(s) && Tables(s, pending) && id in pending && id in s.mapInfo
    ensures CanDelete(s, id) && s.vRandom[s.Info(id).nRandomPos] == id
  {
    assert Placed(s, id) && Counted(s, pending, id);
    assert Ordered(s, |s.vRandom| - 1);
  }

  /** A pending entry goes; nothing changes about the other entries. */
  lemma DeleteKeeps(s: State, id: int, pending: set<int>, uncounted: int)
    requires Inv(s, pending, uncounted) && id in pending && id in s.mapInfo
    ensures 0 <= s.Info(id).nRandomPos < |s.vRandom|
    ensures Inv(Delete(s, id), pending - {id}, uncounted)
    ensures SameEntries(s.mapInfo - {id}, Delete(s, id).mapInfo)
    ensures Delete(s, id) == s.(mapInfo := Delete(s, id).mapInfo, mapAddr := s.mapAddr - {s.Service(id).ip},
                                vRandom := Delete(s, id).vRandom, nNew := s.nNew - 1)
  {
    hide Lookups, Tables, Totals, SwapRandom;
    PendingCanGo(s, id, pending);
    var p, last := s.Info(id).nRandomPos, |s.vRandom| - 1;
    SwapIsAPermutation(s, p, last);
    SwapKeeps(s, p, last, pending, uncounted);
    var t := SwapRandom(s, p, last);
    assert Core(s.mapInfo[id]) == Core(t.mapInfo[id]);
    DropKeeps(t, id, pending, uncounted);
  }

  lemma DropKeeps(s: State, id: int, pending: set<int>, uncounted: int)
    requires Inv(s, pending, uncounted) && id in pending && id in s.mapInfo
    requires |s.vRandom| > 0 && s.vRandom[|s.vRandom| - 1] == id
    ensures Inv(DropLast(s, id), pending - {id}, uncounted)
  {
    hide Lookups, TriedSlot, NewSlotIn;
    var t := DropLast(s, id);
    DropLookups(s, id);
    assert Counted(s, pending, id);
    IdsDrop(s.mapInfo, id);
    forall x | x in t.mapInfo ensures Counted(t, pending - {id}, x) {
      assert Counted(s, pending, x);
    }
    assert forall sl :: sl in s.vvNew && s.vvNew[sl] == id ==> sl in SlotsOf(s.vvNew, id);
    forall sl | sl in t.vvNew ensures NewSlotOk(t, sl) {
      assert NewSlotOk(s, sl);
    }
    forall sl | sl in t.vvTried ensures TriedSlotOk(t, sl) {
      assert TriedSlotOk(s, sl);
    }
  }

  lemma DropLookups(s: State, id: int)
    requires Lookups(s) && id in s.mapInfo
    requires |s.vRandom| > 0 && s.vRandom[|s.vRandom| - 1] == id
    ensures Lookups(DropLast(s, id))
  {
    var t := DropLast(s, id);
    var last := |s.vRandom| - 1;
    assert Ordered(s, last) && Placed(s, id);
    forall x | x in t.mapInfo ensures Placed(t, x) {
      assert Placed(s, x);
    }
    forall ip | ip in t.mapAddr ensures Indexed(t, ip) {
      assert Indexed(s, ip);
    }
    forall i | 0 <= i < |t.vRandom| ensures Ordered(t, i) {
      assert Ordered(s, i) && Placed(s, s.vRandom[i]);
    }
  }

  // ---------------------------------------------------------------- changes of one entry

  /** The lookups depend on nothing in an entry but its address and where it stands. */
  lemma PutKeepsLookups(s: State, id: int, info: CAddrInfo)
    requires Lookups(s) && id in s.mapInfo
    requires info.addr.service.ip == s.Service(id).ip && info.nRandomPos == s.Info(id).nRandomPos
    ensures Lookups(s.Put(id, info))
  {
    var t := s.Put(id, info);
    forall x | x in t.mapInfo ensures Placed(t, x) { assert Placed(s, x); }
    forall ip | ip in t.mapAddr ensures Indexed(t, ip) { assert Indexed(s, ip); }
    forall i | 0 <= i < |t.vRandom| ensures Ordered(t, i) { assert Ordered(s, i); }
  }

  /** The tables depend on nothing else in an entry than its address, its count and whether it is tried. */
  lemma PutKeepsTables(s: State, id: int, info: CAddrInfo, pending: set<int>)
    requires Tables(s, pending) && id in s.mapInfo
    requires info.addr.service == s.Service(id) && info.nRefCount == s.Info(id).nRefCount && info.fInTried == s.Info(id).fInTried
    ensures Tables(s.Put(id, info), pending)
  {
    hide TriedSlot, NewSlotIn;
    var t := s.Put(id, info);
    forall x | x in t.mapInfo ensures Counted(t, pending, x) { assert Counted(s, pending, x); }
    forall sl | sl in t.vvNew ensures NewSlotOk(t, sl) { assert NewSlotOk(s, sl); }
    forall sl | sl in t.vvTried ensures TriedSlotOk(t, sl) { assert TriedSlotOk(s, sl); }
  }

  lemma PutKeepsTotals(s: State, id: int, info: CAddrInfo, uncounted: int)
    requires Totals(s, uncounted) && id in s.mapInfo && info.fInTried == s.Info(id).fInTried
    ensures Totals(s.Put(id, info), uncounted)
  {
    hide TriedIds, NewIds;
    IdsKept(s.mapInfo, id, info);
  }

  // ---------------------------------------------------------------- changes of the tables

  /** An entry that stands in a slot of "new" is counted there, so it is not pending. */
  lemma SlotIsCounted(s: State, sl: Slot, pending: set<int>)
    requires Tables(s, pending) && sl in s.vvNew
    ensures s.vvNew[sl] in s.mapInfo && s.vvNew[sl] !in pending
    ensures s.Info(s.vvNew[sl]).nRefCount > 0 && !s.Info(s.vvNew[sl]).fInTried
  {
    assert NewSlotOk(s, sl) && Counted(s, pending, s.vvNew[sl]);
    assert sl in SlotsOf(s.vvNew, s.vvNew[sl]);
  }

  lemma UnrefCounted(s: State, sl: Slot, id: int, pending: set<int>, x: int)
    requires Tables(s, pending) && sl in s.vvNew && id == s.vvNew[sl] && id in s.mapInfo && id !in pending
    requires !s.Info(id).fInTried && s.Info(id).nRefCount > 0 && x in s.mapInfo
    ensures Counted(Unref(s, id).(vvNew := s.vvNew - {sl}), pending + if s.Info(id).nRefCount == 1 then {id} else {}, x)
  {
    hide TriedSlot, SlotsOf;
    assert Counted(s, pending, x);
    SlotsDrop(s.vvNew, sl, x);
  }

  lemma UnrefTables(s: State, sl: Slot, id: int, pending: set<int>)
    requires Tables(s, pending) && sl in s.vvNew && id == s.vvNew[sl]
    ensures Tables(Unref(s, id).(vvNew := s.vvNew - {sl}), pending + if s.Info(id).nRefCount == 1 then {id} else {})
  {
    hide TriedSlot, NewSlotIn, Counted;
    SlotIsCounted(s, sl, pending);
    var t := Unref(s, id).(vvNew := s.vvNew - {sl});
    forall x | x in t.mapInfo ensures Counted(t, pending + if s.Info(id).nRefCount == 1 then {id} else {}, x) {
      UnrefCounted(s, sl, id, pending, x);
    }
    forall l | l in t.vvNew ensures NewSlotOk(t, l) { assert NewSlotOk(s, l); }
    forall l | l in t.vvTried ensures TriedSlotOk(t, l) { assert TriedSlotOk(s, l); }
  }

  /** One reference less, which may leave the entry with none. */
  lemma UnrefKeeps(s: State, sl: Slot, pending: set<int>, uncounted: int)
    requires Inv(s, pending, uncounted) && sl in s.vvNew
    ensures Inv(Unref(s, s.vvNew[sl]).(vvNew := s.vvNew - {sl}),
                pending + if s.Info(s.vvNew[sl]).nRefCount == 1 then {s.vvNew[sl]} else {}, uncounted)
  {
    hide Lookups, Totals, Tables;
    var id := s.vvNew[sl];
    SlotIsCounted(s, sl, pending);
    var u := Unref(s, id);
    var t := u.(vvNew := s.vvNew - {sl});
    PutKeepsLookups(s, id, u.Info(id));
    SameLookups(u, t);
    PutKeepsTotals(s, id, u.Info(id), uncounted);
    SameTotals(u, t, uncounted);
    UnrefTables(s, sl, id, pending);
  }

  lemma SameTotals(s: State, t: State, uncounted: int)
    requires Totals(s, uncounted) && t.mapInfo == s.mapInfo && t.nNew == s.nNew && t.nTried == s.nTried
    ensures Totals(t, uncounted)
  {
  }

  /** Entries other than `id` are what they were, wherever they stand in vRandom now. */
  ghost predicate OthersKept(s: State, t: State, id: int) {
    && t.env == s.env && t.nKey == s.nKey && t.nIdCount == s.nIdCount
    && forall x :: x in s.mapInfo && x != id ==> x in t.mapInfo && Core(t.mapInfo[x]) == Core(s.mapInfo[x])
  }

  /** Clearing a slot keeps the invariant, and every entry but the one that stood there. */
  lemma ClearNewKeeps(s: State, sl: Slot, pending: set<int>, uncounted: int)
    requires Inv(s, pending, uncounted)
    ensures CanClear(s, sl)
    ensures Inv(ClearNew(s, sl), pending, uncounted)
    ensures ClearNew(s, sl).vvNew == s.vvNew - {sl} && ClearNew(s, sl).vvTried == s.vvTried
    ensures ClearNew(s, sl).nTried == s.nTried
    ensures sl in s.vvNew ==> s.vvNew[sl] !in pending && OthersKept(s, ClearNew(s, sl), s.vvNew[sl])
    ensures sl in s.vvNew ==> s.Info(s.vvNew[sl]).nRefCount > 0
    ensures sl !in s.vvNew ==> ClearNew(s, sl) == s
  {
    hide Lookups, Tables, Totals, Delete;
    if sl in s.vvNew {
      var id := s.vvNew[sl];
      SlotIsCounted(s, sl, pending);
      UnrefKeeps(s, sl, pending, uncounted);
      var t := Unref(s, id).(vvNew := s.vvNew - {sl});
      EntryPlaced(s, id);
      if t.Info(id).nRefCount == 0 {
        DeleteKeeps(t, id, pending + {id}, uncounted);
        assert pending + {id} - {id} == pending;
        assert SameEntries(t.mapInfo - {id}, Delete(t, id).mapInfo);
      } else {
        assert pending + {} == pending;
      }
    }
  }

  lemma EntryPlaced(s: State, id: int)
    requires Lookups(s) && id in s.mapInfo
    ensures 0 <= s.Info(id).nRandomPos < |s.vRandom|
  {
    assert Placed(s, id);
  }

  lemma EnterNewTables(s: State, id: int, sl: Slot, pending: set<int>)
    requires Tables(s, pending) && id in s.mapInfo && !s.Info(id).fInTried && sl !in s.vvNew
    requires 0 <= sl.bucket < NEW_BUCKET_COUNT && sl == NewSlotIn(s.env, s.nKey, s.Service(id), sl.bucket)
    requires s.Info(id).nRefCount < NEW_BUCKETS_PER_ADDRESS
    ensures Tables(EnterNew(s, id, sl, s.Info(id).nRefCount + 1), pending - {id})
  {
    hide TriedSlot, NewSlotIn;
    var t := EnterNew(s, id, sl, s.Info(id).nRefCount + 1);
    forall x | x in t.mapInfo ensures Counted(t, pending - {id}, x) {
      assert Counted(s, pending, x);
      SlotsPut(s.vvNew, sl, id, x);
    }
    forall l | l in t.vvNew ensures NewSlotOk(t, l) { assert l != sl ==> NewSlotOk(s, l); }
    forall l | l in t.vvTried ensures TriedSlotOk(t, l) { assert TriedSlotOk(s, l); }
  }

  /** A free slot of "new" is given to an untried entry that belongs there. */
  lemma EnterNewKeeps(s: State, id: int, sl: Slot, pending: set<int>, uncounted: int)
    requires Inv(s, pending, uncounted) && id in s.mapInfo && !s.Info(id).fInTried && sl !in s.vvNew
    requires 0 <= sl.bucket < NEW_BUCKET_COUNT && sl == NewSlotIn(s.env, s.nKey, s.Service(id), sl.bucket)
    requires s.Info(id).nRefCount < NEW_BUCKETS_PER_ADDRESS
    ensures Inv(EnterNew(s, id, sl, s.Info(id).nRefCount + 1), pending - {id}, uncounted)
  {
    hide Lookups, Totals, Tables, NewSlotIn;
    var info := s.Info(id).(nRefCount := s.Info(id).nRefCount + 1);
    var u := s.Put(id, info);
    var t := EnterNew(s, id, sl, info.nRefCount);
    PutKeepsLookups(s, id, info);
    SameLookups(u, t);
    PutKeepsTotals(s, id, info, uncounted);
    SameTotals(u, t, uncounted);
    EnterNewTables(s, id, sl, pending);
  }

  /** Out of all slots of "new" an entry is pending, and no longer counted. */
  lemma LeaveNewKeeps(s: State, id: int)
    requires Inv(s, {}, 0) && id in s.mapInfo && !s.Info(id).fInTried
    ensures Inv(LeaveNew(s, id), {id}, 1)
  {
    hide Lookups, TriedSlot, NewSlotIn;
    var info := s.Info(id).(nRefCount := 0);
    var u := s.Put(id, info);
    var t := LeaveNew(s, id);
    PutKeepsLookups(s, id, info);
    SameLookups(u, t);
    PutKeepsTotals(s, id, info, 0);
    assert SlotsOf(t.vvNew, id) == {};
    forall x | x in t.mapInfo ensures Counted(t, {id}, x) {
      assert Counted(s, {}, x);
      assert x != id ==> SlotsOf(t.vvNew, x) == SlotsOf(s.vvNew, x);
    }
    forall l | l in t.vvNew ensures NewSlotOk(t, l) { assert NewSlotOk(s, l); }
    forall l | l in t.vvTried ensures TriedSlotOk(t, l) { assert TriedSlotOk(s, l); }
  }

  /** Out of its slot of "tried" an entry is pending, and no longer counted. */
  lemma LeaveTriedKeeps(s: State, sl: Slot, pending: set<int>, uncounted: int)
    requires Inv(s, pending, uncounted) && sl in s.vvTried
    ensures s.vvTried[sl] in s.mapInfo && s.vvTried[sl] !in pending
    ensures Inv(LeaveTried(s, sl), pending + {s.vvTried[sl]}, uncounted + 1)
  {
    hide Lookups, TriedSlot, NewSlotIn, TriedIds, NewIds;
    var id := s.vvTried[sl];
    assert TriedSlotOk(s, sl) && Counted(s, pending, id);
    var info := s.Info(id).(fInTried := false);
    var u := s.Put(id, info);
    var t := LeaveTried(s, sl);
    PutKeepsLookups(s, id, info);
    SameLookups(u, t);
    IdsMoved(s.mapInfo, id, info);
    assert SlotsOf(s.vvNew, id) == {} by {
      assert forall l :: l in s.vvNew ==> NewSlotOk(s, l);
    }
    forall x | x in t.mapInfo ensures Counted(t, pending + {id}, x) {
      assert Counted(s, pending, x);
    }
    forall l | l in t.vvNew ensures NewSlotOk(t, l) { assert NewSlotOk(s, l); }
    forall l | l in t.vvTried ensures TriedSlotOk(t, l) { assert TriedSlotOk(s, l); }
  }

  lemma EnterTriedKeeps(s: State, id: int, sl: Slot, pending: set<int>, uncounted: int)
    requires Inv(s, pending, uncounted) && id in s.mapInfo && id in pending
    requires sl == TriedSlot(s.env, s.nKey, s.Service(id)) && sl !in s.vvTried
    ensures Inv(EnterTried(s, id, sl), pending - {id}, uncounted - 1)
  {
    hide Lookups, TriedSlot, NewSlotIn, TriedIds, NewIds;
    assert Counted(s, pending, id);
    var info := s.Info(id).(fInTried := true);
    var u := s.Put(id, info);
    var t := EnterTried(s, id, sl);
    PutKeepsLookups(s, id, info);
    SameLookups(u, t);
    IdsMoved(s.mapInfo, id, info);
    forall x | x in t.mapInfo ensures Counted(t, pending - {id}, x) {
      assert Counted(s, pending, x);
    }
    forall l | l in t.vvNew ensures NewSlotOk(t, l) {
      assert NewSlotOk(s, l);
      assert s.vvNew[l] == id ==> l in SlotsOf(s.vvNew, id);
    }
    forall l | l in t.vvTried ensures TriedSlotOk(t, l) { assert l != sl ==> TriedSlotOk(s, l); }
  }

  // ---------------------------------------------------------------- to "tried" and back

  /** Making an entry tried keeps the invariant, whether or not another entry has to leave its slot. */
  lemma MakeTriedKeeps(s: State, id: int)
    requires Consistent(s) && id in s.mapInfo && !s.Info(id).fInTried
    ensures CanMakeTried(s, id)
    ensures Consistent(MakeTried(s, id))
  {
    hide Lookups, Tables, Totals, TriedSlot, NewBucket, BucketPosition;
    var sl := TriedSlot(s.env, s.nKey, s.Service(id));
    var t := LeaveNew(s, id);
    LeaveNewKeeps(s, id);
    if sl in t.vvTried {
      EvictKeeps(t, sl, id);
      EnterTriedKeeps(Evict(t, sl), id, sl, {id}, 1);
    } else {
      EnterTriedKeeps(t, id, sl, {id}, 1);
    }
    assert {id} - {id} == {};
  }

  lemma EvictKeeps(s: State, sl: Slot, id: int)
    requires Inv(s, {id}, 1) && id in s.mapInfo && sl in s.vvTried
    ensures CanEvict(s, sl)
    ensures Inv(Evict(s, sl), {id}, 1)
    ensures Evict(s, sl).vvTried == s.vvTried - {sl}
    ensures Evict(s, sl).env == s.env && Evict(s, sl).nKey == s.nKey
    ensures id in Evict(s, sl).mapInfo && Core(Evict(s, sl).mapInfo[id]) == Core(s.mapInfo[id])
    ensures var e, usl, t := s.vvTried[sl], HomeSlot(s, s.vvTried[sl]), Evict(s, sl);
            && usl in t.vvNew && t.vvNew[usl] == e
            && e in t.mapInfo && t.mapInfo[e].nRefCount == 1 && !t.mapInfo[e].fInTried
  {
    hide Lookups, Tables, Totals, TriedSlot, NewBucket, BucketPosition, ClearNew;
    var e := s.vvTried[sl];
    var usl := HomeSlot(s, e);
    var t := LeaveTried(s, sl);
    LeaveTriedKeeps(s, sl, {id}, 1);
    assert {id} + {e} == {id, e};
    ClearNewKeeps(t, usl, {id, e}, 2);
    var u := ClearNew(t, usl);
    assert e in u.mapInfo && Core(u.mapInfo[e]) == Core(t.mapInfo[e]);
    assert id in u.mapInfo && Core(u.mapInfo[id]) == Core(t.mapInfo[id]);
    PendingCount(u, e, {id, e});
    EnterNewKeeps(u, e, usl, {id, e}, 2);
    assert {id, e} - {e} == {id};
    var v := EnterNew(u, e, usl, 1);
    SameBut(v, v.(nNew := v.nNew + 1), {id}, 2, 1);
  }

  lemma PendingCount(s: State, id: int, pending: set<int>)
    requires Tables(s, pending) && id in s.mapInfo && id in pending
    ensures !s.Info(id).fInTried && s.Info(id).nRefCount == 0
  {
    assert Counted(s, pending, id);
  }

  /** Counting an entry more in nNew. */
  lemma SameBut(s: State, t: State, pending: set<int>, uncounted: int, uncounted': int)
    requires Inv(s, pending, uncounted)
    requires t == s.(nNew := s.nNew + uncounted - uncounted')
    ensures Inv(t, pending, uncounted')
  {
    hide TriedSlot, NewSlotIn;
    SameLookups(s, t);
    forall id | id in t.mapInfo ensures Counted(t, pending, id) { assert Counted(s, pending, id); }
    forall sl | sl in t.vvNew ensures NewSlotOk(t, sl) { assert NewSlotOk(s, sl); }
    forall sl | sl in t.vvTried ensures TriedSlotOk(t, sl) { assert TriedSlotOk(s, sl); }
  }
}
