/** The file format of the address manager: what Serialize writes, and what Unserialize makes of any file. */
module AddrFile {
  import opened AddrTables
  import opened MapOrder

  /** What is written to and read from the stream. */
  datatype Token =
    | ByteTok(b: int)
    | KeyTok(nKey: int)
    | IntTok(n: int)
    | InfoTok(addr: Address, source: NetAddr, nLastSuccess: int, nAttempts: int)

  const BIT30: int := 0x4000_0000

  /** n ^ (1 << 30), in two's complement. */
  function Xor30(n: int): int { if n / BIT30 % 2 == 1 then n - BIT30 else n + BIT30 }

  /** That is bit 30 turned over, and doing it twice does nothing. */
  lemma Xor30Is(n: nat)
    requires n < 2_147_483_648
    ensures Xor30(n) == (if n >= 1_073_741_824 then n - 1_073_741_824 else n + 1_073_741_824) && Xor30(Xor30(n)) == n
  {
  }

  function InfoToken(info: CAddrInfo): Token {
    InfoTok(info.addr, info.source, info.nLastSuccess, info.nAttempts)
  }

  /** Reading from the stream into an entry: what is in memory only stays as it was. */
  function ReadOver(info: CAddrInfo, t: Token): CAddrInfo
    requires t.InfoTok?
  {
    info.(addr := t.addr, source := t.source, nLastSuccess := t.nLastSuccess, nAttempts := t.nAttempts)
  }

  // ---------------------------------------------------------------- what Serialize writes

  /** The entries with references, in the order given. */
  ghost function NewOf(s: State, ids: seq<int>): seq<int> {
    if ids == [] then []
    else
      var id := ids[|ids| - 1];
      NewOf(s, ids[..|ids| - 1]) + if s.Info(id).nRefCount != 0 then [id] else []
  }

  ghost function TriedOf(s: State, ids: seq<int>): seq<int> {
    if ids == [] then []
    else
      var id := ids[|ids| - 1];
      TriedOf(s, ids[..|ids| - 1]) + if s.Info(id).fInTried then [id] else []
  }

  /** mapUnkIds: for every id the number of entries with references before it. */
  ghost function UnkIds(s: State, ids: seq<int>): map<int, int> {
    if ids == [] then map[]
    else UnkIds(s, ids[..|ids| - 1])[ids[|ids| - 1] := |NewOf(s, ids[..|ids| - 1])|]
  }

  ghost function InfoTokens(s: State, ids: seq<int>): seq<Token> {
    if ids == [] then [] else InfoTokens(s, ids[..|ids| - 1]) + [InfoToken(s.Info(ids[|ids| - 1]))]
  }

  /** The ids in the first `n` slots of bucket `b`. */
  function BucketIds(t: map<Slot, int>, b: int, n: nat): seq<int> {
    if n == 0 then []
    else BucketIds(t, b, n - 1) + if Slot(b, n - 1) in t then [t[Slot(b, n - 1)]] else []
  }

  function Unk(u: map<int, int>, id: int): int { if id in u then u[id] else 0 }

  ghost function IndexTokens(u: map<int, int>, ids: seq<int>): seq<Token> {
    if ids == [] then [] else IndexTokens(u, ids[..|ids| - 1]) + [IntTok(Unk(u, ids[|ids| - 1]))]
  }

  ghost function BucketTokens(s: State, u: map<int, int>, b: int): seq<Token> {
    var ids := BucketIds(s.vvNew, b, BUCKET_SIZE);
    [IntTok(|ids|)] + IndexTokens(u, ids)
  }

  ghost function BucketsTokens(s: State, u: map<int, int>, n: nat): seq<Token> {
    if n == 0 then [] else BucketsTokens(s, u, n - 1) + BucketTokens(s, u, n - 1)
  }

  function Header(s: State): seq<Token> {
    [ByteTok(1), ByteTok(32), KeyTok(s.nKey), IntTok(s.nNew), IntTok(s.nTried), IntTok(Xor30(NEW_BUCKET_COUNT))]
  }

  ghost function FileOf(s: State): seq<Token> {
    var ids := Sorted(s.mapInfo.Keys);
    Header(s) + InfoTokens(s, NewOf(s, ids)) + InfoTokens(s, TriedOf(s, ids))
    + BucketsTokens(s, UnkIds(s, ids), NEW_BUCKET_COUNT)
  }

  // ---------------------------------------------------------------- what Unserialize makes of a file

  datatype Load = Load(state: State, at: nat) | Failed

  /** Clear(): the maps are left as they were. */
  function Clear(s: State, nKey: int): State {
    s.(vRandom := [], nKey := nKey, vvNew := map[], vvTried := map[], nIdCount := 0, nTried := 0, nNew := 0)
  }

  /** One entry of the "new" table; if the bucket numbers cannot be used it is given its home slot. */
  function LoadNewEntry(s: State, tok: Token, n: int, usable: bool): State
    requires tok.InfoTok?
  {
    var info := ReadOver(s.Info(n), tok);
    var t := s.Put(n, info.(nRandomPos := |s.vRandom|)).(
      mapAddr := s.mapAddr[info.addr.service.ip := n], vRandom := s.vRandom + [n]);
    var sl := NewSlot(s.env, s.nKey, info.addr.service, info.source);
    if usable || sl in s.vvNew then t
    else t.Put(n, t.Info(n).(nRefCount := t.Info(n).nRefCount + 1)).(vvNew := s.vvNew[sl := n])
  }

  function LoadNew(s: State, toks: seq<Token>, at: nat, n: int, nNew: int, usable: bool): Load
    decreases nNew - n
  {
    if n >= nNew then Load(s, at)
    else if at < |toks| && toks[at].InfoTok? then
      LoadNew(LoadNewEntry(s, toks[at], n, usable), toks, at + 1, n + 1, nNew, usable)
    else Failed
  }

  /** One entry of the "tried" table, which is lost if its slot is taken. */
  function LoadTriedEntry(s: State, info: CAddrInfo): State {
    var sl := TriedSlot(s.env, s.nKey, info.addr.service);
    var id := s.nIdCount;
    if sl in s.vvTried then s
    else
      s.Put(id, info.(nRandomPos := |s.vRandom|, fInTried := true)).(
        vRandom := s.vRandom + [id], mapAddr := s.mapAddr[info.addr.service.ip := id],
        vvTried := Written(s.vvTried, sl, id), nIdCount := id + 1)
  }

  function LoadTried(s: State, toks: seq<Token>, at: nat, n: int, nTried: int, nLost: int): Load
    decreases nTried - n
  {
    if n >= nTried then Load(s.(nTried := s.nTried - nLost), at)
    else if at < |toks| && toks[at].InfoTok? then
      var info := ReadOver(EMPTY_INFO, toks[at]);
      var lost := TriedSlot(s.env, s.nKey, info.addr.service) in s.vvTried;
      LoadTried(LoadTriedEntry(s, info), toks, at + 1, n + 1, nTried, if lost then nLost + 1 else nLost)
    else Failed
  }

  /** One position of a bucket of "new". */
  function LoadIndex(s: State, bucket: int, nIndex: int, usable: bool): State {
    if !(0 <= nIndex < s.nNew) then s
    else
      var info := s.Info(nIndex);
      var sl := NewSlotIn(s.env, s.nKey, info.addr.service, bucket);
      if usable && sl !in s.vvNew && info.nRefCount < NEW_BUCKETS_PER_ADDRESS then
        s.Put(nIndex, info.(nRefCount := info.nRefCount + 1)).(vvNew := s.vvNew[sl := nIndex])
      else s.Put(nIndex, info)
  }

  function LoadBucket(s: State, toks: seq<Token>, at: nat, bucket: int, n: int, nSize: int, usable: bool): Load
    decreases nSize - n
  {
    if n >= nSize then Load(s, at)
    else if at < |toks| && toks[at].IntTok? then
      LoadBucket(LoadIndex(s, bucket, toks[at].n, usable), toks, at + 1, bucket, n + 1, nSize, usable)
    else Failed
  }

  function LoadBuckets(s: State, toks: seq<Token>, at: nat, bucket: int, nUBuckets: int, usable: bool): Load
    decreases nUBuckets - bucket
  {
    if bucket >= nUBuckets then Load(s, at)
    else if at < |toks| && toks[at].IntTok? then
      var r := LoadBucket(s, toks, at + 1, bucket, 0, toks[at].n, usable);
      if r.Failed? then Failed else LoadBuckets(r.state, toks, r.at, bucket + 1, nUBuckets, usable)
    else Failed
  }

  /** Entries in no table are deleted; Failed is a failed assertion. */
  function Prune(s: State, ids: seq<int>, at: nat): Load
    decreases |ids|
  {
    if ids == [] then Load(s, at)
    else if s.Info(ids[0]).fInTried || s.Info(ids[0]).nRefCount != 0 then Prune(s, ids[1..], at)
    else if CanDelete(s, ids[0]) then Prune(Delete(s, ids[0]), ids[1..], at)
    else Failed
  }

  /** The six fields before the entries. */
  predicate HasHeader(toks: seq<Token>) {
    && |toks| >= 6 && toks[0].ByteTok? && toks[1].ByteTok? && toks[1].b == 32 && toks[2].KeyTok?
    && toks[3].IntTok? && toks[4].IntTok? && toks[5].IntTok?
  }

  /** Everything up to the end of the stream, before entries in no table are deleted. */
  function ReadTables(s: State, toks: seq<Token>): Load {
    if !HasHeader(toks) then Failed
    else
      var nVersion := toks[0].b;
      var nUBuckets := if nVersion != 0 then Xor30(toks[5].n) else toks[5].n;
      var usable := nVersion == 1 && nUBuckets == NEW_BUCKET_COUNT;
      var t := Clear(s, toks[2].nKey).(nNew := toks[3].n, nTried := toks[4].n);
      var r1 := LoadNew(t, toks, 6, 0, t.nNew, usable);
      if r1.Failed? then Failed
      else
        var r2 := LoadTried(r1.state.(nIdCount := t.nNew), toks, r1.at, 0, t.nTried, 0);
        if r2.Failed? then Failed else LoadBuckets(r2.state, toks, r2.at, 0, nUBuckets, usable)
  }

  ghost function LoadFile(s: State, toks: seq<Token>): Load {
    var r := ReadTables(s, toks);
    if r.Failed? then Failed else Prune(r.state, Sorted(r.state.mapInfo.Keys), r.at)
  }

  /** An empty manager: its maps have nothing in them, whatever else it has been through. */
  ghost predicate Fresh(s: State, env: Env) { s.env == env && s.mapInfo == map[] && s.mapAddr == map[] }

  /** Where every entry is in a table there is nothing to prune. */
  lemma {:induction false} NothingToPrune(s: State, ids: seq<int>, at: nat)
    requires forall id :: id in ids ==> s.Info(id).fInTried || s.Info(id).nRefCount != 0
    ensures Prune(s, ids, at) == Load(s, at)
  {
    if ids != [] {
      assert ids[0] in ids;
      NothingToPrune(s, ids[1..], at);
    }
  }
}
