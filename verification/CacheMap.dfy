/**
 The bounded map with one value for a key: inserting an existing key overwrites the value in the list
 node where it stands.
 */
module CacheMap {
  import opened MapOrder
  import opened CacheMultiMap

  class Node {
    const key: Key
    var value: Value

    constructor (key: Key, value: Value)
      ensures this.key == key && this.value == value
    {
      this.key := key;
      this.value := value;
    }
  }

  function Listed(l: seq<Node>): (c: seq<Pair>)
    reads l
    ensures |c| == |l| && forall i :: 0 <= i < |l| ==> c[i] == Pair(l[i].key, l[i].value)
  {
    seq(|l|, i requires 0 <= i < |l| reads l => Pair(l[i].key, l[i].value))
  }

  ghost predicate KeysOnce(c: seq<Pair>) { forall i, j :: 0 <= i < j < |c| ==> c[i].key != c[j].key }

  // ---------------------------------------------------------------- what the contents are to be

  /** The place of a key, or the length. */
  function PlaceOf(c: seq<Pair>, k: Key): (i: nat)
    ensures i <= |c| && (i < |c| ==> c[i].key == k) && forall j :: 0 <= j < i ==> c[j].key != k
  {
    if c == [] || c[0].key == k then 0
    else
      var i := PlaceOf(c[1..], k);
      assert forall j :: 1 <= j < i + 1 ==> c[j] == c[1..][j - 1];
      i + 1
  }

  /** A key that is there keeps its place; a new one goes in front, and the oldest may go. */
  function Stored(c: seq<Pair>, nMaxSize: nat, k: Key, v: Value): seq<Pair> {
    var i := PlaceOf(c, k);
    if i < |c| then c[i := Pair(k, v)] else [Pair(k, v)] + RoomMade(c, nMaxSize)
  }

  /** After inserting, the key has the value; keys stay distinct, and a maximum of one or more is kept. */
  lemma StoredIs(c: seq<Pair>, nMaxSize: nat, k: Key, v: Value)
    requires KeysOnce(c)
    ensures KeysOnce(Stored(c, nMaxSize, k, v)) && Pair(k, v) in Stored(c, nMaxSize, k, v)
    ensures nMaxSize >= 1 && |c| <= nMaxSize ==> |Stored(c, nMaxSize, k, v)| <= nMaxSize
    ensures forall q :: q in Stored(c, nMaxSize, k, v) && q.key != k ==> q in c
    ensures forall q :: q in c && q.key != k && q !in Stored(c, nMaxSize, k, v) ==>
              q == c[|c| - 1] && |c| == nMaxSize && !HasKey(c, k)
  {
    var i := PlaceOf(c, k);
    var d := Stored(c, nMaxSize, k, v);
    if i < |c| {
      assert d[i] == Pair(k, v);
      forall q | q in c && q.key != k ensures q in d {
        var j :| 0 <= j < |c| && c[j] == q;
        assert d[j] == q;
      }
    } else {
      var r := RoomMade(c, nMaxSize);
      assert d[0] == Pair(k, v) && !HasKey(c, k);
      forall j | 0 <= j < |r| ensures c[j] in d {
        assert d[j + 1] == c[j];
      }
    }
  }

  lemma {:induction false} WithoutNone(c: seq<Pair>, k: Key)
    requires forall i :: 0 <= i < |c| ==> c[i].key != k
    ensures WithoutKey(c, k) == c
  {
    if c != [] {
      WithoutNone(c[..|c| - 1], k);
      assert c == c[..|c| - 1] + [c[|c| - 1]];
    }
  }

  lemma {:induction false} WithoutParts(a: seq<Pair>, b: seq<Pair>, k: Key)
    ensures WithoutKey(a + b, k) == WithoutKey(a, k) + WithoutKey(b, k)
  {
    if b == [] {
      assert a + b == a;
    } else {
      var n := |b| - 1;
      WithoutParts(a, b[..n], k);
      assert (a + b)[..|a + b| - 1] == a + b[..n];
    }
  }

  /** With each key once, erasing a key takes out what stands in its place. */
  lemma ErasedIs(c: seq<Pair>, i: nat, k: Key)
    requires KeysOnce(c) && i < |c| && c[i].key == k
    ensures WithoutKey(c, k) == c[..i] + c[i + 1..]
  {
    hide WithoutKey, KeysOnce;
    var a, x, b := c[..i], c[i], c[i + 1..];
    KeyNowhereElse(c, i, k, a, b);
    WithoutNone(a, k);
    WithoutNone(b, k);
    WithoutParts(a, [x] + b, k);
    WithoutParts([x], b, k);
    WithoutOne(x, k);
  }

  lemma KeyNowhereElse(c: seq<Pair>, i: nat, k: Key, a: seq<Pair>, b: seq<Pair>)
    requires KeysOnce(c) && i < |c| && c[i].key == k && a == c[..i] && b == c[i + 1..]
    ensures (forall j :: 0 <= j < |a| ==> a[j].key != k) && (forall j :: 0 <= j < |b| ==> b[j].key != k)
    ensures c == a + ([c[i]] + b)
  {
  }

  lemma WithoutOne(p: Pair, k: Key)
    requires p.key == k
    ensures WithoutKey([p], k) == []
  {
    assert [p][..0] == [];
  }

  // ---------------------------------------------------------------- list and index

  /** Index and list correspond one to one. */
  ghost predicate Matches(l: seq<Node>, m: map<Key, Node>) {
    && NoRepeats(l)
    && (forall n :: n in l ==> n.key in m && m[n.key] == n)
    && (forall k :: k in m ==> m[k] in l && m[k].key == k)
  }

  lemma Pushed(l: seq<Node>, m: map<Key, Node>, n: Node)
    requires Matches(l, m) && n !in l && n.key !in m
    ensures Matches([n] + l, m[n.key := n])
  {
    assert forall x :: x in [n] + l <==> x == n || x in l;
  }

  lemma Popped(l: seq<Node>, m: map<Key, Node>)
    requires Matches(l, m) && l != []
    ensures Matches(l[..|l| - 1], m - {l[|l| - 1].key})
  {
    var r, n := l[..|l| - 1], l[|l| - 1];
    assert l == r + [n] && n !in r;
    assert forall x :: x in l <==> x == n || x in r;
    assert m[n.key] == n;
  }

  /** Where in the list an iterator points. */
  function At(l: seq<Node>, n: Node): (i: nat)
    requires n in l
    ensures i < |l| && l[i] == n
  {
    if l[0] == n then 0 else At(l[1..], n) + 1
  }

  lemma ListedWithout(l: seq<Node>, i: nat)
    requires i < |l|
    ensures Listed(l[..i] + l[i + 1..]) == Listed(l)[..i] + Listed(l)[i + 1..]
  {
  }

  lemma Removed(l: seq<Node>, i: nat, m: map<Key, Node>)
    requires Matches(l, m) && i < |l|
    ensures Matches(l[..i] + l[i + 1..], m - {l[i].key})
  {
    var r, n := l[..i] + l[i + 1..], l[i];
    forall x ensures x in l <==> x == n || x in r {
      if x in l {
        var j :| 0 <= j < |l| && l[j] == x;
        assert j < i ==> r[j] == x;
        assert j > i ==> r[j - 1] == x;
      }
    }
    assert n !in r;
    assert m[n.key] == n;
  }

  lemma Determined(l: seq<Node>, m: map<Key, Node>, m': map<Key, Node>)
    requires Matches(l, m) && Matches(l, m')
    ensures m == m'
  {
    forall k ensures k in m <==> k in m' {
      assert k in m ==> m[k] in l;
      assert k in m' ==> m'[k] in l;
    }
    forall k | k in m ensures m[k] == m'[k] {
      assert m[k] in l;
    }
  }

  // ---------------------------------------------------------------- the map

  class CacheMap {
    var nMaxSize: nat
    var nCurrentSize: nat
    var listItems: seq<Node>
    var mapIndex: map<Key, Node>

    ghost predicate Valid()
      reads this
    {
      nCurrentSize == |listItems| && Matches(listItems, mapIndex)
    }

    ghost function Contents(): seq<Pair>
      reads this, listItems
    {
      Listed(listItems)
    }

    constructor (nMaxSizeIn: nat)
      ensures Valid() && listItems == [] && nMaxSize == nMaxSizeIn
    {
      nMaxSize, nCurrentSize, listItems, mapIndex := nMaxSizeIn, 0, [], map[];
    }

    lemma KeysAreOnce()
      requires Valid()
      ensures KeysOnce(Contents())
    {
      forall i, j | 0 <= i < j < |listItems| ensures listItems[i].key != listItems[j].key {
        assert listItems[i] in listItems && listItems[j] in listItems;
      }
    }

    lemma Finds(k: Key)
      requires Valid()
      ensures k in mapIndex <==> PlaceOf(Contents(), k) < |listItems|
      ensures k in mapIndex ==> listItems[PlaceOf(Contents(), k)] == mapIndex[k]
    {
      var i := PlaceOf(Contents(), k);
      if k in mapIndex {
        var j :| 0 <= j < |listItems| && listItems[j] == mapIndex[k];
        assert Contents()[j].key == k;
      }
      if i < |listItems| {
        assert listItems[i] in listItems;
      }
    }

    method PruneLast()
      requires Valid()
      modifies this
      ensures Valid() && Contents() == Pruned(old(Contents())) && nMaxSize == old(nMaxSize)
      ensures listItems <= old(listItems) && forall n :: n in listItems ==> n in old(listItems)
    {
      hide Matches;
      if nCurrentSize < 1 {
        return;
      }
      Popped(listItems, mapIndex);
      var item := listItems[|listItems| - 1];
      mapIndex := mapIndex - {item.key};
      listItems := listItems[..|listItems| - 1];
      nCurrentSize := nCurrentSize - 1;
    }

    method Insert(key: Key, value: Value)
      requires Valid()
      modifies this, listItems
      ensures Valid() && Contents() == Stored(old(Contents()), nMaxSize, key, value) && nMaxSize == old(nMaxSize)
      ensures forall n :: n in listItems ==> n in old(listItems) || fresh(n)
    {
      hide PlaceOf;
      Finds(key);
      if key in mapIndex {
        Overwrite(key, value);
        return;
      }
      if nCurrentSize == nMaxSize {
        PruneLast();
      }
      PushFront(key, value);
    }

    /** The node that has the key gets the value; the list and the index stay as they are. */
    method Overwrite(key: Key, value: Value)
      requires Valid() && key in mapIndex
      modifies listItems
      ensures Valid() && PlaceOf(old(Contents()), key) < |listItems|
      ensures Contents() == old(Contents())[PlaceOf(old(Contents()), key) := Pair(key, value)]
    {
      hide PlaceOf;
      Finds(key);
      var item := mapIndex[key];
      item.value := value;
    }

    method PushFront(key: Key, value: Value)
      requires Valid() && key !in mapIndex
      modifies this
      ensures Valid() && Contents() == [Pair(key, value)] + old(Contents()) && nMaxSize == old(nMaxSize)
      ensures |listItems| > 0 && fresh(listItems[0]) && listItems[1..] == old(listItems)
    {
      hide Matches;
      var item := new Node(key, value);
      Pushed(listItems, mapIndex, item);
      listItems := [item] + listItems;
      mapIndex := mapIndex[key := item];
      nCurrentSize := nCurrentSize + 1;
    }

    method Erase(key: Key)
      requires Valid()
      modifies this
      ensures Valid() && Contents() == WithoutKey(old(Contents()), key) && nMaxSize == old(nMaxSize)
      ensures forall n :: n in listItems ==> n in old(listItems)
    {
      hide Matches, PlaceOf, WithoutKey, KeysOnce;
      Finds(key);
      KeysAreOnce();
      if key !in mapIndex {
        WithoutNone(Contents(), key);
        return;
      }
      var it := At(listItems, NodeOf(key));
      NodeStands(key, it);
      ErasedIs(Contents(), it, key);
      Removed(listItems, it, mapIndex);
      listItems := listItems[..it] + listItems[it + 1..];
      mapIndex := mapIndex - {key};
      nCurrentSize := nCurrentSize - 1;
      ListedWithout(old(listItems), it);
    }

    /** Where the index leads. */
    function NodeOf(key: Key): (n: Node)
      requires Valid() && key in mapIndex
      reads this
      ensures n in listItems
    {
      mapIndex[key]
    }

    lemma NodeStands(key: Key, i: nat)
      requires Valid() && key in mapIndex && i < |listItems| && listItems[i] == mapIndex[key]
      ensures Contents()[i].key == listItems[i].key == key
    {
    }

    method HasAny(key: Key) returns (found: bool)
      requires Valid()
      ensures found <==> HasKey(Contents(), key)
    {
      Finds(key);
      found := key in mapIndex;
      assert found ==> Contents()[PlaceOf(Contents(), key)].key == key;
    }

    method Clear()
      modifies this
      ensures Valid() && Contents() == [] && nMaxSize == old(nMaxSize)
    {
      mapIndex, listItems, nCurrentSize := map[], [], 0;
    }

    method Get(key: Key) returns (found: bool, value: Value)
      requires Valid()
      ensures found <==> HasKey(Contents(), key)
      ensures found ==> Pair(key, value) in Contents()
    {
      Finds(key);
      if key !in mapIndex {
        return false, 0;
      }
      assert Contents()[PlaceOf(Contents(), key)] == Pair(key, mapIndex[key].value);
      return true, mapIndex[key].value;
    }

    /**
     Builds the index anew from any list, also one read from a stream: each key leads to the last node
     that has it. The map is then right exactly if no key is repeated and the size field is the length.
     */
    method RebuildIndex()
      modifies this`mapIndex
      ensures LeadsToLastNode(listItems, mapIndex)
      ensures NoRepeats(listItems) ==> (Valid() <==> nCurrentSize == |listItems| && KeysOnce(Contents()))
      ensures old(Valid()) ==> mapIndex == old(mapIndex)
    {
      hide Matches, LeadsToLastNode;
      mapIndex := map[];
      NothingLeads();
      for i := 0 to |listItems|
        invariant LeadsToLastNode(listItems[..i], mapIndex)
      {
        NextLeads(listItems, i, mapIndex);
        mapIndex := mapIndex[listItems[i].key := listItems[i]];
      }
      assert listItems[..|listItems|] == listItems;
      if NoRepeats(listItems) {
        MatchesIff(listItems, mapIndex);
      }
      if old(Valid()) {
        DifferentNodes(listItems, old(mapIndex));
        MatchesIff(listItems, mapIndex);
        Determined(listItems, mapIndex, old(mapIndex));
      }
    }
  }

  // ---------------------------------------------------------------- whole runs

  datatype MapOp = StoreOp(p: Pair) | RemoveOp(k: Key) | DropOp

  function Performed(c: seq<Pair>, nMaxSize: nat, op: MapOp): seq<Pair> {
    match op
    case StoreOp(p) => Stored(c, nMaxSize, p.key, p.value)
    case RemoveOp(k) => WithoutKey(c, k)
    case DropOp => Pruned(c)
  }

  /** The contents after a run of operations. */
  function AllPerformed(c: seq<Pair>, nMaxSize: nat, ops: seq<MapOp>): seq<Pair> {
    if ops == [] then c else Performed(AllPerformed(c, nMaxSize, ops[..|ops| - 1]), nMaxSize, ops[|ops| - 1])
  }

  lemma PrunedKeysOnce(c: seq<Pair>)
    requires KeysOnce(c)
    ensures KeysOnce(Pruned(c)) && |Pruned(c)| <= |c|
  {
  }

  lemma RemovedKeysOnce(c: seq<Pair>, k: Key)
    requires KeysOnce(c)
    ensures KeysOnce(WithoutKey(c, k)) && |WithoutKey(c, k)| <= |c|
  {
    hide WithoutKey;
    var i := PlaceOf(c, k);
    if i < |c| {
      ErasedIs(c, i, k);
    } else {
      WithoutNone(c, k);
    }
  }

  /** No run of insertions, erasures and evictions repeats a key or exceeds a fixed maximum of one or more. */
  lemma {:induction false} RunKeeps(nMaxSize: nat, ops: seq<MapOp>)
    ensures KeysOnce(AllPerformed([], nMaxSize, ops))
    ensures nMaxSize >= 1 ==> |AllPerformed([], nMaxSize, ops)| <= nMaxSize
  {
    hide Stored, WithoutKey, Pruned, KeysOnce;
    if ops == [] {
      NoKeys();
    } else {
      var c, op := AllPerformed([], nMaxSize, ops[..|ops| - 1]), ops[|ops| - 1];
      RunKeeps(nMaxSize, ops[..|ops| - 1]);
      match op
      case StoreOp(p) => StoredIs(c, nMaxSize, p.key, p.value);
      case RemoveOp(k) => RemovedKeysOnce(c, k);
      case DropOp => PrunedKeysOnce(c);
    }
  }

  lemma NoKeys()
    ensures KeysOnce([])
  {
  }

  method Perform(m: CacheMap, op: MapOp)
    requires m.Valid()
    modifies m, m.listItems
    ensures m.Valid() && m.Contents() == Performed(old(m.Contents()), m.nMaxSize, op) && m.nMaxSize == old(m.nMaxSize)
    ensures forall k :: 0 <= k < |m.listItems| ==> m.listItems[k] in old(m.listItems) || fresh(m.listItems[k])
  {
    match op {
    case StoreOp(p) => m.Insert(p.key, p.value);
    case RemoveOp(k) => m.Erase(k);
    case DropOp => m.PruneLast();
    }
  }

  /** A map that has been through any such run since it was made. */
  method RunThrough(nMaxSize: nat, ops: seq<MapOp>) returns (m: CacheMap)
    ensures fresh(m) && m.Valid() && m.Contents() == AllPerformed([], nMaxSize, ops)
    ensures KeysOnce(m.Contents()) && (nMaxSize >= 1 ==> m.nCurrentSize <= nMaxSize)
  {
    hide Performed, Matches;
    m := new CacheMap(nMaxSize);
    for i := 0 to |ops|
      invariant fresh(m) && m.Valid() && m.nMaxSize == nMaxSize && m.Contents() == AllPerformed([], nMaxSize, ops[..i])
      invariant forall k :: 0 <= k < |m.listItems| ==> fresh(m.listItems[k])
    {
      assert ops[..i + 1][..i] == ops[..i];
      Perform(m, ops[i]);
    }
    assert ops[..|ops|] == ops;
    RunKeeps(nMaxSize, ops);
  }

  // ---------------------------------------------------------------- the index of any list

  /** No later node has the same key. */
  ghost predicate IsLast(l: seq<Node>, i: nat)
    requires i < |l|
  {
    forall j :: i < j < |l| ==> l[j].key != l[i].key
  }

  /** Every key of the list, and no other, leads to the last node that has it. */
  ghost predicate LeadsToLastNode(l: seq<Node>, m: map<Key, Node>) {
    && (forall k :: k in m ==> m[k] in l && m[k].key == k)
    && (forall i: nat :: i < |l| && IsLast(l, i) ==> l[i].key in m && m[l[i].key] == l[i])
  }

  lemma NothingLeads()
    ensures LeadsToLastNode([], map[])
  {
  }

  lemma NextLeads(l: seq<Node>, i: nat, m: map<Key, Node>)
    requires i < |l| && LeadsToLastNode(l[..i], m)
    ensures LeadsToLastNode(l[..i + 1], m[l[i].key := l[i]])
  {
    hide IsLast;
    var a, b, n := l[..i], l[..i + 1], m[l[i].key := l[i]];
    forall k | k in n ensures n[k] in b && n[k].key == k {
      assert b == a + [l[i]];
    }
    forall j: nat | j < |b| && IsLast(b, j) ensures b[j].key in n && n[b[j].key] == b[j] {
      if j < i {
        LastBefore(l, i, j);
        assert b[j] == a[j];
      }
    }
  }

  lemma LastBefore(l: seq<Node>, i: nat, j: nat)
    requires j < i < |l| && IsLast(l[..i + 1], j)
    ensures IsLast(l[..i], j) && l[j].key != l[i].key
  {
    var a, b := l[..i], l[..i + 1];
    assert b[i].key != b[j].key;
    forall k | j < k < |a| ensures a[k].key != a[j].key {
      assert b[k].key != b[j].key;
    }
  }

  lemma DifferentNodes(l: seq<Node>, m: map<Key, Node>)
    requires Matches(l, m)
    ensures NoRepeats(l) && forall i, j :: 0 <= i < j < |l| ==> l[i].key != l[j].key
  {
    forall i, j | 0 <= i < j < |l| ensures l[i].key != l[j].key {
      assert l[i] in l && l[j] in l;
    }
  }

  /** In a list of different nodes that is a right index exactly if no key is repeated. */
  lemma MatchesIff(l: seq<Node>, m: map<Key, Node>)
    requires NoRepeats(l) && LeadsToLastNode(l, m)
    ensures Matches(l, m) <==> forall i, j :: 0 <= i < j < |l| ==> l[i].key != l[j].key
  {
    if Matches(l, m) {
      DifferentNodes(l, m);
    }
    if forall i, j :: 0 <= i < j < |l| ==> l[i].key != l[j].key {
      forall n | n in l ensures n.key in m && m[n.key] == n {
        var i :| 0 <= i < |l| && l[i] == n;
        assert IsLast(l, i);
      }
    }
  }
}
