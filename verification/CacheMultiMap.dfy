/**
 A bounded map with several values for a key: a list of items, newest first, and an index of
 positions in the list, kept in step. Keys and values stand for 256-bit numbers.
 */
module CacheMultiMap {
  import opened MapOrder

  type Key = int
  type Value = int

  datatype Pair = Pair(key: Key, value: Value)

  /** A node of the list; a position in the list is a reference to its node. */
  class Item {
    const key: Key
    const value: Value

    constructor (key: Key, value: Value)
      ensures this.key == key && this.value == value
    {
      this.key := key;
      this.value := value;
    }
  }

  type Index = map<Key, map<Value, Item>>

  // ---------------------------------------------------------------- what the contents are to be

  predicate Ascending(s: seq<Value>) { forall i, j :: 0 <= i < j < |s| ==> s[i] < s[j] }

  function PairOf(n: Item): Pair { Pair(n.key, n.value) }

  function Pairs(l: seq<Item>): (c: seq<Pair>)
    ensures |c| == |l| && forall i :: 0 <= i < |l| ==> c[i] == PairOf(l[i])
  {
    seq(|l|, i requires 0 <= i < |l| => PairOf(l[i]))
  }

  /** Without the oldest. */
  function Pruned(c: seq<Pair>): seq<Pair> { if c == [] then c else c[..|c| - 1] }

  /** A full map makes room before it looks whether the pair is there already. */
  function RoomMade(c: seq<Pair>, nMaxSize: nat): seq<Pair> { if |c| == nMaxSize then Pruned(c) else c }

  function Inserted(c: seq<Pair>, nMaxSize: nat, p: Pair): seq<Pair> {
    var d := RoomMade(c, nMaxSize);
    if p in d then d else [p] + d
  }

  function WithoutKey(c: seq<Pair>, k: Key): seq<Pair> {
    if c == [] then []
    else WithoutKey(c[..|c| - 1], k) + if c[|c| - 1].key == k then [] else [c[|c| - 1]]
  }

  function WithoutPair(c: seq<Pair>, p: Pair): seq<Pair> {
    if c == [] then []
    else WithoutPair(c[..|c| - 1], p) + if c[|c| - 1] == p then [] else [c[|c| - 1]]
  }

  // ---------------------------------------------------------------- what the contents mean

  /** With a maximum of one or more that is not exceeded, inserting keeps to it, and repeats no pair. */
  lemma InsertedFits(c: seq<Pair>, nMaxSize: nat, p: Pair)
    requires nMaxSize >= 1 && |c| <= nMaxSize && NoRepeats(c)
    ensures |Inserted(c, nMaxSize, p)| <= nMaxSize && NoRepeats(Inserted(c, nMaxSize, p))
    ensures p in Inserted(c, nMaxSize, p)
    ensures forall q :: q in RoomMade(c, nMaxSize) ==> q in Inserted(c, nMaxSize, p)
  {
    var d := RoomMade(c, nMaxSize);
    assert p !in d ==> forall q :: q in [p] + d <==> q == p || q in d;
  }

  /**
   The oldest pair is evicted exactly when the map is full. Inserting a pair that is there already, and
   is not the oldest, into a full map makes the map smaller.
   */
  lemma EvictsTheOldest(c: seq<Pair>, nMaxSize: nat, p: Pair)
    requires c != [] && NoRepeats(c)
    ensures c[|c| - 1] != p ==> (c[|c| - 1] in Inserted(c, nMaxSize, p) <==> |c| != nMaxSize)
    ensures |Inserted(c, nMaxSize, p)| < |c| <==> |c| == nMaxSize && p in c[..|c| - 1]
  {
    var last := c[|c| - 1];
    assert last in c && last !in c[..|c| - 1];
    var d := RoomMade(c, nMaxSize);
    assert p !in d ==> forall q :: q in [p] + d <==> q == p || q in d;
  }

  /** A map made with maximum zero has no maximum: the size is compared before it is increased. */
  lemma ZeroIsNoLimit(c: seq<Pair>, p: Pair)
    requires p !in c
    ensures |Inserted(c, 0, p)| == |c| + 1
  {
  }

  /** The contents after a run of insertions. */
  function InsertAll(c: seq<Pair>, nMaxSize: nat, ps: seq<Pair>): seq<Pair> {
    if ps == [] then c else Inserted(InsertAll(c, nMaxSize, ps[..|ps| - 1]), nMaxSize, ps[|ps| - 1])
  }

  function Reversed(ps: seq<Pair>): (r: seq<Pair>)
    ensures |r| == |ps| && forall i :: 0 <= i < |ps| ==> r[i] == ps[|ps| - 1 - i]
  {
    if ps == [] then [] else [ps[|ps| - 1]] + Reversed(ps[..|ps| - 1])
  }

  lemma NotAmong(ps: seq<Pair>, c: seq<Pair>)
    requires ps != [] && NoRepeats(ps) && |c| < |ps| && c <= Reversed(ps[..|ps| - 1])
    ensures ps[|ps| - 1] !in c
  {
    hide Reversed;
    var r := ps[..|ps| - 1];
    forall i | 0 <= i < |c| ensures c[i] != ps[|ps| - 1] {
      assert c[i] == Reversed(r)[i] == r[|r| - 1 - i] == ps[|r| - 1 - i];
    }
  }

  /** Where nothing is inserted twice the map holds the most recently inserted pairs, newest first. */
  lemma {:induction false} KeepsTheLatest(nMaxSize: nat, ps: seq<Pair>)
    requires nMaxSize >= 1 && NoRepeats(ps)
    ensures InsertAll([], nMaxSize, ps) == Reversed(ps)[..if |ps| <= nMaxSize then |ps| else nMaxSize]
  {
    if ps != [] {
      var r, p := ps[..|ps| - 1], ps[|ps| - 1];
      KeepsTheLatest(nMaxSize, r);
      var c := InsertAll([], nMaxSize, r);
      NotAmong(ps, c);
      assert Inserted(c, nMaxSize, p) == [p] + RoomMade(c, nMaxSize);
      assert Reversed(ps) == [p] + Reversed(r);
      if |r| < nMaxSize {
        assert c == Reversed(r) && RoomMade(c, nMaxSize) == c;
      } else {
        assert RoomMade(c, nMaxSize) == Reversed(r)[..nMaxSize - 1];
      }
    }
  }

  /** One more pair is no repetition exactly if it is not there already. */
  lemma RepeatsLast(r: seq<Pair>, x: Pair)
    ensures NoRepeats(r + [x]) <==> NoRepeats(r) && x !in r
    ensures forall p :: p in r + [x] <==> p in r || p == x
  {
    var c := r + [x];
    if NoRepeats(c) {
      forall i, j | 0 <= i < j < |r| ensures r[i] != r[j] {
        assert c[i] != c[j];
      }
      forall i | 0 <= i < |r| ensures r[i] != x {
        assert c[i] != c[|r|];
      }
    }
  }

  lemma WithoutKeyNothing(k: Key)
    ensures WithoutKey([], k) == [] && NoRepeats<Pair>([])
  {
  }

  lemma WithoutKeyLast(c: seq<Pair>, k: Key)
    requires c != []
    ensures var r, p := WithoutKey(c[..|c| - 1], k), c[|c| - 1]; WithoutKey(c, k) == if p.key != k then r + [p] else r
  {
  }

  lemma {:induction false} WithoutKeyIs(c: seq<Pair>, k: Key)
    ensures forall p :: p in WithoutKey(c, k) <==> p in c && p.key != k
    ensures NoRepeats(c) ==> NoRepeats(WithoutKey(c, k))
  {
    hide WithoutKey, NoRepeats;
    if c == [] {
      WithoutKeyNothing(k);
    } else {
      var r, x := c[..|c| - 1], c[|c| - 1];
      WithoutKeyIs(r, k);
      WithoutKeyLast(c, k);
      RepeatsLast(r, x);
      RepeatsLast(WithoutKey(r, k), x);
      assert c == r + [x];
    }
  }

  lemma WithoutPairNothing(q: Pair)
    ensures WithoutPair([], q) == [] && NoRepeats<Pair>([])
  {
  }

  lemma WithoutPairLast(c: seq<Pair>, q: Pair)
    requires c != []
    ensures var r, p := WithoutPair(c[..|c| - 1], q), c[|c| - 1]; WithoutPair(c, q) == if p != q then r + [p] else r
  {
  }

  lemma {:induction false} WithoutPairIs(c: seq<Pair>, q: Pair)
    ensures forall p :: p in WithoutPair(c, q) <==> p in c && p != q
    ensures NoRepeats(c) ==> NoRepeats(WithoutPair(c, q))
  {
    hide WithoutPair, NoRepeats;
    if c == [] {
      WithoutPairNothing(q);
    } else {
      var r, x := c[..|c| - 1], c[|c| - 1];
      WithoutPairIs(r, q);
      WithoutPairLast(c, q);
      RepeatsLast(r, x);
      RepeatsLast(WithoutPair(r, q), x);
      assert c == r + [x];
    }
  }

  // ---------------------------------------------------------------- nodes and index

  ghost function Nodes(l: seq<Item>): set<Item> { set n | n in l }

  /** The index leads from the key and value of a node to that node. */
  ghost predicate Leads(m: Index, n: Item) { n.key in m && n.value in m[n.key] && m[n.key][n.value] == n }

  ghost predicate Entry(ns: set<Item>, m: Index, k: Key, v: Value)
    requires k in m && v in m[k]
  {
    m[k][v] in ns && m[k][v].key == k && m[k][v].value == v
  }

  /** The nodes an inner map of the index leads to. */
  ghost function Targets(inner: map<Value, Item>): set<Item> { set v | v in inner :: inner[v] }

  /** Index and nodes correspond one to one, and no inner map is empty. */
  ghost predicate Linked(ns: set<Item>, m: Index) {
    && (forall n :: n in ns ==> Leads(m, n))
    && (forall k :: k in m ==> |m[k]| > 0)
    && (forall k, v :: k in m && v in m[k] ==> Entry(ns, m, k, v))
  }

  function Unindexed(m: Index, k: Key, v: Value): Index {
    if k !in m then m else if |m[k] - {v}| < 1 then m - {k} else m[k := m[k] - {v}]
  }

  function Indexed(m: Index, n: Item): Index {
    var inner: map<Value, Item> := if n.key in m then m[n.key] else map[];
    m[n.key := inner[n.value := n]]
  }

  /** The index with an inner map for the key, be it empty. */
  function WithKey(m: Index, k: Key): (u: Index)
    ensures k in u
  {
    if k in m then m else m[k := map[]]
  }

  lemma UnindexedLinks(ns: set<Item>, m: Index, n: Item)
    requires Linked(ns, m) && n in ns
    ensures Linked(ns - {n}, Unindexed(m, n.key, n.value))
  {
    var u := Unindexed(m, n.key, n.value);
    assert Leads(m, n);
    forall x | x in ns - {n} ensures Leads(u, x) {
      assert Leads(m, x);
      assert x.key == n.key && x.value != n.value ==> x.value in m[n.key] - {n.value};
    }
    forall k, v | k in u && v in u[k] ensures Entry(ns - {n}, u, k, v) {
      assert Entry(ns, m, k, v);
    }
  }

  lemma IndexedLinks(ns: set<Item>, m: Index, n: Item)
    requires Linked(ns, m) && n !in ns && !(n.key in m && n.value in m[n.key])
    ensures Linked(ns + {n}, Indexed(m, n))
  {
    var u := Indexed(m, n);
    forall x | x in ns + {n} ensures Leads(u, x) {
      assert x != n ==> Leads(m, x);
    }
    forall k, v | k in u && v in u[k] ensures Entry(ns + {n}, u, k, v) {
      assert k in m && v in m[k] ==> Entry(ns, m, k, v);
    }
    assert n.value in u[n.key];
  }

  lemma KeyGoneLinks(ns: set<Item>, m: Index, k: Key)
    requires Linked(ns, m) && k in m
    ensures Linked(ns - Targets(m[k]), m - {k})
    ensures forall n :: n in ns ==> (n in Targets(m[k]) <==> n.key == k)
  {
    forall n | n in ns ensures n in Targets(m[k]) <==> n.key == k {
      assert Leads(m, n);
      if n in Targets(m[k]) {
        var v :| v in m[k] && m[k][v] == n;
        assert Entry(ns, m, k, v);
      }
    }
    forall n | n in ns - Targets(m[k]) ensures Leads(m - {k}, n) {
      assert Leads(m, n);
    }
    forall j, v | j in m - {k} && v in m[j] ensures Entry(ns - Targets(m[k]), m - {k}, j, v) {
      assert Entry(ns, m, j, v);
    }
  }

  /** A pair is in the index exactly when some node has it. */
  lemma IndexFinds(l: seq<Item>, m: Index, k: Key, v: Value)
    requires Linked(Nodes(l), m)
    ensures Pair(k, v) in Pairs(l) <==> k in m && v in m[k]
  {
    if k in m && v in m[k] {
      assert Entry(Nodes(l), m, k, v);
      var i :| 0 <= i < |l| && l[i] == m[k][v];
      assert Pairs(l)[i] == Pair(k, v);
    }
    if Pair(k, v) in Pairs(l) {
      var i :| 0 <= i < |l| && Pairs(l)[i] == Pair(k, v);
      assert Leads(m, l[i]);
    }
  }

  ghost predicate HasKey(c: seq<Pair>, k: Key) { exists i :: 0 <= i < |c| && c[i].key == k }

  lemma KeyFinds(l: seq<Item>, m: Index, k: Key)
    requires Linked(Nodes(l), m)
    ensures k in m <==> HasKey(Pairs(l), k)
  {
    if k in m {
      var keys := m[k].Keys;
      Member(keys);
      var v :| v in keys;
      IndexFinds(l, m, k, v);
      var i :| 0 <= i < |l| && Pairs(l)[i] == Pair(k, v);
      assert Pairs(l)[i].key == k;
    }
    if HasKey(Pairs(l), k) {
      var i :| 0 <= i < |l| && Pairs(l)[i].key == k;
      assert Leads(m, l[i]);
    }
  }

  /** No pair occurs twice in the list. */
  lemma PairsOnce(l: seq<Item>, m: Index)
    requires Linked(Nodes(l), m) && NoRepeats(l)
    ensures NoRepeats(Pairs(l))
  {
    forall i, j | 0 <= i < j < |l| ensures Pairs(l)[i] != Pairs(l)[j] {
      assert Leads(m, l[i]) && Leads(m, l[j]);
    }
  }

  /** The list determines the index. */
  lemma IndexIsDetermined(l: seq<Item>, m: Index, m': Index)
    requires Linked(Nodes(l), m) && Linked(Nodes(l), m')
    ensures m == m'
  {
    forall k ensures k in m <==> k in m' {
      KeyFinds(l, m, k);
      KeyFinds(l, m', k);
    }
    forall k | k in m ensures m[k] == m'[k] {
      forall v ensures v in m[k] <==> v in m'[k] {
        IndexFinds(l, m, k, v);
        IndexFinds(l, m', k, v);
      }
      forall v | v in m[k] ensures m[k][v] == m'[k][v] {
        assert Entry(Nodes(l), m, k, v);
        assert Leads(m', m[k][v]);
      }
    }
  }

  /**
   Copying a map member by member copies the nodes of the list, but the index of the copy still leads
   to the nodes of the original: only the copy of an empty map is right.
   */
  lemma CopyIsLinkedIff(l: seq<Item>, m: Index, copied: seq<Item>)
    requires Linked(Nodes(l), m) && Pairs(copied) == Pairs(l) && Nodes(copied) !! Nodes(l)
    ensures Linked(Nodes(copied), m) <==> l == []
  {
    if l == [] {
      assert Nodes(copied) == Nodes(l);
    } else {
      assert l[0] in Nodes(l) && copied[0] in Nodes(copied);
      assert Leads(m, l[0]) && PairOf(copied[0]) == Pairs(copied)[0] == PairOf(l[0]);
      assert !Leads(m, copied[0]);
    }
  }

  // ---------------------------------------------------------------- taking nodes out of the list

  function Drop(l: seq<Item>, gone: set<Item>): seq<Item> {
    if l == [] then []
    else Drop(l[..|l| - 1], gone) + if l[|l| - 1] in gone then [] else [l[|l| - 1]]
  }

  lemma {:induction false} DropHas(l: seq<Item>, gone: set<Item>)
    ensures forall n :: n in Drop(l, gone) <==> n in l && n !in gone
    ensures NoRepeats(l) ==> NoRepeats(Drop(l, gone))
  {
    if l != [] {
      var r, x := l[..|l| - 1], l[|l| - 1];
      DropHas(r, gone);
      assert l == r + [x];
      assert forall n :: n in l <==> n in r || n == x;
      assert NoRepeats(l) ==> x !in r;
    }
  }

  lemma DropIs(l: seq<Item>, gone: set<Item>)
    requires NoRepeats(l)
    ensures NoRepeats(Drop(l, gone)) && Nodes(Drop(l, gone)) == Nodes(l) - gone
  {
    hide Drop, NoRepeats;
    DropHas(l, gone);
    assert forall n :: n in Nodes(Drop(l, gone)) <==> n in Nodes(l) && n !in gone;
    assert Nodes(Drop(l, gone)) == Nodes(l) - gone;
  }

  lemma {:induction false} DropOne(l: seq<Item>, gone: set<Item>, n: Item)
    requires NoRepeats(l) && n in l && n !in gone
    ensures Drop(Drop(l, gone), {n}) == Drop(l, gone + {n})
    ensures |Drop(l, gone + {n})| == |Drop(l, gone)| - 1
  {
    var r, x := l[..|l| - 1], l[|l| - 1];
    assert l == r + [x];
    var d := Drop(r, gone);
    assert x !in gone ==> (d + [x])[..|d|] == d;
    assert d + [] == d;
    if x == n {
      DropMore(r, gone, n);
      DropHas(r, gone);
      DropNone(d, {n});
    } else {
      DropOne(r, gone, n);
    }
  }

  lemma {:induction false} DropMore(l: seq<Item>, gone: set<Item>, n: Item)
    requires n !in l
    ensures Drop(l, gone + {n}) == Drop(l, gone)
  {
    if l != [] {
      DropMore(l[..|l| - 1], gone, n);
    }
  }

  lemma {:induction false} DropNone(l: seq<Item>, gone: set<Item>)
    requires forall n :: n in l ==> n !in gone
    ensures Drop(l, gone) == l
  {
    if l != [] {
      DropNone(l[..|l| - 1], gone);
      assert l == l[..|l| - 1] + [l[|l| - 1]];
    }
  }

  lemma PopBack(l: seq<Item>)
    requires l != [] && NoRepeats(l)
    ensures var r := l[..|l| - 1];
            NoRepeats(r) && Nodes(r) == Nodes(l) - {l[|l| - 1]} && Pairs(r) == Pruned(Pairs(l))
  {
    var r, x := l[..|l| - 1], l[|l| - 1];
    assert l == r + [x] && x !in r;
    assert forall n :: n in Nodes(l) <==> n in Nodes(r) || n == x;
    assert Nodes(r) == Nodes(l) - {x};
  }

  lemma PushFront(l: seq<Item>, n: Item)
    requires NoRepeats(l) && n !in l
    ensures NoRepeats([n] + l) && Nodes([n] + l) == Nodes(l) + {n} && Pairs([n] + l) == [PairOf(n)] + Pairs(l)
  {
    assert forall x :: x in Nodes([n] + l) <==> x in Nodes(l) || x == n;
    assert Nodes([n] + l) == Nodes(l) + {n};
  }

  lemma {:induction false} DropKey(l: seq<Item>, gone: set<Item>, k: Key)
    requires forall n :: n in l ==> (n in gone <==> n.key == k)
    ensures Pairs(Drop(l, gone)) == WithoutKey(Pairs(l), k)
  {
    if l != [] {
      DropKey(l[..|l| - 1], gone, k);
      assert l[|l| - 1] in l;
      assert Pairs(l)[..|l| - 1] == Pairs(l[..|l| - 1]);
    }
  }

  lemma {:induction false} DropPair(l: seq<Item>, n: Item)
    requires forall x :: x in l ==> (x == n <==> PairOf(x) == PairOf(n))
    ensures Pairs(Drop(l, {n})) == WithoutPair(Pairs(l), PairOf(n))
  {
    if l != [] {
      DropPair(l[..|l| - 1], n);
      assert l[|l| - 1] in l;
      assert Pairs(l)[..|l| - 1] == Pairs(l[..|l| - 1]);
    }
  }

  // ---------------------------------------------------------------- the map

  class CacheMultiMap {
    var nMaxSize: nat
    var nCurrentSize: nat
    var listItems: seq<Item>
    var mapIndex: Index

    ghost predicate Valid()
      reads this
    {
      nCurrentSize == |listItems| && NoRepeats(listItems) && Linked(Nodes(listItems), mapIndex)
    }

    ghost function Contents(): seq<Pair>
      reads this
    {
      Pairs(listItems)
    }

    constructor (nMaxSizeIn: nat)
      ensures Valid() && Contents() == [] && nMaxSize == nMaxSizeIn
    {
      nMaxSize := nMaxSizeIn;
      nCurrentSize := 0;
      listItems := [];
      mapIndex := map[];
    }

    method Clear()
      modifies this
      ensures Valid() && Contents() == [] && nMaxSize == old(nMaxSize)
    {
      mapIndex := map[];
      listItems := [];
      nCurrentSize := 0;
    }

    method SetMaxSize(nMaxSizeIn: nat)
      requires Valid()
      modifies this`nMaxSize
      ensures Valid() && Contents() == old(Contents()) && nMaxSize == nMaxSizeIn
    {
      nMaxSize := nMaxSizeIn;
    }

    method PruneLast()
      requires Valid()
      modifies this
      ensures Valid() && Contents() == Pruned(old(Contents())) && nMaxSize == old(nMaxSize)
    {
      hide Linked, Unindexed;
      if nCurrentSize < 1 {
        return;
      }
      var item := listItems[|listItems| - 1];
      assert item in Nodes(listItems);
      UnindexedLinks(Nodes(listItems), mapIndex, item);
      PopBack(listItems);
      RemoveFromIndex(item.key, item.value);
      listItems := listItems[..|listItems| - 1];
      nCurrentSize := nCurrentSize - 1;
    }

    /** Takes a pair out of the index, and its key if it has no value left. */
    method RemoveFromIndex(key: Key, value: Value)
      modifies this`mapIndex
      ensures mapIndex == Unindexed(old(mapIndex), key, value)
    {
      if key in mapIndex {
        var mapIt := mapIndex[key] - {value};
        if |mapIt| < 1 {
          mapIndex := mapIndex - {key};
        } else {
          mapIndex := mapIndex[key := mapIt];
        }
      }
    }

    /** Inserts a pair in front; a duplicate is not inserted. */
    method Insert(key: Key, value: Value) returns (inserted: bool)
      requires Valid()
      modifies this
      ensures Valid() && Contents() == Inserted(old(Contents()), nMaxSize, Pair(key, value)) && nMaxSize == old(nMaxSize)
      ensures inserted <==> Pair(key, value) !in RoomMade(old(Contents()), nMaxSize)
    {
      hide Linked, Nodes;
      if nCurrentSize == nMaxSize {
        PruneLast();
      }
      IndexFinds(listItems, mapIndex, key, value);
      ghost var m := mapIndex;
      if key !in mapIndex {
        var none: map<Value, Item> := map[];
        mapIndex := mapIndex[key := none];
      }
      if value in mapIndex[key] {
        return false;
      }
      Enter(key, value, m);
      return true;
    }

    /** A new pair goes in front; its key has an inner map already. */
    method Enter(key: Key, value: Value, ghost m: Index)
      requires nCurrentSize == |listItems| && NoRepeats(listItems) && Linked(Nodes(listItems), m)
      requires mapIndex == WithKey(m, key) && value !in mapIndex[key]
      modifies this
      ensures Valid() && Contents() == [Pair(key, value)] + old(Contents()) && nMaxSize == old(nMaxSize)
    {
      hide Linked, Nodes;
      var item := new Item(key, value);
      IsFresh(listItems, item);
      PushFront(listItems, item);
      IndexedLinks(Nodes(listItems), m, item);
      listItems := [item] + listItems;
      mapIndex := mapIndex[key := mapIndex[key][value := item]];
      assert mapIndex == Indexed(m, item);
      nCurrentSize := nCurrentSize + 1;
    }

    method Has(key: Key) returns (has: bool)
      requires Valid()
      ensures has <==> HasKey(Contents(), key)
    {
      KeyFinds(listItems, mapIndex, key);
      return key in mapIndex;
    }

    /** All values of a key, in the order of the inner map. */
    method GetAll(key: Key) returns (found: bool, vecValues: seq<Value>)
      requires Valid()
      ensures found <==> HasKey(Contents(), key)
      ensures Ascending(vecValues) && forall v :: v in vecValues <==> Pair(key, v) in Contents()
    {
      hide Nodes, HasKey;
      KeyFinds(listItems, mapIndex, key);
      forall v ensures Pair(key, v) in Contents() <==> key in mapIndex && v in mapIndex[key] {
        IndexFinds(listItems, mapIndex, key, v);
      }
      vecValues := [];
      if key !in mapIndex {
        return false, [];
      }
      var todo := mapIndex[key].Keys;
      while todo != {}
        invariant todo <= mapIndex[key].Keys && Ascending(vecValues)
        invariant forall i, w :: 0 <= i < |vecValues| && w in todo ==> vecValues[i] < w
        invariant forall v :: v in vecValues <==> v in mapIndex[key] && v !in todo
        decreases |todo|
      {
        MinExists(todo);
        ghost var least: int :| IsMin(todo, least);
        var v :| v in todo && forall w :: w in todo ==> v <= w;
        assert Entry(Nodes(listItems), mapIndex, key, v);
        var item := mapIndex[key][v];
        assert forall w :: w in vecValues + [v] <==> w in vecValues || w == v;
        vecValues := vecValues + [item.value];
        todo := todo - {v};
      }
      return true, vecValues;
    }

    /** The least value of a key. */
    method Get(key: Key) returns (found: bool, value: Value)
      requires Valid()
      ensures found <==> HasKey(Contents(), key)
      ensures found ==> Pair(key, value) in Contents() && forall v :: Pair(key, v) in Contents() ==> value <= v
    {
      hide Nodes, HasKey;
      KeyFinds(listItems, mapIndex, key);
      forall v ensures Pair(key, v) in Contents() <==> key in mapIndex && v in mapIndex[key] {
        IndexFinds(listItems, mapIndex, key, v);
      }
      if key !in mapIndex {
        return false, 0;
      }
      var keys := mapIndex[key].Keys;
      assert keys != {} by { assert |mapIndex[key]| > 0; }
      MinExists(keys);
      ghost var least: int :| IsMin(keys, least);
      var v :| v in keys && forall w :: w in keys ==> v <= w;
      assert Entry(Nodes(listItems), mapIndex, key, v);
      return true, mapIndex[key][v].value;
    }

    /** Erases all pairs of a key. */
    method Erase(key: Key)
      requires Valid()
      modifies this
      ensures Valid() && Contents() == WithoutKey(old(Contents()), key) && nMaxSize == old(nMaxSize)
    {
      hide Linked, Nodes;
      ghost var l, m := listItems, mapIndex;
      KeyFinds(l, m, key);
      if key !in mapIndex {
        NoSuchKey(Contents(), key);
        return;
      }
      KeyGoneLinks(Nodes(l), m, key);
      EraseNodes(mapIndex[key], key);
      mapIndex := mapIndex - {key};
      DropIs(l, Targets(m[key]));
      NodesAre(l);
      DropKey(l, Targets(m[key]), key);
    }

    /** Erases the nodes that an inner map of the index leads to. */
    method EraseNodes(mapIt: map<Value, Item>, ghost key: Key)
      requires Valid() && key in mapIndex && mapIt == mapIndex[key]
      modifies this`listItems, this`nCurrentSize
      ensures listItems == Drop(old(listItems), Targets(mapIt)) && nCurrentSize == |listItems|
    {
      hide Drop, Nodes;
      ghost var l := listItems;
      DropNone(l, {});
      NodesAre(l);
      var todo := mapIt.Keys;
      ghost var gone: set<Item> := {};
      while |todo| > 0
        invariant todo <= mapIt.Keys
        invariant forall v :: v in mapIt ==> (mapIt[v] in gone <==> v !in todo)
        invariant forall n :: n in gone ==> n in Targets(mapIt)
        invariant listItems == Drop(l, gone) && nCurrentSize == |listItems|
        decreases |todo|
      {
        Member(todo);
        var v :| v in todo;
        assert Entry(Nodes(l), mapIndex, key, v);
        DropOne(l, gone, mapIt[v]);
        listItems := Drop(listItems, {mapIt[v]});
        nCurrentSize := nCurrentSize - 1;
        gone := gone + {mapIt[v]};
        todo := todo - {v};
      }
      forall n | n in Targets(mapIt) ensures n in gone {
        var v :| v in mapIt && mapIt[v] == n;
      }
      assert gone == Targets(mapIt);
    }

    /** Erases one pair. */
    method ErasePair(key: Key, value: Value)
      requires Valid()
      modifies this
      ensures Valid() && Contents() == WithoutPair(old(Contents()), Pair(key, value)) && nMaxSize == old(nMaxSize)
    {
      hide Linked, Nodes;
      IndexFinds(listItems, mapIndex, key, value);
      if key !in mapIndex || value !in mapIndex[key] {
        NoSuchPair(Contents(), Pair(key, value));
        return;
      }
      var item := mapIndex[key][value];
      NodeOfPair(listItems, mapIndex, key, value);
      UnindexedLinks(Nodes(listItems), mapIndex, item);
      DropPair(listItems, item);
      EraseOne(listItems, item);
      listItems := Drop(listItems, {item});
      nCurrentSize := nCurrentSize - 1;
      RemoveFromIndex(key, value);
    }

    /**
     Builds the index anew from any list, also one read from a stream: each pair leads to the last node
     that has it. The map is then right exactly if no pair is repeated and the size field is the length.
     */
    method RebuildIndex()
      modifies this`mapIndex
      ensures LeadsToLast(listItems, mapIndex)
      ensures NoRepeats(listItems) ==> (Valid() <==> nCurrentSize == |listItems| && NoRepeats(Contents()))
      ensures old(Valid()) ==> mapIndex == old(mapIndex)
    {
      hide Linked, Nodes, LeadsToLast;
      mapIndex := map[];
      NothingLed();
      for i := 0 to |listItems|
        invariant LeadsToLast(listItems[..i], mapIndex)
      {
        var item := listItems[i];
        NextLed(listItems, i, mapIndex);
        ghost var m := mapIndex;
        if item.key !in mapIndex {
          var none: map<Value, Item> := map[];
          mapIndex := mapIndex[item.key := none];
        }
        mapIndex := mapIndex[item.key := mapIndex[item.key][item.value := item]];
        assert mapIndex == Indexed(m, item);
      }
      assert listItems[..|listItems|] == listItems;
      if NoRepeats(listItems) {
        LinkedIff(listItems, mapIndex);
      }
      if old(Valid()) {
        PairsOnce(listItems, old(mapIndex));
        IndexIsDetermined(listItems, mapIndex, old(mapIndex));
      }
    }
  }

  // ---------------------------------------------------------------- whole runs

  datatype Op = InsertOp(p: Pair) | EraseOp(k: Key) | ErasePairOp(q: Pair) | PruneOp

  function Applied(c: seq<Pair>, nMaxSize: nat, op: Op): seq<Pair> {
    match op
    case InsertOp(p) => Inserted(c, nMaxSize, p)
    case EraseOp(k) => WithoutKey(c, k)
    case ErasePairOp(q) => WithoutPair(c, q)
    case PruneOp => Pruned(c)
  }

  /** The contents after a run of operations. */
  function AllApplied(c: seq<Pair>, nMaxSize: nat, ops: seq<Op>): seq<Pair> {
    if ops == [] then c else Applied(AllApplied(c, nMaxSize, ops[..|ops| - 1]), nMaxSize, ops[|ops| - 1])
  }

  lemma {:induction false} WithoutKeyIsShorter(c: seq<Pair>, k: Key)
    ensures |WithoutKey(c, k)| <= |c|
  {
    if c != [] {
      WithoutKeyIsShorter(c[..|c| - 1], k);
    }
  }

  lemma {:induction false} WithoutPairIsShorter(c: seq<Pair>, q: Pair)
    ensures |WithoutPair(c, q)| <= |c|
  {
    if c != [] {
      WithoutPairIsShorter(c[..|c| - 1], q);
    }
  }

  /** No run of insertions, erasures and evictions exceeds a fixed maximum of one or more, or repeats a pair. */
  lemma {:induction false} RunFits(nMaxSize: nat, ops: seq<Op>)
    requires nMaxSize >= 1
    ensures |AllApplied([], nMaxSize, ops)| <= nMaxSize && NoRepeats(AllApplied([], nMaxSize, ops))
  {
    hide WithoutKey, WithoutPair, Inserted;
    if ops != [] {
      var c, op := AllApplied([], nMaxSize, ops[..|ops| - 1]), ops[|ops| - 1];
      RunFits(nMaxSize, ops[..|ops| - 1]);
      match op
      case InsertOp(p) => InsertedFits(c, nMaxSize, p);
      case EraseOp(k) =>
        WithoutKeyIs(c, k);
        WithoutKeyIsShorter(c, k);
      case ErasePairOp(q) =>
        WithoutPairIs(c, q);
        WithoutPairIsShorter(c, q);
      case PruneOp =>
    }
  }

  /** A map that has been through any such run since it was made. */
  method RunAll(nMaxSize: nat, ops: seq<Op>) returns (m: CacheMultiMap)
    ensures fresh(m) && m.Valid() && m.Contents() == AllApplied([], nMaxSize, ops)
    ensures nMaxSize >= 1 ==> m.nCurrentSize <= nMaxSize
  {
    m := new CacheMultiMap(nMaxSize);
    for i := 0 to |ops|
      invariant fresh(m) && m.Valid() && m.nMaxSize == nMaxSize && m.Contents() == AllApplied([], nMaxSize, ops[..i])
    {
      assert ops[..i + 1][..i] == ops[..i];
      match ops[i] {
      case InsertOp(p) =>
        var _ := m.Insert(p.key, p.value);
      case EraseOp(k) => m.Erase(k);
      case ErasePairOp(q) => m.ErasePair(q.key, q.value);
      case PruneOp => m.PruneLast();
      }
    }
    assert ops[..|ops|] == ops;
    if nMaxSize >= 1 {
      RunFits(nMaxSize, ops);
    }
  }

  // ---------------------------------------------------------------- steps

  lemma IsFresh(l: seq<Item>, n: Item)
    requires n !in l
    ensures n !in Nodes(l)
  {
  }

  lemma NodesAre(l: seq<Item>)
    ensures forall n :: n in l <==> n in Nodes(l)
  {
  }

  lemma {:induction false} NoSuchKey(c: seq<Pair>, k: Key)
    requires !HasKey(c, k)
    ensures WithoutKey(c, k) == c
  {
    hide HasKey;
    if c != [] {
      NoSuchKeyBefore(c, k);
      NoSuchKey(c[..|c| - 1], k);
    }
  }

  lemma NoSuchKeyBefore(c: seq<Pair>, k: Key)
    requires c != [] && !HasKey(c, k)
    ensures !HasKey(c[..|c| - 1], k) && c[|c| - 1].key != k && c == c[..|c| - 1] + [c[|c| - 1]]
  {
  }

  lemma {:induction false} NoSuchPair(c: seq<Pair>, p: Pair)
    requires p !in c
    ensures WithoutPair(c, p) == c
  {
    if c != [] {
      NoSuchPair(c[..|c| - 1], p);
      assert c == c[..|c| - 1] + [c[|c| - 1]];
    }
  }

  lemma EraseOne(l: seq<Item>, n: Item)
    requires NoRepeats(l) && n in Nodes(l)
    ensures NoRepeats(Drop(l, {n})) && Nodes(Drop(l, {n})) == Nodes(l) - {n} && |Drop(l, {n})| == |l| - 1
  {
    DropIs(l, {n});
    DropNone(l, {});
    DropOne(l, {}, n);
    assert {} + {n} == {n};
  }

  lemma NodeOfPair(l: seq<Item>, m: Index, k: Key, v: Value)
    requires Linked(Nodes(l), m) && k in m && v in m[k]
    ensures m[k][v] in Nodes(l) && PairOf(m[k][v]) == Pair(k, v)
    ensures forall x :: x in l ==> (x == m[k][v] <==> PairOf(x) == Pair(k, v))
  {
    assert Entry(Nodes(l), m, k, v);
    forall x | x in l ensures x == m[k][v] <==> PairOf(x) == Pair(k, v) {
      assert Leads(m, x);
    }
  }

  // ---------------------------------------------------------------- the index of any list

  /** No later node has the same pair. */
  ghost predicate IsLast(l: seq<Item>, i: nat)
    requires i < |l|
  {
    forall j :: i < j < |l| ==> PairOf(l[j]) != PairOf(l[i])
  }

  /** Every pair of the list, and no other, leads to the last node that has it. */
  ghost predicate LeadsToLast(l: seq<Item>, m: Index) {
    && (forall k :: k in m ==> |m[k]| > 0)
    && (forall k, v :: k in m && v in m[k] ==> Entry(Nodes(l), m, k, v))
    && (forall i: nat :: i < |l| && IsLast(l, i) ==> Leads(m, l[i]))
  }

  lemma NothingLed()
    ensures LeadsToLast([], map[])
  {
  }

  lemma NodesNext(l: seq<Item>, i: nat)
    requires i < |l|
    ensures Nodes(l[..i + 1]) == Nodes(l[..i]) + {l[i]}
  {
    assert forall x :: x in Nodes(l[..i + 1]) <==> x in Nodes(l[..i]) || x == l[i];
  }

  /** Of the nodes before it a new one replaces those with the same pair. */
  lemma LastBefore(l: seq<Item>, i: nat, j: nat)
    requires j < i < |l| && IsLast(l[..i + 1], j)
    ensures IsLast(l[..i], j) && PairOf(l[i]) != PairOf(l[j])
  {
    var a, b := l[..i], l[..i + 1];
    assert b[i] == l[i] && b[j] == l[j];
    forall k | j < k < |a| ensures PairOf(a[k]) != PairOf(a[j]) {
      assert b[k] == a[k] && b[j] == a[j];
    }
  }

  lemma StillLeads(m: Index, n: Item, x: Item)
    requires Leads(m, x) && PairOf(x) != PairOf(n)
    ensures Leads(Indexed(m, n), x)
  {
  }

  lemma NextLed(l: seq<Item>, i: nat, m: Index)
    requires i < |l| && LeadsToLast(l[..i], m)
    ensures LeadsToLast(l[..i + 1], Indexed(m, l[i]))
  {
    hide IsLast, Nodes, PairOf;
    var a, b, n := l[..i], l[..i + 1], l[i];
    var u := Indexed(m, n);
    NodesNext(l, i);
    forall k, v | k in u && v in u[k] ensures Entry(Nodes(b), u, k, v) {
      assert k in m && v in m[k] ==> Entry(Nodes(a), m, k, v);
    }
    assert n.value in u[n.key];
    assert Leads(u, n);
    forall j: nat | j < |b| && IsLast(b, j) ensures Leads(u, b[j]) {
      if j < i {
        LastBefore(l, i, j);
        assert b[j] == a[j];
        StillLeads(m, n, a[j]);
      }
    }
  }

  /** In a list of different nodes that is a right index exactly if no pair is repeated. */
  lemma LinkedIff(l: seq<Item>, m: Index)
    requires NoRepeats(l) && LeadsToLast(l, m)
    ensures Linked(Nodes(l), m) <==> NoRepeats(Pairs(l))
  {
    if Linked(Nodes(l), m) {
      PairsOnce(l, m);
    }
    if NoRepeats(Pairs(l)) {
      forall n | n in Nodes(l) ensures Leads(m, n) {
        var i :| 0 <= i < |l| && l[i] == n;
        assert forall j :: i < j < |l| ==> Pairs(l)[j] != Pairs(l)[i];
        assert IsLast(l, i);
      }
    }
  }
}
