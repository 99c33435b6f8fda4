/**
 Bloom filters over a bit array, and the rolling filter that keeps the last N keys in two of them
 which are cleared in turn.
 */
module Bloom {
  import opened Bits
  import opened Products
  import opened Numbers

  type Key = seq<byte>
  /** MurmurHash3 of a seed and a key. */
  type Murmur = (nat, seq<byte>) -> nat

  datatype Filter = Filter(data: seq<byte>, isFull: bool, isEmpty: bool, nHashFuncs: nat, nTweak: nat)

  /** Bit p of the array. */
  predicate SetAt(data: seq<byte>, p: nat) { p < 8 * |data| && Bit(data[p / 8], p % 8) }

  function Hash(h: Murmur, f: Filter, i: nat, key: Key): nat
    requires f.data != []
  {
    h((i * 0xFBA4C795 + f.nTweak) % 0x1_0000_0000, key) % (|f.data| * 8)
  }

  /** Hashing divides by the size of the array, so an empty one is of use only without hash functions. */
  predicate Usable(f: Filter) { f.data != [] || f.nHashFuncs == 0 }

  /** All bits of a key are set. */
  predicate HasBits(h: Murmur, f: Filter, key: Key)
    requires Usable(f)
  {
    forall i :: 0 <= i < f.nHashFuncs ==> SetAt(f.data, Hash(h, f, i, key))
  }

  /** Where the flags decide nothing is hashed. */
  predicate Answers(f: Filter) { f.isFull || f.isEmpty || Usable(f) }

  predicate Contains(h: Murmur, f: Filter, key: Key)
    requires Answers(f)
  {
    f.isFull || (!f.isEmpty && HasBits(h, f, key))
  }

  predicate AllZero(data: seq<byte>) { forall i :: 0 <= i < |data| ==> data[i] == 0 }

  predicate AllOnes(data: seq<byte>) { forall i :: 0 <= i < |data| ==> data[i] == 0xff }

  /** The flags say nothing that the bits do not: so it is in a filter made here, but not in one received. */
  predicate FlagsOk(f: Filter) {
    f.data != [] && (f.isFull ==> AllOnes(f.data)) && (f.isEmpty ==> AllZero(f.data))
  }

  // ---------------------------------------------------------------- what insertion means

  /** One of the bits of a key. */
  ghost predicate IsBitOf(h: Murmur, f: Filter, key: Key, n: nat, p: nat)
    requires f.data != [] || n == 0
  {
    exists i :: 0 <= i < n && Hash(h, f, i, key) == p
  }

  /** The bits of `f` and those of the key, and no others. */
  ghost predicate InsertedInto(h: Murmur, f: Filter, key: Key, g: Filter)
    requires f.isFull || Usable(f)
  {
    if f.isFull then g == f
    else
      g == f.(data := g.data, isEmpty := false) && |g.data| == |f.data|
      && forall p: nat :: p < 8 * |f.data| ==> (SetAt(g.data, p) <==> SetAt(f.data, p) || IsBitOf(h, f, key, f.nHashFuncs, p))
  }

  /** What has been inserted is contained, and what was contained before still is. */
  lemma InsertedIsContained(h: Murmur, f: Filter, key: Key, g: Filter, other: Key)
    requires (f.isFull || Usable(f)) && InsertedInto(h, f, key, g)
    ensures Answers(g) && Contains(h, g, key)
    ensures Contains(h, f, other) ==> Contains(h, g, other)
    ensures FlagsOk(f) ==> FlagsOk(g)
  {
    if !f.isFull {
      forall i | 0 <= i < f.nHashFuncs ensures SetAt(g.data, Hash(h, g, i, key)) {
        assert Hash(h, g, i, key) == Hash(h, f, i, key);
        assert IsBitOf(h, f, key, f.nHashFuncs, Hash(h, f, i, key));
      }
      forall i | 0 <= i < f.nHashFuncs && Contains(h, f, other) ensures SetAt(g.data, Hash(h, g, i, other)) {
        assert Hash(h, g, i, other) == Hash(h, f, i, other);
        assert SetAt(f.data, Hash(h, f, i, other));
      }
    }
  }

  // ---------------------------------------------------------------- the bits, told by arithmetic

  /** Bit k of byte j is one of those that the hash functions pick for the key. */
  ghost predicate Picks(h: Murmur, f: Filter, key: Key, j: nat, k: nat)
    requires f.data != []
  {
    exists i :: 0 <= i < f.nHashFuncs && PickedBy(h, f, key, i) == 8 * j + k
  }

  function PickedBy(h: Murmur, f: Filter, key: Key, i: nat): nat
    requires f.data != []
  {
    h((f.nTweak + 4221880213 * i) % 4294967296, key) % (8 * |f.data|)
  }

  lemma {:induction false} BitDivides(x: nat, k: nat)
    ensures Bit(x, k) <==> x / Pow2(k) % 2 == 1
    decreases k
  {
    if k > 0 {
      BitDivides(x / 2, k - 1);
      HalfThenRest(x, Pow2(k - 1));
    }
  }

  lemma HalfThenRest(x: nat, p: nat)
    requires p > 0
    ensures x / 2 / p == x / (2 * p)
  {
    var q, r, s := x / 2 / p, x / 2 % p, x % 2;
    assert x == 2 * (q * p + r) + s;
    Associate(q, 2, p);
    assert q * (2 * p) == 2 * (q * p);
    ModUnique(x, q, 2 * r + s, 2 * p);
  }

  lemma SetMeans(data: seq<byte>, j: nat, k: nat)
    requires j < |data| && k < 8
    ensures SetAt(data, 8 * j + k) <==> data[j] / Pow2(k) % 2 == 1
  {
    hide Bit;
    assert (8 * j + k) / 8 == j && (8 * j + k) % 8 == k;
    BitDivides(data[j], k);
  }

  /** Inserting a key into a filter that is not full sets the bits picked for it, and no others. */
  lemma InsertedMeans(h: Murmur, f: Filter, key: Key, g: Filter, j: nat, k: nat)
    requires !f.isFull && f.data != [] && InsertedInto(h, f, key, g) && j < |f.data| && k < 8
    ensures |g.data| == |f.data| && !g.isEmpty
    ensures g.data[j] / Pow2(k) % 2 == 1 <==> f.data[j] / Pow2(k) % 2 == 1 || Picks(h, f, key, j, k)
  {
    hide SetAt;
    SetMeans(f.data, j, k);
    SetMeans(g.data, j, k);
    forall i: nat ensures Hash(h, f, i, key) == PickedBy(h, f, key, i) {
    }
    assert SetAt(g.data, 8 * j + k) <==> SetAt(f.data, 8 * j + k) || IsBitOf(h, f, key, f.nHashFuncs, 8 * j + k);
  }

  /** A filter that is not full contains a key exactly if it is not empty and every bit picked for the key is set. */
  lemma ContainsMeans(h: Murmur, f: Filter, key: Key)
    requires !f.isFull && f.data != []
    ensures Contains(h, f, key) <==>
            !f.isEmpty && forall i :: 0 <= i < f.nHashFuncs ==>
                            var p := PickedBy(h, f, key, i); f.data[p / 8] / Pow2(p % 8) % 2 == 1
  {
    hide SetAt;
    forall i: nat ensures var p := PickedBy(h, f, key, i);
                          Hash(h, f, i, key) == p && (SetAt(f.data, p) <==> f.data[p / 8] / Pow2(p % 8) % 2 == 1)
    {
      SetMeans(f.data, PickedBy(h, f, key, i) / 8, PickedBy(h, f, key, i) % 8);
    }
  }

  // ---------------------------------------------------------------- empty and full

  lemma ByteBits(x: byte)
    ensures x == 0 <==> forall k: nat :: k < 8 ==> !Bit(x, k)
    ensures x == 0xff <==> forall k: nat :: k < 8 ==> Bit(x, k)
  {
    assert Pow2(8) == 256;
    NoBitSet(x, 8);
  }

  lemma ZeroHasNoBit(data: seq<byte>, p: nat)
    requires p < 8 * |data|
    ensures AllZero(data) ==> !SetAt(data, p)
    ensures AllOnes(data) ==> SetAt(data, p)
  {
    ByteBits(data[p / 8]);
  }

  lemma NotBoth(data: seq<byte>)
    requires data != []
    ensures !(AllZero(data) && AllOnes(data))
  {
    if AllZero(data) {
      assert data[0] == 0;
    }
  }

  function Updated(f: Filter): (g: Filter)
    ensures Answers(g)
  {
    f.(isFull := AllOnes(f.data), isEmpty := AllZero(f.data))
  }

  /** What UpdateEmptyFull makes of any filter answers as the bits say, whatever the flags were before. */
  lemma UpdatedAnswersByBits(h: Murmur, f: Filter, key: Key)
    requires Usable(f)
    ensures Contains(h, Updated(f), key)
            <==> HasBits(h, f, key) && !(f.nHashFuncs == 0 && f.data != [] && AllZero(f.data))
  {
    var g := Updated(f);
    SameBits(h, f, g, key);
    if f.data != [] {
      NotBoth(f.data);
      if f.nHashFuncs > 0 {
        ZeroHasNoBit(f.data, Hash(h, f, 0, key));
        assert AllZero(f.data) ==> !SetAt(f.data, Hash(h, f, 0, key));
        assert AllZero(f.data) ==> !HasBits(h, f, key);
      }
      forall i | 0 <= i < f.nHashFuncs ensures AllOnes(f.data) ==> SetAt(f.data, Hash(h, f, i, key)) {
        ZeroHasNoBit(f.data, Hash(h, f, i, key));
      }
    }
  }

  lemma SameBits(h: Murmur, f: Filter, g: Filter, key: Key)
    requires Usable(f) && g == Updated(f)
    ensures HasBits(h, g, key) == HasBits(h, f, key)
  {
    assert forall i :: 0 <= i < f.nHashFuncs ==> Hash(h, g, i, key) == Hash(h, f, i, key);
  }

  /**
   When UpdateEmptyFull changes no answer, told from the flags and the bits before. A full filter
   must have all bits set, or no hash functions and some bit; an empty one must have no bit; and one
   with neither flag must not be without hash functions and without a bit.
   */
  predicate Undisturbed(f: Filter) {
    if f.isFull then AllOnes(f.data) || (f.nHashFuncs == 0 && !AllZero(f.data))
    else if f.isEmpty then AllZero(f.data) && !AllOnes(f.data)
    else AllOnes(f.data) || !(f.nHashFuncs == 0 && AllZero(f.data))
  }

  lemma Unchanged(h: Murmur, f: Filter, key: Key)
    requires Answers(f) && Undisturbed(f)
    ensures Contains(h, Updated(f), key) == Contains(h, f, key)
  {
    if f.data != [] {
      NotBoth(f.data);
      UpdatedAnswersByBits(h, f, key);
    }
  }

  /** Hashing every key to one place. */
  function Constant(p: nat): Murmur { (seed: nat, key: seq<byte>) => p }

  lemma ConstantHash(f: Filter, p: nat, i: nat, key: Key)
    requires p < 8 * |f.data|
    ensures Hash(Constant(p), f, i, key) == p
  {
    var n := |f.data| * 8;
    SmallMod(p, n);
    assert Hash(Constant(p), f, i, key) == p % n;
  }

  /** Some byte is not zero, so some bit is set; some byte is not 255, so some bit is not. */
  lemma SomeBit(data: seq<byte>, one: bool) returns (p: nat)
    requires if one then !AllZero(data) else !AllOnes(data)
    ensures p < 8 * |data| && SetAt(data, p) == one
  {
    var i :| 0 <= i < |data| && data[i] != if one then 0 else 0xff;
    ByteBits(data[i]);
    var k: nat :| k < 8 && Bit(data[i], k) == one;
    p := 8 * i + k;
    assert p / 8 == i && p % 8 == k;
  }

  lemma Changed(f: Filter) returns (h: Murmur, key: Key)
    requires Answers(f) && !Undisturbed(f)
    ensures Contains(h, Updated(f), key) != Contains(h, f, key)
  {
    h, key := Constant(0), [];
    if f.data == [] {
      return;
    }
    NotBoth(f.data);
    var one := !f.isFull;
    if (if one then !AllZero(f.data) else !AllOnes(f.data)) {
      var p := SomeBit(f.data, one);
      h := Constant(p);
      ConstantHash(f, p, 0, key);
      forall i: nat | i < f.nHashFuncs ensures Hash(h, f, i, key) == p {
        ConstantHash(f, p, i, key);
      }
    }
    UpdatedAnswersByBits(h, f, key);
  }

  /** For every filter that can be asked: no hash function and no key tell a difference exactly under that condition. */
  lemma UpdateChangesNothingIff(f: Filter)
    requires Answers(f)
    ensures (forall h: Murmur, key: Key :: Contains(h, Updated(f), key) == Contains(h, f, key)) <==> Undisturbed(f)
  {
    if Undisturbed(f) {
      forall h: Murmur, key: Key ensures Contains(h, Updated(f), key) == Contains(h, f, key) {
        Unchanged(h, f, key);
      }
    } else {
      var h, key := Changed(f);
    }
  }

  /** What is read from a stream: the flags are not in it, and those of the default constructor stay. */
  function Received(data: seq<byte>, nHashFuncs: nat, nTweak: nat): Filter {
    Filter(data, true, false, nHashFuncs, nTweak)
  }

  /** Before it is updated a received filter says yes to everything; afterwards only to what its bits cover. */
  lemma ReceivedChangesIff(data: seq<byte>, nHashFuncs: nat, nTweak: nat)
    ensures forall h: Murmur, key: Key :: Contains(h, Received(data, nHashFuncs, nTweak), key)
    ensures (exists h: Murmur, key: Key :: !Contains(h, Updated(Received(data, nHashFuncs, nTweak)), key))
            <==> !AllOnes(data) && (nHashFuncs > 0 || AllZero(data))
  {
    var f := Received(data, nHashFuncs, nTweak);
    UpdateChangesNothingIff(f);
  }

  /** A filter with a hash function that changes every answer. */
  lemma ReceivedChanges(h: Murmur, key: Key)
    ensures Contains(h, Received([0], 1, 0), key) && !Contains(h, Updated(Received([0], 1, 0)), key)
  {
    var f := Received([0], 1, 0);
    assert f.data[0] == 0;
  }

  /** With flags that say nothing the bits do not, only a filter without hash functions, inserted into, changes its answers. */
  lemma OwnUnchangedIff(h: Murmur, f: Filter)
    requires FlagsOk(f)
    ensures (forall key :: Contains(h, Updated(f), key) == Contains(h, f, key))
            <==> !(f.nHashFuncs == 0 && AllZero(f.data) && !f.isEmpty)
  {
    NotBoth(f.data);
    if f.nHashFuncs == 0 && AllZero(f.data) && !f.isEmpty {
      var key: Key := [];
      UpdatedAnswersByBits(h, f, key);
    } else {
      forall key ensures Contains(h, Updated(f), key) == Contains(h, f, key) {
        Unchanged(h, f, key);
      }
    }
  }

  // ---------------------------------------------------------------- what a filter holds

  /** A bit of one of the keys. */
  ghost predicate Marked(h: Murmur, f: Filter, keys: seq<Key>, p: nat)
    requires f.data != []
  {
    exists k :: 0 <= k < |keys| && IsBitOf(h, f, keys[k], f.nHashFuncs, p)
  }

  /** The filter is what inserting exactly these keys into a cleared one makes it. */
  ghost predicate Holds(h: Murmur, f: Filter, keys: seq<Key>) {
    f.data != [] && !f.isFull && (f.isEmpty <==> keys == [])
    && forall p: nat :: p < 8 * |f.data| ==> (SetAt(f.data, p) <==> Marked(h, f, keys, p))
  }

  /** The answer depends on the keys alone: yes exactly when they cover every bit of the one asked for. */
  ghost predicate Covered(h: Murmur, f: Filter, keys: seq<Key>, key: Key)
    requires f.data != []
  {
    keys != [] && forall i :: 0 <= i < f.nHashFuncs ==> Marked(h, f, keys, Hash(h, f, i, key))
  }

  lemma ContainsIffCovered(h: Murmur, f: Filter, keys: seq<Key>, key: Key)
    requires Holds(h, f, keys)
    ensures Contains(h, f, key) <==> Covered(h, f, keys, key)
    ensures key in keys ==> Contains(h, f, key)
  {
    hide Hash, SetAt;
    HashInRange(h, f, key);
    if key in keys {
      var k :| 0 <= k < |keys| && keys[k] == key;
      forall i | 0 <= i < f.nHashFuncs ensures Marked(h, f, keys, Hash(h, f, i, key)) {
        assert IsBitOf(h, f, keys[k], f.nHashFuncs, Hash(h, f, i, key));
      }
    }
  }

  lemma HashInRange(h: Murmur, f: Filter, key: Key)
    requires f.data != []
    ensures forall i: nat :: Hash(h, f, i, key) < 8 * |f.data|
  {
  }

  lemma HeldIsConsistent(h: Murmur, f: Filter, keys: seq<Key>)
    requires Holds(h, f, keys)
    ensures FlagsOk(f)
  {
    if f.isEmpty {
      forall i | 0 <= i < |f.data| ensures f.data[i] == 0 {
        forall k: nat | k < 8 ensures !Bit(f.data[i], k) {
          assert !Marked(h, f, keys, 8 * i + k);
          assert !SetAt(f.data, 8 * i + k);
        }
        ByteBits(f.data[i]);
      }
    }
  }

  /** So of a filter with exactly these keys UpdateEmptyFull changes an answer only without hash functions and with a key. */
  lemma HeldUnchangedIff(h: Murmur, f: Filter, keys: seq<Key>)
    requires Holds(h, f, keys)
    ensures (forall key :: Contains(h, Updated(f), key) == Contains(h, f, key)) <==> f.nHashFuncs > 0 || keys == []
  {
    HeldIsConsistent(h, f, keys);
    OwnUnchangedIff(h, f);
    if f.nHashFuncs == 0 {
      forall i | 0 <= i < |f.data| ensures f.data[i] == 0 {
        NothingMarked(h, f, keys, i);
      }
    }
  }

  lemma NothingMarked(h: Murmur, f: Filter, keys: seq<Key>, i: nat)
    requires Holds(h, f, keys) && f.nHashFuncs == 0 && i < |f.data|
    ensures f.data[i] == 0
  {
    forall k: nat | k < 8 ensures !Bit(f.data[i], k) {
      assert !Marked(h, f, keys, 8 * i + k);
      assert !SetAt(f.data, 8 * i + k);
    }
    ByteBits(f.data[i]);
  }

  lemma ClearedHoldsNothing(h: Murmur, f: Filter)
    requires f.data != [] && !f.isFull && f.isEmpty && AllZero(f.data)
    ensures Holds(h, f, [])
  {
    forall p: nat | p < 8 * |f.data| ensures !SetAt(f.data, p) {
      ZeroHasNoBit(f.data, p);
    }
  }

  lemma InsertHoldsOneMore(h: Murmur, f: Filter, keys: seq<Key>, key: Key, g: Filter)
    requires Holds(h, f, keys) && InsertedInto(h, f, key, g)
    ensures Holds(h, g, keys + [key])
  {
    hide Hash, SetAt;
    forall p: nat | p < 8 * |f.data|
      ensures Marked(h, g, keys + [key], p) <==> Marked(h, f, keys, p) || IsBitOf(h, f, key, f.nHashFuncs, p)
    {
      MarkedByOneMore(h, f, keys, key, g, p);
    }
  }

  lemma MarkedByOneMore(h: Murmur, f: Filter, keys: seq<Key>, key: Key, g: Filter, p: nat)
    requires f.data != [] && |g.data| == |f.data| && g.nTweak == f.nTweak && g.nHashFuncs == f.nHashFuncs
    ensures Marked(h, g, keys + [key], p) <==> Marked(h, f, keys, p) || IsBitOf(h, f, key, f.nHashFuncs, p)
  {
    var more := keys + [key];
    assert forall x, i: nat :: Hash(h, g, i, x) == Hash(h, f, i, x);
    assert forall x :: IsBitOf(h, g, x, f.nHashFuncs, p) == IsBitOf(h, f, x, f.nHashFuncs, p);
    if Marked(h, g, more, p) {
      var k :| 0 <= k < |more| && IsBitOf(h, g, more[k], g.nHashFuncs, p);
      assert k < |keys| ==> more[k] == keys[k];
    }
    if Marked(h, f, keys, p) {
      var k :| 0 <= k < |keys| && IsBitOf(h, f, keys[k], f.nHashFuncs, p);
      assert more[k] == keys[k];
      assert IsBitOf(h, g, more[k], g.nHashFuncs, p);
    }
    if IsBitOf(h, f, key, f.nHashFuncs, p) {
      assert more[|keys|] == key;
      assert IsBitOf(h, g, more[|keys|], g.nHashFuncs, p);
    }
  }

  // ---------------------------------------------------------------- the filter

  class CBloomFilter {
    const murmur: Murmur
    const vData: array<byte>
    var isFull: bool
    var isEmpty: bool
    const nHashFuncs: nat
    var nTweak: nat

    ghost function View(): Filter
      reads this, vData
    {
      Filter(vData[..], isFull, isEmpty, nHashFuncs, nTweak)
    }

    /** The sizes are what the formulas in the source give for the number of elements and the rate. */
    constructor (murmur: Murmur, size: nat, nHashFuncs: nat, nTweak: nat)
      ensures View() == Filter(vData[..], false, true, nHashFuncs, nTweak) && vData.Length == size && AllZero(vData[..])
      ensures fresh(vData) && this.murmur == murmur
    {
      this.murmur, this.nHashFuncs, this.nTweak := murmur, nHashFuncs, nTweak;
      vData := new byte[size](i => 0);
      isFull, isEmpty := false, true;
    }

    /** The default constructor, followed by reading the rest of the fields from a stream. */
    constructor FromStream(murmur: Murmur, data: seq<byte>, nHashFuncs: nat, nTweak: nat)
      ensures View() == Received(data, nHashFuncs, nTweak) && fresh(vData) && this.murmur == murmur
      ensures vData[..] == data && isFull && !isEmpty && this.nHashFuncs == nHashFuncs && this.nTweak == nTweak
    {
      this.murmur, this.nHashFuncs, this.nTweak := murmur, nHashFuncs, nTweak;
      vData := new byte[|data|](i requires 0 <= i < |data| => data[i]);
      isFull, isEmpty := true, false;
      new;
      assert vData[..] == data;
    }

    method HashOf(nHashNum: nat, vKey: Key) returns (r: nat)
      requires vData.Length > 0
      ensures r == Hash(murmur, View(), nHashNum, vKey) < vData.Length * 8
    {
      r := murmur((nHashNum * 0xFBA4C795 + nTweak) % 0x1_0000_0000, vKey) % (vData.Length * 8);
    }

    method Insert(vKey: Key)
      requires isFull || Usable(View())
      modifies this, vData
      ensures InsertedInto(murmur, old(View()), vKey, View())
    {
      hide Hash, SetAt, AllZero, AllOnes;
      if isFull {
        return;
      }
      ghost var f := View();
      for i := 0 to nHashFuncs
        invariant View() == f.(data := vData[..])
        invariant forall p: nat :: p < 8 * vData.Length ==>
                    (SetAt(vData[..], p) <==> SetAt(f.data, p) || IsBitOf(murmur, f, vKey, i, p))
      {
        var nIndex := HashOf(i, vKey);
        HashAlike(murmur, f, View(), i, vKey);
        SetBit(nIndex);
        forall p: nat | p < 8 * vData.Length
          ensures IsBitOf(murmur, f, vKey, i + 1, p) <==> IsBitOf(murmur, f, vKey, i, p) || p == nIndex
        {
          OneMore(murmur, f, vKey, i, p);
        }
      }
      isEmpty := false;
    }

    /** vData[nIndex >> 3] |= (1 << (7 & nIndex)) */
    method SetBit(nIndex: nat)
      requires nIndex < 8 * vData.Length
      modifies vData
      ensures forall p: nat :: p < 8 * vData.Length ==> (SetAt(vData[..], p) <==> SetAt(old(vData[..]), p) || p == nIndex)
    {
      hide Or, Pow2, Shr;
      var j, k := nIndex / 8, nIndex % 8;
      ghost var was := vData[..];
      ByteOr(vData[j], k);
      vData[j] := Or(vData[j], Shl(1, k));
      forall p: nat | p < 8 * vData.Length ensures SetAt(vData[..], p) <==> SetAt(was, p) || p == nIndex {
        OrBit(was[j], Shl(1, k), p % 8);
        PowBit(k, p % 8);
      }
    }

    method Includes(vKey: Key) returns (r: bool)
      requires Answers(View())
      ensures r == Contains(murmur, View(), vKey)
    {
      hide Hash, AllZero, AllOnes;
      if isFull {
        return true;
      }
      if isEmpty {
        return false;
      }
      for i := 0 to nHashFuncs
        invariant forall m :: 0 <= m < i ==> SetAt(vData[..], Hash(murmur, View(), m, vKey))
      {
        var nIndex := HashOf(i, vKey);
        if !Bit(vData[nIndex / 8], nIndex % 8) {
          return false;
        }
      }
      return true;
    }

    method Clear()
      modifies this, vData
      ensures AllZero(vData[..]) && View() == old(View()).(data := vData[..], isFull := false, isEmpty := true)
    {
      for i := 0 to vData.Length
        invariant forall j :: 0 <= j < i ==> vData[j] == 0
        invariant isFull == old(isFull) && isEmpty == old(isEmpty) && nTweak == old(nTweak)
      {
        vData[i] := 0;
      }
      isFull := false;
      isEmpty := true;
    }

    method Reset(nNewTweak: nat)
      modifies this, vData
      ensures AllZero(vData[..])
      ensures View() == old(View()).(data := vData[..], isFull := false, isEmpty := true, nTweak := nNewTweak)
    {
      Clear();
      nTweak := nNewTweak;
    }

    method UpdateEmptyFull()
      modifies this
      ensures View() == Updated(old(View()))
    {
      var full, empty := true, true;
      for i := 0 to vData.Length
        invariant full <==> forall j :: 0 <= j < i ==> vData[j] == 0xff
        invariant empty <==> forall j :: 0 <= j < i ==> vData[j] == 0
      {
        full := full && vData[i] == 0xff;
        empty := empty && vData[i] == 0;
      }
      isFull := full;
      isEmpty := empty;
    }
  }

  lemma HashAlike(h: Murmur, f: Filter, g: Filter, i: nat, key: Key)
    requires f.data != [] && |g.data| == |f.data| && g.nTweak == f.nTweak
    ensures Hash(h, g, i, key) == Hash(h, f, i, key)
  {
  }

  lemma OneMore(h: Murmur, f: Filter, key: Key, i: nat, p: nat)
    requires f.data != []
    ensures IsBitOf(h, f, key, i + 1, p) <==> IsBitOf(h, f, key, i, p) || p == Hash(h, f, i, key)
  {
    if p == Hash(h, f, i, key) {
      assert IsBitOf(h, f, key, i + 1, p);
    }
  }

  // ---------------------------------------------------------------- the rolling filter

  /** How many of the last keys each of the two filters holds: m so far, n in this round of 2 * size. */
  function HeldByFirst(n: nat, m: nat, size: nat): nat
    requires size > 0 && n <= m
  {
    if n == 0 then Lesser(m, 2 * size) else n
  }

  function HeldBySecond(n: nat, m: nat, size: nat): nat
    requires size > 0 && n <= m
  {
    if n <= size then Lesser(m, n + size) else n - size
  }

  /** How many the filter that answers holds. */
  function Remembered(n: nat, m: nat, size: nat): nat
    requires size > 0 && n <= m
  {
    if n < size then HeldBySecond(n, m, size) else HeldByFirst(n, m, size)
  }

  function Lesser(a: nat, b: nat): nat { if a < b then a else b }

  /** At least the last `size` keys, and always fewer than twice as many. */
  lemma EnoughIsRemembered(n: nat, m: nat, size: nat)
    requires size > 0 && n <= m && n < 2 * size
    ensures Lesser(m, size) <= Remembered(n, m, size) <= m
    ensures Remembered(n, m, size) < 2 * size
  {
  }

  /** Each insertion adds one key to both, after emptying the one whose turn it is. */
  lemma Staggered(n: nat, m: nat, size: nat)
    requires size > 0 && n <= m && n < 2 * size
    ensures var after := if n + 1 == 2 * size then 0 else n + 1;
            HeldByFirst(after, m + 1, size) == (if n == 0 then 0 else HeldByFirst(n, m, size)) + 1
            && HeldBySecond(after, m + 1, size) == (if n != 0 && n == size then 0 else HeldBySecond(n, m, size)) + 1
    ensures HeldByFirst(n, m, size) <= m && HeldBySecond(n, m, size) <= m
  {
  }

  function Last<T>(s: seq<T>, k: nat): seq<T>
    requires k <= |s|
  {
    s[|s| - k..]
  }

  lemma LastOfMore<T>(s: seq<T>, k: nat, x: T)
    requires k <= |s|
    ensures Last(s + [x], k + 1) == Last(s, k) + [x]
    ensures Last(s, 0) == []
  {
  }

  class CRollingBloomFilter {
    const b1: CBloomFilter
    const b2: CBloomFilter
    const nBloomSize: nat
    var nInsertions: nat
    /** Every key inserted since the last reset. */
    ghost var history: seq<Key>

    ghost predicate Apart()
      reads this, b1, b2
    {
      b1 != b2 && b1.vData != b2.vData && b1.murmur == b2.murmur
      && b1.vData.Length > 0 && b2.vData.Length > 0
      && nBloomSize > 0 && nBloomSize % 2 == 0
    }

    ghost predicate Valid()
      reads this, b1, b2, b1.vData, b2.vData
    {
      Apart() && nInsertions < nBloomSize && nInsertions <= |history|
      && Holds(b1.murmur, b1.View(), Last(history, HeldByFirst(nInsertions, |history|, nBloomSize / 2)))
      && Holds(b2.murmur, b2.View(), Last(history, HeldBySecond(nInsertions, |history|, nBloomSize / 2)))
    }

    /** The two filters are given with the sizes that the formulas in the source make for 2 * nElements. */
    constructor (nElements: nat, murmur: Murmur, size: nat, nHashFuncs: nat, nNewTweak: nat)
      requires nElements > 0 && size > 0
      ensures Valid() && history == [] && nBloomSize == 2 * nElements && b1.murmur == murmur
      ensures fresh(b1) && fresh(b2) && fresh(b1.vData) && fresh(b2.vData)
    {
      b1 := new CBloomFilter(murmur, size, nHashFuncs, 0);
      b2 := new CBloomFilter(murmur, size, nHashFuncs, 0);
      nInsertions := 0;
      nBloomSize := nElements * 2;
      history := [];
      new;
      Reset(nNewTweak);
    }

    method Reset(nNewTweak: nat)
      requires Apart()
      modifies this, b1, b2, b1.vData, b2.vData
      ensures Valid() && history == [] && nInsertions == 0
      ensures b1.nTweak == nNewTweak && b2.nTweak == nNewTweak
    {
      hide Holds;
      ResetOne(b1, nNewTweak);
      ResetOne(b2, nNewTweak);
      nInsertions := 0;
      history := [];
      assert Last(history, 0) == [];
    }

    static method ResetOne(b: CBloomFilter, nNewTweak: nat)
      requires b.vData.Length > 0
      modifies b, b.vData
      ensures Holds(b.murmur, b.View(), []) && b.nTweak == nNewTweak
    {
      b.Reset(nNewTweak);
      ClearedHoldsNothing(b.murmur, b.View());
    }

    method Insert(vKey: Key)
      requires Valid()
      modifies this, b1, b2, b1.vData, b2.vData
      ensures Valid() && history == old(history) + [vKey]
    {
      hide Holds, HeldByFirst, HeldBySecond, Last;
      ghost var size := nBloomSize / 2;
      Staggered(nInsertions, |history|, size);
      ghost var n1, n2 := HeldByFirst(nInsertions, |history|, size), HeldBySecond(nInsertions, |history|, size);
      if nInsertions == 0 {
        ClearOne(b1);
        n1 := 0;
      } else if nInsertions == nBloomSize / 2 {
        ClearOne(b2);
        n2 := 0;
      }
      LastOfMore(history, n1, vKey);
      LastOfMore(history, n2, vKey);
      InsertOne(b1, Last(history, n1), vKey);
      InsertOne(b2, Last(history, n2), vKey);
      history := history + [vKey];
      nInsertions := nInsertions + 1;
      if nInsertions == nBloomSize {
        nInsertions := 0;
      }
    }

    static method ClearOne(b: CBloomFilter)
      requires b.vData.Length > 0
      modifies b, b.vData
      ensures Holds(b.murmur, b.View(), [])
    {
      b.Clear();
      ClearedHoldsNothing(b.murmur, b.View());
    }

    static method InsertOne(b: CBloomFilter, ghost keys: seq<Key>, vKey: Key)
      requires Holds(b.murmur, b.View(), keys)
      modifies b, b.vData
      ensures Holds(b.murmur, b.View(), keys + [vKey])
    {
      ghost var f := b.View();
      b.Insert(vKey);
      InsertHoldsOneMore(b.murmur, f, keys, vKey, b.View());
    }

    /** Yes for each of the last nBloomSize / 2 keys; and in any case the answer follows from the last few keys alone. */
    method Includes(vKey: Key) returns (r: bool)
      requires Valid()
      ensures vKey in Last(history, Lesser(|history|, nBloomSize / 2)) ==> r
      ensures var k := Remembered(nInsertions, |history|, nBloomSize / 2);
              k < nBloomSize && (r <==> Covered(b1.murmur, if nInsertions < nBloomSize / 2 then b2.View() else b1.View(), Last(history, k), vKey))
    {
      EnoughIsRemembered(nInsertions, |history|, nBloomSize / 2);
      ghost var k := Remembered(nInsertions, |history|, nBloomSize / 2);
      if nInsertions < nBloomSize / 2 {
        ContainsIffCovered(b2.murmur, b2.View(), Last(history, k), vKey);
        r := b2.Includes(vKey);
      } else {
        ContainsIffCovered(b1.murmur, b1.View(), Last(history, k), vKey);
        r := b1.Includes(vKey);
      }
    }
  }
}
