/** The order in which a map with integer keys is gone through. */
module MapOrder {
  ghost predicate IsMin(keys: set<int>, x: int) { x in keys && forall y :: y in keys ==> x <= y }

  lemma Member(keys: set<int>)
    requires |keys| > 0
    ensures exists x :: x in keys
  {
    assert (forall x :: x !in keys) ==> keys == {};
  }

  lemma {:induction false} MinExists(keys: set<int>)
    requires keys != {}
    ensures exists x :: IsMin(keys, x)
  {
    assert (forall x :: x !in keys) ==> keys == {};
    var y: int :| y in keys;
    if x: int :| x in keys && x < y {
      var rest := keys - {y};
      assert x in rest;
      MinExists(rest);
      var z: int :| IsMin(rest, z);
      assert forall w :: w in keys ==> w == y || w in rest;
      assert IsMin(keys, z);
    } else {
      assert IsMin(keys, y);
    }
  }

  lemma SubsetSize<T>(a: set<T>, b: set<T>)
    requires a <= b
    ensures |a| <= |b|
  {
    assert b == a + (b - a);
  }

  ghost function Min(keys: set<int>): (x: int)
    requires keys != {}
    ensures IsMin(keys, x)
  {
    MinExists(keys);
    var m :| IsMin(keys, m);
    m
  }

  /** Keys in the order in which a map is gone through. */
  ghost function Sorted(keys: set<int>): seq<int> {
    if keys == {} then [] else [Min(keys)] + Sorted(keys - {Min(keys)})
  }

  predicate NoRepeats<T(==)>(s: seq<T>) { forall i, j :: 0 <= i < j < |s| ==> s[i] != s[j] }

  /** The order has every key once. */
  lemma {:induction false} SortedIsComplete(keys: set<int>)
    ensures forall id :: id in Sorted(keys) <==> id in keys
    ensures NoRepeats(Sorted(keys)) && |Sorted(keys)| == |keys|
  {
    if keys != {} {
      SortedIsComplete(keys - {Min(keys)});
    }
  }

  function Elements(ids: seq<int>): set<int> { set id | id in ids }

  lemma {:induction false} ElementsCount(ids: seq<int>)
    requires NoRepeats(ids)
    ensures |Elements(ids)| == |ids|
  {
    if ids != [] {
      var n := |ids| - 1;
      ElementsCount(ids[..n]);
      assert Elements(ids) == Elements(ids[..n]) + {ids[n]};
    }
  }

  lemma NoRepeatsTogether(a: seq<int>, b: seq<int>)
    requires NoRepeats(a) && NoRepeats(b) && forall id :: id in a ==> id !in b
    ensures NoRepeats(a + b) && forall id :: id in a + b <==> id in a || id in b
  {
    forall i, j | 0 <= i < j < |a + b| ensures (a + b)[i] != (a + b)[j] {
      if i < |a| <= j {
        assert a[i] in a && b[j - |a|] in b;
      }
    }
  }
}
