/**
 * Client code that uses the containers for concrete inputs and shows what a
 * caller can conclude from their contracts alone.
 */
module Scenarios {
  import opened Ordering
  import opened FixedArrays
  import opened ArraySets
  import opened ArrayMaps

  /** A set built from 5, 3, 3, 1 iterates as 1, 3, 3, 5; 3 is a member, 4 is not. */
  method SetFromUnsortedList() returns (s: ArraySet)
    ensures s.Valid()
    ensures s.base.Elements() == [1, 3, 3, 5]
    ensures s.Count(3) && !s.Count(4)
  {
    s := new ArraySet([5, 3, 3, 1]);
    SortedArrangementOf5331(s.base.Elements());
  }

  /** The only sorted arrangement of 5, 3, 3, 1 is 1, 3, 3, 5. */
  lemma SortedArrangementOf5331(e: seq<int>)
    requires Sorted(e, IntLess)
    requires multiset(e) == multiset([5, 3, 3, 1])
    ensures e == [1, 3, 3, 5]
  {
    assert multiset([5, 3, 3, 1]) == multiset([1, 3, 3, 5]);
    assert Sorted([1, 3, 3, 5], IntLess);
    IntLessIsStrictTotalOrder();
    SortedPermutationUnique(e, [1, 3, 3, 5], IntLess);
  }

  /** A map built from (2, 20), (1, 10) finds 10 under key 1 and nothing under key 3. */
  method MapLookups() returns (m: ArrayMap)
    ensures m.Valid()
    ensures m.base.Elements() == [Pair(1, 10), Pair(2, 20)]
    ensures m.Subscript(1) == Ok(10)
    ensures m.Find(3) == m.base.End()
  {
    m := new ArrayMap([Pair(2, 20), Pair(1, 10)]);
    assert multiset([Pair(2, 20), Pair(1, 10)]) == multiset([Pair(1, 10), Pair(2, 20)]);
    PairLessIsStrictTotalOrder();
    SortedPermutationUnique(m.base.Elements(), [Pair(1, 10), Pair(2, 20)], PairLess);
  }

  /** A FixedArray built from an empty list is empty; replaced with three
      elements it holds them in input order, and a subscript at size() is
      out of bounds. */
  method SequenceKeepsInputOrder() returns (a: FixedArray<int>)
    ensures a.Valid()
    ensures a.Size() == 3 && a.Elements() == [7, 2, 9]
    ensures a.Get(3) == Err(OutOfBounds)
  {
    a := new FixedArray([]);
    assert a.Empty();
    a.Replace([7, 2, 9]);
  }

  /** Replacing a map that held (1, 10) with (9, 25), (4, 26) leaves the two
      new pairs sorted by key, and key 1 is gone. */
  method MapReplaceForgetsOldKeys() returns (m: ArrayMap)
    ensures m.Valid()
    ensures m.base.Size() == 2
    ensures m.base.Elements() == [Pair(4, 26), Pair(9, 25)]
    ensures m.Find(1) == m.base.End()
  {
    m := new ArrayMap([Pair(1, 10)]);
    m.Replace([Pair(9, 25), Pair(4, 26)]);
    assert multiset([Pair(9, 25), Pair(4, 26)]) == multiset([Pair(4, 26), Pair(9, 25)]);
    PairLessIsStrictTotalOrder();
    SortedPermutationUnique(m.base.Elements(), [Pair(4, 26), Pair(9, 25)], PairLess);
  }

  /** Replacing a map twice with the same size reuses the buffer the first
      replace allocated; a map left unsorted by the as-written replace can
      still be replaced and destroyed. */
  method MapReplacedTwice() returns (m: ArrayMap)
    ensures m.Valid() && m.base.Empty()
  {
    m := new ArrayMap([Pair(1, 10)]);
    m.Replace([Pair(2, 20), Pair(1, 10)]);
    var buffer := m.base.data;
    m.Replace([Pair(3, 30), Pair(1, 10)]);
    assert m.base.data == buffer;
    m.ReplaceAsWritten([Pair(2, 20), Pair(1, 10)]);
    m.ReplaceAsWritten([Pair(5, 50)]);
    m.Destroy();
  }

  /** Replacing a set twice with the same size reuses the buffer, and the
      second replace leaves its own elements, sorted. */
  method SetReplacedTwice() returns (s: ArraySet)
    ensures s.Valid() && s.base.Elements() == [1, 3]
  {
    s := new ArraySet([4]);
    s.Replace([9, 8]);
    var buffer := s.base.data;
    s.Replace([3, 1]);
    assert s.base.data == buffer;
    SortedArrangementOf31(s.base.Elements());
  }

  /** The only sorted arrangement of 3, 1 is 1, 3. */
  lemma SortedArrangementOf31(e: seq<int>)
    requires Sorted(e, IntLess)
    requires multiset(e) == multiset([3, 1])
    ensures e == [1, 3]
  {
    assert multiset([3, 1]) == multiset([1, 3]);
    IntLessIsStrictTotalOrder();
    SortedPermutationUnique(e, [1, 3], IntLess);
  }

  /** Replacing with an empty source from either state ends in the empty
      state, and the map destructor's double clear is harmless. */
  method EmptyStates() returns (a: FixedArray<int>, m: ArrayMap)
    ensures a.Valid() && a.Empty() && a.data == null
    ensures m.Valid() && m.base.Empty() && m.base.data == null
  {
    a := new FixedArray([1, 2]);
    a.Replace([]);
    assert a.data == null;
    a.Replace([]);
    m := new ArrayMap([Pair(1, 10)]);
    m.Replace([]);
    assert m.base.data == null;
    m.Replace([Pair(4, 40)]);
    m.Destroy();
  }
}
