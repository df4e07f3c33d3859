/**
 * Orders used by the containers: the requirements std::sort and
 * std::lower_bound place on a comparator, the element orders the containers
 * sort with (std::less<int>, std::pair's operator<), and the key-only
 * comparator pair_sort_first_functor the map searches with.
 */
module Ordering {

  /** The element type of ArrayMap<int, int>: a std::pair<int, int>. */
  datatype Pair = Pair(first: int, second: int)

  /** A strict weak ordering: asymmetric and negatively transitive. The
      relation "not less(y, x)" is then a total preorder. */
  ghost predicate StrictWeakOrder<T(!new)>(less: (T, T) -> bool) {
    && (forall x, y :: less(x, y) ==> !less(y, x))
    && (forall x, y, z :: less(x, z) ==> less(x, y) || less(y, z))
  }

  /** A strict weak ordering whose equivalent elements are equal. */
  ghost predicate StrictTotalOrder<T(!new)>(less: (T, T) -> bool) {
    && StrictWeakOrder(less)
    && (forall x, y :: x != y ==> less(x, y) || less(y, x))
  }

  /** Non-decreasing under less: no later element is less than an earlier one. */
  ghost predicate Sorted<T>(s: seq<T>, less: (T, T) -> bool) {
    forall i, j :: 0 <= i < j < |s| ==> !less(s[j], s[i])
  }

  /** std::less<int>: strict, and of two different values exactly one is less. */
  function IntLess(x: int, y: int): (r: bool)
    ensures r ==> x != y
    ensures x != y ==> (r <==> !(y < x))
  {
    x < y
  }

  /** std::pair's operator<: lexicographic, by first, then by second. */
  function PairLess(lhs: Pair, rhs: Pair): (r: bool)
    ensures lhs.first != rhs.first ==> (r <==> lhs.first < rhs.first)
    ensures lhs.first == rhs.first ==> (r <==> lhs.second < rhs.second)
  {
    lhs.first < rhs.first || (!(rhs.first < lhs.first) && lhs.second < rhs.second)
  }

  /** pair_sort_first_functor, its (pair, key) overload: every pair with that
      key sorts after lhs under std::pair's operator<. */
  function PairBeforeKey(lhs: Pair, key: int): (r: bool)
    ensures r ==> forall v :: PairLess(lhs, Pair(key, v))
    ensures !r ==> exists v :: !PairLess(lhs, Pair(key, v))
  {
    assert lhs.first >= key ==> !PairLess(lhs, Pair(key, lhs.second));
    lhs.first < key
  }

  /** pair_sort_first_functor, its (key, pair) overload: every pair with that
      key sorts before rhs, and a key cannot be both before and after a pair. */
  function KeyBeforePair(key: int, rhs: Pair): (r: bool)
    ensures r ==> forall v :: PairLess(Pair(key, v), rhs)
    ensures !r ==> exists v :: !PairLess(Pair(key, v), rhs)
    ensures r ==> !PairBeforeKey(rhs, key)
  {
    assert key >= rhs.first ==> !PairLess(Pair(key, rhs.second), rhs);
    key < rhs.first
  }

  /** pair_sort_first_functor, its (pair, pair) overload: compares keys only,
      agrees with the two mixed overloads, and a smaller key also makes a
      smaller pair under std::pair's operator<. */
  function PairFirstLess(lhs: Pair, rhs: Pair): (r: bool)
    ensures r <==> PairBeforeKey(lhs, rhs.first)
    ensures r <==> KeyBeforePair(lhs.first, rhs)
    ensures r ==> PairLess(lhs, rhs)
  {
    lhs.first < rhs.first
  }

  lemma IntLessIsStrictTotalOrder()
    ensures StrictTotalOrder(IntLess)
  {
  }

  lemma PairLessIsStrictTotalOrder()
    ensures StrictTotalOrder(PairLess)
  {
  }

  /** The key-only comparator is a strict weak ordering but not a total one:
      two pairs with the same key and different values are equivalent. */
  lemma PairFirstLessIsWeakNotTotal()
    ensures StrictWeakOrder(PairFirstLess)
    ensures !StrictTotalOrder(PairFirstLess)
  {
    assert Pair(0, 0) != Pair(0, 1) && !PairFirstLess(Pair(0, 0), Pair(0, 1)) && !PairFirstLess(Pair(0, 1), Pair(0, 0));
  }

  /** Sorting with std::pair's operator< also sorts by key, which is the order
      the key-only comparator of the lookups needs. */
  lemma PairLessSortedIsKeySorted(s: seq<Pair>)
    requires Sorted(s, PairLess)
    ensures Sorted(s, PairFirstLess)
    ensures forall i, j :: 0 <= i < j < |s| ==> s[i].first <= s[j].first
  {
  }

  /** Two sequences sorted under the same strict total order that hold the
      same elements are equal: a sorted permutation is unique. */
  lemma {:induction false} SortedPermutationUnique<T(!new)>(s: seq<T>, t: seq<T>, less: (T, T) -> bool)
    requires StrictTotalOrder(less)
    requires Sorted(s, less) && Sorted(t, less)
    requires multiset(s) == multiset(t)
    ensures s == t
    decreases |s|
  {
    if s == [] {
      assert |t| == |multiset(t)| == 0;
    } else {
      assert |t| == |multiset(t)| == |multiset(s)| == |s|;
      assert s == [s[0]] + s[1..];
      assert t == [t[0]] + t[1..];
      assert s[0] in multiset(t);
      var k :| 0 <= k < |t| && t[k] == s[0];
      assert t[0] in multiset(s);
      var m :| 0 <= m < |s| && s[m] == t[0];
      assert !less(t[0], s[0]) by { assert k == 0 || !less(t[k], t[0]); }
      assert !less(s[0], t[0]) by { assert m == 0 || !less(s[m], s[0]); }
      assert s[0] == t[0];
      assert multiset(s[1..]) == multiset(t[1..]) by {
        assert multiset(s) == multiset{s[0]} + multiset(s[1..]) by { assert s == [s[0]] + s[1..]; }
        assert multiset(t) == multiset{t[0]} + multiset(t[1..]) by { assert t == [t[0]] + t[1..]; }
        assert multiset(s[1..]) == multiset(s) - multiset{s[0]};
        assert multiset(t[1..]) == multiset(t) - multiset{t[0]};
      }
      SortedPermutationUnique(s[1..], t[1..], less);
    }
  }
}
