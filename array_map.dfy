/**
 * ArrayMap<KeyT, ValueT>, over int keys and int values: a FixedArray of
 * pairs sorted with std::pair's operator< after every construction. Its
 * replace is meant to sort as well, but as written does not (ReplaceAsWritten
 * below). Lookups compare keys only, through pair_sort_first_functor. As for
 * the set, the map holds its FixedArray as `base`.
 */
module ArrayMaps {
  import opened Ordering
  import opened StdAlgorithms
  import opened FixedArrays

  /** Some stored pair has this key. */
  ghost predicate HasKey(s: seq<Pair>, key: int) {
    exists i :: 0 <= i < |s| && s[i].first == key
  }

  class ArrayMap {
    const base: FixedArray<Pair>

    /** The buffer is non-decreasing under std::pair's operator<. */
    ghost predicate Valid()
      reads this, base, base.data
    {
      base.Valid() && Sorted(base.Elements(), PairLess)
    }

    /** The constructors taking a container or an initializer list. */
    constructor (src: seq<Pair>)
      ensures Valid()
      ensures multiset(base.Elements()) == multiset(src)
      ensures fresh(base)
      ensures base.data == null || fresh(base.data)
    {
      base := new FixedArray(src);
      new;
      PairLessIsStrictTotalOrder();
      SortRange(base, PairLess);
    }

    /** The constructor taking a forward range: its length is counted with
        compute_fwd_it_dist. */
    constructor FromRange(src: seq<Pair>)
      ensures Valid()
      ensures multiset(base.Elements()) == multiset(src)
      ensures fresh(base)
      ensures base.data == null || fresh(base.data)
    {
      var size := ComputeFwdItDist(src);
      base := new FixedArray.Sized(src, size);
      new;
      PairLessIsStrictTotalOrder();
      SortRange(base, PairLess);
    }

    /** The constructor taking a std::map: its entries, which a std::map
        yields with strictly increasing keys, and the map's own size. The
        sort then leaves them exactly as they came. */
    constructor FromMap(src: seq<Pair>, size: nat)
      requires size == |src|
      requires forall i, j :: 0 <= i < j < |src| ==> src[i].first < src[j].first
      ensures Valid()
      ensures base.Elements() == src
      ensures fresh(base)
      ensures base.data == null || fresh(base.data)
    {
      base := new FixedArray.Sized(src, size);
      new;
      PairLessIsStrictTotalOrder();
      SortRange(base, PairLess);
      assert Sorted(src, PairLess);
      SortedPermutationUnique(base.Elements(), src, PairLess);
    }

    /** count(key): std::binary_search for key, comparing keys only. */
    function Count(key: int): (r: nat)
      reads this, base, base.data
      requires Valid()
      ensures r <= 1
      ensures r == 1 <==> HasKey(base.Elements(), key)
    {
      var s := base.Elements();
      SortedIsPartitioned(s, key);
      if BinarySearch(s, key, PairBeforeKey, KeyBeforePair) then 1 else 0
    }

    /** find(key): the lower bound of key, or end() when the pair there does
        not have that key. */
    function Find(key: int): (it: nat)
      reads this, base, base.data
      requires Valid()
      ensures it <= base.Size()
      ensures it == base.End() <==> !HasKey(base.Elements(), key)
      ensures it < base.End() ==> base.Elements()[it].first == key
      ensures forall i :: 0 <= i < it && it < base.End() ==> base.Elements()[i].first < key
    {
      var s := base.Elements();
      SortedIsPartitioned(s, key);
      var i := LowerBound(s, key, PairBeforeKey);
      assert forall k :: 0 <= k < |s| && s[k].first == key ==> i <= k && (i < |s| ==> s[i].first <= s[k].first);
      if i == |s| || s[i].first != key then |s| else i
    }

    /** operator[](key): the value of the pair find(key) locates, or a
        key-not-found error where the C++ code asserts. */
    function Subscript(key: int): (r: Result<int>)
      reads this, base, base.data
      requires Valid()
      ensures r.Ok? <==> HasKey(base.Elements(), key)
      ensures r.Ok? ==> Pair(key, r.value) in base.Elements()
      ensures r.Ok? ==> r.value == base.Elements()[Find(key)].second
      ensures r.Err? ==> r.error == KeyNotFound
    {
      var it := Find(key);
      if it == base.End() then Err(KeyNotFound) else Ok(base.Elements()[it].second)
    }

    /** at(key): forwards to operator[]. */
    function At(key: int): (r: Result<int>)
      reads this, base, base.data
      requires Valid()
      ensures r == Subscript(key)
      ensures r.Ok? <==> HasKey(base.Elements(), key)
      ensures r.Ok? ==> Pair(key, r.value) in base.Elements()
      ensures r.Err? ==> r.error == KeyNotFound
    {
      Subscript(key)
    }

    /** replace(begin, end) as intended: the base replace, then the buffer is
        sorted, as ArraySet::replace does. */
    method Replace(src: seq<Pair>)
      requires Valid()
      modifies base, base.data
      ensures Valid()
      ensures multiset(base.Elements()) == multiset(src)
      ensures src == [] ==> base.data == null
      ensures src != [] && |src| == old(base.Size()) ==> base.data == old(base.data)
      ensures src != [] && |src| != old(base.Size()) ==> fresh(base.data)
    {
      base.Replace(src);
      PairLessIsStrictTotalOrder();
      SortRange(base, PairLess);
    }

    /** replace(begin, end) as written: the sort call names the parameters
        begin and end, which shadow the member functions, so nothing sorts
        the buffer that the base replace filled. */
    method ReplaceAsWritten(src: seq<Pair>)
      requires base.Valid()
      modifies base, base.data
      ensures base.Valid()
      ensures base.Elements() == src
      ensures src == [] ==> base.data == null
      ensures src != [] && |src| == old(base.Size()) ==> base.data == old(base.data)
      ensures src != [] && |src| != old(base.Size()) ==> fresh(base.data)
    {
      base.Replace(src);
    }

    /** ~ArrayMap(): base_type::clear(), then ~FixedArray() clears again.
        It runs on any state the buffer can be in, sorted or not; on a map
        that holds no buffer it changes nothing. */
    method Destroy()
      requires base.Valid()
      modifies base
      ensures Valid()
      ensures base.Empty()
      ensures old(base.data) == null ==> unchanged(base)
    {
      base.Clear();
      base.Destroy();
    }
  }

  /** A buffer sorted by std::pair's operator< meets the partition
      requirements of std::lower_bound and std::binary_search for every key
      under the key-only comparator. */
  lemma SortedIsPartitioned(s: seq<Pair>, key: int)
    requires Sorted(s, PairLess)
    ensures PartitionedBefore(s, key, PairBeforeKey)
    ensures PartitionedAfter(s, key, KeyBeforePair)
  {
    PairLessSortedIsKeySorted(s);
  }

  /** Count and find agree: count(key) is 1 exactly when find(key) is not
      end(). */
  lemma CountAgreesWithFind(m: ArrayMap, key: int)
    requires m.Valid()
    ensures m.Count(key) == 1 <==> m.Find(key) != m.base.End()
  {
  }

  /** Without the re-sort, a replace can leave a buffer that is not sorted
      and not partitioned by key 2, so the binary searches lose their
      precondition; and for key 1, whose partition requirement holds
      vacuously, the lower bound lands on the pair with key 2, so find(1)
      answers end() although key 1 is stored. */
  lemma ReplaceAsWrittenLosesOrder(m: ArrayMap)
    requires m.base.Valid()
    requires m.base.Elements() == [Pair(2, 20), Pair(1, 10)]
    ensures !m.Valid()
    ensures !PartitionedBefore(m.base.Elements(), 2, PairBeforeKey)
    ensures PartitionedBefore(m.base.Elements(), 1, PairBeforeKey)
    ensures LowerBound(m.base.Elements(), 1, PairBeforeKey) == 0
    ensures m.base.Elements()[0].first != 1
    ensures HasKey(m.base.Elements(), 1)
  {
    var s := m.base.Elements();
    assert PairLess(s[1], s[0]);
    assert s[1].first == 1;
  }
}
