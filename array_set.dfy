/**
 * ArraySet<T>, over int: a FixedArray kept sorted with std::less after every
 * construction and replace, with a binary-search membership test. The C++
 * class derives from FixedArray; here the set holds its FixedArray as `base`,
 * and the inherited size(), empty(), begin(), end() and operator[] are the
 * base's.
 */
module ArraySets {
  import opened Ordering
  import opened StdAlgorithms
  import opened FixedArrays

  class ArraySet {
    const base: FixedArray<int>

    /** The buffer is non-decreasing. */
    ghost predicate Valid()
      reads this, base, base.data
    {
      base.Valid() && Sorted(base.Elements(), IntLess)
    }

    /** The constructors taking a container or an initializer list. */
    constructor (src: seq<int>)
      ensures Valid()
      ensures multiset(base.Elements()) == multiset(src)
      ensures fresh(base)
      ensures base.data == null || fresh(base.data)
    {
      base := new FixedArray(src);
      new;
      IntLessIsStrictTotalOrder();
      SortRange(base, IntLess);
    }

    /** The constructor taking a forward range: its length is counted with
        compute_fwd_it_dist. */
    constructor FromRange(src: seq<int>)
      ensures Valid()
      ensures multiset(base.Elements()) == multiset(src)
      ensures fresh(base)
      ensures base.data == null || fresh(base.data)
    {
      var size := ComputeFwdItDist(src);
      base := new FixedArray.Sized(src, size);
      new;
      IntLessIsStrictTotalOrder();
      SortRange(base, IntLess);
    }

    /** count(v): std::binary_search for v. */
    function Count(v: int): (r: bool)
      reads this, base, base.data
      requires Valid()
      ensures r <==> v in base.Elements()
    {
      var s := base.Elements();
      SortedIsPartitioned(s, v);
      BinarySearch(s, v, IntLess, IntLess)
    }

    /** replace(begin, end): the base replace, then the buffer is sorted. */
    method Replace(src: seq<int>)
      requires Valid()
      modifies base, base.data
      ensures Valid()
      ensures multiset(base.Elements()) == multiset(src)
      ensures src == [] ==> base.data == null
      ensures src != [] && |src| == old(base.Size()) ==> base.data == old(base.data)
      ensures src != [] && |src| != old(base.Size()) ==> fresh(base.data)
    {
      base.Replace(src);
      IntLessIsStrictTotalOrder();
      SortRange(base, IntLess);
    }
  }

  /** A sorted buffer meets the partition requirements of std::binary_search
      for every value. */
  lemma SortedIsPartitioned(s: seq<int>, v: int)
    requires Sorted(s, IntLess)
    ensures PartitionedBefore(s, v, IntLess)
    ensures PartitionedAfter(s, v, IntLess)
  {
  }
}
