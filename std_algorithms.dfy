/**
 * The three standard algorithms the containers call: std::sort on the
 * buffer, and std::lower_bound and std::binary_search over it. Each takes
 * its comparator as a function, as the comparator overloads of the C++
 * algorithms do.
 */
module StdAlgorithms {
  import opened Ordering

  /** std::sort(first, last, less) on a whole buffer, as an insertion sort:
      afterwards the buffer is sorted and holds the same elements. */
  method Sort<T(!new)>(a: array<T>, less: (T, T) -> bool)
    requires StrictWeakOrder(less)
    modifies a
    ensures Sorted(a[..], less)
    ensures multiset(a[..]) == multiset(old(a[..]))
  {
    var i := 0;
    while i < a.Length
      invariant 0 <= i <= a.Length
      invariant Sorted(a[..i], less)
      invariant multiset(a[..]) == multiset(old(a[..]))
    {
      var j := i;
      while j > 0 && less(a[j], a[j - 1])
        invariant 0 <= j <= i < a.Length
        invariant forall p, q :: 0 <= p < q <= i && p != j && q != j ==> !less(a[q], a[p])
        invariant forall q :: j < q <= i ==> !less(a[q], a[j])
        invariant multiset(a[..]) == multiset(old(a[..]))
      {
        a[j - 1], a[j] := a[j], a[j - 1];
        j := j - 1;
      }
      i := i + 1;
    }
  }

  /** The elements before key form a prefix of s: the range is partitioned
      by "element precedes key", as std::lower_bound requires. */
  ghost predicate PartitionedBefore<T, K>(s: seq<T>, key: K, before: (T, K) -> bool) {
    forall i, j :: 0 <= i < j < |s| && before(s[j], key) ==> before(s[i], key)
  }

  /** The elements after key form a suffix of s, as std::binary_search
      additionally requires. */
  ghost predicate PartitionedAfter<T, K>(s: seq<T>, key: K, after: (K, T) -> bool) {
    forall i, j :: 0 <= i < j < |s| && after(key, s[i]) ==> after(key, s[j])
  }

  /** Binary search for the partition point of s[lo..hi]. */
  function LowerBoundIn<T, K>(s: seq<T>, key: K, before: (T, K) -> bool, lo: nat, hi: nat): (r: nat)
    requires lo <= hi <= |s|
    requires PartitionedBefore(s, key, before)
    ensures lo <= r <= hi
    ensures forall i :: lo <= i < r ==> before(s[i], key)
    ensures forall i :: r <= i < hi ==> !before(s[i], key)
    decreases hi - lo
  {
    if lo == hi then lo
    else
      var mid := lo + (hi - lo) / 2;
      if before(s[mid], key) then LowerBoundIn(s, key, before, mid + 1, hi)
      else LowerBoundIn(s, key, before, lo, mid)
  }

  /** std::lower_bound(first, last, key, before): the first position whose
      element does not precede key, or |s| when every element does. */
  function LowerBound<T, K>(s: seq<T>, key: K, before: (T, K) -> bool): (r: nat)
    requires PartitionedBefore(s, key, before)
    ensures r <= |s|
    ensures forall i :: 0 <= i < r ==> before(s[i], key)
    ensures r < |s| ==> !before(s[r], key)
  {
    LowerBoundIn(s, key, before, 0, |s|)
  }

  /** std::binary_search(first, last, key, comp): true exactly when some
      element is equivalent to key (neither precedes nor follows it). */
  function BinarySearch<T, K>(s: seq<T>, key: K, before: (T, K) -> bool, after: (K, T) -> bool): (r: bool)
    requires PartitionedBefore(s, key, before)
    requires PartitionedAfter(s, key, after)
    ensures r <==> exists i :: 0 <= i < |s| && !before(s[i], key) && !after(key, s[i])
  {
    var i := LowerBound(s, key, before);
    assert forall k :: 0 <= k < |s| && !before(s[k], key) && !after(key, s[k]) ==> i <= k && !after(key, s[i]);
    i < |s| && !after(key, s[i])
  }
}
