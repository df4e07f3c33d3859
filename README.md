# Write-rare containers: FixedArray, ArrayMap, ArraySet

This project is a Dafny model of the containers in `ArrayTypes.h`. They replace `std::vector`,
`std::map` and `std::set` in read-mostly code. None of them inserts or erases a single element;
their contents can only be replaced as a whole.

- `FixedArray<T>` owns one contiguous buffer delimited by `m_begin` and `m_end`. `replace`
  works in steps:
  - It destroys the old elements.
  - It allocates a new buffer only when the size changes.
  - It moves the source in, in source order.
  - An empty source nulls both pointers.
- `ArrayMap` is a `FixedArray` of `std::pair`s. It is sorted after every construction. Its
  `replace` is meant to sort as well, but as written does not (see "## Findings"). `count`, `find`, `at` and `operator[]` search it by key with binary search.
- `ArraySet` is a `FixedArray` that is sorted after every construction and replace.
  `count` is a binary-search membership test.

How the model maps onto the C++:

- The buffer is the field `data: array?<T>`.
  - `null` stands for `m_begin == m_end == nullptr`.
  - Otherwise `data` is the allocation that `m_begin` points to.
  - An allocation always holds exactly the live elements, so `m_end - m_begin` is `data.Length`.
- Iterators are positions into the buffer: `begin()` is 0 and `end()` is `size()`.
- Source ranges are sequences.
- Inheritance is modelled by composition. The map and the set hold their `FixedArray` as the
  constant field `base`. `size()`, `empty()`, `begin()`, `end()` and the subscript are the base's.
- `std::sort`, `std::lower_bound` and `std::binary_search` are modelled in `StdAlgorithms`:
  - `Sort` is an insertion sort over any strict weak ordering.
  - `LowerBound` and `BinarySearch` are recursive halving searches over a range that is
    partitioned with respect to the key, which is what the C++ standard requires of their inputs.
- The map is `ArrayMap<int, int>` and the set is `ArraySet<int>`. The map constructors call
  `std::sort` without a comparator, so the pairs are ordered by `std::pair`'s `operator<`: first
  by key, then by value. Sorting by value needs an order on the value type, so values are `int`
  too. `PairLessSortedIsKeySorted` shows that this order also sorts by key. Key order is all that
  the key-only comparator `pair_sort_first_functor` needs for the lookups.

Three behaviours of the code that a reader of a map or set might not expect, and that the model follows:

- The map is sorted by the whole pair, not by key alone.
- `find` returns the first pair with the key (the lower bound), not just some matching pair.
- A replace with an empty source nulls the pointers without freeing the old buffer.

## Model

| member | source | states |
|---|---|---|
| `FixedArrays.ComputeFwdItDist` | ArrayTypes.h:115-125 | stepping through a forward range counts exactly its length |
| `FixedArrays.FixedArray.Begin` | ArrayTypes.h:44-45 | begin() lies at or before end(), and iterating from begin() to end() visits exactly the live elements |
| `FixedArrays.FixedArray.End` | ArrayTypes.h:46-47 | end() is one past the last live element, i.e. the element count, and the end of the allocation when one is held |
| `FixedArrays.FixedArray.Size` | ArrayTypes.h:51 | size() is end() - begin() and equals the number of live elements |
| `FixedArrays.FixedArray.Empty` | ArrayTypes.h:52 | empty() holds exactly when size() is 0, when there are no elements, and when no buffer is held |
| `FixedArrays.FixedArray.Get` | ArrayTypes.h:49 | the subscript as intended: succeeds exactly when idx < size(), with the element at idx; otherwise an out-of-bounds error |
| `FixedArrays.FixedArray.SubscriptAsWritten` | ArrayTypes.h:49 | the subscript as written yields a position that holds the intended element exactly when idx is in bounds, and nothing is checked otherwise |
| `FixedArrays.SubscriptAsWrittenUnchecked` | ArrayTypes.h:49 | for idx >= size() the as-written subscript yields a position at or past end(), where the intended one reports out of bounds |
| `FixedArrays.FixedArray.constructor` | ArrayTypes.h:34-37 | construction from a container, list or random-access range holds the source, in order, in a fresh buffer (none for an empty source) |
| `FixedArrays.FixedArray.Sized` | ArrayTypes.h:36 | construction from a range and its length holds the source, in order |
| `FixedArrays.FixedArray.Replace` | ArrayTypes.h:54 | the two-iterator replace is the sized replace with size end - begin |
| `FixedArrays.FixedArray.ReplaceSized` | ArrayTypes.h:55-84 | afterwards the elements are the source in order; an empty source leaves no buffer; an unchanged size reuses the buffer; a changed non-zero size allocates a fresh one |
| `FixedArrays.FixedArray.Clear` | ArrayTypes.h:87-99 | always ends with no buffer and no elements; on an empty container nothing changes |
| `FixedArrays.FixedArray.Destroy` | ArrayTypes.h:39 | the destructor ends in the empty state, and destroying an already empty container changes nothing |
| `FixedArrays.SortRange` | ArrayTypes.h:173 | sorting begin()..end() leaves the live elements sorted and a permutation of what they were |
| `StdAlgorithms.Sort` | ArrayTypes.h:136-139 | std::sort on the buffer: the result is non-decreasing under the comparator and has the same multiset of elements |
| `StdAlgorithms.LowerBoundIn` | ArrayTypes.h:147 | on a partitioned range, the binary search stops at the partition point: everything before it precedes the key, nothing from it on does |
| `StdAlgorithms.LowerBound` | ArrayTypes.h:147 | std::lower_bound returns the first position whose element does not precede the key, or the end |
| `StdAlgorithms.BinarySearch` | ArrayTypes.h:146 | std::binary_search is true exactly when some element is equivalent to the key |
| `Ordering.IntLess` | ArrayTypes.h:170 | std::less<int>, the set's order: never true of equal values, and of two different values exactly one is less than the other |
| `Ordering.PairLess` | ArrayTypes.h:136-139 | std::pair's operator<, which the map constructors sort with: by key when the keys differ, by value when they are equal |
| `Ordering.PairFirstLess` | ArrayTypes.h:110 | the (pair, pair) overload of pair_sort_first_functor compares keys only, agrees with the two mixed overloads, and a smaller key means a smaller pair under operator< |
| `Ordering.PairBeforeKey` | ArrayTypes.h:111 | the (pair, key) overload holds exactly when every pair with that key sorts after the given pair |
| `Ordering.KeyBeforePair` | ArrayTypes.h:112 | the (key, pair) overload holds exactly when every pair with that key sorts before the given pair, and then the pair is not before the key |
| `Ordering.IntLessIsStrictTotalOrder` | ArrayTypes.h:170 | std::less on the set's elements is a strict total order, as sort and search require |
| `Ordering.PairLessIsStrictTotalOrder` | ArrayTypes.h:136 | std::pair's operator<, which the map constructors sort with, is a strict total order |
| `Ordering.PairFirstLessIsWeakNotTotal` | ArrayTypes.h:106-113 | the key-only comparator is a strict weak order, but not total: pairs with one key and different values are equivalent |
| `Ordering.PairLessSortedIsKeySorted` | ArrayTypes.h:110 | a buffer sorted by std::pair's operator< is non-decreasing by key, the order the key-only comparator needs |
| `Ordering.SortedPermutationUnique` | ArrayTypes.h:163-165 | under a strict total order, two sorted sequences with the same elements are equal, so a sorted buffer is determined by its input |
| `ArraySets.ArraySet.constructor` | ArrayTypes.h:163-164 | construction from a container or list leaves a sorted permutation of the source |
| `ArraySets.ArraySet.FromRange` | ArrayTypes.h:165 | construction from a forward range counts it, then leaves a sorted permutation of it |
| `ArraySets.ArraySet.Count` | ArrayTypes.h:170 | count(v) is true exactly when v is in the buffer |
| `ArraySets.ArraySet.Replace` | ArrayTypes.h:173 | replace keeps the buffer sorted and makes it a permutation of the new source, and follows the base replace's buffer rule: none for an empty source, the same buffer for an unchanged size, a new one otherwise |
| `ArraySets.SortedIsPartitioned` | ArrayTypes.h:170 | a sorted buffer meets std::binary_search's partition requirements for every value |
| `ArrayMaps.ArrayMap.constructor` | ArrayTypes.h:136-137 | construction from a container or list leaves a permutation of the source sorted by pair order |
| `ArrayMaps.ArrayMap.FromRange` | ArrayTypes.h:138 | construction from a forward range counts it with compute_fwd_it_dist, then sorts a permutation of it |
| `ArrayMaps.ArrayMap.FromMap` | ArrayTypes.h:139 | construction from a std::map's entries, which come with strictly increasing keys, and its size leaves exactly those entries, in that order, sorted |
| `ArrayMaps.ArrayMap.Count` | ArrayTypes.h:146 | count(key) is 1 if some stored pair has the key, and 0 otherwise |
| `ArrayMaps.ArrayMap.Find` | ArrayTypes.h:147-148 | find(key) is end() exactly when no pair has the key; otherwise it is the first pair with that key, with all earlier keys smaller |
| `ArrayMaps.ArrayMap.Subscript` | ArrayTypes.h:150 | operator[] succeeds exactly when the key is present, with the value of the pair find locates, and gives a key-not-found error otherwise |
| `ArrayMaps.ArrayMap.At` | ArrayTypes.h:149 | at(key) answers as operator[] does: the value stored under key when the key is present, a key-not-found error otherwise |
| `ArrayMaps.ArrayMap.Replace` | ArrayTypes.h:153 | replace as intended keeps the buffer sorted and makes it a permutation of the new source, and follows the base replace's buffer rule: none for an empty source, the same buffer for an unchanged size, a new one otherwise |
| `ArrayMaps.ArrayMap.ReplaceAsWritten` | ArrayTypes.h:153 | replace as written runs on any state, leaves the new source in input order, unsorted, and follows the base replace's buffer rule |
| `ArrayMaps.ArrayMap.Destroy` | ArrayTypes.h:141 | the destructor runs on any state, sorted or not, clears twice, once itself and once through ~FixedArray, ends empty, and changes nothing on a map that holds no buffer |
| `ArrayMaps.SortedIsPartitioned` | ArrayTypes.h:146-148 | a buffer sorted by pair order meets the partition requirements of the key-only searches for every key |
| `ArrayMaps.CountAgreesWithFind` | ArrayTypes.h:146-148 | count(key) is 1 exactly when find(key) is not end() |
| `ArrayMaps.ReplaceAsWrittenLosesOrder` | ArrayTypes.h:153 | after the as-written replace with (2, 20), (1, 10), the buffer is neither sorted nor partitioned for key 2, and for key 1 the lower bound lands on key 2, so find(1) answers end() although key 1 is stored |
| `Scenarios.SetFromUnsortedList` | ArrayTypes.h:163-170 | a set built from 5, 3, 3, 1 iterates as 1, 3, 3, 5; count(3) is true and count(4) is false |
| `Scenarios.SortedArrangementOf5331` | ArrayTypes.h:163 | the only sorted permutation of 5, 3, 3, 1 is 1, 3, 3, 5 |
| `Scenarios.MapLookups` | ArrayTypes.h:136-150 | a map built from (2, 20), (1, 10) is sorted by key; operator[](1) gives 10; find(3) is end() |
| `Scenarios.SequenceKeepsInputOrder` | ArrayTypes.h:34-84 | an empty FixedArray replaced with 7, 2, 9 holds them in input order; the subscript at size() is out of bounds |
| `Scenarios.MapReplaceForgetsOldKeys` | ArrayTypes.h:153 | replacing {(1, 10)} with (9, 25), (4, 26) gives (4, 26), (9, 25); key 1 is no longer found |
| `Scenarios.MapReplacedTwice` | ArrayTypes.h:62-83 | a map replaced twice with the same size keeps its buffer, and after the as-written replace it can be replaced again and destroyed |
| `Scenarios.SetReplacedTwice` | ArrayTypes.h:173 | a set replaced twice with the same size keeps its buffer and holds the second source sorted |
| `Scenarios.SortedArrangementOf31` | ArrayTypes.h:173 | the only sorted arrangement of 3, 1 is 1, 3 |
| `Scenarios.EmptyStates` | ArrayTypes.h:79-99 | a replace with an empty source leaves no buffer, and the map destructor's double clear ends empty |

## Left out

- Memory management is not modelled. This covers `malloc`, `free`, the destructor loops over
  the old elements, and placement of moved values in uninitialised memory. Dafny has no explicit
  deallocation and no destructors. A fresh Dafny array stands in for `malloc`.
- The size-0 branch of `replace` (ArrayTypes.h:79-83) nulls both pointers without freeing the
  old buffer, so it leaks. Leaks cannot be observed here, so the model only records that the
  pointers become null.
- Allocation failure is not modelled: `malloc` may return null, and the code does not check.
- Move semantics are not modelled. Source elements are copied out of a sequence of values. The
  moved-from state that the original leaves in the caller's range is not represented.
- The iterator-category overloads are sequences. The container, initializer-list, forward-range
  and random-access constructors all take a source sequence. `ArrayMap.FromMap` takes a
  sequence of entries with strictly increasing keys and its size; it is not given a std::map.
- `operator=` and the const/non-const duplicates of `begin`, `end` and `find` are not separate
  members. `operator=` is exactly `replace(container.begin(), container.end())`.
- `ReplaceSized` requires `size == |src|`, which the C++ leaves to its callers. A mismatched size
  overruns or under-fills the buffer, which is undefined behaviour.
- Name hiding is not modelled. In C++, `replace` in ArrayMap and ArraySet hides the base's sized
  overload. In the model that overload is still reachable through `base`, and calling it there
  can break the sortedness invariant.
- Key, value and set element types are `int`. The generic C++ types are left out because the
  pair order `std::sort` uses needs an order on the value type. Integer width (`size_t`,
  `intptr_t`) is not modelled, because no arithmetic in the core can overflow for a buffer
  that fits in memory.
- `StdAlgorithms.Sort`: the model uses an insertion sort rather than the library's introsort.
  The contract is the one `std::sort` gives: sorted and a permutation. Both orders used are total,
  so `Ordering.SortedPermutationUnique` shows that the outcome is the same.
- Thread safety is not modelled; the model is sequential.
- Access control is not modelled. `clear()` is protected in C++ (ArrayTypes.h:86-87), but
  `FixedArray.Clear` can be called by any client of the model.
- `FixedArray<T(0)>` requires the element type to have a default value, because a new Dafny
  array must be initialised. The C++ needs only a movable `T` (ArrayTypes.h:26), and `malloc`
  constructs nothing.
- The benchmark driver, its payload types, the plotting scripts and the vendored LLVM files are
  not part of this model. They measure the containers and contain no container logic.

## Findings

| source | as written | input that shows it | evidently intended | confidence | as-written member | corrected member |
|---|---|---|---|---|---|---|
| ArrayTypes.h:49 | the subscript returns the position `begin() + idx` as a `const T &`, never dereferences it, and checks no bounds; for `T = int` it would not even compile once used, and the benchmarks index with `*(container.begin() + idx)` instead | any `idx >= size()`, e.g. `idx == size()` | the element at `idx`, with an out-of-bounds error past the end | high, not executed | `FixedArrays.FixedArray.SubscriptAsWritten`, `FixedArrays.SubscriptAsWrittenUnchecked` | `FixedArrays.FixedArray.Get` |
| ArrayTypes.h:153 | `ArrayMap::replace` sorts `begin()` to `end()`, but those names refer to its iterator parameters, not the member functions; the buffer the base replace filled is never sorted (for ordinary iterator types the call would not compile once instantiated) | replace with (2, 20), (1, 10) | base replace, then sort the buffer, as `ArraySet::replace` does at line 173 | high, not executed | `ArrayMaps.ArrayMap.ReplaceAsWritten`, `ArrayMaps.ReplaceAsWrittenLosesOrder` | `ArrayMaps.ArrayMap.Replace` |
