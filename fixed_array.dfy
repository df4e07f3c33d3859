/**
 * FixedArray<T>: an owning, contiguous buffer whose contents can only be
 * replaced as a whole. The C++ class keeps two raw pointers, m_begin and
 * m_end; here the field `data` is the allocation m_begin points to (null
 * when both pointers are null), and since an allocation always holds exactly
 * as many elements as the container, m_end is m_begin + data.Length.
 * Iterators are positions 0 .. Size() into the buffer; End() is Size().
 */
module FixedArrays {
  import opened Ordering
  import StdAlgorithms

  datatype Error = OutOfBounds | KeyNotFound

  datatype Result<T> = Ok(value: T) | Err(error: Error)

  /** compute_fwd_it_dist: count the elements of a forward range by stepping
      through it. */
  method ComputeFwdItDist<T>(src: seq<T>) returns (out: nat)
    ensures out == |src|
  {
    out := 0;
    var next := 0;
    while next != |src|
      invariant 0 <= next <= |src|
      invariant out == next
    {
      out := out + 1;
      next := next + 1;
    }
  }

  class FixedArray<T(0)> {
    /** The allocation m_begin points to; null when m_begin == m_end == nullptr. */
    var data: array?<T>

    /** Either no allocation at all, or one holding at least one element:
        there is never a zero-length allocation and never spare capacity. */
    ghost predicate Valid()
      reads this
    {
      data != null ==> data.Length > 0
    }

    /** The live elements, in storage (and iteration) order. */
    function Elements(): (s: seq<T>)
      reads this, data
      ensures data == null ==> s == []
      ensures data != null ==> s == data[..]
    {
      if data == null then [] else data[..]
    }

    /** begin(): the position of the first element. */
    function Begin(): (it: nat)
      reads this, data
      requires Valid()
      ensures it <= End() && Elements()[it..End()] == Elements()
    {
      0
    }

    /** end(): one past the last element. */
    function End(): (it: nat)
      reads this, data
      requires Valid()
      ensures it == |Elements()|
      ensures data != null ==> it == data.Length
    {
      if data == null then 0 else data.Length
    }

    /** size(): m_end - m_begin, the number of live elements. */
    function Size(): (n: nat)
      reads this, data
      requires Valid()
      ensures n == End() - Begin()
      ensures n == |Elements()|
    {
      End() - Begin()
    }

    /** empty(): m_end == m_begin. */
    function Empty(): (b: bool)
      reads this, data
      requires Valid()
      ensures b <==> Size() == 0
      ensures b <==> Elements() == []
      ensures b <==> data == null
    {
      End() == Begin()
    }

    /** operator[] as intended: the element at idx, or an out-of-bounds error. */
    function Get(idx: nat): (r: Result<T>)
      reads this, data
      requires Valid()
      ensures r.Ok? <==> idx < Size()
      ensures r.Ok? ==> r.value == Elements()[idx]
      ensures r.Err? ==> r.error == OutOfBounds
    {
      if idx < Size() then Ok(data[idx]) else Err(OutOfBounds)
    }

    /** operator[] as written: begin() + idx, a position, with no bounds check. */
    function SubscriptAsWritten(idx: nat): (it: nat)
      reads this, data
      requires Valid()
      ensures it < End() <==> Get(idx).Ok?
      ensures it < End() ==> Elements()[it] == Get(idx).value
    {
      Begin() + idx
    }

    /** The constructors taking a container, an initializer list or a
        random-access range: start empty, then replace(begin, end). */
    constructor (src: seq<T>)
      ensures Valid()
      ensures Elements() == src
      ensures src != [] ==> fresh(data)
    {
      data := null;
      new;
      Replace(src);
    }

    /** The constructor taking a range and its length: start empty, then
        replace(begin, end, size). */
    constructor Sized(src: seq<T>, size: nat)
      requires size == |src|
      ensures Valid()
      ensures Elements() == src
      ensures src != [] ==> fresh(data)
    {
      data := null;
      new;
      ReplaceSized(src, size);
    }

    /** replace(begin, end) for a random-access range: its size is end - begin. */
    method Replace(src: seq<T>)
      requires Valid()
      modifies this, data
      ensures Valid()
      ensures Elements() == src
      ensures src == [] ==> data == null
      ensures src != [] && |src| == old(Size()) ==> data == old(data)
      ensures src != [] && |src| != old(Size()) ==> fresh(data)
    {
      ReplaceSized(src, |src|);
    }

    /** replace(begin, end, size): the old elements are destroyed; for a
        non-empty source a new buffer is allocated unless the size is
        unchanged, and the source is moved in, in order; for an empty source
        both pointers become null. */
    method ReplaceSized(src: seq<T>, size: nat)
      requires Valid()
      requires size == |src|
      modifies this, data
      ensures Valid()
      ensures Elements() == src
      ensures size == 0 ==> data == null
      ensures size > 0 && size == old(Size()) ==> data == old(data)
      ensures size > 0 && size != old(Size()) ==> fresh(data)
    {
      if size > 0 {
        if size != Size() {
          data := new T[size];
        }
        var next := 0;
        while next != size
          invariant 0 <= next <= size == data.Length
          invariant data[..next] == src[..next]
          modifies data
        {
          data[next] := src[next];
          next := next + 1;
        }
      } else {
        data := null;
      }
    }

    /** clear(): destroy and free the buffer if one is held, then null both
        pointers. On an empty container it changes nothing. */
    method Clear()
      requires Valid()
      modifies this
      ensures Valid()
      ensures data == null
      ensures Empty()
      ensures old(data) == null ==> unchanged(this)
    {
      // The element destructors and free() that run when a buffer is held
      // have no counterpart here; what remains is nulling both pointers.
      data := null;
    }

    /** ~FixedArray(): clear(). Destroying an empty container changes nothing. */
    method Destroy()
      requires Valid()
      modifies this
      ensures Valid()
      ensures Empty()
      ensures old(data) == null ==> unchanged(this)
    {
      Clear();
    }
  }

  /** std::sort(b.begin(), b.end(), less), as the map and set constructors
      and replace call it: sorts the live elements in place. */
  method SortRange<T(0,!new)>(b: FixedArray<T>, less: (T, T) -> bool)
    requires b.Valid()
    requires StrictWeakOrder(less)
    modifies b.data
    ensures b.Valid()
    ensures Sorted(b.Elements(), less)
    ensures multiset(b.Elements()) == multiset(old(b.Elements()))
  {
    if b.data != null {
      StdAlgorithms.Sort(b.data, less);
    }
  }

  /** The as-written subscript performs no bounds check: at idx == size() it
      yields end(), a position holding no element, where the intended
      subscript reports an out-of-bounds error. */
  lemma SubscriptAsWrittenUnchecked<T(0)>(b: FixedArray<T>, idx: nat)
    requires b.Valid()
    requires idx >= b.Size()
    ensures b.SubscriptAsWritten(idx) >= b.End()
    ensures b.Get(idx).Err? && b.Get(idx).error == OutOfBounds
  {
  }
}
