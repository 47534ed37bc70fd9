/** `SliceIter` and `SliceIterMut`: cursors that walk a slice from its first element to its
    end, handing out each element (or a reference to it) once. Addresses count in elements
    and `ptr + len` wraps around at the top of the address space, after 2^64 elements. */
module SliceIters {
  import opened Fatal
  import opened Options
  import opened Slices

  /** Address addition for sums below twice the address range: wraps once at the top. */
  function Wrap(a: nat): (r: Addr)
    requires a < 2 * USIZE_BOUND
    ensures r == a % USIZE_BOUND
  {
    if a >= USIZE_BOUND then a - USIZE_BOUND else a
  }

  /** The cursor: `ptr` and `end` are the iterator's two pointers; `elems` are the slice's
      elements and `base` the address of the first one, so that `*ptr` can be read. */
  datatype SliceIter<T> = SliceIter(elems: seq<T>, base: Addr, ptr: Addr, end: Addr) {

    /** `end` is one past the last element (possibly wrapped to 0) and `ptr` is either at
        `end` or at an element. */
    predicate Valid() {
      && base + |elems| <= USIZE_BOUND
      && end == Wrap(base + |elems|)
      && (ptr == end || base <= ptr < base + |elems|)
    }

    /** The elements still to come. */
    function Remaining(): seq<T>
      requires Valid()
    {
      if ptr == end then [] else elems[ptr - base..]
    }
  }

  /** The constructor's check as written: `end_ > ptr_ || !end_`. */
  predicate CheckAsWritten(ptr: Addr, len: usize)
  {
    var end := Wrap(ptr + len);
    end > ptr || end == NULL
  }

  /** The constructor's check as intended: the range `[ptr, ptr + len)` does not run past
      the top of the address space, though its end may wrap to exactly 0. */
  predicate Check(ptr: Addr, len: usize)
  {
    var end := Wrap(ptr + len);
    end >= ptr || end == NULL
  }

  /** The intended check accepts a range exactly when it fits below the top of the address
      space: `end` may wrap to 0 but not past it. */
  lemma CheckAcceptsFittingRanges(ptr: Addr, len: usize)
    ensures Check(ptr, len) <==> ptr + len <= USIZE_BOUND
  {
  }

  /** The check as written also refuses every empty range at a non-null address. */
  lemma CheckAsWrittenRefusesEmpty(ptr: Addr, len: usize)
    ensures CheckAsWritten(ptr, len) <==> ptr + len <= USIZE_BOUND && (len > 0 || ptr == NULL)
  {
  }

  /** `SliceIter(slice)` as written: aborts when the check fails. */
  function NewAsWritten<T>(s: Slice<T>): (r: Outcome<SliceIter<T>>)
    requires s.Valid()
    ensures r.Ok? <==> CheckAsWritten(s.data, s.len)
    ensures r.Ok? ==> r.value.Valid() && r.value.Remaining() == s.Elements()
  {
    var ptr := AsPtr(s);
    var end := Wrap(ptr + Len(s));
    if end > ptr || end == NULL then Ok(SliceIter(s.Elements(), ptr, ptr, end)) else Abort("")
  }

  /** An empty slice at a non-null address, as `from_raw_parts(p, 0)` makes for any
      non-null `p`, cannot be iterated with the check as written. */
  lemma EmptySliceAbortsAsWritten()
    ensures NewAsWritten(FromRawParts(8, [0], 0, true)).Abort?
  {
  }

  /** `SliceIter(slice)`, and `SliceIter::with(slice)` which wraps it, with the intended
      check: every valid slice passes it, and the iterator's items are the slice's elements. */
  function New<T>(s: Slice<T>): (r: Outcome<SliceIter<T>>)
    requires s.Valid()
    ensures r.Ok?
    ensures r.value.Valid() && r.value.Remaining() == s.Elements()
    ensures r.value.base == AsPtr(s)
  {
    var ptr := AsPtr(s);
    var end := Wrap(ptr + Len(s));
    if end >= ptr || end == NULL then Ok(SliceIter(s.Elements(), ptr, ptr, end)) else Abort("")
  }

  /** `SliceIterMut(slice)`, built from `as_ptr_mut()`: only for a slice of non-const
      elements; otherwise the same as `New`. */
  function NewMut<T>(s: Slice<T>): (r: Outcome<SliceIter<T>>)
    requires s.Valid() && !s.constElems
    ensures r.Ok?
    ensures r.value.Valid() && r.value.Remaining() == s.Elements()
    ensures r.value.base == AsPtrMut(s)
  {
    var ptr := AsPtrMut(s);
    var end := Wrap(ptr + Len(s));
    if end >= ptr || end == NULL then Ok(SliceIter(s.Elements(), ptr, ptr, end)) else Abort("")
  }

  /** `SliceIter::next()`: `None` when `ptr == end`, which leaves the iterator as it is;
      otherwise the element at `ptr`, advancing `ptr` by one. */
  function Next<T>(it: SliceIter<T>): (r: (Option<T>, SliceIter<T>))
    requires it.Valid()
    ensures r.1.Valid() && r.1.elems == it.elems && r.1.base == it.base && r.1.end == it.end
    ensures r.0.IsNone() <==> it.ptr == it.end
    ensures r.0.IsNone() ==> r.1 == it
    ensures r.0.IsNone() <==> |it.Remaining()| == 0
    ensures r.0.IsSome() ==> r.0.value == it.Remaining()[0] && r.1.Remaining() == it.Remaining()[1..]
  {
    if it.ptr == it.end then (None, it)
    else (Some(it.elems[it.ptr - it.base]), it.(ptr := Wrap(it.ptr + 1)))
  }

  /** `SliceIterMut::next()`: like `Next`, but hands out a reference to the element. */
  function NextMut<T>(it: SliceIter<T>): (r: (Option<Ref>, SliceIter<T>))
    requires it.Valid()
    ensures r.1 == Next(it).1
    ensures r.0.IsNone() <==> it.ptr == it.end
    ensures r.0.IsSome() ==> r.0.value.addr - it.base == |it.elems| - |it.Remaining()|
  {
    if it.ptr == it.end then (None, it)
    else (Some(Ref(it.ptr)), it.(ptr := Wrap(it.ptr + 1)))
  }

  /** Everything `next()` hands out, in order, until the first `None`. */
  function Drain<T>(it: SliceIter<T>): (r: seq<T>)
    requires it.Valid()
    ensures r == it.Remaining()
    decreases |it.Remaining()|
  {
    match Next(it)
    case (None, _) => []
    case (Some(x), rest) => [x] + Drain(rest)
  }

  /** Everything `SliceIterMut::next()` hands out: the element positions, in order. */
  function DrainMut<T>(it: SliceIter<T>): (r: seq<Ref>)
    requires it.Valid()
    ensures |r| == |it.Remaining()|
    ensures forall k :: 0 <= k < |r| ==> r[k].addr - it.base == |it.elems| - |it.Remaining()| + k
    decreases |it.Remaining()|
  {
    match NextMut(it)
    case (None, _) => []
    case (Some(x), rest) => [x] + DrainMut(rest)
  }

  /** Over a slice of `N` elements the iterator yields exactly `data[0..N)`, in order. */
  lemma YieldsSliceInOrder<T>(s: Slice<T>)
    requires s.Valid()
    ensures Drain(New(s).value) == s.Elements()
    ensures |Drain(New(s).value)| == Len(s)
  {
  }

  /** Over a slice of `N` non-const elements the mutable iterator yields a reference to each
      of the `N` elements, in order. */
  lemma YieldsReferencesInOrder<T>(s: Slice<T>, k: nat)
    requires s.Valid() && !s.constElems
    requires k < Len(s)
    ensures var refs := DrainMut(NewMut(s).value);
      |refs| == Len(s) && refs[k] == GetMut(s, k).value && Load(s, refs[k]) == s.Elements()[k]
  {
    var refs := DrainMut(NewMut(s).value);
    assert refs[k].addr - s.data == k;
  }

  /** The results of `n` successive calls of `next()`. */
  function Pulls<T>(it: SliceIter<T>, n: nat): (r: seq<Option<T>>)
    requires it.Valid()
    ensures |r| == n
    decreases n
  {
    if n == 0 then [] else [Next(it).0] + Pulls(Next(it).1, n - 1)
  }

  /** Once `next()` has returned `None`, every later call returns `None` as well. */
  lemma {:induction false} NoneIsFinal<T>(it: SliceIter<T>, n: nat, k: nat, j: nat)
    requires it.Valid()
    requires k <= j < n && Pulls(it, n)[k].IsNone()
    ensures Pulls(it, n)[j].IsNone()
    decreases k
  {
    if k == 0 {
      NoneForever(it, n, j);
    } else {
      NoneIsFinal(Next(it).1, n - 1, k - 1, j - 1);
    }
  }

  lemma {:induction false} NoneForever<T>(it: SliceIter<T>, n: nat, j: nat)
    requires it.Valid() && it.ptr == it.end && j < n
    ensures Pulls(it, n)[j].IsNone()
    decreases j
  {
    if j > 0 {
      NoneForever(it, n - 1, j - 1);
    }
  }
}
