/** `sus::containers::Slice<T>`: a borrowed, bounds-checked view of `len` contiguous
    elements starting at address `data`. */
module Slices {
  import opened Fatal
  import opened Options

  /** A machine address; pointer arithmetic counts in elements. */
  type Addr = usize

  const NULL: Addr := 0

  /** `data` is the slice's pointer, `memory` the elements stored from `data` onwards (the
      slice borrows them), `len` its length. `constElems` is `std::is_const_v<T>`: whether the
      element type is const-qualified, which removes the mutable accessors. */
  datatype Slice<T> = Slice(data: Addr, memory: seq<T>, len: usize, constElems: bool) {

    /** What `from_raw_parts` leaves to its caller: `len` initialised elements at `data`, a
        non-null pointer unless the slice is empty, and an allocation that does not run past
        the top of the address space. */
    predicate Valid() {
      && len <= |memory|
      && (data != NULL || len == 0)
      && data + len <= USIZE_BOUND
    }

    /** The elements the slice views, in order. */
    function Elements(): seq<T>
      requires Valid()
    {
      memory[..len]
    }
  }

  /** A `T&` into a slice: the address of the element. */
  datatype Ref = Ref(addr: Addr)

  /** `from_raw_parts(data, len)`: unchecked; the validity of the view is the caller's
      promise, stated as the precondition. */
  function FromRawParts<T>(data: Addr, memory: seq<T>, len: usize, constElems: bool): (s: Slice<T>)
    requires len <= |memory| && (data != NULL || len == 0) && data + len <= USIZE_BOUND
    ensures s.Valid()
    ensures Len(s) == len && s.Elements() == memory[..len]
    ensures AsPtr(s) == data
  {
    Slice(data, memory, len, constElems)
  }

  /** `from(T (&data)[N])`: a view of a whole C array, which lives at `data`. */
  function From<T>(data: Addr, elems: seq<T>, constElems: bool): (s: Slice<T>)
    requires data != NULL && data + |elems| <= USIZE_BOUND
    ensures s.Valid()
    ensures Len(s) == |elems| && s.Elements() == elems
  {
    FromRawParts(data, elems, |elems|, constElems)
  }

  /** `len()` */
  function Len<T>(s: Slice<T>): (n: usize)
    ensures s.Valid() ==> n == |s.Elements()|
  {
    s.len
  }

  /** `get(i)`: the element at `i`, or `None` past the end. The slice itself is a value and
      is not changed. */
  function Get<T>(s: Slice<T>, i: usize): (r: Option<T>)
    requires s.Valid()
    ensures r.IsSome() <==> i < Len(s)
    ensures r.IsSome() ==> r.value == s.Elements()[i]
  {
    if i < s.len then Some(s.memory[i]) else None
  }

  /** The element a reference into the slice designates. */
  function Load<T>(s: Slice<T>, r: Ref): T
    requires s.Valid() && s.data <= r.addr < s.data + s.len
  {
    s.memory[r.addr - s.data]
  }

  /** Assignment through a reference into the slice: the borrowed memory changes. */
  function Store<T>(s: Slice<T>, r: Ref, v: T): (s': Slice<T>)
    requires s.Valid() && s.data <= r.addr < s.data + s.len
    ensures s'.Valid() && s'.data == s.data && s'.len == s.len && s'.constElems == s.constElems
    ensures s'.Elements() == s.Elements()[r.addr - s.data := v]
  {
    s.(memory := s.memory[r.addr - s.data := v])
  }

  /** `get_mut(i)`: a reference to the element at `i`, or `None` past the end. Only
      declared when the element type is not const. */
  function GetMut<T>(s: Slice<T>, i: usize): (r: Option<Ref>)
    requires s.Valid() && !s.constElems
    ensures r.IsSome() <==> i < Len(s)
    ensures r.IsSome() ==> s.data <= r.value.addr < s.data + s.len && Load(s, r.value) == s.Elements()[i]
  {
    if i < s.len then Some(Ref(s.data + i)) else None
  }

  /** `operator[](i) const&`: the element at `i`; the bounds check aborts past the end. */
  function Index<T>(s: Slice<T>, i: usize): (r: Outcome<T>)
    requires s.Valid()
    ensures r.Ok? <==> i < Len(s)
    ensures r.Ok? ==> r.value == s.Elements()[i]
  {
    if i < s.len then Ok(s.memory[i]) else Abort("")
  }

  /** `operator[](i) &`: a reference to the element at `i`; aborts past the end. Unlike
      `get_mut`, it is declared whatever the element type. */
  function IndexMut<T>(s: Slice<T>, i: usize): (r: Outcome<Ref>)
    requires s.Valid()
    ensures r.Ok? <==> i < Len(s)
    ensures r.Ok? ==> s.data <= r.value.addr < s.data + s.len && Load(s, r.value) == s.Elements()[i]
  {
    if i < s.len then Ok(Ref(s.data + i)) else Abort("")
  }

  /** `as_ptr()`: the address of the first element; element `i` sits at `as_ptr() + i`. */
  function AsPtr<T>(s: Slice<T>): (p: Addr)
    ensures s.Valid() ==> forall i: int :: 0 <= i < s.len ==>
      s.data <= p + i < s.data + s.len && Load(s, Ref(p + i)) == s.Elements()[i]
  {
    s.data
  }

  /** `as_ptr_mut()`: only declared when the element type is not const. */
  function AsPtrMut<T>(s: Slice<T>): (p: Addr)
    requires !s.constElems
    ensures p == AsPtr(s)
  {
    s.data
  }

  /** `get` and indexing agree: `get(i)` is `Some(x)` exactly when `s[i]` returns `x`
      instead of aborting, and likewise for the mutable pair. */
  lemma GetAgreesWithIndex<T>(s: Slice<T>, i: usize)
    requires s.Valid()
    ensures Get(s, i).IsSome() <==> Index(s, i).Ok?
    ensures Get(s, i).IsSome() ==> Index(s, i).value == Get(s, i).value
    ensures !s.constElems ==> (GetMut(s, i).IsSome() <==> IndexMut(s, i).Ok?)
    ensures !s.constElems && GetMut(s, i).IsSome() ==> IndexMut(s, i).value == GetMut(s, i).value
  {
  }

  /** A slice of length `n` built over `n` elements answers `get(i)` with `Some` for every
      index below `n` and `None` for every index at or past it. */
  lemma GetOverArray<T>(data: Addr, elems: seq<T>, i: usize)
    requires data != NULL && data + |elems| <= USIZE_BOUND
    ensures var s := From(data, elems, true);
      (i < |elems| ==> Get(s, i) == Some(elems[i])) && (i >= |elems| ==> Get(s, i) == None)
  {
  }

  /** The pointers a slice hands out are the one it was constructed from. */
  lemma AsPtrRoundTrip<T>(data: Addr, memory: seq<T>, len: usize)
    requires len <= |memory| && (data != NULL || len == 0) && data + len <= USIZE_BOUND
    ensures AsPtr(FromRawParts(data, memory, len, true)) == data
    ensures AsPtrMut(FromRawParts(data, memory, len, false)) == data
  {
  }

  /** The reference `get_mut(i)` returns designates element `i`: assigning through it
      changes what `get(i)` returns to the assigned value, and no other element. */
  lemma StoreThroughGetMut<T>(s: Slice<T>, i: usize, v: T, j: usize)
    requires s.Valid() && !s.constElems && i < Len(s)
    ensures var s' := Store(s, GetMut(s, i).value, v);
      Get(s', i) == Some(v) && (j != i ==> Get(s', j) == Get(s, j)) && Len(s') == Len(s)
  {
  }
}
