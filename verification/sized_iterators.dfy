/** `SizedIterator`: a box that holds one concrete iterator in a buffer of its exact size
    and reaches it through four function pointers instead of a virtual table, so that the
    box itself can be relocated by copying its bytes. The buffer is modelled by the
    iterator it holds, not by bytes. */
module SizedIterators {
  import opened Options
  import opened Iterators
  import Relocation

  /** What `make_sized_iterator` knows of the concrete iterator type `Iter`: its relocation
      descriptor, whether it is `final`, and whether it is a `DoubleEndedIterator` and an
      `ExactSizeIterator`. */
  datatype IterType = IterType(layout: Relocation.TypeDesc, isFinal: bool, doubleEnded: bool, exactSize: bool)

  /** Which of the four function pointers are non-null. */
  datatype Entries = Entries(destroy: bool, next: bool, nextBack: bool, exactSizeHint: bool)

  const NULL_ENTRIES := Entries(false, false, false, false)

  /** `doubleEnded` and `exactSize` are the box type's `DoubleEnded` and `ExactSize`
      constants. `sized` is the iterator living in the buffer, `None` when no live iterator
      is there (the box was moved from). */
  datatype SizedIterator<T> = SizedIterator(doubleEnded: bool, exactSize: bool, entries: Entries, sized: Option<SeqIter<T>>) {

    /** The box holds a live iterator exactly when its `destroy` and `next` entries are
        set, and its optional entries are set exactly when it holds one and its type has
        the capability. */
    predicate Valid() {
      && entries.destroy == sized.IsSome()
      && entries.next == sized.IsSome()
      && entries.nextBack == (sized.IsSome() && doubleEnded)
      && entries.exactSizeHint == (sized.IsSome() && exactSize)
      && (sized.IsSome() ==> sized.value.Valid())
    }

    /** The iterator the box is responsible for destroying. */
    function Owned(): Option<SeqIter<T>>
    {
      if entries.destroy then sized else None
    }
  }

  /** The descriptor of a `SizedIterator` type: a user-written move constructor and
      destructor, `[[sus_trivial_abi]]`, and declared trivially relocatable
      (`sus_class_trivially_relocatable`). */
  const SizedIteratorLayout := Relocation.TypeDesc(Relocation.Class, false, false, false, Some(true), true)

  /** The box is relocatable by copy although its move constructor and destructor are
      user-written; this is what lets a box be stored wherever a concrete relocatable
      iterator could be. */
  lemma BoxIsRelocatable(hasExtension: bool)
    ensures Relocation.RelocateOneByMemcpy(SizedIteratorLayout, hasExtension)
    ensures !Relocation.StructurallyTrivial(SizedIteratorLayout)
  {
  }

  /** `make_sized_iterator(iter)`: only for a `final` iterator type that is relocatable by
      copy; fills in `next_back` and `exact_size_hint` only when the type has them, and
      moves the iterator into the buffer. */
  function Make<T>(iter: SeqIter<T>, ty: IterType, hasExtension: bool): (b: SizedIterator<T>)
    requires iter.Valid()
    requires Relocation.RelocateOneByMemcpy(ty.layout, hasExtension) && ty.isFinal
    ensures b.Valid()
    ensures b.Owned() == Some(iter)
    ensures b.doubleEnded == ty.doubleEnded && b.exactSize == ty.exactSize
    ensures b.entries.nextBack <==> ty.doubleEnded
    ensures b.entries.exactSizeHint <==> ty.exactSize
  {
    var entries := Entries(true, true, ty.doubleEnded, ty.exactSize);
    SizedIterator(ty.doubleEnded, ty.exactSize, entries, Some(iter))
  }

  /** The move constructor: the new box takes over the four entries and the buffer, and
      the source's entries are nulled, so that the source destroys nothing. Returns the
      new box and the source afterwards. */
  function MoveConstruct<T>(src: SizedIterator<T>): (r: (SizedIterator<T>, SizedIterator<T>))
    requires src.Valid()
    ensures r.0.Valid() && r.1.Valid()
    ensures r.0.entries == src.entries && r.0.Owned() == src.Owned()
    ensures r.1.entries == NULL_ENTRIES && r.1.Owned().IsNone()
    ensures r.0.doubleEnded == r.1.doubleEnded == src.doubleEnded
    ensures r.0.exactSize == r.1.exactSize == src.exactSize
  {
    var moved := Take(src.sized);
    (src.(sized := moved.0), src.(entries := NULL_ENTRIES, sized := moved.1))
  }

  /** The destructor: runs `destroy` on the buffer only when the entry is non-null.
      `destroyed` is the log of iterators destroyed so far. */
  function Drop<T(==)>(b: SizedIterator<T>, destroyed: seq<SeqIter<T>>): (r: seq<SeqIter<T>>)
    requires b.Valid()
    ensures multiset(r) == multiset(destroyed) + Contents(b.Owned())
    ensures b.entries == NULL_ENTRIES ==> r == destroyed
  {
    if b.entries.destroy then destroyed + [b.sized.value] else destroyed
  }

  /** Move assignment `dst = move(src)` between two distinct boxes of one type: first
      destroys what `dst` holds, then takes over `src`'s entries and buffer and nulls the
      source's entries. Returns `dst` and `src` afterwards and the destruction log. */
  function MoveAssign<T(==)>(dst: SizedIterator<T>, src: SizedIterator<T>, destroyed: seq<SeqIter<T>>)
    : (r: (SizedIterator<T>, SizedIterator<T>, seq<SeqIter<T>>))
    requires dst.Valid() && src.Valid()
    requires dst.doubleEnded == src.doubleEnded && dst.exactSize == src.exactSize
    ensures r.0.Valid() && r.1.Valid()
    ensures r.0.Owned() == src.Owned() && r.0.entries == src.entries
    ensures r.1.entries == NULL_ENTRIES && r.1.Owned().IsNone()
    ensures multiset(r.2) == multiset(destroyed) + Contents(dst.Owned())
  {
    var destroyed' := Drop(dst, destroyed);
    var moved := MoveConstruct(src);
    (moved.0, moved.1, destroyed')
  }

  /** `next()` through the `next` entry: exactly the wrapped iterator's `next()`. Calling a
      null entry (a moved-from box) is undefined behaviour, hence the precondition. */
  function Next<T>(b: SizedIterator<T>): (r: (Option<T>, SizedIterator<T>))
    requires b.Valid() && b.entries.next
    ensures r.1.Valid() && r.1.entries == b.entries
    ensures (r.0, r.1.sized.value) == Iterators.Next(b.sized.value)
  {
    var pulled := Iterators.Next(b.sized.value);
    (pulled.0, b.(sized := Some(pulled.1)))
  }

  /** `next_back()`: only declared when the box type is `DoubleEnded`; exactly the
      wrapped iterator's `next_back()`. */
  function NextBack<T>(b: SizedIterator<T>): (r: (Option<T>, SizedIterator<T>))
    requires b.Valid() && b.doubleEnded && b.entries.nextBack
    ensures r.1.Valid() && r.1.entries == b.entries
    ensures (r.0, r.1.sized.value) == Iterators.NextBack(b.sized.value)
  {
    var pulled := Iterators.NextBack(b.sized.value);
    (pulled.0, b.(sized := Some(pulled.1)))
  }

  /** `exact_size_hint()`: only declared when the box type is `ExactSize`; the wrapped
      iterator's count of remaining items. */
  function ExactSizeHint<T>(b: SizedIterator<T>): (n: nat)
    requires b.Valid() && b.exactSize && b.entries.exactSizeHint
    ensures n == |b.sized.value.Remaining()|
  {
    Iterators.ExactSizeHint(b.sized.value)
  }

  /** Everything the box's `next()` hands out, in order, until the first `None`. */
  function Drain<T>(b: SizedIterator<T>): (r: seq<T>)
    requires b.Valid() && b.entries.next
    decreases |b.sized.value.Remaining()|
  {
    match Next(b)
    case (None, _) => []
    case (Some(x), rest) => [x] + Drain(rest)
  }

  /** Erasure preserves behaviour: boxing an iterator and pulling through the box yields
      the same items, in the same order, as pulling from the iterator itself. */
  lemma {:induction false} BoxedYieldsSame<T>(b: SizedIterator<T>)
    requires b.Valid() && b.entries.next
    ensures Drain(b) == Iterators.Drain(b.sized.value)
    decreases |b.sized.value.Remaining()|
  {
    var pulled := Next(b);
    if pulled.0.IsSome() {
      BoxedYieldsSame(pulled.1);
    }
  }

  /** Boxing a fresh iterator over `s` and draining the box yields `s`. */
  lemma MakeThenDrain<T>(s: seq<T>, ty: IterType, hasExtension: bool)
    requires Relocation.RelocateOneByMemcpy(ty.layout, hasExtension) && ty.isFinal
    ensures Drain(Make(Over(s), ty, hasExtension)) == s
  {
    BoxedYieldsSame(Make(Over(s), ty, hasExtension));
  }
}
