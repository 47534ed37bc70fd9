/** Ownership across a program of `SizedIterator` boxes: every iterator boxed by
    `make_sized_iterator` is destroyed at most once, however the boxes are moved,
    move-assigned and dropped, and exactly once if the program ends holding no box that
    owns one. */
module SizedIteratorOwnership {
  import opened Options
  import opened Iterators
  import opened Ledger
  import opened SizedIterators
  import Relocation

  /** What each box owns, slot by slot. */
  function Held<T>(boxes: seq<SizedIterator<T>>): (h: seq<Option<SeqIter<T>>>)
    ensures |h| == |boxes|
    ensures forall k :: 0 <= k < |boxes| ==> h[k] == boxes[k].Owned()
  {
    seq(|boxes|, k requires 0 <= k < |boxes| => boxes[k].Owned())
  }

  /** The boxes of a program, the log of destroyed iterators and the log of iterators
      boxed by `make_sized_iterator`. */
  datatype World<T> = World(boxes: seq<SizedIterator<T>>, destroyed: seq<SeqIter<T>>, made: seq<SeqIter<T>>)

  datatype Action<T> =
    | MakeBox(iter: SeqIter<T>, ty: IterType, hasExtension: bool)   // boxes += [make_sized_iterator(move(iter))]
    | MoveOut(i: nat)                                                // boxes += [SizedIterator(move(boxes[i]))]
    | MoveAssignTo(i: nat, j: nat)                                   // boxes[i] = move(boxes[j])
    | DropBox(i: nat)                                                // boxes[i] goes out of scope

  /** Every box of the program keeps the class invariant. */
  predicate AllValid<T>(boxes: seq<SizedIterator<T>>)
  {
    forall k :: 0 <= k < |boxes| ==> boxes[k].Valid()
  }

  /** The action compiles and names boxes that exist. */
  predicate Names<T>(w: World<T>, a: Action<T>)
  {
    match a
    case MakeBox(iter, ty, ext) => iter.Valid() && Relocation.RelocateOneByMemcpy(ty.layout, ext) && ty.isFinal
    case MoveOut(i) => i < |w.boxes|
    case MoveAssignTo(i, j) =>
      && i < |w.boxes| && j < |w.boxes|
      && w.boxes[i].doubleEnded == w.boxes[j].doubleEnded
      && w.boxes[i].exactSize == w.boxes[j].exactSize
    case DropBox(i) => i < |w.boxes|
  }

  /** Every boxed iterator is either owned by exactly one box or destroyed. */
  ghost predicate Balanced<T>(w: World<T>)
  {
    Owned(Held(w.boxes)) + multiset(w.destroyed) == multiset(w.made)
  }

  lemma AllValidUpdate<T>(boxes: seq<SizedIterator<T>>, i: nat, b: SizedIterator<T>)
    requires AllValid(boxes) && i < |boxes| && b.Valid()
    ensures AllValid(boxes[i := b])
  {
  }

  lemma AllValidAppend<T>(boxes: seq<SizedIterator<T>>, b: SizedIterator<T>)
    requires AllValid(boxes) && b.Valid()
    ensures AllValid(boxes + [b])
  {
  }

  lemma HeldUpdate<T>(boxes: seq<SizedIterator<T>>, i: nat, b: SizedIterator<T>)
    requires i < |boxes|
    ensures Held(boxes[i := b]) == Held(boxes)[i := b.Owned()]
  {
  }

  lemma HeldAppend<T>(boxes: seq<SizedIterator<T>>, b: SizedIterator<T>)
    ensures Held(boxes + [b]) == Held(boxes) + [b.Owned()]
  {
  }

  lemma HeldRemove<T>(boxes: seq<SizedIterator<T>>, i: nat)
    requires i < |boxes|
    ensures Held(boxes[..i] + boxes[i + 1..]) == Held(boxes)[..i] + Held(boxes)[i + 1..]
  {
  }

  /** `boxes += [make_sized_iterator(move(iter))]` */
  function MakeIn<T>(w: World<T>, iter: SeqIter<T>, ty: IterType, ext: bool): (r: World<T>)
    requires AllValid(w.boxes) && Names(w, MakeBox(iter, ty, ext))
    ensures AllValid(r.boxes) && r.made == w.made + [iter]
    ensures Balanced(w) ==> Balanced(r)
  {
    var b := Make(iter, ty, ext);
    HeldAppend(w.boxes, b);
    OwnedAppend(Held(w.boxes), b.Owned());
    w.(boxes := w.boxes + [b], made := w.made + [iter])
  }

  /** `boxes += [SizedIterator(move(boxes[i]))]` */
  function MoveOutIn<T>(w: World<T>, i: nat): (r: World<T>)
    requires AllValid(w.boxes) && i < |w.boxes|
    ensures AllValid(r.boxes) && r.made == w.made
    ensures Balanced(w) ==> Balanced(r)
  {
    var moved := MoveConstruct(w.boxes[i]);
    MoveOutKeepsOwned(w.boxes, i, moved.0, moved.1);
    AllValidUpdate(w.boxes, i, moved.1);
    AllValidAppend(w.boxes[i := moved.1], moved.0);
    w.(boxes := w.boxes[i := moved.1] + [moved.0])
  }

  lemma MoveOutKeepsOwned<T>(boxes: seq<SizedIterator<T>>, i: nat, taken: SizedIterator<T>, left: SizedIterator<T>)
    requires i < |boxes|
    requires taken.Owned() == boxes[i].Owned() && left.Owned().IsNone()
    ensures Owned(Held(boxes[i := left] + [taken])) == Owned(Held(boxes))
  {
    var h := Held(boxes);
    HeldUpdate(boxes, i, left);
    HeldAppend(boxes[i := left], taken);
    assert Held(boxes[i := left] + [taken]) == h[i := None] + [h[i]];
    OwnedMoveToEnd(h, i);
  }

  /** `boxes[i] = move(boxes[j])` for two distinct boxes. */
  function AssignIn<T(==)>(w: World<T>, i: nat, j: nat): (r: World<T>)
    requires AllValid(w.boxes) && Names(w, MoveAssignTo(i, j)) && i != j
    ensures AllValid(r.boxes) && r.made == w.made
    ensures Balanced(w) ==> Balanced(r)
  {
    var after := MoveAssign(w.boxes[i], w.boxes[j], w.destroyed);
    var boxes' := w.boxes[i := after.0][j := after.1];
    AllValidAssign(w.boxes, i, j, after.0, after.1);
    AssignBalanced(w, i, j, after.0, after.1, after.2);
    w.(boxes := boxes', destroyed := after.2)
  }

  lemma AllValidAssign<T>(boxes: seq<SizedIterator<T>>, i: nat, j: nat, dst: SizedIterator<T>, src: SizedIterator<T>)
    requires AllValid(boxes) && i < |boxes| && j < |boxes| && dst.Valid() && src.Valid()
    ensures AllValid(boxes[i := dst][j := src])
  {
    AllValidUpdate(boxes, i, dst);
    AllValidUpdate(boxes[i := dst], j, src);
  }

  /** Move assignment between distinct boxes keeps every boxed iterator owned or destroyed:
      the iterator `boxes[i]` held moves to the log, the one `boxes[j]` held moves to
      `boxes[i]`. */
  lemma AssignBalanced<T>(w: World<T>, i: nat, j: nat, dst: SizedIterator<T>, src: SizedIterator<T>, destroyed: seq<SeqIter<T>>)
    requires i < |w.boxes| && j < |w.boxes| && i != j
    requires dst.Owned() == w.boxes[j].Owned() && src.Owned().IsNone()
    requires multiset(destroyed) == multiset(w.destroyed) + Contents(w.boxes[i].Owned())
    ensures Balanced(w) ==> Balanced(w.(boxes := w.boxes[i := dst][j := src], destroyed := destroyed))
  {
    AssignKeepsOwned(w.boxes, i, j, dst, src);
  }

  lemma AssignKeepsOwned<T>(boxes: seq<SizedIterator<T>>, i: nat, j: nat, dst: SizedIterator<T>, src: SizedIterator<T>)
    requires i < |boxes| && j < |boxes| && i != j
    requires dst.Owned() == boxes[j].Owned() && src.Owned().IsNone()
    ensures Owned(Held(boxes[i := dst][j := src])) + Contents(boxes[i].Owned()) == Owned(Held(boxes))
  {
    var h := Held(boxes);
    HeldUpdate(boxes, i, dst);
    HeldUpdate(boxes[i := dst], j, src);
    assert Held(boxes[i := dst][j := src]) == h[i := h[j]][j := None];
    OwnedMoveOver(h, i, j);
  }

  /** `boxes[i]` goes out of scope: its destructor runs. */
  function DropIn<T(==)>(w: World<T>, i: nat): (r: World<T>)
    requires AllValid(w.boxes) && i < |w.boxes|
    ensures AllValid(r.boxes) && r.made == w.made
    ensures Balanced(w) ==> Balanced(r)
  {
    var destroyed' := SizedIterators.Drop(w.boxes[i], w.destroyed);
    DropBalanced(w, i, destroyed');
    w.(boxes := w.boxes[..i] + w.boxes[i + 1..], destroyed := destroyed')
  }

  /** Dropping a box moves what it held to the log and keeps the other boxes valid. */
  lemma DropBalanced<T>(w: World<T>, i: nat, destroyed: seq<SeqIter<T>>)
    requires AllValid(w.boxes) && i < |w.boxes|
    requires multiset(destroyed) == multiset(w.destroyed) + Contents(w.boxes[i].Owned())
    ensures AllValid(w.boxes[..i] + w.boxes[i + 1..])
    ensures Balanced(w) ==> Balanced(w.(boxes := w.boxes[..i] + w.boxes[i + 1..], destroyed := destroyed))
  {
    AllValidRemove(w.boxes, i);
    var h := Held(w.boxes);
    HeldRemove(w.boxes, i);
    OwnedRemove(h, i);
  }

  lemma AllValidRemove<T>(boxes: seq<SizedIterator<T>>, i: nat)
    requires AllValid(boxes) && i < |boxes|
    ensures AllValid(boxes[..i] + boxes[i + 1..])
  {
    var rest := boxes[..i] + boxes[i + 1..];
    forall k | 0 <= k < |rest|
      ensures rest[k].Valid()
    {
      if k < i {
        assert rest[k] == boxes[k];
      } else {
        assert rest[k] == boxes[k + 1];
      }
    }
  }

  /** One statement; move-assigning a box to itself leaves it as it is. */
  function Step<T(==)>(w: World<T>, a: Action<T>): (r: World<T>)
    requires AllValid(w.boxes) && Names(w, a)
    ensures AllValid(r.boxes)
    ensures w.made <= r.made
    ensures Balanced(w) ==> Balanced(r)
  {
    match a
    case MakeBox(iter, ty, ext) => MakeIn(w, iter, ty, ext)
    case MoveOut(i) => MoveOutIn(w, i)
    case MoveAssignTo(i, j) => if i == j then w else AssignIn(w, i, j)
    case DropBox(i) => DropIn(w, i)
  }

  /** Runs the program until it ends or reaches an action that does not compile or names
      a box that does not exist. */
  function Run<T(==)>(w: World<T>, program: seq<Action<T>>): (r: World<T>)
    requires AllValid(w.boxes)
    ensures w.made <= r.made
    ensures Balanced(w) ==> Balanced(r)
    decreases |program|
  {
    if |program| == 0 || !Names(w, program[0]) then w else Run(Step(w, program[0]), program[1..])
  }

  /** No boxed iterator is destroyed more often than it was boxed. */
  lemma DestroyedAtMostOnce<T>(program: seq<Action<T>>, it: SeqIter<T>)
    ensures var r := Run(World([], [], []), program);
      multiset(r.destroyed)[it] <= multiset(r.made)[it]
  {
    var r := Run(World([], [], []), program);
    assert multiset(r.destroyed) <= multiset(r.made);
  }

  /** A program that ends with no box owning an iterator has destroyed every boxed
      iterator exactly as often as it boxed it. */
  lemma DestroyedExactlyOnceAtEnd<T>(program: seq<Action<T>>)
    ensures var r := Run(World([], [], []), program);
      Owned(Held(r.boxes)) == multiset{} ==> multiset(r.destroyed) == multiset(r.made)
  {
  }

  /** Move assignment as written, applied to a box and itself (`it = move(it)`): it
      destroys the held iterator, then `replace` hands the entries back to the same box, and
      the buffer is copied onto itself. Returns the box and the destruction log afterwards. */
  function SelfMoveAssignAsWritten<T(==)>(b: SizedIterator<T>, destroyed: seq<SeqIter<T>>)
    : (r: (SizedIterator<T>, seq<SeqIter<T>>))
    requires b.Valid()
    ensures r.0.entries == b.entries && r.0.Owned() == b.Owned()
    ensures multiset(r.1) == multiset(destroyed) + Contents(b.Owned())
  {
    var destroyed' := if b.entries.destroy then destroyed + [b.sized.value] else destroyed;
    var destroy := b.entries.destroy;
    var next := b.entries.next;
    var nextBack := b.entries.nextBack;
    var exactSizeHint := b.entries.exactSizeHint;
    (b.(entries := Entries(destroy, next, nextBack, exactSizeHint)), destroyed')
  }

  /** With move assignment as written, `it = move(it)` followed by the destructor destroys
      the boxed iterator twice. */
  lemma SelfMoveAssignDestroysTwice<T>(iter: SeqIter<T>, ty: IterType, hasExtension: bool)
    requires iter.Valid() && Relocation.RelocateOneByMemcpy(ty.layout, hasExtension) && ty.isFinal
    ensures var b := Make(iter, ty, hasExtension);
      var after := SelfMoveAssignAsWritten(b, []);
      multiset(SizedIterators.Drop(after.0, after.1))[iter] == 2
  {
  }
}
