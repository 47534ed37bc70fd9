/** The pull protocol of `sus::iter`: `next()` hands out the next item or `None`, an
    iterator that is double-ended also has `next_back()`, and one of exact size has
    `exact_size_hint()`. `SeqIter` is the concrete iterator the other modules use in place
    of an arbitrary one: the items of `items` not yet handed out are those between a front
    and a back cursor. */
module Iterators {
  import opened Options

  datatype SeqIter<T> = SeqIter(items: seq<T>, front: nat, back: nat) {

    predicate Valid() {
      front <= back <= |items|
    }

    /** The items still to come, front first. */
    function Remaining(): seq<T>
      requires Valid()
    {
      items[front..back]
    }
  }

  /** An iterator over every item of `s`. */
  function Over<T>(s: seq<T>): (it: SeqIter<T>)
    ensures it.Valid() && it.Remaining() == s && it.items == s && it.front == 0
  {
    SeqIter(s, 0, |s|)
  }

  /** `next()`: the front item, or `None` once nothing remains. An exhausted iterator
      stays as it is, so every later call returns `None` too. */
  function Next<T>(it: SeqIter<T>): (r: (Option<T>, SeqIter<T>))
    requires it.Valid()
    ensures r.1.Valid() && r.1.items == it.items && r.1.back == it.back
    ensures r.0.IsNone() <==> |it.Remaining()| == 0
    ensures r.0.IsNone() ==> r.1 == it
    ensures r.0.IsSome() ==> r.0.value == it.Remaining()[0] && r.1.Remaining() == it.Remaining()[1..]
    ensures r.0.IsSome() ==> r.0.value == it.items[it.front] && r.1.front == it.front + 1
  {
    if it.front == it.back then (None, it)
    else (Some(it.items[it.front]), it.(front := it.front + 1))
  }

  /** `next_back()`: the back item, or `None` once nothing remains. */
  function NextBack<T>(it: SeqIter<T>): (r: (Option<T>, SeqIter<T>))
    requires it.Valid()
    ensures r.1.Valid() && r.1.items == it.items && r.1.front == it.front
    ensures r.0.IsNone() <==> |it.Remaining()| == 0
    ensures r.0.IsNone() ==> r.1 == it
    ensures r.0.IsSome() ==> r.0.value == it.Remaining()[|it.Remaining()| - 1]
    ensures r.0.IsSome() ==> r.1.Remaining() == it.Remaining()[..|it.Remaining()| - 1]
    ensures r.0.IsSome() ==> r.0.value == it.items[it.back - 1] && r.1.back == it.back - 1
  {
    if it.front == it.back then (None, it)
    else (Some(it.items[it.back - 1]), it.(back := it.back - 1))
  }

  /** `exact_size_hint()`: how many items remain. */
  function ExactSizeHint<T>(it: SeqIter<T>): (n: nat)
    requires it.Valid()
    ensures n == |it.Remaining()|
  {
    it.back - it.front
  }

  /** Everything `next()` hands out, in order, until the first `None`. */
  function Drain<T>(it: SeqIter<T>): (r: seq<T>)
    requires it.Valid()
    ensures r == it.Remaining()
    decreases it.back - it.front
  {
    match Next(it)
    case (None, _) => []
    case (Some(x), rest) => [x] + Drain(rest)
  }
}
