/** The consumers every iterator provides (`all`, `any`, `count`) and the adaptor that lets
    a range-based `for` loop pull from an iterator. Each runs over an iterator's remaining
    items and leaves the iterator where it stopped. */
module IteratorFns {
  import opened Fatal
  import opened Options
  import opened Iterators

  /** `all(f)`: whether `f` holds of every remaining item. It pulls items until `f` first
      fails, so the item that fails is the last one consumed. */
  method All<T>(it: SeqIter<T>, f: T -> bool) returns (r: bool, rest: SeqIter<T>)
    requires it.Valid()
    ensures rest.Valid() && rest.items == it.items && rest.back == it.back
    ensures r <==> forall k :: it.front <= k < it.back ==> f(it.items[k])
    ensures r ==> |rest.Remaining()| == 0
    ensures !r ==> it.front < rest.front && !f(it.items[rest.front - 1])
    ensures !r ==> forall k :: it.front <= k < rest.front - 1 ==> f(it.items[k])
  {
    var pulled := Next(it);
    var item := pulled.0;
    rest := pulled.1;
    while item.IsSome()
      invariant rest.Valid() && rest.items == it.items && rest.back == it.back
      invariant it.front <= rest.front
      invariant item.IsNone() ==> rest.front == rest.back
      invariant item.IsSome() ==> it.front < rest.front && item.value == it.items[rest.front - 1]
      invariant forall k :: it.front <= k < rest.front - 1 ==> f(it.items[k])
      invariant item.IsNone() ==> forall k :: it.front <= k < rest.front ==> f(it.items[k])
      decreases rest.back - rest.front, item.IsSome()
    {
      var i := UnwrapUnchecked(Take(item).0);
      if !f(i) {
        return false, rest;
      }
      pulled := Next(rest);
      item := pulled.0;
      rest := pulled.1;
    }
    return true, rest;
  }

  /** `any(f)`: whether `f` holds of some remaining item. It pulls items until `f` first
      holds, so the item that satisfies it is the last one consumed. */
  method Any<T>(it: SeqIter<T>, f: T -> bool) returns (r: bool, rest: SeqIter<T>)
    requires it.Valid()
    ensures rest.Valid() && rest.items == it.items && rest.back == it.back
    ensures r <==> exists k :: it.front <= k < it.back && f(it.items[k])
    ensures !r ==> |rest.Remaining()| == 0
    ensures r ==> it.front < rest.front && f(it.items[rest.front - 1])
    ensures r ==> forall k :: it.front <= k < rest.front - 1 ==> !f(it.items[k])
  {
    var pulled := Next(it);
    var item := pulled.0;
    rest := pulled.1;
    while item.IsSome()
      invariant rest.Valid() && rest.items == it.items && rest.back == it.back
      invariant it.front <= rest.front
      invariant item.IsNone() ==> rest.front == rest.back
      invariant item.IsSome() ==> it.front < rest.front && item.value == it.items[rest.front - 1]
      invariant forall k :: it.front <= k < rest.front - 1 ==> !f(it.items[k])
      invariant item.IsNone() ==> forall k :: it.front <= k < rest.front ==> !f(it.items[k])
      decreases rest.back - rest.front, item.IsSome()
    {
      var i := UnwrapUnchecked(Take(item).0);
      if f(i) {
        return true, rest;
      }
      pulled := Next(rest);
      item := pulled.0;
      rest := pulled.1;
    }
    return false, rest;
  }

  /** `count()`: the number of items before the first `None`; the iterator is exhausted
      afterwards. */
  method Count<T>(it: SeqIter<T>) returns (c: nat, rest: SeqIter<T>)
    requires it.Valid()
    ensures c == |it.Remaining()|
    ensures rest.Valid() && |rest.Remaining()| == 0
  {
    c := 0;
    var pulled := Next(it);
    var item := pulled.0;
    rest := pulled.1;
    while item.IsSome()
      invariant rest.Valid() && rest.items == it.items && rest.back == it.back
      invariant it.front <= rest.front
      invariant item.IsNone() ==> rest.front == rest.back
      invariant c + (if item.IsSome() then 1 else 0) == rest.front - it.front
      decreases rest.back - rest.front, item.IsSome()
    {
      c := c + 1;
      pulled := Next(rest);
      item := pulled.0;
      rest := pulled.1;
    }
  }

  /** `all` and `any` are each other's duals: `all(f)` is `!any(!f)`, and both stop at the
      same item. */
  method AllAnyDual<T>(it: SeqIter<T>, f: T -> bool) returns (all: bool, anyNot: bool, stopAll: nat, stopAny: nat)
    requires it.Valid()
    ensures all == !anyNot
    ensures stopAll == stopAny
  {
    var restAll, restAny;
    all, restAll := All(it, f);
    anyNot, restAny := Any(it, x => !f(x));
    stopAll, stopAny := restAll.front, restAny.front;
  }

  /** `IteratorLoop`: the iterator being looped over and the item fetched ahead of the loop
      body. */
  datatype Loop<T> = Loop(iter: SeqIter<T>, item: Option<T>)

  /** `begin()`: the loop fetches the first item at once. */
  function Begin<T>(it: SeqIter<T>): (l: Loop<T>)
    requires it.Valid()
    ensures l.iter.Valid()
    ensures l.item.IsNone() <==> |it.Remaining()| == 0
    ensures l.item.IsSome() ==> [l.item.value] + l.iter.Remaining() == it.Remaining()
  {
    var pulled := Next(it);
    Loop(pulled.1, pulled.0)
  }

  /** `operator==(iterator_end)`: the loop is over once the fetched item is `None`. */
  predicate AtEnd<T>(l: Loop<T>)
  {
    l.item.IsNone()
  }

  /** `operator!=(iterator_end)` */
  predicate NotAtEnd<T>(l: Loop<T>)
  {
    l.item.IsSome()
  }

  /** `operator++()`: fetches the next item. */
  function Advance<T>(l: Loop<T>): (l': Loop<T>)
    requires l.iter.Valid()
    ensures l'.iter.Valid()
    ensures l'.item.IsNone() <==> |l.iter.Remaining()| == 0
    ensures l'.item.IsSome() ==> [l'.item.value] + l'.iter.Remaining() == l.iter.Remaining()
  {
    var pulled := Next(l.iter);
    Loop(pulled.1, pulled.0)
  }

  /** `operator*()`: takes the fetched item out of the loop (`item_.take().unwrap()`);
      aborts if there is none, which is the case after a second `*` without `++`. */
  function Deref<T>(l: Loop<T>): (r: Outcome<(T, Loop<T>)>)
    ensures r.Ok? <==> l.item.IsSome()
    ensures r.Ok? ==> Some(r.value.0) == l.item && r.value.1 == l.(item := None)
  {
    var taken := Take(l.item);
    match Unwrap(taken.0)
    case Abort(msg) => Abort(msg)
    case Ok(x) => Ok((x, l.(item := taken.1)))
  }

  /** `==` and `!=` against the end always disagree. */
  lemma EndComparisonsDisagree<T>(l: Loop<T>)
    ensures AtEnd(l) <==> !NotAtEnd(l)
  {
  }

  /** `for (auto x : iter) body`: visits exactly the remaining items, in order. */
  method RangeFor<T>(it: SeqIter<T>) returns (visited: seq<T>)
    requires it.Valid()
    ensures visited == it.Remaining()
  {
    visited := [];
    var l := Begin(it);
    while NotAtEnd(l)
      invariant l.iter.Valid()
      invariant l.item.IsNone() ==> visited == it.Remaining()
      invariant l.item.IsSome() ==> visited + [l.item.value] + l.iter.Remaining() == it.Remaining()
      decreases |l.iter.Remaining()|, l.item.IsSome()
    {
      var out := Deref(l);
      var x := out.value.0;
      l := out.value.1;
      visited := visited + [x];
      assert visited + l.iter.Remaining() == it.Remaining();
      l := Advance(l);
    }
  }
}
