/** `Enumerate`: an adaptor over a type-erased `SizedIterator` that pairs every item with
    its index. From the front the index is a running count of the items handed out so far;
    from the back it is that count plus the number of items still inside after the pop. */
module Enumerates {
  import opened Options
  import opened Iterators
  import SizedIterators
  import Relocation

  type SizedIterator<T> = SizedIterators.SizedIterator<T>

  /** `count_` and the wrapped box `next_iter_`. */
  datatype Enumerate<T> = Enumerate(count: nat, inner: SizedIterator<T>) {

    /** The wrapped box holds a live iterator, so its `next` entry can be called. */
    predicate Valid() {
      inner.Valid() && inner.entries.next
    }

    /** The items the wrapped iterator has not handed out yet. */
    function Remaining(): seq<T>
      requires Valid()
    {
      inner.sized.value.Remaining()
    }

    /** `next_back` is declared only when the box type is both `DoubleEnded` and
        `ExactSize`. */
    predicate HasNextBack() {
      inner.doubleEnded && inner.exactSize
    }
  }

  /** `Enumerate::with(iter)`: the count starts at zero. */
  function With<T>(inner: SizedIterator<T>): (e: Enumerate<T>)
    requires inner.Valid() && inner.entries.next
    ensures e.Valid() && e.count == 0
    ensures e.Remaining() == inner.sized.value.Remaining()
  {
    Enumerate(0, inner)
  }

  /** `next()`: `None` with the count left alone when the wrapped iterator is exhausted;
      otherwise the current count paired with the front item, and the count goes up by
      exactly one. */
  function Next<T>(e: Enumerate<T>): (r: (Option<(nat, T)>, Enumerate<T>))
    requires e.Valid()
    ensures r.1.Valid() && r.1.HasNextBack() == e.HasNextBack()
    ensures r.0.IsNone() <==> |e.Remaining()| == 0
    ensures r.0.IsNone() ==> r.1 == e
    ensures r.0.IsSome() ==> r.0.value == (e.count, e.Remaining()[0])
    ensures r.0.IsSome() ==> r.1.count == e.count + 1 && r.1.Remaining() == e.Remaining()[1..]
  {
    var pulled := SizedIterators.Next(e.inner);
    var item, inner := pulled.0, pulled.1;
    if item.IsNone() then (None, e)
    else (Some((e.count, item.value)), Enumerate(e.count + 1, inner))
  }

  /** `next_back()`: the back item paired with the count plus the wrapped iterator's
      `exact_size_hint()` taken after the pop; the count is not changed. */
  function NextBack<T>(e: Enumerate<T>): (r: (Option<(nat, T)>, Enumerate<T>))
    requires e.Valid() && e.HasNextBack()
    ensures r.1.Valid() && r.1.HasNextBack() && r.1.count == e.count
    ensures r.0.IsNone() <==> |e.Remaining()| == 0
    ensures r.0.IsNone() ==> r.1 == e
    ensures r.0.IsSome() ==> r.0.value == (e.count + |e.Remaining()| - 1, e.Remaining()[|e.Remaining()| - 1])
    ensures r.0.IsSome() ==> r.1.Remaining() == e.Remaining()[..|e.Remaining()| - 1]
  {
    var pulled := SizedIterators.NextBack(e.inner);
    var item, inner := pulled.0, pulled.1;
    if item.IsNone() then (None, e)
    else
      var len := SizedIterators.ExactSizeHint(inner);
      (Some((e.count + len, item.value)), e.(inner := inner))
  }

  /** `exact_size_hint()`: the wrapped iterator's, i.e. how many items remain. */
  function ExactSizeHint<T>(e: Enumerate<T>): (n: nat)
    requires e.Valid() && e.inner.exactSize
    ensures n == |e.Remaining()|
  {
    SizedIterators.ExactSizeHint(e.inner)
  }

  /** `e` enumerates `s`: the wrapped iterator runs over `s`, and the count is the number
      of items taken from its front. */
  ghost predicate Aligned<T>(e: Enumerate<T>, s: seq<T>)
  {
    e.Valid() && e.inner.sized.value.items == s && e.count == e.inner.sized.value.front
  }

  /** Enumerating a fresh iterator over `s` starts aligned with `s`. */
  lemma WithOverIsAligned<T>(s: seq<T>, ty: SizedIterators.IterType, hasExtension: bool)
    requires Relocation.RelocateOneByMemcpy(ty.layout, hasExtension) && ty.isFinal
    ensures Aligned(With(SizedIterators.Make(Over(s), ty, hasExtension)), s)
  {
  }

  /** An aligned enumeration has counted only items taken from the front of `s`, so the
      count never exceeds `|s|`. */
  lemma CountWithinLength<T>(e: Enumerate<T>, s: seq<T>)
    requires Aligned(e, s)
    ensures e.count <= |s|
  {
  }

  /** The window of positions of `s` the enumeration has not reported yet. */
  function Front<T>(e: Enumerate<T>): nat
    requires e.Valid()
  {
    e.inner.sized.value.front
  }

  function Back<T>(e: Enumerate<T>): nat
    requires e.Valid()
  {
    e.inner.sized.value.back
  }

  /** `next()` reports the item at its position in `s`, namely the front of the window,
      and keeps the enumeration aligned. */
  lemma NextReportsPosition<T>(e: Enumerate<T>, s: seq<T>)
    requires Aligned(e, s)
    ensures var r := Next(e);
      && Aligned(r.1, s) && Back(r.1) == Back(e)
      && (r.0.IsSome() ==> r.0.value.0 == Front(e) < Back(e) && Front(r.1) == Front(e) + 1)
      && (r.0.IsSome() ==> s[r.0.value.0] == r.0.value.1)
  {
  }

  /** `next_back()` reports the item at its position in `s`, namely the back of the window,
      and keeps the enumeration aligned. */
  lemma NextBackReportsPosition<T>(e: Enumerate<T>, s: seq<T>)
    requires Aligned(e, s) && e.HasNextBack()
    ensures var r := NextBack(e);
      && Aligned(r.1, s) && Front(r.1) == Front(e)
      && (r.0.IsSome() ==> Front(e) <= r.0.value.0 == Back(e) - 1 && Back(r.1) == Back(e) - 1)
      && (r.0.IsSome() ==> s[r.0.value.0] == r.0.value.1)
  {
  }

  /** Which end one call pulls from. */
  datatype End = FrontEnd | BackEnd

  /** The pairs reported by pulling from the given ends in turn; `None` results report
      nothing. */
  function Pairs<T>(e: Enumerate<T>, ends: seq<End>): (r: seq<(nat, T)>)
    requires e.Valid() && (BackEnd in ends ==> e.HasNextBack())
    ensures |r| <= |ends|
    decreases |ends|
  {
    if |ends| == 0 then []
    else
      assert ends[0] in ends;
      var pulled := if ends[0].BackEnd? then NextBack(e) else Next(e);
      var rest := Pairs(pulled.1, ends[1..]);
      if pulled.0.IsSome() then [pulled.0.value] + rest else rest
  }

  /** Every pair of `r` reports an index in `[lo, hi)` together with the item of `s` at
      that index, and no index is reported twice. */
  ghost predicate ReportsWindow<T>(r: seq<(nat, T)>, s: seq<T>, lo: nat, hi: nat)
  {
    && (forall k :: 0 <= k < |r| ==> lo <= r[k].0 < hi && r[k].0 < |s| && s[r[k].0] == r[k].1)
    && (forall k, l :: 0 <= k < l < |r| ==> r[k].0 != r[l].0)
  }

  /** A pair reported at an end of the window, ahead of pairs from the rest of the window,
      keeps the report well-formed over the whole window. */
  lemma PrependReport<T>(p: (nat, T), rest: seq<(nat, T)>, s: seq<T>, lo: nat, hi: nat, lo': nat, hi': nat)
    requires lo <= p.0 < hi && p.0 < |s| && s[p.0] == p.1
    requires lo <= lo' && hi' <= hi && (p.0 < lo' || hi' <= p.0)
    requires ReportsWindow(rest, s, lo', hi')
    ensures ReportsWindow([p] + rest, s, lo, hi)
  {
    var r := [p] + rest;
    forall k, l | 0 <= k < l < |r|
      ensures r[k].0 != r[l].0
    {
      assert r[l] == rest[l - 1];
      if k > 0 {
        assert r[k] == rest[k - 1];
      }
    }
    forall k | 0 <= k < |r|
      ensures lo <= r[k].0 < hi && r[k].0 < |s| && s[r[k].0] == r[k].1
    {
      if k > 0 {
        assert r[k] == rest[k - 1];
      }
    }
  }

  /** For any interleaving of `next()` and `next_back()` over `s`, every reported index is
      the position in `s` of the item it is paired with; the indices are distinct and lie
      in the window not reported yet; and as many pairs are reported as there were pulls,
      until the window is empty. */
  lemma {:induction false} IndicesArePositions<T>(e: Enumerate<T>, s: seq<T>, ends: seq<End>)
    requires Aligned(e, s) && (BackEnd in ends ==> e.HasNextBack())
    ensures var r := Pairs(e, ends);
      && |r| == (if |ends| < Back(e) - Front(e) then |ends| else Back(e) - Front(e))
      && ReportsWindow(r, s, Front(e), Back(e))
    decreases |ends|
  {
    if |ends| > 0 {
      assert ends[0] in ends && (BackEnd in ends[1..] ==> BackEnd in ends);
      var pulled := if ends[0].BackEnd? then NextBack(e) else Next(e);
      if ends[0].FrontEnd? {
        NextReportsPosition(e, s);
      } else {
        NextBackReportsPosition(e, s);
      }
      IndicesArePositions(pulled.1, s, ends[1..]);
      var rest := Pairs(pulled.1, ends[1..]);
      if pulled.0.IsSome() {
        PrependReport(pulled.0.value, rest, s, Front(e), Back(e), Front(pulled.1), Back(pulled.1));
      }
    }
  }

  /** The descriptor of a concrete iterator type fit for boxing: a `final` class with
      defaulted members, double-ended and of exact size. */
  const ExampleIterType := SizedIterators.IterType(Relocation.A, true, true, true)

  /** Enumerating `[a, b, c]` from the front gives `(0, a), (1, b), (2, c)`; from the back
      it gives `(2, c), (1, b), (0, a)`. */
  lemma ThreeItemExample<T>(a: T, b: T, c: T)
    ensures var e := With(SizedIterators.Make(Over([a, b, c]), ExampleIterType, false));
      && Pairs(e, [FrontEnd, FrontEnd, FrontEnd, FrontEnd]) == [(0, a), (1, b), (2, c)]
      && Pairs(e, [BackEnd, BackEnd, BackEnd, BackEnd]) == [(2, c), (1, b), (0, a)]
  {
  }

  /** Every index an enumeration of `s` reports is below `|s|`, so it fits a `usize`
      whenever `s` is an in-memory sequence. */
  lemma IndexFitsLength<T>(e: Enumerate<T>, s: seq<T>, ends: seq<End>)
    requires Aligned(e, s) && (BackEnd in ends ==> e.HasNextBack())
    ensures forall k :: 0 <= k < |Pairs(e, ends)| ==> Pairs(e, ends)[k].0 < |s|
  {
    IndicesArePositions(e, s, ends);
    var r := Pairs(e, ends);
    assert forall k :: 0 <= k < |r| ==> r[k].0 < |s|;
  }
}
