/** Bookkeeping for ownership proofs: the multiset of values held by a row of owning slots
    (options, or type-erased iterator boxes viewed as options), and how it changes when one
    slot is replaced, appended or removed. */
module Ledger {
  import opened Options

  /** Every value owned by some slot of `slots`, with multiplicity. */
  function Owned<T>(slots: seq<Option<T>>): multiset<T>
  {
    if |slots| == 0 then multiset{} else Owned(slots[..|slots| - 1]) + Contents(slots[|slots| - 1])
  }

  lemma {:induction false} OwnedConcat<T>(a: seq<Option<T>>, b: seq<Option<T>>)
    ensures Owned(a + b) == Owned(a) + Owned(b)
    decreases |b|
  {
    if |b| == 0 {
      assert a + b == a;
    } else {
      var b' := b[..|b| - 1];
      assert (a + b)[..|a + b| - 1] == a + b';
      assert (a + b)[|a + b| - 1] == b[|b| - 1];
      OwnedConcat(a, b');
    }
  }

  lemma OwnedSingleton<T>(x: Option<T>)
    ensures Owned([x]) == Contents(x)
  {
    assert [x][..0] == [];
  }

  /** Replacing slot `i` by `x` swaps what that slot owned for what `x` owns. */
  lemma OwnedUpdate<T>(s: seq<Option<T>>, i: nat, x: Option<T>)
    requires i < |s|
    ensures Owned(s[i := x]) + Contents(s[i]) == Owned(s) + Contents(x)
  {
    assert s == s[..i] + [s[i]] + s[i + 1..];
    assert s[i := x] == s[..i] + [x] + s[i + 1..];
    OwnedConcat(s[..i] + [s[i]], s[i + 1..]);
    OwnedConcat(s[..i], [s[i]]);
    OwnedConcat(s[..i] + [x], s[i + 1..]);
    OwnedConcat(s[..i], [x]);
    OwnedSingleton(s[i]);
    OwnedSingleton(x);
  }

  /** Appending a slot adds what it owns. */
  lemma OwnedAppend<T>(s: seq<Option<T>>, x: Option<T>)
    ensures Owned(s + [x]) == Owned(s) + Contents(x)
  {
    OwnedConcat(s, [x]);
    OwnedSingleton(x);
  }

  /** Removing slot `i` removes what it owned. */
  lemma OwnedRemove<T>(s: seq<Option<T>>, i: nat)
    requires i < |s|
    ensures Owned(s[..i] + s[i + 1..]) + Contents(s[i]) == Owned(s)
  {
    var pre, post := s[..i], s[i + 1..];
    assert s == (pre + [s[i]]) + post;
    OwnedConcat(pre + [s[i]], post);
    OwnedAppend(pre, s[i]);
    OwnedConcat(pre, post);
  }

  /** Moving slot `i`'s value into a new slot at the end keeps what is owned. */
  lemma OwnedMoveToEnd<T>(s: seq<Option<T>>, i: nat)
    requires i < |s|
    ensures Owned(s[i := None] + [s[i]]) == Owned(s)
  {
    OwnedUpdate(s, i, None);
    OwnedAppend(s[i := None], s[i]);
    var kept, moved := Owned(s[i := None]), Contents(s[i]);
    assert Contents(Option<T>.None) == multiset{};
    assert kept + moved == Owned(s);
  }

  /** Moving slot `j`'s value into slot `i` drops exactly what slot `i` owned. */
  lemma OwnedMoveOver<T>(s: seq<Option<T>>, i: nat, j: nat)
    requires i < |s| && j < |s| && i != j
    ensures Owned(s[i := s[j]][j := None]) + Contents(s[i]) == Owned(s)
  {
    var s1 := s[i := s[j]];
    var s2 := s1[j := None];
    OwnedUpdate(s, i, s[j]);
    OwnedUpdate(s1, j, None);
    assert s1[j] == s[j];
    assert Contents(Option<T>.None) == multiset{};
    Cancel(Owned(s2), Contents(s[i]), Contents(s[j]), Owned(s1), Owned(s));
  }

  lemma Cancel<T>(a: multiset<T>, b: multiset<T>, c: multiset<T>, x: multiset<T>, y: multiset<T>)
    requires a + c == x && x + b == y + c
    ensures a + b == y
  {
    assert a + b == (a + b + c) - c;
    assert y == (y + c) - c;
  }
}
