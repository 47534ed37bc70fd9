/** Ownership across a whole program of options: every value `some` creates is destroyed at
    most once, whatever sequence of `take`, `clear`, `unwrap`, `expect` and destructor runs
    the program performs, and exactly once if the program ends holding nothing. */
module OptionOwnership {
  import opened Fatal
  import opened Options
  import opened Ledger

  /** The objects of a program: its options, the values it moved out of options into
      locals, the log of destroyed values and the log of values created by `some`. */
  datatype World<T> = World(options: seq<Option<T>>, locals: seq<T>, destroyed: seq<T>, created: seq<T>)

  /** One statement of the program; indices name an option or a local. */
  datatype Action<T> =
    | MakeSome(v: T)              // options += [Option::some(v)]
    | MakeNone                    // options += [Option::none()]
    | TakeFrom(i: nat)            // options += [options[i].take()]
    | ClearAt(i: nat)             // options[i].clear()
    | UnwrapAt(i: nat)            // locals += [move(options[i]).unwrap()]
    | ExpectAt(i: nat, msg: string) // locals += [move(options[i]).expect(msg)]
    | DropOption(i: nat)          // options[i] goes out of scope
    | DropLocal(j: nat)           // locals[j] goes out of scope

  /** The action names objects that exist. */
  predicate Names<T>(w: World<T>, a: Action<T>)
  {
    match a
    case MakeSome(_) => true
    case MakeNone => true
    case DropLocal(j) => j < |w.locals|
    case TakeFrom(i) => i < |w.options|
    case ClearAt(i) => i < |w.options|
    case UnwrapAt(i) => i < |w.options|
    case ExpectAt(i, _) => i < |w.options|
    case DropOption(i) => i < |w.options|
  }

  /** Every value created is, with its multiplicity, either owned by an option, held in a
      local, or destroyed. */
  ghost predicate Balanced<T>(w: World<T>)
  {
    Owned(w.options) + multiset(w.locals) + multiset(w.destroyed) == multiset(w.created)
  }

  /** `options[i].take()` into a new option appended to the program's options. */
  function TakeInto<T>(w: World<T>, i: nat): (r: World<T>)
    requires i < |w.options|
    ensures |r.options| == |w.options| + 1
    ensures r.options[|w.options|] == w.options[i] && r.options[i].IsNone()
    ensures r.created == w.created && (Balanced(w) ==> Balanced(r))
  {
    var moved := Take(w.options[i]);
    var taken, left := moved.0, moved.1;
    var rest := w.options[i := left];
    OwnedUpdate(w.options, i, left);
    assert Contents(left) == multiset{} && taken == w.options[i];
    assert Owned(rest) + Contents(taken) == Owned(w.options);
    var options' := rest + [taken];
    OwnedAppend(rest, taken);
    w.(options := options')
  }

  /** `options[i].clear()`. */
  function ClearIn<T(==)>(w: World<T>, i: nat): (r: World<T>)
    requires i < |w.options|
    ensures |r.options| == |w.options| && r.options[i].IsNone()
    ensures r.created == w.created && (Balanced(w) ==> Balanced(r))
  {
    var after := Clear(w.options[i], w.destroyed);
    var cleared, destroyed := after.0, after.1;
    var options' := w.options[i := cleared];
    OwnedUpdate(w.options, i, cleared);
    var kept, gone := Owned(options'), Contents(w.options[i]);
    assert kept + gone == Owned(w.options) by {
      assert Contents(cleared) == multiset{};
    }
    assert multiset(destroyed) == multiset(w.destroyed) + gone;
    w.(options := options', destroyed := destroyed)
  }

  /** Moving the value of option `i` into a local, as `unwrap` and `expect` do once their
      check passed: `unwrap_unchecked` leaves the moved-from option `None`. */
  function MoveToLocal<T>(w: World<T>, i: nat): (r: World<T>)
    requires i < |w.options| && w.options[i].IsSome()
    ensures |r.options| == |w.options| && r.options[i].IsNone()
    ensures r.locals == w.locals + [w.options[i].value]
    ensures r.created == w.created && (Balanced(w) ==> Balanced(r))
  {
    var v := UnwrapUnchecked(w.options[i]);
    var options' := w.options[i := None];
    OwnedUpdate(w.options, i, None);
    assert Owned(options') + multiset{v} == Owned(w.options);
    assert multiset(w.locals + [v]) == multiset(w.locals) + multiset{v};
    w.(options := options', locals := w.locals + [v])
  }

  /** The destructor of option `i` runs and the option leaves the program. */
  function DropOptionIn<T(==)>(w: World<T>, i: nat): (r: World<T>)
    requires i < |w.options|
    ensures |r.options| == |w.options| - 1
    ensures r.created == w.created && (Balanced(w) ==> Balanced(r))
  {
    OwnedRemove(w.options, i);
    w.(options := w.options[..i] + w.options[i + 1..], destroyed := Drop(w.options[i], w.destroyed))
  }

  /** Local `j` is destroyed and leaves the program. */
  function DropLocalIn<T>(w: World<T>, j: nat): (r: World<T>)
    requires j < |w.locals|
    ensures |r.locals| == |w.locals| - 1 && r.destroyed == w.destroyed + [w.locals[j]]
    ensures r.created == w.created && (Balanced(w) ==> Balanced(r))
  {
    assert w.locals == w.locals[..j] + [w.locals[j]] + w.locals[j + 1..];
    w.(locals := w.locals[..j] + w.locals[j + 1..], destroyed := w.destroyed + [w.locals[j]])
  }

  /** One statement. It aborts exactly when it unwraps or expects a `None` option. */
  function Step<T(==)>(w: World<T>, a: Action<T>): (r: Outcome<World<T>>)
    requires Names(w, a)
    ensures r.Abort? <==> (a.UnwrapAt? || a.ExpectAt?) && w.options[a.i].IsNone()
    ensures r.Abort? && a.ExpectAt? ==> r.message == a.msg
    ensures r.Ok? ==> (Balanced(w) ==> Balanced(r.value))
    ensures r.Ok? ==> w.created <= r.value.created
  {
    match a
    case MakeSome(v) =>
      OwnedAppend(w.options, Some(v));
      Ok(w.(options := w.options + [Some(v)], created := w.created + [v]))
    case MakeNone =>
      OwnedAppend(w.options, None);
      Ok(w.(options := w.options + [None]))
    case TakeFrom(i) => Ok(TakeInto(w, i))
    case ClearAt(i) => Ok(ClearIn(w, i))
    case UnwrapAt(i) =>
      (match Unwrap(w.options[i])
       case Abort(msg) => Abort(msg)
       case Ok(_) => Ok(MoveToLocal(w, i)))
    case ExpectAt(i, msg) =>
      (match Expect(w.options[i], msg)
       case Abort(m) => Abort(m)
       case Ok(_) => Ok(MoveToLocal(w, i)))
    case DropOption(i) => Ok(DropOptionIn(w, i))
    case DropLocal(j) => Ok(DropLocalIn(w, j))
  }

  /** Runs the program until it ends, aborts, or names an object that does not exist;
      the result is the world at that point. */
  function Run<T(==)>(w: World<T>, program: seq<Action<T>>): (r: World<T>)
    ensures Balanced(w) ==> Balanced(r)
    ensures w.created <= r.created
    decreases |program|
  {
    if |program| == 0 || !Names(w, program[0]) then w
    else
      match Step(w, program[0])
      case Abort(_) => w
      case Ok(w') => Run(w', program[1..])
  }

  /** The empty program state. */
  function Start<T>(): (w: World<T>)
    ensures Balanced(w)
  {
    World([], [], [], [])
  }

  /** No value is destroyed more often than it was created: a value made by one `some`
      is destroyed at most once. */
  lemma DestroyedAtMostOnce<T>(program: seq<Action<T>>, v: T)
    ensures var r := Run(Start(), program);
      multiset(r.destroyed)[v] <= multiset(r.created)[v]
  {
    var r := Run(Start(), program);
    assert multiset(r.destroyed) <= multiset(r.created);
  }

  /** A program that ends holding no value in any option or local has destroyed every
      value it created exactly as many times as it created it. */
  lemma DestroyedExactlyOnceAtEnd<T>(program: seq<Action<T>>)
    ensures var r := Run(Start(), program);
      Owned(r.options) == multiset{} && r.locals == [] ==> multiset(r.destroyed) == multiset(r.created)
  {
  }
}
