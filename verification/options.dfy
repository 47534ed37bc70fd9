/** `sus::Option<T>`: a container that holds either no value or exactly one owned value. */
module Options {
  import opened Fatal

  /** The two states of an option. The C++ class keeps a `State` tag beside a union; a
      datatype makes "exactly one state at any time" hold by construction. */
  datatype Option<T> = None | Some(value: T) {

    /** `is_some()` */
    predicate IsSome() { this.Some? }

    /** `is_none()` */
    predicate IsNone() { this.None? }
  }

  /** The values an option owns: the one it holds, or none. */
  function Contents<T(==)>(o: Option<T>): multiset<T> {
    match o
    case Some(v) => multiset{v}
    case None => multiset{}
  }

  /** `with_default()`: `Some` of the value `MakeDefault<T>::make_default()` builds, which is
      passed in as `default`. */
  function WithDefault<T>(default: T): (r: Option<T>)
    ensures r.IsSome() && r.value == default
  {
    Some(default)
  }

  /** The destructor: destroys the held value, if any. `destroyed` is the log of values
      destroyed so far; the result is that log afterwards. */
  function Drop<T(==)>(self: Option<T>, destroyed: seq<T>): (r: seq<T>)
    ensures multiset(r) == multiset(destroyed) + Contents(self)
    ensures |r| == |destroyed| + |Contents(self)|
    ensures r[..|destroyed|] == destroyed
  {
    if self.Some? then destroyed + [self.value] else destroyed
  }

  /** `clear()`: destroys the held value, if any, and leaves the option `None`.
      Returns the option afterwards and the destruction log afterwards. */
  function Clear<T(==)>(self: Option<T>, destroyed: seq<T>): (r: (Option<T>, seq<T>))
    ensures r.0.IsNone()
    ensures |destroyed| <= |r.1| && r.1[..|destroyed|] == destroyed
    ensures multiset(r.1) == multiset(destroyed) + Contents(self)
    ensures self.IsNone() ==> r.1 == destroyed
  {
    var wasSome := self.Some?;
    if wasSome then (None, destroyed + [self.value]) else (None, destroyed)
  }

  /** `take()`: moves whatever `self` holds into a new option. Returns the new option and
      `self` afterwards. No value is destroyed: the value lives on in the new option. */
  function Take<T>(self: Option<T>): (r: (Option<T>, Option<T>))
    ensures r.0 == self
    ensures r.1.IsNone()
  {
    match self
    case Some(v) => (Some(v), None)
    case None => (None, None)
  }

  /** `unwrap_unchecked(unsafe_fn)`: moves the value out. Calling it on `None` is undefined
      behaviour, which is the precondition. The moved-from option is `None`. */
  function UnwrapUnchecked<T>(self: Option<T>): (r: T)
    requires self.IsSome()
    ensures Some(r) == self
  {
    self.value
  }

  /** `expect(msg)`: the held value; aborts with `msg` when the option is `None`. */
  function Expect<T>(self: Option<T>, msg: string): (r: Outcome<T>)
    ensures r.Ok? <==> self.IsSome()
    ensures r.Ok? ==> Some(r.value) == self
    ensures r.Abort? ==> r.message == msg
  {
    if self.Some? then Ok(UnwrapUnchecked(self)) else Abort(msg)
  }

  /** `unwrap()`: the held value; aborts without a message when the option is `None`. */
  function Unwrap<T>(self: Option<T>): (r: Outcome<T>)
    ensures r.Ok? <==> self.IsSome()
    ensures r.Ok? ==> Some(r.value) == self
    ensures r.Abort? ==> r.message == ""
  {
    if self.Some? then Ok(UnwrapUnchecked(self)) else Abort("")
  }

  /** `some(t).is_some()`, `none().is_none()`, and the two queries are each other's
      negation in every state. */
  lemma StateQueries<T>(t: T, o: Option<T>)
    ensures Some(t).IsSome() && !Some(t).IsNone()
    ensures Option<T>.None.IsNone() && !Option<T>.None.IsSome()
    ensures o.IsSome() == !o.IsNone()
  {
  }

  /** Round trips: what `some` or `with_default` stores, `unwrap` and `expect` give back;
      on `None` both abort. */
  lemma UnwrapRoundTrip<T>(v: T, msg: string)
    ensures Unwrap(Some(v)) == Ok(v)
    ensures Expect(Some(v), msg) == Ok(v)
    ensures Unwrap(WithDefault(v)) == Ok(v)
    ensures Unwrap(Option<T>.None) == Abort("")
    ensures Expect(Option<T>.None, msg) == Abort(msg)
  {
  }

  /** Taking from an option and then clearing the taken one logs exactly what clearing
      the original would have: `take` moves the value, and the log records no destruction
      for it. The log records values, not destructor calls on moved-from storage. */
  lemma TakeThenClearIsClear<T>(self: Option<T>, destroyed: seq<T>)
    ensures Clear(Take(self).0, destroyed).1 == Clear(self, destroyed).1
    ensures Drop(Take(self).1, destroyed) == destroyed
  {
  }
}
