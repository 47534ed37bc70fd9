/** The callable concepts `FnOnce`, `FnMut` and `Fn` of `sus::fn`, over a descriptor of a
    callable type: the qualifiers of its `operator()` overloads, the parameter types they
    take and the type they return. A concept is satisfied when the callable can be invoked
    on the right kind of receiver with the signature's arguments and what it returns is
    acceptable to the signature's return type. Type conversions other than identity are
    not modelled. */
module FnConcepts {
  import opened Options

  datatype Type = Void | Named(name: string)

  /** The return type written in a signature `R(Args...)`: a concrete type, or one of the
      markers `NonVoid` and `Anything`. */
  datatype ReturnSpec = Exactly(t: Type) | NonVoid | Anything

  /** The qualifiers an `operator()` overload can carry on its implicit object parameter:
      none, `const`, `&`, `const &`, `&&`, `const &&`. */
  datatype Qualifier = Unqualified | Const | LRef | ConstLRef | RRef | ConstRRef

  /** A callable type: the qualifiers of its `operator()` overloads, which share one
      parameter list and return type. */
  datatype Callable = Callable(quals: set<Qualifier>, params: seq<Type>, result: Type)

  /** A signature `R(Args...)`. */
  datatype Signature = Signature(result: ReturnSpec, args: seq<Type>)

  /** How the concept calls the object: moved (`FnOnce`), as a mutable lvalue (`FnMut`),
      as a const lvalue (`Fn`). */
  datatype Receiver = Rvalue | Lvalue | ConstLvalue

  /** Whether an overload with qualifier `q` can be called on receiver `r`, by the C++ rules
      for binding the implicit object parameter: `&` binds only a mutable lvalue, `&&` only
      a mutable rvalue, `const &&` only rvalues, `const` and `const &` bind everything, and
      an unqualified overload binds everything but a const object. */
  predicate Binds(q: Qualifier, r: Receiver)
  {
    match r
    case Rvalue => q != LRef
    case Lvalue => q in {Unqualified, Const, LRef, ConstLRef}
    case ConstLvalue => q in {Const, ConstLRef}
  }

  /** The returned type is acceptable for the signature's return type: `Anything` takes
      every type, `void` included; `NonVoid` every type but `void`; a concrete type only
      itself. */
  predicate ValidReturnType(returned: Type, spec: ReturnSpec)
  {
    match spec
    case Anything => true
    case NonVoid => returned != Void
    case Exactly(t) => returned == t
  }

  /** The object, seen as receiver `r`, can be invoked with `args` and returns something
      the signature accepts. */
  predicate Invokes(f: Callable, r: Receiver, sig: Signature)
  {
    && (exists q :: q in f.quals && Binds(q, r))
    && f.params == sig.args
    && ValidReturnType(f.result, sig.result)
  }

  /** `FnOnce<F, S>`: invocable as an rvalue. */
  predicate FnOnce(f: Callable, sig: Signature)
  {
    Invokes(f, Rvalue, sig)
  }

  /** `FnMut<F, S>`: invocable as a mutable lvalue, and `FnOnce`. */
  predicate FnMut(f: Callable, sig: Signature)
  {
    Invokes(f, Lvalue, sig) && FnOnce(f, sig)
  }

  /** `Fn<F, S>`: invocable as a const lvalue, and `FnMut` and `FnOnce`. */
  predicate Fn(f: Callable, sig: Signature)
  {
    Invokes(f, ConstLvalue, sig) && FnMut(f, sig) && FnOnce(f, sig)
  }

  /** The lattice: every `Fn` is a `FnMut`, and every `FnMut` is a `FnOnce`. */
  lemma Lattice(f: Callable, sig: Signature)
    ensures Fn(f, sig) ==> FnMut(f, sig)
    ensures FnMut(f, sig) ==> FnOnce(f, sig)
  {
  }

  /** The `FnMut` and `FnOnce` requirements of `Fn` add nothing: an overload that binds a
      const lvalue binds a mutable lvalue and an rvalue too. */
  lemma FnIsConstInvocable(f: Callable, sig: Signature)
    ensures Fn(f, sig) <==> Invokes(f, ConstLvalue, sig)
  {
    if Invokes(f, ConstLvalue, sig) {
      var q :| q in f.quals && Binds(q, ConstLvalue);
      assert Binds(q, Lvalue) && Binds(q, Rvalue);
    }
  }

  /** `FnOnce` is exactly "some overload is not `&`-qualified". */
  lemma FnOnceByQualifiers(f: Callable, sig: Signature)
    requires f.params == sig.args && ValidReturnType(f.result, sig.result)
    ensures FnOnce(f, sig) <==> exists q :: q in f.quals && q != LRef
  {
    if exists q :: q in f.quals && q != LRef {
      var q :| q in f.quals && q != LRef;
      assert Binds(q, Rvalue);
    }
  }

  /** `FnMut` is exactly "some overload is neither `&&`- nor `const &&`-qualified, and some
      overload is not `&`-qualified". */
  lemma FnMutByQualifiers(f: Callable, sig: Signature)
    requires f.params == sig.args && ValidReturnType(f.result, sig.result)
    ensures FnMut(f, sig) <==>
      (exists q :: q in f.quals && q !in {RRef, ConstRRef}) && (exists q :: q in f.quals && q != LRef)
  {
    if exists q :: q in f.quals && q !in {RRef, ConstRRef} {
      var q :| q in f.quals && q !in {RRef, ConstRRef};
      assert q.Unqualified? || q.Const? || q.LRef? || q.ConstLRef?;
      assert Binds(q, Lvalue);
    }
    if exists q :: q in f.quals && q != LRef {
      var q :| q in f.quals && q != LRef;
      assert Binds(q, Rvalue);
    }
    if FnMut(f, sig) {
      var q :| q in f.quals && Binds(q, Lvalue);
      assert q !in {RRef, ConstRRef};
    }
  }

  /** `Fn` is exactly "some overload is `const`- or `const &`-qualified". */
  lemma FnByQualifiers(f: Callable, sig: Signature)
    requires f.params == sig.args && ValidReturnType(f.result, sig.result)
    ensures Fn(f, sig) <==> Const in f.quals || ConstLRef in f.quals
  {
    FnIsConstInvocable(f, sig);
    if Const in f.quals {
      assert Binds(Const, ConstLvalue);
    }
    if ConstLRef in f.quals {
      assert Binds(ConstLRef, ConstLvalue);
    }
  }

  /** A callable whose only `operator()` is `&&`-qualified is `FnOnce` but not `FnMut`; one
      whose only `operator()` is `&`-qualified is neither. */
  lemma RefQualifiedOnly(params: seq<Type>, result: Type, sig: Signature)
    requires params == sig.args && ValidReturnType(result, sig.result)
    ensures FnOnce(Callable({RRef}, params, result), sig)
    ensures !FnMut(Callable({RRef}, params, result), sig)
    ensures !FnOnce(Callable({LRef}, params, result), sig)
    ensures !FnMut(Callable({LRef}, params, result), sig)
  {
    assert Binds(RRef, Rvalue);
  }

  /** A lambda is a callable with one unqualified `operator()` if it is `mutable`, a
      `const` one otherwise. A mutable lambda is `FnMut` but not `Fn`; a const lambda is
      `Fn`. */
  lemma Lambdas(params: seq<Type>, result: Type, sig: Signature)
    requires params == sig.args && ValidReturnType(result, sig.result)
    ensures FnMut(Callable({Unqualified}, params, result), sig)
    ensures !Fn(Callable({Unqualified}, params, result), sig)
    ensures Fn(Callable({Const}, params, result), sig)
  {
    assert Binds(Unqualified, Lvalue) && Binds(Unqualified, Rvalue);
    assert Binds(Const, ConstLvalue) && Binds(Const, Lvalue) && Binds(Const, Rvalue);
  }

  /** `Anything` accepts every return type, `void` included; `NonVoid` accepts every return
      type except `void`. */
  lemma Markers(t: Type)
    ensures ValidReturnType(t, Anything)
    ensures ValidReturnType(t, NonVoid) <==> t != Void
    ensures ValidReturnType(t, Exactly(t))
  {
  }

  /** Only the markers let a callable returning `void` meet a signature; `NonVoid` refuses
      it whatever the qualifiers. */
  lemma VoidReturning(quals: set<Qualifier>, params: seq<Type>)
    ensures !FnOnce(Callable(quals, params, Void), Signature(NonVoid, params))
    ensures Unqualified in quals ==> FnMut(Callable(quals, params, Void), Signature(Anything, params))
  {
    if Unqualified in quals {
      assert Binds(Unqualified, Lvalue) && Binds(Unqualified, Rvalue);
    }
  }

  // The examples of the documentation, with signature `i32(Option<i32>)`.

  const I32 := Named("i32")
  const OptionI32 := Named("Option<i32>")
  const I32OfOption := Signature(Exactly(I32), [OptionI32])

  function UnwrapOrDefault(o: Option<int>): int
  {
    if o.IsSome() then o.value else 0
  }

  /** `call_once(f)`: moves `f` and calls it once with `some(400)`. */
  function CallOnce(f: Option<int> -> int): int
  {
    f(Some(400))
  }

  /** `call_fn(f)`: calls the const `f` with `some(400)` and with `some(100)` and adds. */
  function CallFn(f: Option<int> -> int): int
  {
    f(Some(400)) + f(Some(100))
  }

  /** `call_mut(f)`: calls `f` with `some(400)` and with `some(100)` and adds. A `FnMut`
      carries state `s` that each call may change; C++ leaves the order of the two calls
      unspecified, so `leftFirst` picks it. */
  function CallMut<S>(call: (S, Option<int>) -> (S, int), s: S, leftFirst: bool): int
  {
    if leftFirst then
      var first := call(s, Some(400));
      var second := call(first.0, Some(100));
      first.1 + second.1
    else
      var second := call(s, Some(100));
      var first := call(second.0, Some(400));
      first.1 + second.1
  }

  /** The example's mutable lambda `[i = 0](o) mutable { i += 1; return unwrap_or_default(o) + i; }`. */
  function Counter(i: int, o: Option<int>): (r: (int, int))
  {
    (i + 1, UnwrapOrDefault(o) + i + 1)
  }

  /** The `FnOnce` example: a const lambda adding 4 is `FnOnce` of `i32(Option<i32>)`, and
      `call_once` on it returns 404. */
  lemma CallOnceExample()
    ensures FnOnce(Callable({Const}, [OptionI32], I32), I32OfOption)
    ensures CallOnce(o => UnwrapOrDefault(o) + 4) == 400 + 4
  {
    Lambdas([OptionI32], I32, I32OfOption);
  }

  /** The `FnMut` example: the counting lambda is `FnMut` (not `Fn`), and `call_mut` on it
      returns 401 + 102 whichever call runs first. */
  lemma CallMutExample()
    ensures FnMut(Callable({Unqualified}, [OptionI32], I32), I32OfOption)
    ensures !Fn(Callable({Unqualified}, [OptionI32], I32), I32OfOption)
    ensures CallMut(Counter, 0, true) == 401 + 102
    ensures CallMut(Counter, 0, false) == 401 + 102
  {
    Lambdas([OptionI32], I32, I32OfOption);
  }

  /** The counting lambda gives `call_mut` the same result in either call order, from any
      starting count. */
  lemma CallMutOrderIrrelevant(i: int)
    ensures CallMut(Counter, i, true) == CallMut(Counter, i, false) == 503 + 2 * i
  {
  }

  /** The `Fn` example: the lambda capturing `i = 1` is `Fn`, and `call_fn` on it returns
      401 + 101. */
  lemma CallFnExample()
    ensures Fn(Callable({Const}, [OptionI32], I32), I32OfOption)
    ensures CallFn(o => UnwrapOrDefault(o) + 1) == 401 + 101
  {
    Lambdas([OptionI32], I32, I32OfOption);
  }

  /** A stateless `Fn` passed where a `FnMut` is expected behaves as under `call_fn`, in
      either call order. */
  lemma FnUsedAsFnMut<S>(f: Option<int> -> int, s: S)
    ensures CallMut((t: S, o: Option<int>) => (t, f(o)), s, true) == CallFn(f)
    ensures CallMut((t: S, o: Option<int>) => (t, f(o)), s, false) == CallFn(f)
  {
  }
}
