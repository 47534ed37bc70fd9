/** The identifier allocator of the IR extractor's `VisitCtx`: two independent counters, one
    for function ids and one for local variable ids, each handing out its current value
    and moving on by one. The counters are `u32` with checked arithmetic, so the increment
    that would leave the `u32` range aborts instead of wrapping. */
module Visit {
  import opened Fatal

  /** `syntax::FunctionId`. */
  datatype FunctionId = FunctionId(id: u32)

  /** The private counters of `VisitCtx` (the `in_functions` stack is not modelled). */
  datatype VisitCtx = VisitCtx(nextFunctionId: u32, nextLocalVarId: u32)

  /** A fresh context: both counters start at zero. */
  function New(): (ctx: VisitCtx)
    ensures ctx.nextFunctionId == 0 && ctx.nextLocalVarId == 0
  {
    VisitCtx(0, 0)
  }

  /** `u32 += 1`: aborts on overflow. */
  function Increment(x: u32): (r: Outcome<u32>)
    ensures r.Ok? <==> x + 1 < U32_BOUND
    ensures r.Ok? ==> r.value == x + 1
  {
    if x == U32_BOUND - 1 then Abort("") else Ok(x + 1)
  }

  /** `make_function_id()`: the current function counter as an id; the function counter
      moves on by one and the local variable counter is left alone. */
  function MakeFunctionId(ctx: VisitCtx): (r: Outcome<(FunctionId, VisitCtx)>)
    ensures r.Ok? <==> ctx.nextFunctionId < U32_BOUND - 1
    ensures r.Ok? ==> r.value.0.id == ctx.nextFunctionId
    ensures r.Ok? ==> r.value.1.nextFunctionId == ctx.nextFunctionId + 1
    ensures r.Ok? ==> r.value.1.nextLocalVarId == ctx.nextLocalVarId
  {
    var id := ctx.nextFunctionId;
    match Increment(ctx.nextFunctionId)
    case Abort(msg) => Abort(msg)
    case Ok(next) => Ok((FunctionId(id), ctx.(nextFunctionId := next)))
  }

  /** `make_local_var_id()`: the current local variable counter; that counter moves on by
      one and the function counter is left alone. */
  function MakeLocalVarId(ctx: VisitCtx): (r: Outcome<(u32, VisitCtx)>)
    ensures r.Ok? <==> ctx.nextLocalVarId < U32_BOUND - 1
    ensures r.Ok? ==> r.value.0 == ctx.nextLocalVarId
    ensures r.Ok? ==> r.value.1.nextLocalVarId == ctx.nextLocalVarId + 1
    ensures r.Ok? ==> r.value.1.nextFunctionId == ctx.nextFunctionId
  {
    var id := ctx.nextLocalVarId;
    match Increment(ctx.nextLocalVarId)
    case Abort(msg) => Abort(msg)
    case Ok(next) => Ok((id, ctx.(nextLocalVarId := next)))
  }

  /** Which counter a request draws from. */
  datatype IdKind = FunctionKind | LocalVarKind

  /** How many of `reqs` draw from counter `kind`. */
  function Count(reqs: seq<IdKind>, kind: IdKind): (n: nat)
    ensures n <= |reqs|
  {
    if |reqs| == 0 then 0 else (if reqs[0] == kind then 1 else 0) + Count(reqs[1..], kind)
  }

  /** The counter of `ctx` that `kind` draws from. */
  function Counter(ctx: VisitCtx, kind: IdKind): u32
  {
    if kind == FunctionKind then ctx.nextFunctionId else ctx.nextLocalVarId
  }

  /** One request: `make_function_id()` or `make_local_var_id()`, by `kind`. */
  function Draw(ctx: VisitCtx, kind: IdKind): (r: Outcome<(u32, VisitCtx)>)
    ensures r.Ok? <==> Counter(ctx, kind) < U32_BOUND - 1
    ensures r.Ok? ==> r.value.0 == Counter(ctx, kind)
    ensures r.Ok? ==> forall other ::
      Counter(r.value.1, other) == Counter(ctx, other) + (if other == kind then 1 else 0)
  {
    if kind == FunctionKind then
      (match MakeFunctionId(ctx)
       case Abort(msg) => Abort(msg)
       case Ok(made) => Ok((made.0.id, made.1)))
    else MakeLocalVarId(ctx)
  }

  /** Serves `reqs` in order, returning every id handed out and the context afterwards.
      It aborts exactly when some counter would have to pass the largest `u32`; otherwise
      each counter has moved on by the number of requests drawn from it, and every id lies
      between its counter's values before and after. */
  function Issue(ctx: VisitCtx, reqs: seq<IdKind>): (r: Outcome<(seq<u32>, VisitCtx)>)
    ensures r.Ok? <==>
      Counter(ctx, FunctionKind) + Count(reqs, FunctionKind) < U32_BOUND
      && Counter(ctx, LocalVarKind) + Count(reqs, LocalVarKind) < U32_BOUND
    ensures r.Ok? ==> |r.value.0| == |reqs|
    ensures r.Ok? ==> forall kind ::
      Counter(r.value.1, kind) == Counter(ctx, kind) + Count(reqs, kind)
    ensures r.Ok? ==> forall k :: 0 <= k < |reqs| ==>
      Counter(ctx, reqs[k]) <= r.value.0[k] < Counter(r.value.1, reqs[k])
    decreases |reqs|
  {
    if |reqs| == 0 then Ok(([], ctx))
    else
      match Draw(ctx, reqs[0])
      case Abort(msg) => Abort(msg)
      case Ok(made) =>
        match Issue(made.1, reqs[1..])
        case Abort(msg) => Abort(msg)
        case Ok(rest) => Ok(([made.0] + rest.0, rest.1))
  }

  /** Ids answering requests of one kind strictly increase along `reqs`. */
  predicate IncreasingPerKind(ids: seq<u32>, reqs: seq<IdKind>)
    requires |ids| == |reqs|
  {
    forall k, l :: 0 <= k < l < |reqs| && reqs[k] == reqs[l] ==> ids[k] < ids[l]
  }

  lemma PrependIncreasing(id: u32, kind: IdKind, ids: seq<u32>, reqs: seq<IdKind>)
    requires |ids| == |reqs| && IncreasingPerKind(ids, reqs)
    requires forall j :: 0 <= j < |reqs| && reqs[j] == kind ==> id < ids[j]
    ensures IncreasingPerKind([id] + ids, [kind] + reqs)
  {
    var ids', reqs' := [id] + ids, [kind] + reqs;
    forall k, l | 0 <= k < l < |reqs'| && reqs'[k] == reqs'[l]
      ensures ids'[k] < ids'[l]
    {
      if k > 0 {
        assert ids'[k] == ids[k - 1] && ids'[l] == ids[l - 1];
      }
    }
  }

  /** A successful run of requests is its first draw followed by the run of the rest. */
  lemma IssueCons(ctx: VisitCtx, reqs: seq<IdKind>)
    requires |reqs| > 0 && Issue(ctx, reqs).Ok?
    ensures Draw(ctx, reqs[0]).Ok?
    ensures var made := Draw(ctx, reqs[0]).value;
      && Issue(made.1, reqs[1..]).Ok?
      && Issue(ctx, reqs).value.0 == [made.0] + Issue(made.1, reqs[1..]).value.0
  {
  }

  /** Ids drawn from one counter strictly increase, so none is handed out twice. */
  lemma {:induction false} IdsIncrease(ctx: VisitCtx, reqs: seq<IdKind>)
    requires Issue(ctx, reqs).Ok?
    ensures IncreasingPerKind(Issue(ctx, reqs).value.0, reqs)
    decreases |reqs|
  {
    if |reqs| > 0 {
      IssueCons(ctx, reqs);
      var made := Draw(ctx, reqs[0]).value;
      var rest := Issue(made.1, reqs[1..]).value;
      IdsIncrease(made.1, reqs[1..]);
      assert Counter(made.1, reqs[0]) == made.0 + 1;
      assert reqs == [reqs[0]] + reqs[1..];
      PrependIncreasing(made.0, reqs[0], rest.0, reqs[1..]);
    }
  }

  /** Ids drawn from one counter are never handed out twice. */
  lemma IdsNeverRepeat(ctx: VisitCtx, reqs: seq<IdKind>, k: nat, l: nat)
    requires Issue(ctx, reqs).Ok? && k < l < |reqs| && reqs[k] == reqs[l]
    ensures Issue(ctx, reqs).value.0[k] != Issue(ctx, reqs).value.0[l]
  {
    IdsIncrease(ctx, reqs);
  }

  /** From a fresh context the `n`-th function id is `n`. */
  lemma FreshIdsCountFromZero(n: nat)
    requires n < U32_BOUND
    ensures var reqs := seq(n, _ => FunctionKind);
      && Issue(New(), reqs).Ok?
      && forall k :: 0 <= k < n ==> Issue(New(), reqs).value.0[k] == k
  {
    var reqs := seq(n, _ => FunctionKind);
    CountAll(reqs, FunctionKind);
    CountNone(reqs, LocalVarKind);
    FreshIdsAreIndices(reqs);
  }

  lemma {:induction false} CountAll(reqs: seq<IdKind>, kind: IdKind)
    requires forall k :: 0 <= k < |reqs| ==> reqs[k] == kind
    ensures Count(reqs, kind) == |reqs|
    decreases |reqs|
  {
    if |reqs| > 0 {
      CountAll(reqs[1..], kind);
    }
  }

  lemma {:induction false} CountNone(reqs: seq<IdKind>, kind: IdKind)
    requires forall k :: 0 <= k < |reqs| ==> reqs[k] != kind
    ensures Count(reqs, kind) == 0
    decreases |reqs|
  {
    if |reqs| > 0 {
      CountNone(reqs[1..], kind);
    }
  }

  /** Drawing only function ids from a fresh context, the `k`-th id is `k`. */
  lemma FreshIdsAreIndices(reqs: seq<IdKind>)
    requires forall k :: 0 <= k < |reqs| ==> reqs[k] == FunctionKind
    requires Issue(New(), reqs).Ok?
    ensures forall k :: 0 <= k < |reqs| ==> Issue(New(), reqs).value.0[k] == k
  {
    var r := Issue(New(), reqs).value;
    CountAll(reqs, FunctionKind);
    IdsIncrease(New(), reqs);
    forall k | 0 <= k < |reqs|
      ensures r.0[k] == k
    {
      StrictlyIncreasingFill(r.0, 0, |reqs|, k);
    }
  }

  /** `n` strictly increasing naturals in `[lo, lo + n)` are exactly `lo, lo + 1, ...`. */
  lemma StrictlyIncreasingFill(ids: seq<u32>, lo: nat, hi: nat, k: nat)
    requires |ids| == hi - lo && k < |ids|
    requires forall j :: 0 <= j < |ids| ==> lo <= ids[j] < hi
    requires forall i, j :: 0 <= i < j < |ids| ==> ids[i] < ids[j]
    ensures ids[k] == lo + k
  {
    AboveIndex(ids, lo, k);
    BelowIndex(ids, hi, k);
  }

  lemma {:induction false} AboveIndex(ids: seq<u32>, lo: nat, k: nat)
    requires k < |ids| && forall j :: 0 <= j < |ids| ==> lo <= ids[j]
    requires forall i, j :: 0 <= i < j < |ids| ==> ids[i] < ids[j]
    ensures ids[k] >= lo + k
    decreases k
  {
    if k > 0 {
      AboveIndex(ids, lo, k - 1);
    }
  }

  lemma {:induction false} BelowIndex(ids: seq<u32>, hi: nat, k: nat)
    requires k < |ids| && forall j :: 0 <= j < |ids| ==> ids[j] < hi
    requires forall i, j :: 0 <= i < j < |ids| ==> ids[i] < ids[j]
    ensures ids[k] + (|ids| - k) <= hi
    decreases |ids| - k
  {
    if k < |ids| - 1 {
      BelowIndex(ids, hi, k + 1);
    }
  }
}
