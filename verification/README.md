# subspace runtime core in Dafny

A model of the ownership-safe containers and the pull-based iteration layer of the
subspace C++ library (`sus::`), plus two small pieces of pure logic from its tooling.
Everything is stated as immutable datatypes and pure state-transition functions; the
properties are proved by Dafny's verifier.

- `Option<T>` (`options.dfy`) is a datatype with the two states `None` and `Some`.
  - A failed `check` ends the process. Here it becomes an `Outcome.Abort(message)` (`fatal.dfy`), so the contracts can say exactly when it happens.
  - Destroying a value appends it to a log of destroyed values. `option_ownership.dfy` runs whole programs of `some`, `take`, `clear`, `unwrap`, `expect` and destructor calls. Over any such program it proves that every value is destroyed at most once, and exactly once if the program ends holding nothing. The bookkeeping lives in `ledger.dfy`.
- `Slice<T>` (`slices.dfy`) is a machine address, the borrowed elements from that address on, and a length.
  - `get`/`get_mut` return `Option`, and `operator[]` aborts past the end.
  - A reference is an address, so assigning through `get_mut` can be stated and checked.
- `SliceIter`/`SliceIterMut` (`slice_iters.dfy`) are the iterator's two pointers over that memory. Addresses count in elements, not bytes, so the model's address arithmetic wraps after 2^64 elements where the machine's wraps after 2^64 bytes.
- `iterators.dfy` holds the iterator used in place of an arbitrary `sus::iter` iterator: a sequence with front and back cursors.
  - `iterator_fns.dfy` holds `all`, `any`, `count` and the range-for adaptor `IteratorLoop`.
  - `sized_iterators.dfy` holds the type-erased `SizedIterator` box. Its buffer is modelled as the iterator it holds, and its four function pointers as presence flags.
  - `sized_iterator_ownership.dfy` proves destroy-at-most-once over programs of boxes that are made, moved, move-assigned and dropped.
  - `enumerates.dfy` holds the `Enumerate` adaptor.
- `relocation.dfy` holds the relocation classifier `relocate_one_by_memcpy` / `relocate_array_by_memcpy`.
  - Its implementation is not part of this model.
  - The predicate is rebuilt from the truth table its unit test asserts. The compiler's `trivially_relocatable` extension is a parameter.
- `fn_concepts.dfy` holds the concepts `FnOnce`, `FnMut` and `Fn` over a descriptor of a callable type: the qualifiers of its `operator()` overloads, its parameter types and its return type.
  - It also holds the return markers `NonVoid` and `Anything` and the documentation's three examples.
- `visit.dfy` holds the id allocator of the IR extractor's `VisitCtx`.

Undefined behaviour in the source is a precondition in the model: `unwrap_unchecked` on `None`, an invalid `from_raw_parts`, or calling a null function pointer. A checked failure is an `Abort` result.

## Model

| member | source | states |
|---|---|---|
| Options.StateQueries | option/option.h:77-79 | `some(t)` is some and not none, `none()` is none and not some, and in every state `is_some() == !is_none()` |
| Options.WithDefault | option/option.h:53-57 | `with_default()` holds `Some` of the default-constructed value |
| Options.Drop | option/option.h:62-64 | the destructor destroys exactly the held value, if any; nothing destroyed before is touched |
| Options.Clear | option/option.h:69-71 | `clear()` always ends `None` and destroys the held value exactly when the option was `Some`; earlier destructions stay in the log as they were |
| Options.Take | option/option.h:136-140 | `take()` returns what the option held and leaves it `None`; a `None` option stays `None` |
| Options.UnwrapUnchecked | option/option.h:124-128 | only defined on `Some`; returns the held value |
| Options.Expect | option/option.h:103-107 | succeeds exactly on `Some`, with the held value; on `None` aborts with the caller's message |
| Options.Unwrap | option/option.h:112-115 | succeeds exactly on `Some`, with the held value; on `None` aborts without a message |
| Options.UnwrapRoundTrip | option/option.h:103-128 | `some(v).unwrap() == v`, `some(v).expect(m) == v`, `with_default` round-trips, and both abort on `None` |
| Options.TakeThenClearIsClear | option/option.h:136-140 | `take` moves the value and the log records no destruction for it: clearing the taken option logs what clearing the original would, and the emptied source logs nothing |
| OptionOwnership.TakeInto | option/option.h:136-140 | taking into a new option keeps every created value accounted for |
| OptionOwnership.ClearIn | option/option.h:69-71 | clearing an option moves its value, if any, from owned to destroyed |
| OptionOwnership.MoveToLocal | option/option.h:124-128 | moving the value out leaves the option `None` and the value owned by the caller |
| OptionOwnership.DropOptionIn | option/option.h:62-64 | an option going out of scope moves its value, if any, from owned to destroyed |
| OptionOwnership.Step | option/option.h:62-140 | one statement aborts exactly when it unwraps or expects a `None`; otherwise every created value stays owned, held by the caller, or destroyed |
| OptionOwnership.Run | option/option.h:62-140 | the accounting holds after any program |
| OptionOwnership.DestroyedAtMostOnce | option/option.h:62-71 | over any program, no value is destroyed more often than `some` created it |
| OptionOwnership.DestroyedExactlyOnceAtEnd | option/option.h:62-64 | a program that ends holding nothing has destroyed every created value exactly once |
| Slices.FromRawParts | containers/slice.h:38-40 | the slice views the given elements; `len()` and `as_ptr()` return the construction values |
| Slices.From | containers/slice.h:43-46 | a slice over an array of `N` elements has length `N` and views that array |
| Slices.Len | containers/slice.h:49 | `len()` is the number of elements the slice views |
| Slices.Get | containers/slice.h:52-57 | `Some(data[i])` exactly when `i < len`, otherwise `None` |
| Slices.GetMut | containers/slice.h:61-68 | only for non-const elements; `Some` of a reference to element `i` exactly when `i < len` |
| Slices.Index | containers/slice.h:70-73 | aborts exactly when `i >= len`; otherwise returns element `i` |
| Slices.IndexMut | containers/slice.h:76-79 | aborts exactly when `i >= len`; otherwise a reference to element `i` |
| Slices.AsPtr | containers/slice.h:82 | `as_ptr()` is the address of the first element, and element `i` sits at `as_ptr() + i` |
| Slices.AsPtrMut | containers/slice.h:86-90 | `as_ptr_mut()` exists only for non-const elements and returns the same address as `as_ptr()` |
| Slices.GetAgreesWithIndex | containers/slice.h:52-79 | `get` is `Some(x)` exactly when `[]` returns `x` instead of aborting, for both the const and the mutable pair |
| Slices.GetOverArray | containers/slice.h:43-57 | over an array of `N` elements, `get(i)` is `Some(arr[i])` below `N` and `None` from `N` on |
| Slices.AsPtrRoundTrip | containers/slice.h:82-90 | `as_ptr` and `as_ptr_mut` return the pointer the slice was built from |
| Slices.StoreThroughGetMut | containers/slice.h:61-68 | assigning through `get_mut(i)` changes element `i` to the assigned value and no other element |
| SliceIters.CheckAcceptsFittingRanges | containers/slice_iter.h:51 | the intended check accepts a range exactly when it ends at or below the top of the address space, with `end` wrapping to 0 at most |
| SliceIters.CheckAsWrittenRefusesEmpty | containers/slice_iter.h:51 | the check as written accepts exactly the fitting ranges that are non-empty or start at null |
| SliceIters.NewAsWritten | containers/slice_iter.h:49-52 | the constructor as written aborts exactly when its check fails; otherwise it iterates the slice's elements |
| SliceIters.EmptySliceAbortsAsWritten | containers/slice_iter.h:49-52 | an empty slice at a non-null address makes the constructor as written abort |
| SliceIters.New | containers/slice_iter.h:49-52 | with the intended check, every valid slice can be iterated, and the iterator's items are its elements |
| SliceIters.NewMut | containers/slice_iter.h:76-79 | the same, through `as_ptr_mut`, for non-const elements |
| SliceIters.Next | containers/slice_iter.h:39-46 | `None` exactly when `ptr == end`, with the iterator unchanged; otherwise the element at `ptr`, with `ptr` advanced by one |
| SliceIters.NextMut | containers/slice_iter.h:66-73 | the same cursor movement, handing out a reference to the element at `ptr` |
| SliceIters.Drain | containers/slice_iter.h:39-46 | pulling until `None` yields exactly the remaining elements, in order |
| SliceIters.DrainMut | containers/slice_iter.h:66-73 | pulling until `None` yields one reference per remaining element, at consecutive positions |
| SliceIters.YieldsSliceInOrder | containers/slice_iter.h:39-52 | over a slice of `N` elements the iterator yields `data[0..N)` in order, exactly `N` items |
| SliceIters.YieldsReferencesInOrder | containers/slice_iter.h:66-79 | the `k`-th reference the mutable iterator yields is `get_mut(k)` and designates element `k` |
| SliceIters.NoneIsFinal | containers/slice_iter.h:40-41 | after the first `None`, every later `next()` returns `None` |
| SliceIters.NoneForever | containers/slice_iter.h:40-41 | an iterator with `ptr == end` returns `None` on every call |
| IteratorFns.All | traits/iter/iterator_fns.h:59-69 | true exactly when `f` holds for every remaining item; on false it has consumed up to and including the first failing item |
| IteratorFns.Any | traits/iter/iterator_fns.h:71-81 | true exactly when `f` holds for some remaining item; on true it has consumed up to and including the first satisfying item |
| IteratorFns.Count | traits/iter/iterator_fns.h:83-92 | the number of items before the first `None`; the iterator is exhausted afterwards |
| IteratorFns.AllAnyDual | traits/iter/iterator_fns.h:59-81 | `all(f) == !any(!f)`, and both stop at the same item |
| IteratorFns.Begin | traits/iter/iterator_fns.h:37 | the loop pre-fetches the first item: `None` exactly when the iterator is empty |
| IteratorFns.AtEnd | traits/iter/iterator_fns.h:39 | the loop's `operator==` against the end marker: no item is fetched |
| IteratorFns.NotAtEnd | traits/iter/iterator_fns.h:40 | the loop's `operator!=` against the end marker: an item is fetched |
| IteratorFns.Advance | traits/iter/iterator_fns.h:41 | `++` fetches the next item |
| IteratorFns.Deref | traits/iter/iterator_fns.h:42 | `*` takes the fetched item, leaving `None`; it aborts when there is none |
| IteratorFns.EndComparisonsDisagree | traits/iter/iterator_fns.h:39-40 | `== end` holds exactly when `!= end` does not, i.e. when the fetched item is `None` |
| IteratorFns.RangeFor | traits/iter/iterator_fns.h:33-57 | a range-based `for` loop visits exactly the remaining items, in order |
| SizedIterators.BoxIsRelocatable | subspace/iter/sized_iterator.h:90-91 | the box is relocatable by copy, though its move constructor and destructor are user-written |
| SizedIterators.Make | subspace/iter/sized_iterator.h:109-145 | only for a final iterator type that is relocatable by copy; the box owns the iterator, and `next_back`/`exact_size_hint` are set exactly when the type has them |
| SizedIterators.MoveConstruct | subspace/iter/sized_iterator.h:42-50 | the new box takes over all four entries and the buffer; the source's entries are null and it owns nothing |
| SizedIterators.Drop | subspace/iter/sized_iterator.h:61-63 | the destructor destroys exactly what the box owns; with a null `destroy` it destroys nothing |
| SizedIterators.MoveAssign | subspace/iter/sized_iterator.h:51-59 | move assignment first destroys what the destination owned, then the destination owns what the source owned and the source's entries are null |
| SizedIterators.Next | subspace/iter/sized_iterator.h:65 | `next()` is the wrapped iterator's `next()` |
| SizedIterators.NextBack | subspace/iter/sized_iterator.h:66-70 | `next_back()` exists only for a `DoubleEnded` box and is the wrapped iterator's |
| SizedIterators.ExactSizeHint | subspace/iter/sized_iterator.h:71-75 | `exact_size_hint()` exists only for an `ExactSize` box and counts the wrapped iterator's remaining items |
| SizedIterators.BoxedYieldsSame | subspace/iter/sized_iterator.h:121-123 | pulling through the box yields the same items, in order, as pulling from the iterator itself |
| SizedIterators.MakeThenDrain | subspace/iter/sized_iterator.h:109-145 | boxing an iterator over `s` and draining the box yields `s` |
| SizedIteratorOwnership.MakeIn | subspace/iter/sized_iterator.h:109-145 | boxing an iterator makes the new box its only owner |
| SizedIteratorOwnership.MoveOutIn | subspace/iter/sized_iterator.h:42-50 | move-constructing a box transfers ownership without destroying or duplicating anything |
| SizedIteratorOwnership.AssignIn | subspace/iter/sized_iterator.h:51-59 | move-assigning between two boxes destroys exactly the destination's old iterator and transfers the source's |
| SizedIteratorOwnership.DropIn | subspace/iter/sized_iterator.h:61-63 | a box going out of scope moves what it owns from owned to destroyed |
| SizedIteratorOwnership.Step | subspace/iter/sized_iterator.h:42-63 | every statement keeps each boxed iterator either owned by exactly one box or destroyed |
| SizedIteratorOwnership.Run | subspace/iter/sized_iterator.h:42-63 | that accounting holds after any program |
| SizedIteratorOwnership.DestroyedAtMostOnce | subspace/iter/sized_iterator.h:42-63 | no boxed iterator is destroyed more often than it was boxed |
| SizedIteratorOwnership.DestroyedExactlyOnceAtEnd | subspace/iter/sized_iterator.h:61-63 | once no box owns anything, every boxed iterator has been destroyed exactly once |
| SizedIteratorOwnership.SelfMoveAssignAsWritten | subspace/iter/sized_iterator.h:51-59 | move assignment as written, applied to a box and itself, destroys the held iterator but keeps the entries that claim ownership of it |
| SizedIteratorOwnership.SelfMoveAssignDestroysTwice | subspace/iter/sized_iterator.h:51-63 | with that, `it = move(it)` followed by the destructor destroys the boxed iterator twice |
| Enumerates.With | subspace/iter/enumerate.h:37-39 | the count starts at 0 and the adaptor yields what the wrapped box yields |
| Enumerates.Next | subspace/iter/enumerate.h:42-52 | `None` with the count unchanged once the inner iterator is exhausted; otherwise `(count, item)`, and the count grows by exactly 1 |
| Enumerates.NextBack | subspace/iter/enumerate.h:55-69 | only for a `DoubleEnded` and `ExactSize` box; `(count + remaining after the pop, back item)`, with the count unchanged |
| Enumerates.ExactSizeHint | subspace/iter/enumerate.h:72-76 | the inner iterator's hint: the number of items remaining |
| Enumerates.WithOverIsAligned | subspace/iter/enumerate.h:37-39 | a fresh enumeration of `s` starts aligned with `s` |
| Enumerates.CountWithinLength | subspace/iter/enumerate.h:45-50 | the count is the number of items taken from the front, so it never exceeds the sequence length |
| Enumerates.NextReportsPosition | subspace/iter/enumerate.h:42-52 | `next()` reports the front item with its position in the original sequence |
| Enumerates.NextBackReportsPosition | subspace/iter/enumerate.h:55-69 | `next_back()` reports the back item with its position in the original sequence |
| Enumerates.IndicesArePositions | subspace/iter/enumerate.h:42-69 | for any interleaving of `next`/`next_back`, every reported index is the item's position in the original sequence; indices are distinct; one pair is reported per call until the items run out |
| Enumerates.ThreeItemExample | subspace/iter/enumerate.h:42-69 | `[a, b, c]` gives `(0,a),(1,b),(2,c)` forwards and `(2,c),(1,b),(0,a)` backwards |
| Enumerates.IndexFitsLength | subspace/iter/enumerate.h:63-66 | every reported index is below the sequence length, so the `usize` sum cannot overflow |
| Relocation.RelocateOneByMemcpy | mem/relocate_unittest.cc:22-83 | a volatile type is never relocatable; otherwise a declared value decides; otherwise a type whose move and destructor run no user code is relocatable |
| Relocation.ExtensionOnlyAdds | mem/relocate_unittest.cc:57-67 | the compiler's `trivially_relocatable` extension never makes a type non-relocatable, and changes the answer exactly for undeclared, non-volatile `trivial_abi` types with user-written members |
| Relocation.ScalarsAndEmptyStructs | mem/relocate_unittest.cc:22-29 | `int`, `char` and an empty struct are relocatable |
| Relocation.VolatileNever | mem/relocate_unittest.cc:33-34 | a volatile type is never relocatable |
| Relocation.DefaultedMembers | mem/relocate_unittest.cc:36-55 | defaulted move and destructor: relocatable; a user destructor or a user move constructor: not |
| Relocation.TrivialAbiFollowsExtension | mem/relocate_unittest.cc:57-67 | a `trivial_abi` type with user members is relocatable exactly when the compiler has the extension |
| Relocation.DeclarationDecides | mem/relocate_unittest.cc:69-83 | an explicit declaration decides over the structural rule and `trivial_abi`: `G` is relocatable, `H` is not |
| FnConcepts.Lattice | subspace/fn/fn_concepts.h:172-256 | every `Fn` is a `FnMut` and every `FnMut` is a `FnOnce` |
| FnConcepts.ValidReturnType | subspace/fn/fn_concepts.h:22-36 | the return-type test of the concepts: `Anything` accepts every type, `NonVoid` every type but `void`, a concrete type only itself |
| FnConcepts.FnOnce | subspace/fn/fn_concepts.h:99-107 | `FnOnce<F, S>`: `F` invoked as an rvalue with `S`'s arguments returns a type `S`'s return type accepts |
| FnConcepts.FnMut | subspace/fn/fn_concepts.h:172-181 | `FnMut<F, S>`: the same, invoked as a mutable lvalue, and also `FnOnce` |
| FnConcepts.Fn | subspace/fn/fn_concepts.h:245-256 | `Fn<F, S>`: the same, invoked as a const lvalue, and also `FnMut` and `FnOnce` |
| FnConcepts.FnIsConstInvocable | subspace/fn/fn_concepts.h:245-256 | `Fn`'s own requirement, callable as const, already implies its `FnMut` and `FnOnce` requirements |
| FnConcepts.FnOnceByQualifiers | subspace/fn/fn_concepts.h:44-48 | `FnOnce` holds exactly when some `operator()` is not `&`-qualified |
| FnConcepts.FnMutByQualifiers | subspace/fn/fn_concepts.h:119-123 | `FnMut` holds exactly when some `operator()` is not `&&`/`const &&`-qualified and some is not `&`-qualified |
| FnConcepts.FnByQualifiers | subspace/fn/fn_concepts.h:208-211 | `Fn` holds exactly when some `operator()` is `const` or `const &` |
| FnConcepts.RefQualifiedOnly | subspace/fn/fn_concepts.h:44-48 | an `&&`-only callable is `FnOnce` but not `FnMut`; an `&`-only callable is neither |
| FnConcepts.Lambdas | subspace/fn/fn_concepts.h:119-123 | a mutable lambda is `FnMut` but not `Fn`; a const lambda is `Fn` |
| FnConcepts.Markers | subspace/fn/fn_concepts.h:22-36 | `Anything` accepts every return type including `void`; `NonVoid` every type except `void` |
| FnConcepts.VoidReturning | subspace/fn/fn_concepts.h:22-28 | a `void`-returning callable never meets a `NonVoid` signature, but meets an `Anything` one |
| FnConcepts.CallOnceExample | subspace/fn/fn_concepts.h:86-98 | the documented lambda is `FnOnce` of `i32(Option<i32>)` and `call_once` returns 404 |
| FnConcepts.CallMutExample | subspace/fn/fn_concepts.h:158-171 | the counting lambda is `FnMut` but not `Fn`, and `call_mut` returns 401 + 102 |
| FnConcepts.CallMutOrderIrrelevant | subspace/fn/fn_concepts.h:162-164 | the result of `call_mut` does not depend on the unspecified order of its two calls |
| FnConcepts.CallFnExample | subspace/fn/fn_concepts.h:232-244 | the capturing lambda is `Fn`, and `call_fn` returns 401 + 101 |
| FnConcepts.FnUsedAsFnMut | subspace/fn/fn_concepts.h:216-221 | a stateless `Fn` used where a `FnMut` is expected gives the same result in either call order |
| Visit.New | cir/lib/visit.h:46-47 | both counters start at 0 |
| Visit.Increment | cir/lib/visit.h:32 | the checked `u32` increment aborts exactly when the result would not fit |
| Visit.MakeFunctionId | cir/lib/visit.h:30-34 | returns the current function counter, increments it by exactly 1, and leaves the local-variable counter alone; aborts at the top of the `u32` range |
| Visit.MakeLocalVarId | cir/lib/visit.h:36-40 | returns the current local-variable counter, increments it by exactly 1, and leaves the function counter alone; aborts at the top of the `u32` range |
| Visit.Draw | cir/lib/visit.h:30-40 | either request hands out its own counter's value and moves only that counter on |
| Visit.Issue | cir/lib/visit.h:30-47 | a run of requests aborts exactly when some counter would pass the `u32` range; otherwise each counter moves on by its number of requests, and each id lies between its counter's values before and after |
| Visit.IdsIncrease | cir/lib/visit.h:30-40 | ids from the same counter strictly increase along any run of requests |
| Visit.IdsNeverRepeat | cir/lib/visit.h:30-40 | no id is handed out twice by the same counter |
| Visit.FreshIdsCountFromZero | cir/lib/visit.h:30-47 | from a fresh context, the `k`-th function id is `k` |
| Visit.FreshIdsAreIndices | cir/lib/visit.h:30-47 | drawing only function ids from a fresh context, the id answering request `k` is `k` |

## Left out

- Byte-level layout is not modelled: `reinterpret_cast`, `alignas`, `copy_nonoverlapping` into the `SizedIterator` buffer, and placement-new. The buffer is the iterator it holds.
- The never-value/niche layout declarations of `Slice` and `Option` are not modelled. They only affect layout.
- `Option`'s `operator State()` conversion is not modelled. It is the state query, already covered by `is_some`/`is_none`.
- The deleted rvalue overloads of `Slice` (`get`, `operator[]`, `as_ptr` on `&&`) are not modelled. They only remove calls at compile time.
- `Iterator::filter` is not modelled. `Filter` and `std::function` are not part of this model.
- The `Fn` boxes (`fn_box_storage.h`) and the `Result` marker glue (`marker.h`) are not modelled. They are type-erasure plumbing around code that is not part of this model.
- The subdoc and cir test harnesses, `friendly_names.h`, `generate_namespace.h` and `addressof_unittest.cc` are not modelled. They drive the clang frontend or test pointer identity.
- `visit_decl` and the `in_functions` stack of `VisitCtx` are not modelled. The body of `visit_decl` is not part of this model, and the stack has no operations here.
- `u32` and `usize` are bounded naturals. Their arithmetic is checked.
- The overflow panic's message is not known. `Visit.Increment` aborts with the empty message, as a `check` without a message does.
- IteratorFns.Count: returns a `nat` where the source has a `size_t`. The count is at most the number of items, so it cannot wrap.
- Enumerates.Next: the count is an unbounded `nat`, where the source has a `usize` with a checked `+= 1`. `Enumerates.IndexFitsLength` proves that every reported index is below the sequence length, and `Enumerates.CountWithinLength` that the count never exceeds it, so the check never fires on an in-memory sequence.
- Relocation.RelocateArrayByMemcpy: defined equal to the one-value variant, so the model states nothing of its own about it. The definitions of both classifiers (mem/relocate.h) are not part of this model; the unit test asserts the same answer for both on every type it names, and any tail-padding condition the array variant may add is not modelled.
- FnConcepts.Invokes: argument passing and return-type acceptance use type identity only. Implicit conversions between types are not modelled.
- FnConcepts.Invokes: each callable is one set of `operator()` overloads sharing one signature, and overload resolution is not modelled.
- OptionOwnership.Step: the destroyed log records logical values. A move is a relocation of the value, and destructor runs on moved-from storage are not recorded: the `~T()` that `take` runs on its moved-from member through `take_and_destruct` (option/option.h:138) is not logged, and neither is the missing `~T()` on the member `unwrap_unchecked` moves from (option/option.h:124-127), which would leak for a type whose moved-from state still owns resources.
- SizedIteratorOwnership.Step: `next`, `next_back` and `exact_size_hint` calls are not part of the programs. They change the iterator inside a box but never ownership.
- SizedIteratorOwnership.Step: models self-move-assignment as a no-op. That is the evidently intended behaviour (see Findings).
- The source's move assignment also lacks `return *this`. The model returns the assigned box.
- `SliceIter` and `SliceIterMut` declare their pointers with the undeclared name `T` (containers/slice_iter.h:55-56 and 82-83). This is read as the element type `Item`.
- `SliceIterMut` calls `as_ptr_ptr` (containers/slice_iter.h:77). This is read as `as_ptr_mut`.
- `SliceIterMut` derives from `IteratorBase<const Item&>` (containers/slice_iter.h:60) while its `next` returns `Option<Item&>` (line 66). The model follows `next` and hands out mutable references.
- `IteratorLoop::operator==` calls `is_nome`. This is read as `is_none`.

## Findings

| source | as written | input that shows it | evidently intended | confidence | as-written member | corrected member |
|---|---|---|---|---|---|---|
| containers/slice_iter.h:51 | the constructor checks that `end_ > ptr_` or `end_` is null, which fails when `end_ == ptr_` | an empty slice at a non-null address: `from_raw_parts(p, 0)` with `p != nullptr` | `end_ >= ptr_` or `end_` null: any range that does not run past the top of the address space, empty ones included | medium, not executed | SliceIters.NewAsWritten | SliceIters.New |
| subspace/iter/sized_iterator.h:51-59 | move assignment destroys the held iterator, then takes the source's entries; with `o` being `*this` it takes back its own non-null `destroy` entry | `it = std::move(it)` on a box holding an iterator, then the box's destructor | self-assignment leaves the box unchanged (or no destroy before the take-over) | low, not executed | SizedIteratorOwnership.SelfMoveAssignAsWritten | SizedIteratorOwnership.Step |
