/** The relocation classifier (`relocate_one_by_memcpy<T>` and
    `relocate_array_by_memcpy<T>`): whether a value of `T` may be moved by copying its
    bytes, skipping its move constructor and destructor. Its definition is not part of this
    model; the predicate below is rebuilt from the assertions its unit test makes. */
module Relocation {
  import opened Options

  datatype Kind = Scalar | Class

  /** What the classifier sees of a type: whether it is `volatile`, whether its move
      constructor and destructor are compiler-trivial (defaulted), the value it declares with
      `sus_class_trivial_relocatable_value` if it declares one, and whether it is marked
      `[[sus_trivial_abi]]`. A scalar has a trivial move and destructor whatever the flags
      say. */
  datatype TypeDesc = TypeDesc(
    kind: Kind,
    isVolatile: bool,
    moveCtorTrivial: bool,
    dtorTrivial: bool,
    declared: Option<bool>,
    trivialAbi: bool)

  /** Moving and destroying the type runs no user code. */
  predicate StructurallyTrivial(t: TypeDesc)
  {
    t.kind == Scalar || (t.moveCtorTrivial && t.dtorTrivial)
  }

  /** `__is_trivially_relocatable(T)`, only where the compiler has the
      `trivially_relocatable` extension (`hasExtension`): a `trivial_abi` type. */
  predicate CompilerSaysRelocatable(t: TypeDesc, hasExtension: bool)
  {
    hasExtension && t.trivialAbi
  }

  /** `relocate_one_by_memcpy<T>`: never for a volatile type; otherwise the declared value
      when the type declares one, else the structural rule or the compiler's opinion. */
  predicate RelocateOneByMemcpy(t: TypeDesc, hasExtension: bool)
    ensures RelocateOneByMemcpy(t, hasExtension) ==> !t.isVolatile
    ensures !t.isVolatile && t.declared.Some? ==> (RelocateOneByMemcpy(t, hasExtension) <==> t.declared.value)
    ensures !t.isVolatile && t.declared.None? && StructurallyTrivial(t) ==> RelocateOneByMemcpy(t, hasExtension)
  {
    && !t.isVolatile
    && match t.declared
       case Some(b) => b
       case None => StructurallyTrivial(t) || CompilerSaysRelocatable(t, hasExtension)
  }

  /** `relocate_array_by_memcpy<T>`: a whole array of `T` moved with one copy, which needs
      each element to be relocatable by copy. */
  predicate RelocateArrayByMemcpy(t: TypeDesc, hasExtension: bool)
  {
    RelocateOneByMemcpy(t, hasExtension)
  }

  const Int := TypeDesc(Scalar, false, true, true, None, false)
  const Char := TypeDesc(Scalar, false, true, true, None, false)
  /** `struct A {};` */
  const A := TypeDesc(Class, false, true, true, None, false)
  /** `volatile A` */
  const VolatileA := A.(isVolatile := true)
  /** `B(B&&) = default; ~B() = default;` */
  const B := TypeDesc(Class, false, true, true, None, false)
  /** `C(C&&) = default; ~C() {}` */
  const C := TypeDesc(Class, false, true, false, None, false)
  /** `D(D&&) {} ~D() = default;` */
  const D := TypeDesc(Class, false, false, true, None, false)
  /** `[[sus_trivial_abi]] T` with a user move constructor and destructor. */
  const TrivialAbiT := TypeDesc(Class, false, false, false, None, true)
  /** `G`: as `T`, and declares itself relocatable. */
  const G := TypeDesc(Class, false, false, false, Some(true), true)
  /** `H`: as `T`, and declares itself not relocatable. */
  const H := TypeDesc(Class, false, false, false, Some(false), true)

  /** Scalars and an empty struct are relocatable by copy. */
  lemma ScalarsAndEmptyStructs(hasExtension: bool)
    ensures RelocateOneByMemcpy(Int, hasExtension) && RelocateArrayByMemcpy(Int, hasExtension)
    ensures RelocateOneByMemcpy(Char, hasExtension) && RelocateArrayByMemcpy(Char, hasExtension)
    ensures RelocateOneByMemcpy(A, hasExtension) && RelocateArrayByMemcpy(A, hasExtension)
  {
  }

  /** A volatile type is never relocatable by copy, whatever else holds of it. */
  lemma VolatileNever(t: TypeDesc, hasExtension: bool)
    requires t.isVolatile
    ensures !RelocateOneByMemcpy(t, hasExtension) && !RelocateArrayByMemcpy(t, hasExtension)
    ensures !RelocateOneByMemcpy(VolatileA, hasExtension)
  {
  }

  /** Defaulted move and destructor: relocatable. A user-written destructor or a
      user-written move constructor: not relocatable (unless the compiler says so). */
  lemma DefaultedMembers(hasExtension: bool)
    ensures RelocateOneByMemcpy(B, hasExtension) && RelocateArrayByMemcpy(B, hasExtension)
    ensures !RelocateOneByMemcpy(C, hasExtension) && !RelocateArrayByMemcpy(C, hasExtension)
    ensures !RelocateOneByMemcpy(D, hasExtension) && !RelocateArrayByMemcpy(D, hasExtension)
  {
  }

  /** A `trivial_abi` type with user-written members is relocatable exactly when the
      compiler has the `trivially_relocatable` extension. */
  lemma TrivialAbiFollowsExtension(hasExtension: bool)
    ensures RelocateOneByMemcpy(TrivialAbiT, hasExtension) <==> hasExtension
    ensures RelocateArrayByMemcpy(TrivialAbiT, hasExtension) <==> hasExtension
  {
  }

  /** The compiler's extension only ever adds relocatable types, and the only types whose
      answer depends on it are undeclared, non-volatile `trivial_abi` types whose move or
      destructor runs user code. */
  lemma ExtensionOnlyAdds(t: TypeDesc)
    ensures RelocateOneByMemcpy(t, false) ==> RelocateOneByMemcpy(t, true)
    ensures RelocateOneByMemcpy(t, true) != RelocateOneByMemcpy(t, false) <==>
      !t.isVolatile && t.declared.None? && !StructurallyTrivial(t) && t.trivialAbi
  {
  }

  /** A declaration decides for any non-volatile type, over the structural rule and over
      `trivial_abi`: `G` is relocatable and `H` is not, with or without the extension. */
  lemma DeclarationDecides(t: TypeDesc, b: bool, hasExtension: bool)
    requires !t.isVolatile && t.declared == Some(b)
    ensures RelocateOneByMemcpy(t, hasExtension) == b
    ensures RelocateOneByMemcpy(G, hasExtension) && RelocateArrayByMemcpy(G, hasExtension)
    ensures !RelocateOneByMemcpy(H, hasExtension) && !RelocateArrayByMemcpy(H, hasExtension)
  {
  }
}
