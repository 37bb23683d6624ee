/** The `Eh` trait: convert a value to `bool`, the way C converts a scalar to
    `_Bool` (section 6.3.1.2 of ISO C11) and C++ converts one to `bool`
    (section 7.14 of ISO C++17, [conv.bool]): zero and null are false,
    everything else is true. As a Rust-specific extension, `Option` and
    `Result` are true exactly when the `?` operator would unwrap a value
    rather than return early.

    Each `impl Eh for X` is one total function `EhX` with no precondition and
    nothing to read. The bound `T: Eh` of `impl<T: Eh> Eh for Wrapping<T>` is
    passed as the inner type's own conversion. The `f32`/`f64` impls are not
    part of this model. */
module Eh {
  import opened Integers
  import opened Pointers
  import opened Containers

  /** `impl Eh for bool`. */
  function EhBool(b: bool): bool {
    b
  }

  /** The body of the `int_eh!` impls: `*self != 0`. */
  function IntEh(x: int): bool {
    x != 0
  }

  // `int_eh! { i8, i16, i32, i64, i128, isize }`
  function EhI8(x: I8): bool { IntEh(x as int) }
  function EhI16(x: I16): bool { IntEh(x as int) }
  function EhI32(x: I32): bool { IntEh(x as int) }
  function EhI64(x: I64): bool { IntEh(x as int) }
  function EhI128(x: I128): bool { IntEh(x as int) }
  function EhIsize(x: Isize): bool { IntEh(x as int) }

  // `int_eh! { u8, u16, u32, u64, u128, usize }`
  function EhU8(x: U8): bool { IntEh(x as int) }
  function EhU16(x: U16): bool { IntEh(x as int) }
  function EhU32(x: U32): bool { IntEh(x as int) }
  function EhU64(x: U64): bool { IntEh(x as int) }
  function EhU128(x: U128): bool { IntEh(x as int) }
  function EhUsize(x: Usize): bool { IntEh(x as int) }

  /** `impl<T: ?Sized> Eh for *const T`. */
  function EhConstPtr<M>(p: ConstPtr<M>): bool {
    !p.IsNull()
  }

  /** `impl<T: ?Sized> Eh for *mut T`. */
  function EhMutPtr<M>(p: MutPtr<M>): bool {
    !p.IsNull()
  }

  /** `impl<T: Eh> Eh for Wrapping<T>`, where `eh` is the impl for `T`. */
  function EhWrapping<T>(eh: T -> bool, w: Wrapping<T>): bool {
    eh(w.0)
  }

  /** `impl<T> Eh for Option<T>`. */
  function EhOption<T>(o: Option<T>): bool {
    o.IsSome()
  }

  /** `impl<T, E> Eh for Result<T, E>`. */
  function EhResult<T, E>(r: Result<T, E>): bool {
    r.IsOk()
  }

  // ----- bool -----

  /** A boolean converts to itself, so converting twice changes nothing. */
  lemma BoolIsIdentity(b: bool)
    ensures EhBool(b) == b
    ensures EhBool(EhBool(b)) == EhBool(b)
  {
  }

  lemma BoolExamples()
    ensures EhBool(true)
    ensures EhBool(EhBool(true))
    ensures !EhBool(false)
  {
  }

  /** Whatever the impl, its result is a `bool`, and converting that result
      again gives it back. */
  lemma EhIsStable<T>(eh: T -> bool, x: T)
    ensures EhBool(eh(x)) == eh(x)
  {
  }

  // ----- integers -----

  /** For every width and signedness, a value is truthy exactly when its
      stored bit pattern has some bit set; so value comparison with zero and
      the bit-level test agree (unlike for `-0.0`). */
  lemma {:induction false} IntEhIsBitTest(k: IntKind, x: int)
    requires InRange(k, x)
    ensures IntEh(x) <==> true in Encode(k, x)
  {
    Residue(k, x);
    NoBitSetIffZero(x % Pow2(k.bits), k.bits);
  }

  /** Every integer type converts a value to `true` exactly when it is not
      zero, that is, when its two's-complement pattern has a bit set. */
  lemma IntegerRule()
    ensures forall x: I8 :: (EhI8(x) <==> x != 0) && (EhI8(x) <==> true in Encode(I8_KIND, x as int))
    ensures forall x: I16 :: (EhI16(x) <==> x != 0) && (EhI16(x) <==> true in Encode(I16_KIND, x as int))
    ensures forall x: I32 :: (EhI32(x) <==> x != 0) && (EhI32(x) <==> true in Encode(I32_KIND, x as int))
    ensures forall x: I64 :: (EhI64(x) <==> x != 0) && (EhI64(x) <==> true in Encode(I64_KIND, x as int))
    ensures forall x: I128 :: (EhI128(x) <==> x != 0) && (EhI128(x) <==> true in Encode(I128_KIND, x as int))
    ensures forall x: Isize :: (EhIsize(x) <==> x != 0) && (EhIsize(x) <==> true in Encode(ISIZE_KIND, x as int))
    ensures forall x: U8 :: (EhU8(x) <==> x != 0) && (EhU8(x) <==> true in Encode(U8_KIND, x as int))
    ensures forall x: U16 :: (EhU16(x) <==> x != 0) && (EhU16(x) <==> true in Encode(U16_KIND, x as int))
    ensures forall x: U32 :: (EhU32(x) <==> x != 0) && (EhU32(x) <==> true in Encode(U32_KIND, x as int))
    ensures forall x: U64 :: (EhU64(x) <==> x != 0) && (EhU64(x) <==> true in Encode(U64_KIND, x as int))
    ensures forall x: U128 :: (EhU128(x) <==> x != 0) && (EhU128(x) <==> true in Encode(U128_KIND, x as int))
    ensures forall x: Usize :: (EhUsize(x) <==> x != 0) && (EhUsize(x) <==> true in Encode(USIZE_KIND, x as int))
  {
    KindRanges();
    forall x: I8 ensures EhI8(x) <==> true in Encode(I8_KIND, x as int) {
      IntEhIsBitTest(I8_KIND, x as int);
    }
    forall x: I16 ensures EhI16(x) <==> true in Encode(I16_KIND, x as int) {
      IntEhIsBitTest(I16_KIND, x as int);
    }
    forall x: I32 ensures EhI32(x) <==> true in Encode(I32_KIND, x as int) {
      IntEhIsBitTest(I32_KIND, x as int);
    }
    forall x: I64 ensures EhI64(x) <==> true in Encode(I64_KIND, x as int) {
      IntEhIsBitTest(I64_KIND, x as int);
    }
    forall x: I128 ensures EhI128(x) <==> true in Encode(I128_KIND, x as int) {
      IntEhIsBitTest(I128_KIND, x as int);
    }
    forall x: Isize ensures EhIsize(x) <==> true in Encode(ISIZE_KIND, x as int) {
      IntEhIsBitTest(ISIZE_KIND, x as int);
    }
    forall x: U8 ensures EhU8(x) <==> true in Encode(U8_KIND, x as int) {
      IntEhIsBitTest(U8_KIND, x as int);
    }
    forall x: U16 ensures EhU16(x) <==> true in Encode(U16_KIND, x as int) {
      IntEhIsBitTest(U16_KIND, x as int);
    }
    forall x: U32 ensures EhU32(x) <==> true in Encode(U32_KIND, x as int) {
      IntEhIsBitTest(U32_KIND, x as int);
    }
    forall x: U64 ensures EhU64(x) <==> true in Encode(U64_KIND, x as int) {
      IntEhIsBitTest(U64_KIND, x as int);
    }
    forall x: U128 ensures EhU128(x) <==> true in Encode(U128_KIND, x as int) {
      IntEhIsBitTest(U128_KIND, x as int);
    }
    forall x: Usize ensures EhUsize(x) <==> true in Encode(USIZE_KIND, x as int) {
      IntEhIsBitTest(USIZE_KIND, x as int);
    }
  }

  /** For every width, `MAX` is truthy and zero is falsy; `MIN` is truthy for
      a signed type and falsy for an unsigned one, whose `MIN` is zero. */
  lemma IntegerBounds(k: IntKind)
    ensures IntEh(Max(k))
    ensures IntEh(Min(k)) <==> k.signed
    ensures InRange(k, 0) && !IntEh(0)
  {
    assert Pow2(k.bits - 1) == 2 * Pow2(k.bits - 2);
  }

  /** The bounds of each of the twelve types. */
  lemma TypeBounds()
    ensures EhI8(I8_MIN) && EhI8(I8_MAX)
    ensures EhI16(I16_MIN) && EhI16(I16_MAX)
    ensures EhI32(I32_MIN) && EhI32(I32_MAX)
    ensures EhI64(I64_MIN) && EhI64(I64_MAX)
    ensures EhI128(I128_MIN) && EhI128(I128_MAX)
    ensures EhIsize(ISIZE_MIN) && EhIsize(ISIZE_MAX)
    ensures !EhU8(U8_MIN) && EhU8(U8_MAX)
    ensures !EhU16(U16_MIN) && EhU16(U16_MAX)
    ensures !EhU32(U32_MIN) && EhU32(U32_MAX)
    ensures !EhU64(U64_MIN) && EhU64(U64_MAX)
    ensures !EhU128(U128_MIN) && EhU128(U128_MAX)
    ensures !EhUsize(USIZE_MIN) && EhUsize(USIZE_MAX)
  {
  }

  /** An unsuffixed literal such as `1` is an `i32`. */
  lemma IntegerExamples()
    ensures EhI32(1)
    ensures EhI32(-1)
    ensures EhI32(I32_MIN)
    ensures EhI32(I32_MAX)
    ensures !EhI32(0)
  {
  }

  // ----- Wrapping -----

  /** `Wrapping` is transparent: it has the truthiness of its field, and a
      `Wrapping` of a `Wrapping` has that of the innermost field. */
  lemma WrappingDelegates<T>(eh: T -> bool, x: T)
    ensures EhWrapping(eh, Wrapping(x)) == eh(x)
    ensures EhWrapping(w => EhWrapping(eh, w), Wrapping(Wrapping(x))) == eh(x)
  {
  }

  lemma WrappingExamples()
    ensures EhWrapping(EhI32, Wrapping(1))
    ensures !EhWrapping(EhI32, Wrapping(0))
  {
  }

  // ----- raw pointers -----

  /** A raw pointer, const or mut, is truthy exactly when its address is not
      zero, which is the truthiness of the address as a `usize` (`p as usize`);
      its metadata and its pointee play no part. */
  lemma PointerRule<M, N>(a: Usize, m: M, n: N)
    ensures EhConstPtr(ConstPtr(a, m)) <==> a != 0
    ensures EhMutPtr(MutPtr(a, m)) <==> a != 0
    ensures EhConstPtr(ConstPtr(a, m)) == EhUsize(a) == EhMutPtr(MutPtr(a, m))
    ensures EhConstPtr(ConstPtr(a, m)) == EhConstPtr(ConstPtr(a, n))
    ensures EhMutPtr(MutPtr(a, m)) == EhMutPtr(MutPtr(a, n))
  {
  }

  /** A pointer made from a reference `r` is truthy, a dangling pointer is
      truthy whatever the alignment (an `i32` is aligned to 4), and null is
      falsy. */
  lemma PointerExamples(r: RefAddr, align: Alignment)
    ensures EhConstPtr(FromRef(r))
    ensures EhMutPtr(FromMutRef(r))
    ensures EhMutPtr(Dangling(align))
    ensures EhMutPtr(Dangling(4))
    ensures !EhConstPtr(Null())
    ensures !EhMutPtr(NullMut())
  {
  }

  // ----- Option -----

  /** `Some` is truthy and `None` falsy, whatever the payload. */
  lemma OptionIgnoresPayload<T>(x: T)
    ensures EhOption(Some(x))
    ensures !EhOption(Option<T>.None)
  {
  }

  /** `Some(0)` is truthy although `0` is not. */
  lemma OptionExamples()
    ensures EhOption(Some(0 as I32)) && !EhI32(0)
    ensures EhOption(Some(1 as I32))
    ensures !EhOption(Option<I32>.None)
  {
  }

  /** An `Option` is truthy exactly when `?` unwraps it: if so, `?` goes on
      with its payload; if not, it returns `None` early. */
  lemma OptionMatchesTry<T, U>(o: Option<T>, rest: T -> Option<U>)
    ensures EhOption(o) <==> !o.IsFailure()
    ensures EhOption(o) ==> TryOption(o, rest) == rest(o.value)
    ensures !EhOption(o) ==> TryOption(o, rest) == None
  {
  }

  // ----- Result -----

  /** `Ok` is truthy and `Err` falsy, whatever either payload. */
  lemma ResultIgnoresPayload<T, E>(x: T, e: E)
    ensures EhResult(Result<T, E>.Ok(x))
    ensures !EhResult(Result<T, E>.Err(e))
  {
  }

  lemma ResultExamples()
    ensures EhResult(Result<I32, I32>.Ok(0))
    ensures EhResult(Result<I32, I32>.Ok(1))
    ensures !EhResult(Result<I32, I32>.Err(0))
    ensures !EhResult(Result<I32, I32>.Err(1))
  {
  }

  /** A `Result` is truthy exactly when `?` unwraps it: if so, `?` goes on
      with its `Ok` payload; if not, it returns the `Err` early. */
  lemma ResultMatchesTry<T, U, E>(r: Result<T, E>, rest: T -> Result<U, E>)
    ensures EhResult(r) <==> !r.IsFailure()
    ensures EhResult(r) ==> TryResult(r, rest) == rest(r.value)
    ensures !EhResult(r) ==> TryResult(r, rest) == Err(r.error)
  {
  }
}
