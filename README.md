# eh — truthiness of Rust values, modelled in Dafny

The `eh` crate has one trait, `Eh`, with one method, `eh(&self) -> bool`. The
method converts a value to a boolean the C way: zero and null are false, and
everything else is true. The crate implements it for a fixed set of types:

- `bool` returns itself.
- The twelve integer types `i8` … `i128`, `isize`, `u8` … `u128` and `usize`
  return `!= 0`.
- `*const T` and `*mut T` return `!is_null()`.
- `Wrapping<T>` returns the `eh` of its field.
- `Option<T>` returns `is_some()`.
- `Result<T, E>` returns `is_ok()`.

The integer and pointer rules follow the scalar-to-boolean conversion of C
(section 6.3.1.2 of ISO C11) and of C++ (section 7.14 of ISO C++17). The
`Option` and `Result` rules are a Rust extension. They are true exactly when
the `?` operator would unwrap a value rather than return early.

Layout:

- `integers.dfy`, module `Integers`. It holds one bounded `newtype` per
  integer type, with the types' `MIN`/`MAX` constants. `IntKind` describes a
  type by its signedness and width, so a rule can be stated once for every
  type. `Encode`/`Decode` give the two's-complement bit pattern of a value;
  `DecodeEncode` proves the pattern gives the value back.
- `pointers.dfy`, module `Pointers`. A raw pointer is an address (a `Usize`)
  plus metadata, which is `()` for a sized pointee. It also holds
  `ptr::null`, `ptr::null_mut`, pointers made from references, and
  `NonNull::dangling`.
- `containers.dfy`, module `Containers`. It holds `Option`, `Result` and
  `Wrapping`. `Option` and `Result` are failure-compatible, so Dafny's `:-`
  stands for Rust's `?` (`TryOption`, `TryResult`).
- `eh.dfy`, module `Eh`. It holds one total function per impl (`EhBool`,
  `EhI8` … `EhUsize`, `EhConstPtr`, `EhMutPtr`, `EhWrapping`, `EhOption`,
  `EhResult`), with no `requires` and no `reads`, plus the lemmas about them.
  The integer impls all call `IntEh`, which is the body of the `int_eh!`
  macro. The bound `T: Eh` of the `Wrapping<T>` impl becomes a parameter
  `eh: T -> bool`: the impl of the inner type.

The main proof is `IntEhIsBitTest`. It shows that for every width and
signedness, "the value is not zero" is the same as "some bit of its stored
two's-complement pattern is set". So for integers the comparison with zero
and the bit-level test agree, which is not true for floating point (`-0.0`).
`IntEhIsBitTest` rests on `Residue` (the stored residue of a value modulo
`2^bits`) and on the inductive lemma `NoBitSetIffZero`. `DecodeEncode`, which
shows the bit pattern gives the value back, rests on the inductive lemmas
`FromToBits` and `TopBit`. `KindRanges`, which ties each type's `MIN`/`MAX` to
its width, rests on `Pow2Widths` and the inductive lemma `Pow2Add`.

Two consequences of the code are worth stating:

- For an unsigned type, `MIN` is `0`, so `*self != 0` makes it falsy
  (`IntegerBounds`, `TypeBounds`). The doc-test checks only `i32::MIN`.
- `Wrapping<T>` calls `T`'s own `eh` (src/lib.rs:166), so `Wrapping<bool>` and
  `Wrapping<Wrapping<T>>` go through their own impls (`WrappingDelegates`).

## Model

| member | source | states |
|---|---|---|
| `Eh.EhBool` | src/lib.rs:117-122 | the `bool` impl, `*self`: returns the value itself (`BoolIsIdentity` proves it for every `b`) |
| `Eh.IntEh` | src/lib.rs:124-133 | the body of `int_eh!`, `*self != 0`, over unbounded integers (`IntEhIsBitTest`, `IntegerBounds`) |
| `Eh.EhI8` | src/lib.rs:134 | the `i8` impl: `IntEh` of the value (`IntegerRule` proves it true exactly for non-zero values) |
| `Eh.EhI16` | src/lib.rs:134 | the `i16` impl: `IntEh` of the value (`IntegerRule` proves it true exactly for non-zero values) |
| `Eh.EhI32` | src/lib.rs:134 | the `i32` impl: `IntEh` of the value (`IntegerRule` proves it true exactly for non-zero values) |
| `Eh.EhI64` | src/lib.rs:134 | the `i64` impl: `IntEh` of the value (`IntegerRule` proves it true exactly for non-zero values) |
| `Eh.EhI128` | src/lib.rs:134 | the `i128` impl: `IntEh` of the value (`IntegerRule` proves it true exactly for non-zero values) |
| `Eh.EhIsize` | src/lib.rs:134 | the `isize` impl: `IntEh` of the value (`IntegerRule` proves it true exactly for non-zero values) |
| `Eh.EhU8` | src/lib.rs:135 | the `u8` impl: `IntEh` of the value (`IntegerRule` proves it true exactly for non-zero values) |
| `Eh.EhU16` | src/lib.rs:135 | the `u16` impl: `IntEh` of the value (`IntegerRule` proves it true exactly for non-zero values) |
| `Eh.EhU32` | src/lib.rs:135 | the `u32` impl: `IntEh` of the value (`IntegerRule` proves it true exactly for non-zero values) |
| `Eh.EhU64` | src/lib.rs:135 | the `u64` impl: `IntEh` of the value (`IntegerRule` proves it true exactly for non-zero values) |
| `Eh.EhU128` | src/lib.rs:135 | the `u128` impl: `IntEh` of the value (`IntegerRule` proves it true exactly for non-zero values) |
| `Eh.EhUsize` | src/lib.rs:135 | the `usize` impl: `IntEh` of the value (`IntegerRule` proves it true exactly for non-zero values) |
| `Eh.EhConstPtr` | src/lib.rs:149-154 | the `*const T` impl, `!self.is_null()` (`PointerRule`) |
| `Eh.EhMutPtr` | src/lib.rs:156-161 | the `*mut T` impl, `!self.is_null()` (`PointerRule`) |
| `Eh.EhWrapping` | src/lib.rs:163-168 | the `Wrapping<T>` impl, `self.0.eh()`, with `T`'s impl passed in (`WrappingDelegates`) |
| `Eh.EhOption` | src/lib.rs:170-175 | the `Option<T>` impl, `self.is_some()` (`OptionIgnoresPayload`, `OptionMatchesTry`) |
| `Eh.EhResult` | src/lib.rs:177-182 | the `Result<T, E>` impl, `self.is_ok()` (`ResultIgnoresPayload`, `ResultMatchesTry`) |
| `Pointers.Null` | src/lib.rs:70 | `ptr::null()` is a null `*const` pointer |
| `Pointers.NullMut` | src/lib.rs:71 | `ptr::null_mut()` is a null `*mut` pointer |
| `Pointers.FromRef` | src/lib.rs:67 | `&x as *const T` has the address of `x`, which is never null |
| `Pointers.FromMutRef` | src/lib.rs:68 | `&mut x as *mut T` has the address of `x`, which is never null |
| `Pointers.Dangling` | src/lib.rs:69 | `NonNull::dangling().as_ptr()` has the type's alignment as its address, a power of two and so not null |
| `Containers.TryOption` | src/lib.rs:12-14 | `let v = o?; rest(v)`: goes on with the payload of `Some`, returns `None` early on `None` |
| `Containers.TryResult` | src/lib.rs:12-14 | `let v = r?; rest(v)`: goes on with the payload of `Ok`, returns the same `Err` early on `Err` |
| `Eh.BoolIsIdentity` | src/lib.rs:117-122 | every boolean converts to itself, and converting the result again changes nothing |
| `Eh.BoolExamples` | src/lib.rs:20-25 | `true.eh()`, `true.eh().eh()` hold and `false.eh()` does not |
| `Eh.EhIsStable` | src/lib.rs:113-115 | for any impl and any value, the `bool` impl applied to the result gives the same result |
| `Eh.IntEhIsBitTest` | src/lib.rs:124-133 | for any width and signedness and any value in range, `*self != 0` holds exactly when the value's two's-complement bit pattern has a set bit |
| `Eh.IntegerRule` | src/lib.rs:134-135 | for each of the twelve integer types and every value, `eh` is true iff the value is not zero, iff its bit pattern has a set bit |
| `Eh.IntegerBounds` | src/lib.rs:124-135 | for any width, `MAX` is truthy and `0` (which is in range) is falsy; `MIN` is truthy exactly for signed types, since an unsigned `MIN` is zero |
| `Eh.TypeBounds` | src/lib.rs:134-135 | for each type: signed `MIN` and `MAX` are truthy; unsigned `MIN` is falsy and its `MAX` truthy |
| `Integers.KindRanges` | src/lib.rs:134-135 | each integer newtype's `MIN`/`MAX` are `-2^(n-1)`/`2^(n-1)-1` (signed) or `0`/`2^n-1` (unsigned), with `n` its width |
| `Eh.IntegerExamples` | src/lib.rs:29-37 | `1`, `-1`, `i32::MIN` and `i32::MAX` are truthy; `0` is falsy |
| `Eh.WrappingDelegates` | src/lib.rs:163-168 | `Wrapping(x)` has the truthiness of `x` under the inner impl, and so does `Wrapping(Wrapping(x))` |
| `Eh.WrappingExamples` | src/lib.rs:41-46 | `Wrapping(1)` is truthy and `Wrapping(0)` falsy |
| `Eh.PointerRule` | src/lib.rs:149-161 | a const or mut raw pointer is truthy iff its address is non-zero, which equals the `usize` impl applied to the address; its metadata (so whether the pointee is sized) makes no difference |
| `Eh.PointerExamples` | src/lib.rs:64-72 | pointers from `&x` and `&mut x` are truthy; dangling pointers of any alignment (including 4, as for `i32`) are truthy; `null()` and `null_mut()` are falsy |
| `Eh.OptionIgnoresPayload` | src/lib.rs:170-175 | `Some(x)` is truthy for every payload and `None` is falsy |
| `Eh.OptionExamples` | src/lib.rs:76-81 | `Some(0)` is truthy although `0` is falsy; `Some(1)` is truthy; `None` is falsy |
| `Eh.OptionMatchesTry` | src/lib.rs:12-14 | an `Option` is truthy iff `?` does not fail on it; when truthy, `?` goes on with the payload; when falsy, it returns `None` early |
| `Eh.ResultIgnoresPayload` | src/lib.rs:177-182 | `Ok(x)` is truthy and `Err(e)` falsy for every `x` and `e` |
| `Eh.ResultExamples` | src/lib.rs:85-91 | `Ok(0)` and `Ok(1)` are truthy; `Err(0)` and `Err(1)` are falsy |
| `Eh.ResultMatchesTry` | src/lib.rs:12-14 | a `Result` is truthy iff `?` does not fail on it; when truthy, `?` goes on with the `Ok` payload; when falsy, it returns that `Err` early |

## Left out

- The `f32`/`f64` impls (`float_eh!`): they rest on IEEE-754 comparison (NaN is truthy, `-0.0` is falsy), and Dafny has no IEEE-754 floating-point type to model them with.
- Pointer memory semantics: provenance, validity and the pointee itself are not modelled. A pointer is an address plus metadata, and nothing is ever dereferenced.
- `isize` and `usize` are modelled on 64-bit targets only (`POINTER_WIDTH`). 16- and 32-bit targets are not covered.
- Rust's trait resolution: the trait becomes one function per impl. Dafny does not stop an `EhWrapping` caller from passing a function that is not an `Eh` impl.
- `#[inline]`, `#![no_std]` and the macros: they do not affect behaviour, and the macro expansions are written out.
- `TryResult`: `?` on a `Result` also converts the error with `From::from`. The model keeps the error type unchanged.
- The exclusion list of the crate's documentation (strings, collections, NaN as false): the crate deliberately does not implement these conversions.
