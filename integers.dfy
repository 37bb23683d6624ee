/** Rust's primitive integer types: the twelve widths for which `eh` is
    implemented, their ranges, and their two's-complement representation.

    Dafny's `int` is unbounded, so each Rust type is a `newtype` bounded by the
    type's `MIN` and `MAX`. `isize` and `usize` are given the width of a pointer
    on a 64-bit target. */
module Integers {

  /** The width in bits of a pointer, and so of `isize` and `usize`. */
  const POINTER_WIDTH := 64

  newtype I8 = x: int | -0x80 <= x < 0x80
  newtype I16 = x: int | -0x8000 <= x < 0x8000
  newtype I32 = x: int | -0x8000_0000 <= x < 0x8000_0000
  newtype I64 = x: int | -0x8000_0000_0000_0000 <= x < 0x8000_0000_0000_0000
  newtype I128 = x: int | -0x8000_0000_0000_0000_0000_0000_0000_0000 <= x < 0x8000_0000_0000_0000_0000_0000_0000_0000
  newtype Isize = x: int | -0x8000_0000_0000_0000 <= x < 0x8000_0000_0000_0000

  newtype U8 = x: int | 0 <= x < 0x100
  newtype U16 = x: int | 0 <= x < 0x1_0000
  newtype U32 = x: int | 0 <= x < 0x1_0000_0000
  newtype U64 = x: int | 0 <= x < 0x1_0000_0000_0000_0000
  newtype U128 = x: int | 0 <= x < 0x1_0000_0000_0000_0000_0000_0000_0000_0000
  newtype Usize = x: int | 0 <= x < 0x1_0000_0000_0000_0000

  // The `MIN` and `MAX` associated constants of each type.
  const I8_MIN: I8 := -0x80
  const I8_MAX: I8 := 0x7f
  const I16_MIN: I16 := -0x8000
  const I16_MAX: I16 := 0x7fff
  const I32_MIN: I32 := -0x8000_0000
  const I32_MAX: I32 := 0x7fff_ffff
  const I64_MIN: I64 := -0x8000_0000_0000_0000
  const I64_MAX: I64 := 0x7fff_ffff_ffff_ffff
  const I128_MIN: I128 := -0x8000_0000_0000_0000_0000_0000_0000_0000
  const I128_MAX: I128 := 0x7fff_ffff_ffff_ffff_ffff_ffff_ffff_ffff
  const ISIZE_MIN: Isize := -0x8000_0000_0000_0000
  const ISIZE_MAX: Isize := 0x7fff_ffff_ffff_ffff
  const U8_MIN: U8 := 0
  const U8_MAX: U8 := 0xff
  const U16_MIN: U16 := 0
  const U16_MAX: U16 := 0xffff
  const U32_MIN: U32 := 0
  const U32_MAX: U32 := 0xffff_ffff
  const U64_MIN: U64 := 0
  const U64_MAX: U64 := 0xffff_ffff_ffff_ffff
  const U128_MIN: U128 := 0
  const U128_MAX: U128 := 0xffff_ffff_ffff_ffff_ffff_ffff_ffff_ffff
  const USIZE_MIN: Usize := 0
  const USIZE_MAX: Usize := 0xffff_ffff_ffff_ffff

  /** The bit widths Rust's integer types come in. */
  type Width = b: nat | b == 8 || b == 16 || b == 32 || b == 64 || b == 128 witness 8

  /** An integer type described by its signedness and its width, so that a
      rule can be stated once for every integer type. */
  datatype IntKind = IntKind(signed: bool, bits: Width)

  const I8_KIND := IntKind(true, 8)
  const I16_KIND := IntKind(true, 16)
  const I32_KIND := IntKind(true, 32)
  const I64_KIND := IntKind(true, 64)
  const I128_KIND := IntKind(true, 128)
  const ISIZE_KIND := IntKind(true, POINTER_WIDTH)
  const U8_KIND := IntKind(false, 8)
  const U16_KIND := IntKind(false, 16)
  const U32_KIND := IntKind(false, 32)
  const U64_KIND := IntKind(false, 64)
  const U128_KIND := IntKind(false, 128)
  const USIZE_KIND := IntKind(false, POINTER_WIDTH)

  function Pow2(n: nat): (r: nat)
    ensures r >= 1
  {
    if n == 0 then 1 else 2 * Pow2(n - 1)
  }

  lemma {:induction false} Pow2Add(a: nat, b: nat)
    ensures Pow2(a + b) == Pow2(a) * Pow2(b)
  {
    if a > 0 {
      Pow2Add(a - 1, b);
    }
  }

  /** The powers of two that bound Rust's integer types. */
  lemma Pow2Widths()
    ensures Pow2(8) == 0x100
    ensures Pow2(16) == 0x1_0000
    ensures Pow2(32) == 0x1_0000_0000
    ensures Pow2(64) == 0x1_0000_0000_0000_0000
    ensures Pow2(128) == 0x1_0000_0000_0000_0000_0000_0000_0000_0000
  {
    assert Pow2(8) == 0x100;
    Pow2Add(8, 8);
    assert Pow2(16) == 0x100 * 0x100;
    Pow2Add(16, 16);
    assert Pow2(32) == 0x1_0000 * 0x1_0000;
    Pow2Add(32, 32);
    assert Pow2(64) == 0x1_0000_0000 * 0x1_0000_0000;
    Pow2Add(64, 64);
    assert Pow2(128) == 0x1_0000_0000_0000_0000 * 0x1_0000_0000_0000_0000;
  }

  /** `MIN` of a kind: `-2^(bits-1)` when signed, `0` when unsigned. */
  function Min(k: IntKind): int {
    if k.signed then -(Pow2(k.bits - 1) as int) else 0
  }

  /** `MAX` of a kind: `2^(bits-1) - 1` when signed, `2^bits - 1` when unsigned. */
  function Max(k: IntKind): int {
    if k.signed then Pow2(k.bits - 1) - 1 else Pow2(k.bits) - 1
  }

  predicate InRange(k: IntKind, x: int) {
    Min(k) <= x <= Max(k)
  }

  /** The `MIN` and `MAX` constants of each newtype equal the `Min` and
      `Max` of its kind. */
  lemma KindRanges()
    ensures Min(I8_KIND) == I8_MIN as int && Max(I8_KIND) == I8_MAX as int
    ensures Min(I16_KIND) == I16_MIN as int && Max(I16_KIND) == I16_MAX as int
    ensures Min(I32_KIND) == I32_MIN as int && Max(I32_KIND) == I32_MAX as int
    ensures Min(I64_KIND) == I64_MIN as int && Max(I64_KIND) == I64_MAX as int
    ensures Min(I128_KIND) == I128_MIN as int && Max(I128_KIND) == I128_MAX as int
    ensures Min(ISIZE_KIND) == ISIZE_MIN as int && Max(ISIZE_KIND) == ISIZE_MAX as int
    ensures Min(U8_KIND) == U8_MIN as int && Max(U8_KIND) == U8_MAX as int
    ensures Min(U16_KIND) == U16_MIN as int && Max(U16_KIND) == U16_MAX as int
    ensures Min(U32_KIND) == U32_MIN as int && Max(U32_KIND) == U32_MAX as int
    ensures Min(U64_KIND) == U64_MIN as int && Max(U64_KIND) == U64_MAX as int
    ensures Min(U128_KIND) == U128_MIN as int && Max(U128_KIND) == U128_MAX as int
    ensures Min(USIZE_KIND) == USIZE_MIN as int && Max(USIZE_KIND) == USIZE_MAX as int
  {
    Pow2Widths();
  }

  /** The low `w` bits of `n`, least significant first. */
  function ToBits(n: nat, w: nat): (bits: seq<bool>)
    ensures |bits| == w
  {
    if w == 0 then [] else [n % 2 == 1] + ToBits(n / 2, w - 1)
  }

  /** The unsigned number a sequence of bits spells, least significant first. */
  function FromBits(bits: seq<bool>): nat {
    if bits == [] then 0 else (if bits[0] then 1 else 0) + 2 * FromBits(bits[1..])
  }

  lemma {:induction false} FromToBits(n: nat, w: nat)
    requires n < Pow2(w)
    ensures FromBits(ToBits(n, w)) == n
  {
    if w > 0 {
      FromToBits(n / 2, w - 1);
      assert ToBits(n, w)[1..] == ToBits(n / 2, w - 1);
    }
  }

  /** The most significant of `w` bits is set exactly when `n` is at least `2^(w-1)`. */
  lemma {:induction false} TopBit(n: nat, w: nat)
    requires 0 < w && n < Pow2(w)
    ensures ToBits(n, w)[w - 1] <==> n >= Pow2(w - 1)
  {
    if w > 1 {
      TopBit(n / 2, w - 1);
    }
  }

  /** A number below `2^w` is zero exactly when none of its `w` bits is set. */
  lemma {:induction false} NoBitSetIffZero(n: nat, w: nat)
    requires n < Pow2(w)
    ensures (true in ToBits(n, w)) <==> n != 0
  {
    if w > 0 {
      NoBitSetIffZero(n / 2, w - 1);
      assert ToBits(n, w) == [n % 2 == 1] + ToBits(n / 2, w - 1);
    }
  }

  /** The bit pattern in which a value of kind `k` is stored: the value
      reduced modulo `2^bits`, which is the two's-complement form for a signed
      kind (the cast `x as uN`) and the value itself for an unsigned one. */
  function Encode(k: IntKind, x: int): (bits: seq<bool>)
    ensures |bits| == k.bits
  {
    ToBits(x % Pow2(k.bits), k.bits)
  }

  /** The value a bit pattern of kind `k` stands for: the top bit weighs
      `-2^(bits-1)` instead of `2^(bits-1)` when the kind is signed. */
  function Decode(k: IntKind, bits: seq<bool>): int
    requires |bits| == k.bits
  {
    if k.signed && bits[k.bits - 1] then FromBits(bits) - Pow2(k.bits) else FromBits(bits)
  }

  lemma ModOfSmall(x: int, m: int)
    requires 0 <= x < m
    ensures x % m == x
  {
  }

  lemma ModOfNegative(x: int, m: int)
    requires 0 < m && -m <= x < 0
    ensures x % m == x + m
  {
  }

  /** The residue modulo `2^bits` of a value in range of kind `k`: the value
      itself if it is not negative, the value plus `2^bits` otherwise. */
  lemma Residue(k: IntKind, x: int)
    requires InRange(k, x)
    ensures x >= 0 ==> x % Pow2(k.bits) == x
    ensures x < 0 ==> x % Pow2(k.bits) == x + Pow2(k.bits)
  {
    var m := Pow2(k.bits);
    assert m == 2 * Pow2(k.bits - 1);
    if x < 0 {
      ModOfNegative(x, m);
    } else {
      ModOfSmall(x, m);
    }
  }

  /** Every value in range of its kind is recovered from its bit pattern, so
      the pattern is a faithful representation. */
  lemma DecodeEncode(k: IntKind, x: int)
    requires InRange(k, x)
    ensures Decode(k, Encode(k, x)) == x
  {
    var m := Pow2(k.bits);
    Residue(k, x);
    var r := x % m;
    FromToBits(r, k.bits);
    TopBit(r, k.bits);
  }
}
