/** Rust's raw pointers `*const T` and `*mut T`, as far as truthiness needs
    them: an address that may be null and is never dereferenced. There is no
    heap here; provenance and validity are not modelled. */
module Pointers {
  import opened Integers

  /** `*const T`. For an unsized `T` a raw pointer also carries metadata (a
      slice length, a vtable), which `M` stands for; a pointer to a sized `T`
      has `M = ()`. */
  datatype ConstPtr<M> = ConstPtr(addr: Usize, metadata: M) {
    /** `<*const T>::is_null`: only the address is looked at, never the
        metadata and never the memory it points to. */
    predicate IsNull() {
      addr == 0
    }
  }

  /** `*mut T`, with the same layout as `*const T`. */
  datatype MutPtr<M> = MutPtr(addr: Usize, metadata: M) {
    /** `<*mut T>::is_null`. */
    predicate IsNull() {
      addr == 0
    }
  }

  /** `core::ptr::null::<T>()` for a sized `T`. */
  function Null(): (p: ConstPtr<()>)
    ensures p.IsNull()
  {
    ConstPtr(0, ())
  }

  /** `core::ptr::null_mut::<T>()` for a sized `T`. */
  function NullMut(): (p: MutPtr<()>)
    ensures p.IsNull()
  {
    MutPtr(0, ())
  }

  /** The address of a live value: a Rust reference is never null. */
  type RefAddr = a: Usize | a != 0 witness 1

  /** `&x as *const T` for a sized `T` stored at address `a`. */
  function FromRef(a: RefAddr): (p: ConstPtr<()>)
    ensures p.addr == a && !p.IsNull()
  {
    ConstPtr(a, ())
  }

  /** `&mut x as *mut T` for a sized `T` stored at address `a`. */
  function FromMutRef(a: RefAddr): (p: MutPtr<()>)
    ensures p.addr == a && !p.IsNull()
  {
    MutPtr(a, ())
  }

  predicate IsPowerOfTwo(n: nat) {
    if n <= 1 then n == 1 else n % 2 == 0 && IsPowerOfTwo(n / 2)
  }

  /** The alignment of a type: a power of two. */
  type Alignment = a: Usize | IsPowerOfTwo(a as nat) witness 1

  /** `NonNull::<T>::dangling().as_ptr()`: a pointer whose address is the
      alignment of `T`, pointing to no value at all. */
  function Dangling(align: Alignment): (p: MutPtr<()>)
    ensures p.addr == align && !p.IsNull()
  {
    assert IsPowerOfTwo(align as nat);
    MutPtr(align, ())
  }
}
