/** The generic Rust library types for which `eh` is implemented:
    `core::option::Option`, `core::result::Result` and `core::num::Wrapping`.

    `Option` and `Result` are failure-compatible Dafny datatypes, so that
    Dafny's `:-` plays the part of Rust's `?` operator. */
module Containers {

  datatype Option<T> = None | Some(value: T) {
    /** `Option::is_some`. */
    predicate IsSome() {
      Some?
    }

    /** `?` returns early on `None`. */
    predicate IsFailure() {
      None?
    }

    function PropagateFailure<U>(): Option<U>
      requires None?
    {
      None
    }

    /** `?` unwraps the payload of `Some`. */
    function Extract(): T
      requires Some?
    {
      value
    }
  }

  datatype Result<T, E> = Ok(value: T) | Err(error: E) {
    /** `Result::is_ok`. */
    predicate IsOk() {
      Ok?
    }

    /** `?` returns early on `Err`. */
    predicate IsFailure() {
      Err?
    }

    function PropagateFailure<U>(): Result<U, E>
      requires Err?
    {
      Err(error)
    }

    /** `?` unwraps the payload of `Ok`. */
    function Extract(): T
      requires Ok?
    {
      value
    }
  }

  /** `core::num::Wrapping<T>`, a tuple struct with the one field `.0`. */
  datatype Wrapping<T> = Wrapping(0: T)

  /** `{ let v = o?; rest(v) }` in a function that returns `Option<U>`. */
  function TryOption<T, U>(o: Option<T>, rest: T -> Option<U>): (r: Option<U>)
    ensures o.Some? ==> r == rest(o.value)
    ensures o.None? ==> r == None
  {
    var v :- o;
    rest(v)
  }

  /** `{ let v = r?; rest(v) }` in a function that returns `Result<U, E>`
      (with the error type unchanged, so `From::from` is the identity). */
  function TryResult<T, U, E>(r: Result<T, E>, rest: T -> Result<U, E>): (s: Result<U, E>)
    ensures r.Ok? ==> s == rest(r.value)
    ensures r.Err? ==> s == Err(r.error)
  {
    var v :- r;
    rest(v)
  }
}
