/** Failure-compatible result types, used where the Rust code returns
    `Option`/`Result` or panics. */
module Wrappers {

  datatype Option<+T> = None | Some(value: T)

  datatype Result<+R, +E> = Success(value: R) | Failure(error: E) {
    predicate IsFailure() { Failure? }

    function PropagateFailure<U>(): Result<U, E>
      requires Failure?
    {
      Failure(error)
    }

    function Extract(): R
      requires Success?
    {
      value
    }
  }

  /** A result without a value: Rust's `Result<(), E>`. */
  datatype Outcome<+E> = Pass | Fail(error: E)
}
