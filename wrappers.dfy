/** Failure-carrying values used throughout the model: Rust's `Option` and
    `Result`, and an `Outcome` for checks that either pass or fail. */
module Wrappers {

  datatype Option<+T> = None | Some(value: T)

  datatype Result<+R, +E> = Success(value: R) | Failure(error: E)

  datatype Outcome<+E> = Pass | Fail(error: E)
}
