/** Failure-carrying values used in place of the exceptions the modelled code raises. */
module Wrappers {

  datatype Option<+T> = None | Some(value: T)

  datatype Result<+T, +E> = Success(value: T) | Failure(error: E)

  /** A step that either completes or fails with an error, and has no value. */
  datatype Outcome<+E> = Pass | Fail(error: E)
}
