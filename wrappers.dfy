/** Failure-carrying results used for the errors the dictionary raises. */
module Wrappers {

  /** A value that may be missing. */
  datatype Option<+T> = None | Some(value: T)

  /** A value, or the error raised instead of returning one. */
  datatype Result<+R, +E> = Success(value: R) | Failure(error: E)

  /** The outcome of an operation that returns nothing (Python's `None`) or raises. */
  datatype Outcome<+E> = Pass | Fail(error: E)
}
