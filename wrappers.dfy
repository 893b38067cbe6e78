/** Failure-carrying result types used in place of the C++ exceptions and
    nullable shared pointers of the feature record. */
module Wrappers {

  /** A value that may be absent (a shared pointer that may be null). */
  datatype Option<+T> = None | Some(value: T)

  /** Either a value or the error that was thrown instead of returning one. */
  datatype Result<+R, +E> = Success(value: R) | Failure(error: E)

  /** Either the operation completed or it threw the given error. */
  datatype Outcome<+E> = Pass | Fail(error: E)
}
