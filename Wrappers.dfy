/** Failure-carrying values shared by the other modules. */
module Wrappers {

  /** A value that may be absent; for a Java reference, None stands for null. */
  datatype Option<+T> = None | Some(value: T)

  /** The outcome of an operation that returns nothing but may fail with an error. */
  datatype Outcome<+E> = Pass | Fail(error: E)

  /** The outcome of an operation that returns a value or fails with an error. */
  datatype Result<+R, +E> = Success(value: R) | Failure(error: E)
}
