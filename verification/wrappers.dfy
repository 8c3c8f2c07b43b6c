/** Failure-compatible wrappers: a nullable value and a value-or-error. */
module Wrappers {

  /** A value that may be absent, as a nullable cell of an Arrow array. */
  datatype Option<+T> = None | Some(value: T)

  /** The outcome of an operation that either succeeds or raises. */
  datatype Result<+T, +E> = Ok(value: T) | Err(error: E)
}
