/** Failure-compatible wrappers shared by every module of the model. */
module Wrappers {

  /** A value that may be absent: JavaScript's `undefined` / `null` for a field or a lookup. */
  datatype Option<+T> = None | Some(value: T)

  /** The outcome of an operation that can fail: the value, or the error it throws. */
  datatype Result<+T, +E> = Success(value: T) | Failure(error: E)
}
