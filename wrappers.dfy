/** Failure-compatible wrappers shared by every module of the model. */
module Wrappers {

  /** A value that may be absent; Java's `null` result. */
  datatype Option<+T> = None | Some(value: T)

  /** A value or the exception the source throws instead. */
  datatype Result<+T, +E> = Success(value: T) | Failure(error: E)
}
