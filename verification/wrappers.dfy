/** Failure-compatible wrappers shared by the whole model. */
module Wrappers {

  /** A value that may be absent, as Go's nil map entry or nil pointer. */
  datatype Option<+T> = None | Some(value: T)

  /** A Go `(value, error)` pair: exactly one side is meaningful. */
  datatype Result<+R, +E> = Success(value: R) | Failure(error: E)
}
