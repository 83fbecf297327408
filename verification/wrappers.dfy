/** Failure-carrying return values, standing in for Go's `(value, error)` pairs
    and nil results. */
module Wrappers {

  /** A value that may be absent (a nil pointer or an early return). */
  datatype Option<+T> = None | Some(value: T)

  /** A value or the error that prevented it. */
  datatype Result<+R, +E> = Success(value: R) | Failure(error: E)
}
