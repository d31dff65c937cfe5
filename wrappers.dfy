/** Option and Result, the stand-ins for Go's nil pointers and `(value, error)` returns. */
module Wrappers {

  /** A Go pointer or interface that may be nil: `None` is nil. */
  datatype Option<+T> = None | Some(value: T)

  /** A Go `(value, error)` pair in which the value is meaningless once the error is non-nil. */
  datatype Result<+R, +E> = Success(value: R) | Failure(error: E)
}
