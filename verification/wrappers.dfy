/** Optional values and fallible results, used for Go's nil pointers and `(value, error)` returns. */
module Wrappers {

  /** A value that may be absent, as a Go pointer or slice that may be nil. */
  datatype Option<+T> = None | Some(value: T)

  /** The outcome of a call that returns either a value or an error. */
  datatype Result<+T, +E> = Success(value: T) | Failure(error: E)
}
