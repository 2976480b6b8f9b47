/** Optional values and error-carrying results, used for Go's nil pointers and `(value, error)` returns. */
module Wrappers {

  /** A value that may be absent (a Go nil pointer or an unset setting). */
  datatype Option<+T> = None | Some(value: T)

  /** Either a value or an error; Go's `(T, error)` pair where exactly one side is meaningful. */
  datatype Result<+T, +E> = Ok(value: T) | Err(error: E)
}
