/** Failure values shared by every module. */
module Wrappers {

  /** A value that may be absent: a nil reference, a missing key, a refused call. */
  datatype Option<+T> = None | Some(value: T)

  /** A computation that either returns or raises. */
  datatype Result<+T, +E> = Ok(value: T) | Err(error: E)
}
