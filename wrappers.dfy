/** Optional values and error-carrying results shared by the other modules. */
module Wrappers {

  /** A value that may be absent: Python's `None`, TypeScript's `null`/`undefined`. */
  datatype Option<+T> = None | Some(value: T)

  /** The outcome of an operation that can fail: a value, or the error it raised. */
  datatype Result<+R, +E> = Success(value: R) | Failure(error: E)
}
