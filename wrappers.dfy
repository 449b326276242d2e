/** Optional values and error-or-value results. */
module Wrappers {

  /** A JavaScript value that may be `undefined`. */
  datatype Option<+T> = None | Some(value: T)

  /** The outcome of an operation that either throws an error with a message or returns a value. */
  datatype Result<+R, +E> = Success(value: R) | Failure(error: E)
}
