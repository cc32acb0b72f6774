/** Optional values and success-or-error results, shared by every module of the model. */
module Wrappers {

  /** A value that may be absent: JavaScript's `null` or `undefined` become `None`. */
  datatype Option<+T> = None | Some(value: T)

  /** The outcome of an operation that either returns a value or throws an `Error` with a message. */
  datatype Result<+R, +E> = Success(value: R) | Failure(error: E)
}
