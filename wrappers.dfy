/** Option and Result, the two wrappers the rest of the model returns. */
module Wrappers {

  /** A value that may be absent (TypeScript's `T | null`). */
  datatype Option<+T> = None | Some(value: T)

  /** The outcome of an operation: a value, or the message of the error it raised. */
  datatype Result<+R, +E> = Success(value: R) | Failure(error: E)
}
