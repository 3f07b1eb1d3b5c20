/** Failure-carrying values shared by every module of the model. */
module Wrappers {

  /** A value that may be absent (JavaScript `undefined`). */
  datatype Option<+T> = None | Some(value: T)

  /** The outcome of an operation that either produces a value or rejects
      with an error (a thrown JavaScript `Error`, identified by its message). */
  datatype Result<+T, +E> = Success(value: T) | Failure(error: E)
}
