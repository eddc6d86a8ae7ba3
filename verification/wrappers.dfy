/** Failure-carrying wrappers used by the tax model. */
module Wrappers {

  /** A value that may be absent; `None` stands for a lookup that finds nothing. */
  datatype Option<+T> = None | Some(value: T)

  /** The outcome of an operation that can fail with an error `E`. */
  datatype Result<+R, +E> = Success(value: R) | Failure(error: E)
}
