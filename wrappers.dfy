/** Optional values and results with an error, shared by every module of the model. */
module Wrappers {

  /** A value that may be absent; stands for a Java reference that may be `null`. */
  datatype Option<+T> = None | Some(value: T)

  /** The outcome of an operation that either returns normally or throws. */
  datatype Result<+R, +E> = Success(value: R) | Failure(error: E)
}
