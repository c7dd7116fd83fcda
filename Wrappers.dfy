/** Optional values and outcomes shared by the modules of this model. */
module Wrappers {

  datatype Option<T> = None | Some(value: T)

  /** The outcome of an operation that either returns a value or throws. */
  datatype Result<T, E> = Success(value: T) | Failure(error: E)
}
