/** Optional values and results used across the model. */
module Wrappers {

  datatype Option<+T> = None | Some(value: T)

  /** Either a value or an error: the model's stand-in for a thrown exception. */
  datatype Result<+T, +E> = Success(value: T) | Failure(error: E)
}
