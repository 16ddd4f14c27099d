/** Optional values and results used across the model. */
module Wrappers {

  /** An optional value: a query parameter that may be absent, a query that may fail. */
  datatype Option<+T> = None | Some(value: T)

  /** A value or an error message, for operations that throw in the source. */
  datatype Result<+R, +E> = Success(value: R) | Failure(error: E)
}
