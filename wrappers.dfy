/** Optional values and results, standing for JavaScript's null/undefined and
    for the error responses of the task service. */
module Wrappers {

  /** A value that may be absent (JavaScript null or undefined). */
  datatype Option<+T> = None | Some(value: T)

  /** The outcome of an operation that can fail with an error value. */
  datatype Result<+R, +E> = Success(value: R) | Failure(error: E)
}
