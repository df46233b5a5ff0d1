/** Optional values and results with an error, as used by every stage of the pipeline. */
module Wrappers {

  /** A value that may be missing: JavaScript's `null` or `undefined`. */
  datatype Option<+T> = None | Some(value: T)

  /** The outcome of a stage that can throw: the value, or the error it throws. */
  datatype Result<+T, +E> = Success(value: T) | Failure(error: E)
}
