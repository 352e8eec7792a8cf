/** Optional values and error outcomes used by the analysis. */
module Wrappers {

  /** A value that may be absent, used where the analysis reports "no value" rather than a number. */
  datatype Option<+T> = None | Some(value: T)

  /** The outcome of a step that either succeeds with a value or stops with an error. */
  datatype Result<+R, +E> = Success(value: R) | Failure(error: E)
}
