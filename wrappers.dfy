/** Optional and failure-carrying values shared by the outage model. */
module Wrappers {

  /** A value that may be missing: an absent JSON field, or a NaN cell of a data frame. */
  datatype Option<+T> = None | Some(value: T)

  /** The outcome of a step that may raise instead of returning. */
  datatype Result<+T, +E> = Success(value: T) | Failure(error: E)
}
