/** Optional values and results shared by the rest of the model. */
module Outcomes {

  /** A value that may be missing: an `undefined` query value, an absent object key. */
  datatype Option<+T> = None | Some(value: T)

  /** The outcome of an operation that either produces a value or raises an error. */
  datatype Result<+T, +E> = Success(value: T) | Failure(error: E)
}
