/** Optional values and success/failure results, used wherever the modelled
    code either has a value or does not (a JavaScript `undefined`), or either
    returns or throws. */
module Wrappers {

  /** A value that may be absent. */
  datatype Option<+T> = None | Some(value: T)

  /** The outcome of an operation that either returns a value or fails. */
  datatype Result<+R, +E> = Success(value: R) | Failure(error: E)
}
