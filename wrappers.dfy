/** Optional values and results with an error, as the services return them. */
module Wrappers {

  /** A value that may be absent: `undefined` / `null` in the source. */
  datatype Option<+T> = None | Some(value: T)

  /** The outcome of an operation that can throw a domain or database error. */
  datatype Result<+T, +E> = Success(value: T) | Failure(error: E)
}
