/** Optional values and results with an error, as the store's operations return them. */
module Wrappers {

  /** A JavaScript value that may be `undefined`/`null` (None) or present. */
  datatype Option<+T> = None | Some(value: T)

  /** The outcome of an operation that may throw: a value, or the kind of error raised. */
  datatype Result<+T, +E> = Ok(value: T) | Err(error: E)
}
