/** Option and Result, the two shapes the services use for "maybe absent"
    values and for an operation that either yields a value or rejects. */
module Wrappers {

  /** A value that may be absent (an `undefined` argument or environment variable). */
  datatype Option<+T> = None | Some(value: T)

  /** A settled promise: fulfilled with a value or rejected with an error message. */
  datatype Result<+T, +E> = Ok(value: T) | Err(error: E)
}
