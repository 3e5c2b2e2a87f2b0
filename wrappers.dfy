/** Option and Result, used for JavaScript's `undefined` values and thrown errors. */
module Wrappers {

  /** A value that may be absent (`undefined`/`null` in the sketch). */
  datatype Option<+T> = None | Some(value: T)

  /** The outcome of an operation that may throw. */
  datatype Result<+T, +E> = Ok(value: T) | Err(error: E)
}
