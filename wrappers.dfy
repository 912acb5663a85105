/** Option and Result: the absent values and thrown errors of the modelled code. */
module Wrappers {

  /** A value that may be absent (Java `null`, a JavaScript `undefined`). */
  datatype Option<+T> = None | Some(value: T)

  /** A computation that either returns a value or raises an error. */
  datatype Result<+T, +E> = Ok(value: T) | Err(error: E)
}
