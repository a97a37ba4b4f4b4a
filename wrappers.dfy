/** Option and Result values for JavaScript's `null`/`undefined` and thrown errors. */
module Wrappers {

  /** A value or JavaScript `null`. */
  datatype Option<+T> = None | Some(value: T)

  /** A value, or the error a JavaScript function would have thrown. */
  datatype Result<+T, +E> = Ok(value: T) | Err(error: E)
}
