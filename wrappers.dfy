/** Option and Result, the two failure-carrying values the model uses. */
module Wrappers {

  /** A value that may be absent: a JavaScript `undefined` is `None`. */
  datatype Option<+T> = None | Some(value: T)

  /** The outcome of a step that may throw: `Err` carries what was thrown. */
  datatype Result<+T, +E> = Ok(value: T) | Err(error: E)
}
