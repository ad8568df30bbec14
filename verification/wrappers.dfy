/** Option and Result datatypes shared by the other modules. */
module Wrappers {

  /** A value that may be absent: the model of JavaScript's `null` / `undefined`. */
  datatype Option<+T> = None | Some(value: T)

  /** The outcome of a store operation that can fail. */
  datatype Result<+T, +E> = Ok(value: T) | Err(error: E)
}
