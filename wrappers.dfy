/** Option and Result, the shapes every operation of the model returns. */
module Wrappers {
  datatype Option<+T> = None | Some(value: T)

  /** Either the value an operation produced or the error it returned. */
  datatype Result<+T, +E> = Ok(value: T) | Err(error: E)
}
