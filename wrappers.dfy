/** Option and Result, the two failure-carrying wrappers the rest of the model uses. */
module Wrappers {

  datatype Option<+T> = None | Some(value: T)

  /** The value a Go function returns together with a nil or non-nil `error`. */
  datatype Result<+T, +E> = Ok(value: T) | Err(error: E)
}
