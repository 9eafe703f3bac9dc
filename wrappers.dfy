/** Option and Result values for the error returns of the scanner. */
module Wrappers {

  datatype Option<+T> = None | Some(value: T)

  /** A value, or the text of the Go `error` that took its place. */
  datatype Result<+T> = Ok(value: T) | Err(error: string)
}
