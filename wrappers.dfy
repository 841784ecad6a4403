/** Option and Result values used throughout the model. */
module Wrappers {

  /** A value that may be absent (Python's `None`). */
  datatype Option<+T> = None | Some(value: T)

  /** The outcome of an operation the source may abort with a Python exception;
      `error` is the exception's name and text. */
  datatype Result<+T> = Ok(value: T) | Err(error: string)
}
