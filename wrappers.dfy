/** Option and Result values shared by the whole model. */
module Wrappers {

  datatype Option<+T> = None | Some(value: T)

  /** The outcome of an operation that can throw: `Err` carries the message of the error raised. */
  datatype Result<+T> = Ok(value: T) | Err(error: string)
}
