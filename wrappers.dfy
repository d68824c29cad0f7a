/** Option and Result, for absent values and failed calls. */
module Wrappers {

  datatype Option<+T> = None | Some(value: T)

  /** The outcome of a call that can raise: its value, or the exception's
      message. */
  datatype Result<+T> = Success(value: T) | Failure(message: string)
}
