/** Failure-carrying return values shared by every module of the model. */
module Wrappers {

  /** A value that may be absent: a failed decode, a missing dictionary key. */
  datatype Option<+T> = None | Some(value: T)

  /** A value or an error message: the model's stand-in for a raised exception. */
  datatype Result<+T> = Ok(value: T) | Err(message: string)
}
