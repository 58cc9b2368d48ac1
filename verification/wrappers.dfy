/** Failure-carrying result types shared by the whole model. */
module Wrappers {

  /** A value that may be missing: a `null` lookup result, an absent cookie or query parameter. */
  datatype Option<+T> = None | Some(value: T)

  /** The outcome of an operation that can throw: `Err` carries the thrown error's message. */
  datatype Result<+T> = Ok(value: T) | Err(message: string)
}
