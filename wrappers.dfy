/** Option, Result and Outcome: how the model reports a PADDLE_ENFORCE or
  * PADDLE_THROW failure instead of raising an exception. */
module Wrappers {
  datatype Option<T> = None | Some(value: T)

  datatype Result<T> = Ok(value: T) | Err(error: string)

  /** The result of a check that returns nothing on success. */
  datatype Outcome = Pass | Fail(error: string)
}
