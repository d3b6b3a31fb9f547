/** Absence and failure values shared by the model. */
module Wrappers {

  /** Python's `None` versus a present value. */
  datatype Option<+T> = None | Some(value: T)

  /** A value, or the structured error message that the comparison returns. */
  datatype Result<+T> = Ok(value: T) | Err(error: string)
}
