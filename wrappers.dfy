/** Option and Result values, used where the program may have nothing to return or fails. */
module Wrappers {

  datatype Option<+T> = None | Some(value: T)

  /** The outcome of a step that may raise: a value, or the text of the exception. */
  datatype Result<+T> = Ok(value: T) | Err(message: string)
}
