/** The two outcome types the models share. */
module Wrappers {

  datatype Option<+T> = None | Some(value: T)

  /** A value, or the error the program throws. */
  datatype Result<+T, +E> = Ok(value: T) | Err(error: E)
}
