/** Failure-carrying datatypes shared by the whole model. */
module Wrappers {

  datatype Option<+T> = None | Some(value: T)

  datatype Result<+T, +E> = Ok(value: T) | Err(error: E)

  /** The Python exceptions the modelled helpers can raise. */
  datatype PyError = AssertionError | ValueError | IndexError | KeyError | TypeError | ZeroDivisionError
}
