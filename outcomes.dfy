/** Success/failure results shared by the modules of this model. */
module Outcomes {
  /** The value of an operation, or the exception the source raises instead. */
  datatype Result<+T, +E> = Ok(value: T) | Err(error: E)
}
