/** The two value types every other module answers with. */
module Outcomes {

  datatype Option<+T> = None | Some(value: T)

  /** An answer, or the class of exception the source raises instead. */
  datatype Result<+T, +E> = Ok(value: T) | Err(error: E)
}
