/** Failure-carrying values shared by the whole model. */
module Wrappers {

  datatype Option<+T> = None | Some(value: T)

  /** The value of a lookup or an operation, or the reason it was refused. */
  datatype Result<+T, +E> = Ok(value: T) | Err(error: E)

  /** An operation that yields nothing but may be refused. */
  datatype Outcome<+E> = Pass | Fail(error: E)
}
