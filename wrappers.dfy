/** Failure-carrying values shared by the modules of this model. */
module Wrappers {

  /** Python's `None` or a value. */
  datatype Option<T> = None | Some(value: T)

  /** The value an operation returns, or the error it raises. */
  datatype Result<T, E> = Ok(value: T) | Err(error: E)
}
