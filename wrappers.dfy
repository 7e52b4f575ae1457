/** Option and Result values shared by every module of the model. */
module Wrappers {
  datatype Option<T> = None | Some(value: T)

  /** An operation that either produces a value or fails with an error of type E. */
  datatype Result<T, E> = Ok(value: T) | Err(error: E)
}
