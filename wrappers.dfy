/** Option and Result, the two failure-carrying wrappers the rest of the model uses. */
module Wrappers {

  datatype Option<T> = None | Some(value: T)

  /** `Err` stands for a Python exception raised instead of a value being returned. */
  datatype Result<T, E> = Ok(value: T) | Err(error: E)
}
