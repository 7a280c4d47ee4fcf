/** Option and Result, the two failure-carrying shapes the tag tree's operations return. */
module Wrappers {

  /** `Option<T>`: an absent value, or a value. */
  datatype Option<+T> = None | Some(value: T)

  /** `Result<T, E>`: a value, or an error. */
  datatype Result<+T, +E> = Ok(value: T) | Err(error: E)
}
