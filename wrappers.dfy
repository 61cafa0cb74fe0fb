/** Option and Result, the two failure-carrying shapes the server's code returns everywhere. */
module Wrappers {

  datatype Option<+T> = None | Some(value: T)

  /** Rust's `Result<T, E>`: `Ok` carries the value, `Err` the error. */
  datatype Result<+T, +E> = Ok(value: T) | Err(error: E)
}
