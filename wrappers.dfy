// Option and Result, the shapes the Rust code uses for absent values and
// for recoverable errors.
module Wrappers {
  datatype Option<T> = None | Some(value: T)

  datatype Result<T, E> = Ok(value: T) | Err(error: E)
}
