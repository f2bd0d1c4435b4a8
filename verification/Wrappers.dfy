/** The two result shapes the model uses for Go's (value, error) returns and
    for nil pointers, and Go's bytes. */
module Wrappers {
  datatype Option<+T> = None | Some(value: T)

  datatype Result<+T, +E> = Ok(value: T) | Err(error: E)

  type Byte = x: int | 0 <= x < 256
}
