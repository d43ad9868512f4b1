/** The optional and failing results and the bytes used across the engines. */
module Wrappers {
  datatype Option<+T> = None | Some(value: T)

  datatype Result<+T, +E> = Ok(value: T) | Err(error: E)

  type byte = x: int | 0 <= x < 256
  type Bytes = seq<byte>
}
