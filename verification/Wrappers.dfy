/** Optional values and results that stand for Python's `None` and raised exceptions, and byte strings. */
module Wrappers {
  datatype Option<+T> = None | Some(value: T)

  datatype Result<+T, +E> = Ok(value: T) | Err(error: E)

  newtype byte = x: int | 0 <= x < 256
  type Bytes = seq<byte>
}
