/** Types every other module shares. */
module Basics {
  type Byte = x: int | 0 <= x < 256

  datatype Option<+T> = None | Some(value: T)

  /** A value, or the error a source function raises instead. */
  datatype Result<+T, +E> = Ok(value: T) | Err(error: E)
}
