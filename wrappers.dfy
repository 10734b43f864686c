/** Option and Result types used in place of the source's NaN sentinel and boolean failure returns. */
module Wrappers {

  /** A value that may be absent (the source encodes absence as NaN). */
  datatype Option<+T> = None | Some(value: T)

  /** Either a value or a typed failure. */
  datatype Result<+T, +E> = Ok(value: T) | Err(error: E)
}
