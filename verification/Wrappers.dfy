/** Shared value types: a value that may be missing, and a byte as an integer. */
module Wrappers {
  datatype Option<+T> = None | Some(value: T)

  type byte = b: int | 0 <= b < 256
}
