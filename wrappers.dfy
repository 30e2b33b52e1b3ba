/** Small shared types: an optional value and a byte. */
module Wrappers {
  datatype Option<+T> = None | Some(value: T)

  /** A byte, as read from the terminal or held in the character part of a cell. */
  type Byte = x: int | 0 <= x < 256
}
