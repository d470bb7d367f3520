/** Values used throughout the model. */
module Wrappers {
  datatype Option<+T> = None | Some(value: T)

  type Byte = b: nat | b < 256

  /** Bytes of a page and of a frame. */
  const PAGE_SIZE: nat := 0x1000
}
