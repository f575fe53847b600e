/** Bytes as the programs read and write them. */
module Bytes {
  type Byte = b: int | 0 <= b < 256
}
