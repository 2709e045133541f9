/** Bytes as numbers, for the cores that compute with them. */
module Bytes {
  type Byte = b: int | 0 <= b < 256
}
