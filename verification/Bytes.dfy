/** Bytes, as C and Go have them. */
module Bytes {
  newtype byte = x: int | 0 <= x < 256
}
