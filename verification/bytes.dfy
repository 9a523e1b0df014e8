/** Bytes, as the wire form and the pixel buffer use them. */
module Bytes {
  type byte = x: int | 0 <= x < 256
}
