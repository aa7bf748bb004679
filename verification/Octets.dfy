/** The bytes of buffers, files and messages as numbers. */
module Octets {
  type byte = x: int | 0 <= x < 256
}
