/** The byte type that the terminal, the serial device and memory share. */
module Bytes {
  type byte = x: int | 0 <= x < 256
}
