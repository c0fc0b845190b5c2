/** Bytes, byte strings and the largest 16-bit number. */
module Bytes {
  const U16_MAX: nat := 65_535

  type byte = x: int | 0 <= x < 256
  type bytes = seq<byte>
}
