/** Bytes, as patterns of bits or as the numbers these encode. */
module Octets {
  type byte = bv8

  type Bytes = seq<byte>

  /** A byte a format computes with. */
  type ByteValue = x: int | 0 <= x < 0x100
}
