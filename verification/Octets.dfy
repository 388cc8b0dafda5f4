/** Bytes. */
module Octets {
  type Byte = x: nat | x < 0x100
}
