/** Octets, as the camera frames, keys, messages and signatures are made of. */
module Octets {

  /** An octet. */
  newtype Byte = b: int | 0 <= b < 0x100

  type Bytes = seq<Byte>
}
