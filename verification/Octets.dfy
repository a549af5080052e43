/** Bytes, as files and shared memory hold them. */
module Octets {

  type Byte = b: int | 0 <= b < 256
}
