/** Bytes as bounded integers. */
module ByteTypes {
  type Byte = b: int | 0 <= b < 256
}
