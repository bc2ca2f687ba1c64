/** Bytes, as buffers and encoded text hold them. */
module ByteTypes {
  type Byte = x: nat | x < 256
}
