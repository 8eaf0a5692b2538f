/** Bytes as the stores and archives hold them. */
module ByteStrings {
  newtype byte = x: int | 0 <= x < 256
  type Bytes = seq<byte>
}
