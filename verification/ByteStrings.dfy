/** Bytes as numbers, for codecs that compute with them. */
module ByteStrings {
  newtype byte = x: int | 0 <= x < 256

  type bytes = seq<byte>
}
