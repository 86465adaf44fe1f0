/** Bytes as the codecs see them. */
module ByteStrings {
  type Byte = b: nat | b < 256

  type Bytes = seq<Byte>
}
