/** Byte strings and the characters the codecs of 3rd_party/cpp-httplib/httplib.h look at. */
module HttpBytes {
  import opened Wrappers

  type Bytes = seq<Byte>

  const NUL: Byte := 0
  const LF: Byte := 10
  const CR: Byte := 13

  /** The value of a hexadecimal digit of either case. */
  function HexDigit(c: Byte): Option<Byte> {
    if 0x30 <= c <= 0x39 then Some(c - 0x30)
    else if 0x41 <= c <= 0x46 then Some(c - 0x41 + 10)
    else if 0x61 <= c <= 0x66 then Some(c - 0x61 + 10)
    else None
  }
}
