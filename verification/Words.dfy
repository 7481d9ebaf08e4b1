/** Unsigned integers of the widths that C uses, and the bytes of a string. */
module Words {
  type Byte = x: int | 0 <= x < 256
  type Half = x: int | 0 <= x < 0x1_0000
  type Word = x: int | 0 <= x < 0x1_0000_0000

  /** The unsigned byte at `i` of a string; a byte past the end counts as null. */
  function ByteOf(s: string, i: nat): Byte {
    if i < |s| then s[i] as int % 256 else 0
  }
}
