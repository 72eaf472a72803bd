/** The machine values that several components share: bytes and Go's 64-bit integers. */
module Values {

  newtype byte = x: int | 0 <= x < 256

  type Bytes = seq<byte>

  const TWO_63: int := 0x8000_0000_0000_0000
  const TWO_64: int := 0x1_0000_0000_0000_0000

  /** Two's complement int64. */
  function Wrap64(x: int): int {
    (x + TWO_63) % TWO_64 - TWO_63
  }

  function Min(a: int, b: int): int {
    if a <= b then a else b
  }
}
