/**
  Fixed-width machine integers of the viewer, modelled on unbounded `int`.
  Every wrap-around of the C++ code is written out with an explicit `%`.
 */
module Words {

  const Two8: nat := 0x100
  const Two16: nat := 0x1_0000
  const Two64: nat := 0x1_0000_0000_0000_0000

  /** An 8-bit byte, as stored in a `std::string` or a `uint8_t` buffer. */
  type Byte = b: int | 0 <= b < 0x100

  /** A `uint16_t`, the element type of the index buffer. */
  type U16 = x: int | 0 <= x < 0x1_0000

  /** A `uint32_t`. */
  type U32 = x: int | 0 <= x < 0x1_0000_0000

  /** A 64-bit `size_t`. */
  type U64 = x: int | 0 <= x < 0x1_0000_0000_0000_0000

  /** A `std::string` seen as the bytes it holds. */
  type Bytes = seq<Byte>
}
