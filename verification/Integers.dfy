/** The machine integers shared by the other modules. */
module Integers {
  const U32_MODULUS: int := 0x1_0000_0000

  const U32_MAX: nat := 0xFFFF_FFFF

  type U32 = x: int | 0 <= x < U32_MODULUS

  type Byte = x: int | 0 <= x < 256

  type Bytes = seq<Byte>
}
