/** Fixed-width integer types of the emulator's C++ code base (u8, u16, u32,
    s32, u64) and the one wrapping operation the texture helpers use: a
    left shift by one bit of a u32. */
module FixedWidth {

  const U32_MODULUS: int := 0x1_0000_0000
  const U32_HALF: int := 0x8000_0000

  newtype u8 = x: int | 0 <= x < 0x100
  newtype u16 = x: int | 0 <= x < 0x1_0000
  newtype u32 = x: int | 0 <= x < 0x1_0000_0000
  newtype s32 = x: int | -0x8000_0000 <= x < 0x8000_0000
  newtype u64 = x: int | 0 <= x < 0x1_0000_0000_0000_0000

  /** `x <<= 1` on a u32: the top bit falls off, so the value doubles below
      2^31 and wraps around at or above it. */
  function Shl1(x: u32): (r: u32)
    ensures x as int < U32_HALF ==> r as int == 2 * x as int
    ensures x as int >= U32_HALF ==> r as int == 2 * x as int - U32_MODULUS
  {
    ((x as int * 2) % U32_MODULUS) as u32
  }
}
