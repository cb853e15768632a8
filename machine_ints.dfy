/** The fixed-width integer types of the source, as ranges of unbounded integers. */
module MachineInts {

  const U8_LIMIT: int := 0x100
  const U32_LIMIT: int := 0x1_0000_0000
  const U64_LIMIT: int := 0x1_0000_0000_0000_0000

  /** `u8`, `u32`, `u64`; `usize` is taken to be 64 bits wide. */
  type u8 = x: int | 0 <= x < U8_LIMIT
  type u32 = x: int | 0 <= x < U32_LIMIT
  type u64 = x: int | 0 <= x < U64_LIMIT
  type usize = u64

  /** `i32` and `i64`, two's complement. */
  type i32 = x: int | -0x8000_0000 <= x < 0x8000_0000
  type i64 = x: int | -0x8000_0000_0000_0000 <= x < 0x8000_0000_0000_0000
}
