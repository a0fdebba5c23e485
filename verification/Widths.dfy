/** The unsigned machine integers of the driver and the saturating operations it uses on them. */
module Widths {
  const U8_MAX := 0xFF
  const U32_MAX := 0xFFFF_FFFF
  const U64_MAX := 0xFFFF_FFFF_FFFF_FFFF

  type u8 = x: int | 0 <= x <= U8_MAX
  type u16 = x: int | 0 <= x <= 0xFFFF
  type u32 = x: int | 0 <= x <= U32_MAX
  type u64 = x: int | 0 <= x <= U64_MAX

  // A monotonic clock reading: 100 ns ticks of a 64-bit counter divided by 10 000.
  type Millis = x: int | 0 <= x <= U64_MAX / 10_000

  function Min(a: int, b: int): int {
    if a < b then a else b
  }

  function Max(a: int, b: int): int {
    if a < b then b else a
  }

  function SatAdd8(a: u8, b: u8): u8 {
    Min(a + b, U8_MAX)
  }

  function SatAdd32(a: u32, b: u32): u32 {
    Min(a + b, U32_MAX)
  }

  function SatMul32(a: u32, b: u32): u32 {
    assert 0 <= a * b;
    Min(a * b, U32_MAX)
  }

  function SatAdd64(a: u64, b: u64): u64 {
    Min(a + b, U64_MAX)
  }

  // The saturating difference of any unsigned width.
  function SatSub(a: nat, b: nat): nat {
    if a < b then 0 else a - b
  }

  // A count seen through a saturating 64-bit counter.
  function Sat64(n: nat): u64 {
    Min(n, U64_MAX)
  }

  // `x as i32` of a u32: two's complement.
  function AsI32(x: u32): int {
    if x < 0x8000_0000 then x else x - 0x1_0000_0000
  }

  // The register byte of a code.
  function Byte(code: u8): (b: bv8)
    ensures b as int == code
  {
    if code == 0 then 0 else NextByte(Byte(code - 1)); Byte(code - 1) + 1
  }

  lemma NextByte(b: bv8)
    requires b < 255
    ensures (b + 1) as int == b as int + 1
  {
  }
}
