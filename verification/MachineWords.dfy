/**
 Machine words as bounded integers, and the constants that go with them.
 */
module MachineWords {
  const TWO_16: int := 0x1_0000
  const TWO_30: int := 0x4000_0000
  const TWO_31: int := 0x8000_0000
  const TWO_32: int := 0x1_0000_0000
  const TWO_35: int := 0x8_0000_0000
  const TWO_61: int := 0x2000_0000_0000_0000
  const TWO_63: int := 0x8000_0000_0000_0000
  const TWO_64: int := 0x1_0000_0000_0000_0000

  /** Nanoseconds in a second. */
  const NSEC: int := 1_000_000_000

  type Byte = x: int | 0 <= x < 0x100
  type Word16 = x: int | 0 <= x < TWO_16
  type Word32 = x: int | 0 <= x < TWO_32
  type Word64 = x: int | 0 <= x < TWO_64
  type Int64 = x: int | -TWO_63 <= x < TWO_63
}
