/** Types and constants shared by every part of the blinklib model. */
module Common {

  /** An 8-bit unsigned value (`byte`, `uint8_t`); bit operations wrap at 8 bits. */
  type byte = bv8

  /** An 8-bit unsigned counter (`uint8_t`) where it is only counted, kept as an integer. */
  type u8 = x: int | 0 <= x < 0x100

  /** A 16-bit unsigned value (`word`, `uint16_t`), kept as an integer. */
  type word = x: int | 0 <= x < 0x1_0000

  /** A 32-bit unsigned value (`millis_t`, `uint32_t`), kept as an integer. */
  type u32 = x: int | 0 <= x < 0x1_0000_0000

  const TWO16: int := 0x1_0000
  const TWO32: int := 0x1_0000_0000

  /** Number of faces on a tile (blinklib_common.h). */
  const FACE_COUNT: nat := 6

  /** The 32-bit wrap-around of unsigned C arithmetic. */
  function Wrap32(x: int): (r: u32)
    ensures 0 <= x < TWO32 ==> r == x
    ensures 0 <= x ==> r <= x
  {
    x % TWO32
  }

  datatype Option<T> = None | Some(value: T)
}
