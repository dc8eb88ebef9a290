/** Machine word types of the 6502 and its 16-bit address bus. */
module Bytes {

  /** Rust `u8`. */
  type u8 = x: int | 0 <= x < 0x100

  /** Rust `u16`: a CPU address. */
  type u16 = x: int | 0 <= x < 0x1_0000

  /** Address arithmetic on the 16-bit bus wraps around. */
  function Wrap16(x: int): (r: u16)
    ensures 0 <= x < 0x1_0000 ==> r == x
    ensures (r - x) % 0x1_0000 == 0
  {
    x % 0x1_0000
  }
}
