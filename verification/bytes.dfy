/** Machine integer widths of the STM8 firmware (compiled with SDCC, where
    `int` is 16 bits wide), and the byte/word conversions the serial protocol
    uses. All arithmetic is done on unbounded `int` and wrapped explicitly. */
module Bytes {

  type u8 = x: int | 0 <= x < 0x100
  type u16 = x: int | 0 <= x < 0x1_0000
  type u32 = x: int | 0 <= x < 0x1_0000_0000
  type i16 = x: int | -0x8000 <= x < 0x8000

  /** Conversion of an arbitrary integer to `uint8_t` (keeps the low byte). */
  function U8(x: int): (r: u8)
    ensures 0 <= x < 0x100 ==> r == x
  {
    x % 0x100
  }

  /** Conversion of an arbitrary integer to `uint16_t`. */
  function U16(x: int): (r: u16)
    ensures 0 <= x < 0x1_0000 ==> r == x
  {
    x % 0x1_0000
  }

  /** Conversion of an arbitrary integer to `uint32_t`. */
  function U32(x: int): (r: u32)
    ensures 0 <= x < 0x1_0000_0000 ==> r == x
  {
    x % 0x1_0000_0000
  }

  /** Conversion of an arbitrary integer to `int16_t` (two's complement). */
  function I16(x: int): (r: i16)
    ensures -0x8000 <= x < 0x8000 ==> r == x
  {
    var w := x % 0x1_0000;
    if w < 0x8000 then w else w - 0x1_0000
  }

  /** `(uint8_t)x` of a 16-bit word. */
  function Lo(x: u16): u8 { x % 0x100 }

  /** `x >> 8` of a 16-bit word. */
  function Hi(x: u16): u8 { x / 0x100 }

  /** `lo | hi << 8`: the little-endian word formed by two bytes. */
  function Word(lo: u8, hi: u8): u16
  {
    lo + 0x100 * hi
  }

  /** The two bytes of a word are recovered from it. */
  lemma BytesOfWord(lo: u8, hi: u8)
    ensures Lo(Word(lo, hi)) == lo && Hi(Word(lo, hi)) == hi
  {
  }

  /** A word is recovered from its two bytes. */
  lemma WordOfBytes(x: u16)
    ensures Word(Lo(x), Hi(x)) == x
  {
  }

  /** The four little-endian bytes of a 32-bit value, as `send4` extracts them. */
  function Byte(x: u32, k: nat): (r: u8)
    requires k < 4
  {
    if k == 0 then x % 0x100
    else if k == 1 then (x / 0x100) % 0x100
    else if k == 2 then (x / 0x1_0000) % 0x100
    else x / 0x100_0000
  }

  lemma BytesOfU32(x: u32)
    ensures Byte(x, 0) + 0x100 * Byte(x, 1) + 0x1_0000 * Byte(x, 2) + 0x100_0000 * Byte(x, 3) == x
  {
    var q1, q2, q3 := x / 0x100, x / 0x1_0000, x / 0x100_0000;
    assert x == 0x100 * q1 + Byte(x, 0);
    ShiftByte(x, 0x100);
    assert q1 == 0x100 * q2 + Byte(x, 1);
    ShiftByte(x, 0x1_0000);
    assert q2 == 0x100 * q3 + Byte(x, 2);
  }

  /** Dropping one more byte of `x` below position `d`. */
  lemma ShiftByte(x: nat, d: nat)
    requires d == 0x100 || d == 0x1_0000
    ensures x / d == 0x100 * (x / (d * 0x100)) + (x / d) % 0x100
  {
    var q := x / (d * 0x100);
    var r := x % (d * 0x100);
    assert x == d * 0x100 * q + r;
    assert x / d == 0x100 * q + r / d;
  }

  /** Minimum and maximum of two integers: the clamps and saturating
      counters of the firmware are stated with them. */
  function Min(x: int, y: int): int { if x <= y then x else y }
  function Max(x: int, y: int): int { if x >= y then x else y }
}
