/** Instruction bytes of the HD44780 controller, built the way the driver's
    `LCD_CMD_*` macros build them: a tag bit that names the instruction, ORed
    with the instruction's flag bits (each flag normalised to 0 or 1 first,
    as `!!` does) or with a masked RAM address. */
module Commands {

  /** An 8-bit value on the data bus. */
  type byte = x: int | 0 <= x < 256

  /** `!!b`: a flag as the single bit 0 or 1. */
  function Flag(b: bool): bv8 {
    if b then 1 else 0
  }

  /** Bit `k` (0 = least significant) of a byte. */
  function Bit(v: byte, k: nat): int
    requires k < 8
  {
    ((v as bv8 >> k) & 1) as int
  }

  function Clear(): byte { 0x01 }

  function Home(): byte { 0x02 }

  /** Entry mode: `dir` true moves right (increment), `s` shifts the display. */
  function Entry(dir: bool, s: bool): (r: byte)
    ensures 0x04 <= r <= 0x07
    ensures Bit(r, 1) == Flag(dir) as int && Bit(r, 0) == Flag(s) as int
  {
    (0x04 | (Flag(dir) << 1) | Flag(s)) as int
  }

  /** Display control: whole display on, underline cursor, blinking block. */
  function Display(f: bool, c: bool, b: bool): (r: byte)
    ensures 0x08 <= r <= 0x0F
    ensures Bit(r, 2) == Flag(f) as int && Bit(r, 1) == Flag(c) as int && Bit(r, 0) == Flag(b) as int
  {
    (0x08 | (Flag(f) << 2) | (Flag(c) << 1) | Flag(b)) as int
  }

  /** Cursor or display shift: `s` shifts the display, `r` goes right. */
  function CursorShift(s: bool, right: bool): (r: byte)
    ensures 0x10 <= r <= 0x1C
    ensures Bit(r, 3) == Flag(s) as int && Bit(r, 2) == Flag(right) as int
    ensures Bit(r, 1) == 0 && Bit(r, 0) == 0
  {
    (0x10 | (Flag(s) << 3) | (Flag(right) << 2)) as int
  }

  /** Function set: `b` 8-bit bus, `n` two lines, `f` the 5x10 font. */
  function Function(b: bool, n: bool, f: bool): (r: byte)
    ensures 0x20 <= r <= 0x3C
    ensures Bit(r, 4) == Flag(b) as int && Bit(r, 3) == Flag(n) as int && Bit(r, 2) == Flag(f) as int
    ensures Bit(r, 1) == 0 && Bit(r, 0) == 0
  {
    (0x20 | (Flag(b) << 4) | (Flag(n) << 3) | (Flag(f) << 2)) as int
  }

  /** Set the character-generator RAM pointer; only the low six bits of
      `addr` reach the controller. Masking the low bits of a two's
      complement `int` is the remainder that never goes negative, which is
      what `%` is here. */
  function CAddr(addr: int): (r: byte)
    ensures 0x40 <= r <= 0x7F
    ensures r % 64 == addr % 64
  {
    (0x40 | ((addr % 64) as bv8)) as int
  }

  /** Set the display RAM pointer; only the low seven bits of `addr` reach
      the controller. */
  function DAddr(addr: int): (r: byte)
    ensures 0x80 <= r <= 0xFF
    ensures r % 128 == addr % 128
  {
    (0x80 | ((addr % 128) as bv8)) as int
  }

  /** The address instructions carry the address's low bits below their
      tag bit. */
  lemma DAddrOffset(addr: int)
    ensures DAddr(addr) == 0x80 + addr % 128
  {
  }

  lemma CAddrOffset(addr: int)
    ensures CAddr(addr) == 0x40 + addr % 64
  {
  }

  /** The tag of every flag instruction is its highest set bit: the flag
      bits all lie strictly below it, so each instruction family occupies
      its own range and no two families share a byte. */
  lemma TagIsHighestBit(dir: bool, s: bool, f: bool, c: bool, b: bool, n: bool, right: bool)
    ensures Entry(dir, s) / 4 == 1
    ensures Display(f, c, b) / 8 == 1
    ensures CursorShift(s, right) / 16 == 1
    ensures Function(b, n, f) / 32 == 1
  {
  }

  /** The examples that the initialisation sequence relies on. */
  lemma FunctionExamples()
    ensures Function(true, false, false) == 0x30
    ensures Function(false, false, false) == 0x20
  {
  }
}
