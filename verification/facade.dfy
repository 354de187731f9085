/** The driver's public helpers built on `lcdCommand` and `lcdWrite`:
    clearing, homing, the write direction, cursor moves, display flags,
    custom glyphs and writing characters. Each takes the driver record and
    the callbacks' script and returns a `Run`. The C code's `a || b`
    chains stop at the first call that returns non-zero, and most helpers
    report any such stop as -1. */
module Facade {
  import opened Commands
  import opened Cursor
  import opened Bus
  import opened Lcd
  import opened Engine
  import opened EngineFacts

  /** `lcdCommand(cmd) || lcdDelay(us)`: a command followed by a settle
      delay; either one returning non-zero gives -1. Only the command can
      record `EIO`. */
  function Settled(d: Driver, cmd: byte, us: u32, script: seq<int>): (r: Run)
    ensures Sound(script, r)
    ensures r.rc == 0 || r.rc == -1
    ensures r.drv == d || (r.drv == d.(error := EIO) && r.rc == -1)
    ensures 0 < |r.trace| && r.trace[0] == IO(false, false, false, cmd)
  {
    var c := Command(d, cmd, script);
    if c.rc != 0 then
      Fail(c)
    else
      var w := Call(c.drv, Delay(us), c.rest);
      ThenSound(script, c, w);
      if w.rc != 0 then Fail(Then(c, w)) else Then(c, w)
  }

  /** `lcdClear`: the cursor returns to the top-left cell only when both
      the command and the delay succeed. */
  function Clear(d: Driver, script: seq<int>): (r: Run)
    ensures Sound(script, r)
    ensures r.rc == 0 ==> r.drv == d.(cursor := Pos(0, 0))
    ensures r.rc != 0 ==> r.rc == -1 && (r.drv == d || r.drv == d.(error := EIO))
    ensures 0 < |r.trace| && r.trace[0] == IO(false, false, false, 0x01)
  {
    var r := Settled(d, Commands.Clear(), d.timing.busyHoldShort, script);
    if r.rc != 0 then r else r.(drv := r.drv.(cursor := Pos(0, 0)))
  }

  /** `lcdHome`: as `lcdClear`, with the home instruction and the long
      settle delay. */
  function Home(d: Driver, script: seq<int>): (r: Run)
    ensures Sound(script, r)
    ensures r.rc == 0 ==> r.drv == d.(cursor := Pos(0, 0))
    ensures r.rc != 0 ==> r.rc == -1 && (r.drv == d || r.drv == d.(error := EIO))
    ensures 0 < |r.trace| && r.trace[0] == IO(false, false, false, 0x02)
  {
    var r := Settled(d, Commands.Home(), d.timing.busyHoldLong, script);
    if r.rc != 0 then r else r.(drv := r.drv.(cursor := Pos(0, 0)))
  }

  /** `lcdDirection`: sets the controller's entry mode, without display
      shift, and records the direction only when that succeeded. */
  function Direction(d: Driver, forward: bool, script: seq<int>): (r: Run)
    ensures Sound(script, r)
    ensures r.rc == 0 ==> r.drv == d.(forward := forward)
    ensures r.rc != 0 ==> r.rc == -1 && (r.drv == d || r.drv == d.(error := EIO))
    ensures 0 < |r.trace| && r.trace[0] == IO(false, false, false, Entry(forward, false))
  {
    var r := Settled(d, Entry(forward, false), d.timing.busyHoldShort, script);
    if r.rc != 0 then r else r.(drv := r.drv.(forward := forward))
  }

  /** `lcdNext`: the cursor steps first, then the controller is pointed at
      the new cell; the step stays even when the command fails. */
  function Next(d: Driver, script: seq<int>): (r: Run)
    ensures Sound(script, r)
    ensures r.rc == 0 || r.rc == -1
    ensures var moved := d.(cursor := Step(d.cursor, d.forward, d.width, d.height));
      r.drv == moved || (r.drv == moved.(error := EIO) && r.rc == -1)
    ensures Valid(d) ==> Valid(r.drv)
    ensures 0 < |r.trace|
    ensures r.trace[0] == IO(false, false, false, DAddr(Decode(Step(d.cursor, d.forward, d.width, d.height), d.width)))
  {
    var moved := Advance(d);
    var c := Command(moved, DAddr(Address(moved)), script);
    if c.rc != 0 then Fail(c) else c
  }

  /** `lcdSetDisplay`: one display-control command, its result passed
      through. */
  function SetDisplay(d: Driver, display: bool, cursor: bool, blink: bool, script: seq<int>): (r: Run)
    ensures Sound(script, r)
    ensures r.drv == d || (r.drv == d.(error := EIO) && r.rc == -1)
    ensures 0 < |r.trace| && r.trace[0] == IO(false, false, false, Display(display, cursor, blink))
  {
    Command(d, Display(display, cursor, blink), script)
  }

  /** The command `lcdSetCursor` sends for a cell: the decoded address is
      stored in a `uint8_t` and masked into a set-display-address
      instruction. */
  function CellCommand(width: byte, column: byte, row: byte): byte {
    DAddr(Decode(Pos(column, row), width) % 256)
  }

  /** `lcdSetCursor`: moves the cursor, then points the controller at the
      cell; the command's result is passed through and the move stays even
      when it fails. */
  function SetCursor(d: Driver, column: byte, row: byte, script: seq<int>): (r: Run)
    requires column < d.width && row < d.height
    ensures Sound(script, r)
    ensures var moved := d.(cursor := Pos(column, row));
      r.drv == moved || (r.drv == moved.(error := EIO) && r.rc == -1)
    ensures Valid(d) ==> Valid(r.drv)
    ensures 0 < |r.trace| && r.trace[0] == IO(false, false, false, CellCommand(d.width, column, row))
  {
    var moved := d.(cursor := Pos(column, row));
    Command(moved, DAddr(Address(moved) % 256), script)
  }

  /** On the geometries the address formula is built for, the command
      `lcdSetCursor` sends is exactly `0x80` plus the cell's address. */
  lemma CellCommandTargetsCell(width: byte, height: byte, column: byte, row: byte)
    requires Standard(width, height) && column < width && row < height
    ensures CellCommand(width, column, row) == 0x80 + Decode(Pos(column, row), width)
  {
    var a := Decode(Pos(column, row), width);
    DecodeBounds(Pos(column, row), width, height);
    DAddrOffset(a % 256);
    SmallAddress(a);
  }

  lemma SmallAddress(a: int)
    requires 0 <= a <= 0x7F
    ensures a % 256 == a && a % 256 % 128 == a
  {
  }

  /** ... and distinct cells get distinct commands. */
  lemma CellCommandsDistinct(width: byte, height: byte, c1: byte, r1: byte, c2: byte, r2: byte)
    requires Standard(width, height) && c1 < width && r1 < height && c2 < width && r2 < height
    requires Pos(c1, r1) != Pos(c2, r2)
    ensures CellCommand(width, c1, r1) != CellCommand(width, c2, r2)
  {
    CellCommandTargetsCell(width, height, c1, r1);
    CellCommandTargetsCell(width, height, c2, r2);
    if Decode(Pos(c1, r1), width) == Decode(Pos(c2, r2), width) {
      DecodeInjective(Pos(c1, r1), Pos(c2, r2), width, height);
    }
  }

  /** `lcdWrite` for each byte in turn, stopping at the first one that
      returns non-zero. */
  function WriteAll(d: Driver, data: seq<byte>, script: seq<int>): (r: Run)
    ensures Sound(script, r)
    ensures r.rc == 0 || r.rc == -1
    ensures r.drv == d || (r.drv == d.(error := EIO) && r.rc == -1)
    decreases |data|
  {
    if |data| == 0 then
      Run(0, d, script, [])
    else
      var w := Write(d, data[0], script);
      if w.rc != 0 then
        Fail(w)
      else
        var more := WriteAll(w.drv, data[1..], w.rest);
        ThenSound(script, w, more);
        Then(w, more)
  }

  /** The calls `WriteAll` makes when every one of them succeeds. */
  function Writes(data: seq<byte>): seq<Op> {
    if |data| == 0 then [] else [Op(true, data[0])] + Writes(data[1..])
  }

  /** Rows of a glyph: 10 in the 5x10 font, 8 in the 5x8 font. */
  function GlyphRows(largeFont: bool): nat {
    if largeFont then 10 else 8
  }

  /** `lcdStoreGlyph`'s character-RAM address: eight bytes per glyph, and
      in the large font only the glyph numbers 0, 2, 4 and 6 (`which &
      0x06`, which `GlyphMask` shows is the same number for a negative
      `char` too), kept in a `uint8_t`. Shifting a negative `which` left is
      undefined in C, so the small font needs a non-negative one. */
  function GlyphAddress(largeFont: bool, which: int): byte
    requires largeFont || 0 <= which
  {
    ((if largeFont then (which / 2 % 4) * 2 else which) * 8) % 256
  }

  /** `lcdStoreGlyph`: points the controller at the glyph's character RAM
      and writes its rows. `which` is a signed `char`, and the assertion
      reads `which >> 1` as floor division, so in the large font every
      negative glyph number passes it and lands on slot `which & 0x06`. In
      the small font a negative one passes the assertion but `which << 3`
      is undefined in C (the documented range is 0 to 8), so the model
      asks for a non-negative one there. */
  function StoreGlyph(d: Driver, which: int, bits: seq<byte>, script: seq<int>): (r: Run)
    requires -128 <= which < 128
    requires (d.largeFont && which / 2 < 4) || which < 8
    requires d.largeFont || 0 <= which
    requires GlyphRows(d.largeFont) <= |bits|
    ensures Sound(script, r)
    ensures r.rc == 0 || r.rc == -1
    ensures r.drv == d || (r.drv == d.(error := EIO) && r.rc == -1)
    ensures 0 < |r.trace| && r.trace[0] == IO(false, false, false, CAddr(GlyphAddress(d.largeFont, which)))
  {
    var c := Command(d, CAddr(GlyphAddress(d.largeFont, which)), script);
    if c.rc != 0 then
      Fail(c)
    else
      var w := WriteAll(c.drv, bits[..GlyphRows(d.largeFont)], c.rest);
      ThenSound(script, c, w);
      Then(c, w)
  }

  /** Where each glyph lands: eight bytes apart, or sixteen in the large
      font where only even glyph numbers have slots of their own. */
  lemma GlyphSlot(largeFont: bool, which: int)
    requires 0 <= which < 8
    ensures GlyphAddress(largeFont, which) == if largeFont then 16 * (which / 2) else 8 * which
  {
    if which == 0 {} else if which == 1 {} else if which == 2 {} else if which == 3 {}
    else if which == 4 {} else if which == 5 {} else if which == 6 {} else {}
  }

  /** The glyph slots: each glyph's rows fit in the 64 bytes of character
      RAM behind its set-address instruction, and distinct glyphs (distinct
      even numbers in the large font) never share a byte. */
  lemma GlyphSlots(largeFont: bool, w1: int, w2: int)
    requires 0 <= w1 < 8 && 0 <= w2 < 8
    requires if largeFont then w1 / 2 != w2 / 2 else w1 != w2
    ensures var a1, a2 := GlyphAddress(largeFont, w1), GlyphAddress(largeFont, w2);
      && CAddr(a1) == 0x40 + a1 && a1 + GlyphRows(largeFont) <= 64
      && (a1 + GlyphRows(largeFont) <= a2 || a2 + GlyphRows(largeFont) <= a1)
  {
    GlyphSlot(largeFont, w1);
    GlyphSlot(largeFont, w2);
    CAddrOffset(GlyphAddress(largeFont, w1));
    var stride := if largeFont then 16 else 8;
    var k1, k2 := (if largeFont then w1 / 2 else w1), (if largeFont then w2 / 2 else w2);
    if k1 < k2 {
      MulMono(k1 + 1, k2, stride);
    } else {
      MulMono(k2 + 1, k1, stride);
    }
    MulMono(k1 + 1, if largeFont then 4 else 8, stride);
  }

  /** A large-font glyph number of any `char` value, negative ones
      included, lands on the slot of its residue modulo 8: one of the four
      slots 0, 16, 32 and 48. */
  lemma GlyphWraps(which: int)
    requires -128 <= which < 128
    ensures GlyphAddress(true, which) == GlyphAddress(true, which % 8)
    ensures GlyphAddress(true, which) in {0, 16, 32, 48}
  {
    assert which / 2 % 4 == which % 8 / 2;
  }

  /** The `char` whose two's-complement byte is `b`. */
  function Signed(b: bv8): (which: int)
    ensures -128 <= which < 128 && which % 256 == b as int
  {
    if b as int < 128 then b as int else b as int - 256
  }

  /** The model's `which / 2 % 4 * 2` is `which & 0x06` taken on the
      two's-complement byte `b` of the `char`. */
  lemma GlyphMask(b: bv8)
    ensures Signed(b) / 2 % 4 * 2 == (b & 6) as int
  {
    BitsMask(b);
    SignedWrap(b as int);
  }

  /** Subtracting 256 leaves the second and third bits alone. */
  lemma SignedWrap(u: int)
    requires 0 <= u < 256
    ensures (if u < 128 then u else u - 256) / 2 % 4 == u / 2 % 4
  {
  }

  lemma BitsMask(b: bv8)
    ensures (b & 6) as int == b as int / 2 % 4 * 2
  {
    MaskShift(b);
    ShiftDiv(b);
  }

  lemma MaskShift(b: bv8)
    ensures (b & 6) as int == ((b >> 1) & 3) as int * 2
  {
  }

  lemma ShiftDiv(b: bv8)
    ensures ((b >> 1) & 3) as int == (b as int / 2) % 4
  {
    HalfShift(b);
    LowBits(b >> 1);
  }

  lemma HalfShift(b: bv8)
    ensures (b >> 1) as int == b as int / 2
  {
  }

  lemma LowBits(c: bv8)
    ensures (c & 3) as int == c as int % 4
  {
  }

  /** `lcdCommand(DADDR(cursor)) || lcdWrite(chr)`, the first half of
      `lcdPutChar`: either failing gives -1. */
  function Place(d: Driver, chr: byte, script: seq<int>): (r: Run)
    ensures Sound(script, r)
    ensures r.rc == 0 || r.rc == -1
    ensures r.drv == d || (r.drv == d.(error := EIO) && r.rc == -1)
    ensures 0 < |r.trace| && r.trace[0] == IO(false, false, false, DAddr(Address(d)))
  {
    var c := Command(d, DAddr(Address(d)), script);
    if c.rc != 0 then
      Fail(c)
    else
      var w := Write(c.drv, chr, c.rest);
      ThenSound(script, c, w);
      if w.rc != 0 then Fail(Then(c, w)) else Then(c, w)
  }

  /** What `lcdPutChar`, `lcdPutString` and their parts may do to the driver: move the
      cursor, and record `EIO` only when it returns -1. */
  predicate Framed(d: Driver, r: Run) {
    && r.drv == d.(cursor := r.drv.cursor, error := r.drv.error)
    && (r.drv.error == d.error || (r.drv.error == EIO && r.rc == -1))
  }

  /** A step that left the driver alone, followed by one that ran on the
      driver with its cursor moved: only the cursor, which moved at most
      once, and on failure the error code differ from where the first step
      started. */
  lemma StepFrame(d: Driver, first: Run, next: Run)
    requires first.rc == 0 && (first.drv == d || (first.drv == d.(error := EIO) && first.rc == -1))
    requires next.drv == Advance(first.drv) || (next.drv == Advance(first.drv).(error := EIO) && next.rc == -1)
    ensures var r := Then(first, next);
      && Framed(d, r)
      && r.drv.cursor == Advance(d).cursor
      && (Valid(d) ==> Valid(r.drv))
      && (r.rc == 0 ==> r.drv == Advance(d))
  {
  }

  /** `lcdPutChar`: address the cursor's cell, write the character, step
      the cursor and address the new cell. The first two report failure as
      -1; the last one's result is passed through, and the step stays even
      when it fails. */
  function PutChar(d: Driver, chr: byte, script: seq<int>): (r: Run)
    ensures Sound(script, r)
    ensures Framed(d, r) && (Valid(d) ==> Valid(r.drv))
    ensures r.drv.cursor == d.cursor || r.drv.cursor == Advance(d).cursor
    ensures r.rc == 0 ==> r.drv == Advance(d)
    ensures 0 < |r.trace| && r.trace[0] == IO(false, false, false, DAddr(Address(d)))
  {
    var p := Place(d, chr, script);
    if p.rc != 0 then
      p
    else
      var moved := Advance(p.drv);
      var e := Command(moved, DAddr(Address(moved)), p.rest);
      ThenSound(script, p, e);
      StepFrame(d, p, e);
      Then(p, e)
  }

  /** The re-address command of `lcdPutString`'s loop, sent when the new
      cell's address does not follow `address`: as written it carries
      `address`, and with `fixed` the new address. Failure gives -1. */
  function Readdress(d: Driver, address: byte, script: seq<int>, fixed: bool): (r: Run)
    ensures Sound(script, r)
    ensures r.rc == 0 || r.rc == -1
    ensures r.drv == d || (r.drv == d.(error := EIO) && r.rc == -1)
    ensures |r.trace| == 0 <==> (Address(d) % 256 == address + 1 && r.rc == 0)
    ensures 0 < |r.trace| ==> r.trace[0] == IO(false, false, false, DAddr(if fixed then Address(d) % 256 else address))
  {
    var na := Address(d) % 256;
    if na != address + 1 then
      var c := Command(d, DAddr(if fixed then na else address), script);
      if c.rc != 0 then Fail(c) else c
    else
      Run(0, d, script, [])
  }

  /** The command `Readdress` sends, if any. Like `PutOpsFrom` and `PutOps`
      below, this lists calls for the case where every call succeeds; the
      model's operations do not use it, the lemmas of `Addressing` and
      `FacadeFacts` compare the operations against it. */
  function Readdressing(d: Driver, address: byte, fixed: bool): seq<Op> {
    var na := Address(d) % 256;
    if na != address + 1 then [Op(false, DAddr(if fixed then na else address))] else []
  }

  /** The calls `lcdPutString`'s loop and final command make for `str`
      when every one of them succeeds: a reference list read by lemmas,
      not used by `PutFrom` itself. */
  function PutOpsFrom(d: Driver, str: seq<byte>, address: byte, fixed: bool): seq<Op>
    decreases |str|
  {
    if |str| == 0 then
      [Op(false, DAddr(address))]
    else
      var moved := Advance(d);
      [Op(true, str[0])] + Readdressing(moved, address, fixed)
      + PutOpsFrom(moved, str[1..], Address(moved) % 256, fixed)
  }

  /** All calls of `lcdPutString` when every one of them succeeds. */
  function PutOps(d: Driver, str: seq<byte>, fixed: bool): seq<Op> {
    var address := Address(d) % 256;
    [Op(false, DAddr(address))] + PutOpsFrom(d, str, address, fixed)
  }

  /** One pass of `lcdPutString`'s loop: write the character, step the
      cursor, re-address when needed. Either failing gives -1. */
  function PutStep(d: Driver, chr: byte, address: byte, script: seq<int>, fixed: bool): (r: Run)
    ensures Sound(script, r)
    ensures r.rc == 0 || r.rc == -1
    ensures Framed(d, r) && (Valid(d) ==> Valid(r.drv))
    ensures r.rc == 0 ==> r.drv == Advance(d)
    ensures r.drv.cursor == d.cursor || r.drv.cursor == Advance(d).cursor
    ensures 0 < |r.trace| && r.trace[0] == IO(false, true, false, chr)
  {
    var w := Write(d, chr, script);
    if w.rc != 0 then
      Fail(w)
    else
      var c := Readdress(Advance(w.drv), address, w.rest, fixed);
      ThenSound(script, w, c);
      StepFrame(d, w, c);
      Then(w, c)
  }

  /** The step case of `PutFrom`: a successful pass of the loop, then the
      rest of the string from the moved cursor. */
  lemma PutFromStep(d: Driver, s: Run, more: Run, n: nat)
    requires s.rc == 0 && s.drv == Advance(d)
    requires Framed(s.drv, more) && (Valid(s.drv) ==> Valid(more.drv))
    requires more.rc == 0 ==> more.drv.cursor == StepN(s.drv.cursor, d.forward, d.width, d.height, n) && more.drv.error == d.error
    ensures var r := Then(s, more);
      && Framed(d, r) && (Valid(d) ==> Valid(r.drv))
      && (r.rc == 0 ==> r.drv.cursor == StepN(d.cursor, d.forward, d.width, d.height, n + 1) && r.drv.error == d.error)
  {
    StepNAfterStep(d.cursor, d.forward, d.width, d.height, n);
  }

  /** The loop of `lcdPutString` from its first character on, and the
      final set-address command whose result is passed through; `address`
      is the `uint8_t` variable of the same name. */
  function PutFrom(d: Driver, str: seq<byte>, address: byte, script: seq<int>, fixed: bool): (r: Run)
    ensures Sound(script, r) && Framed(d, r)
    ensures r.rc == 0 ==> r.drv.cursor == StepN(d.cursor, d.forward, d.width, d.height, |str|) && r.drv.error == d.error
    ensures Valid(d) ==> Valid(r.drv)
    decreases |str|
  {
    if |str| == 0 then
      Command(d, DAddr(address), script)
    else
      var s := PutStep(d, str[0], address, script, fixed);
      if s.rc != 0 then
        s
      else
        var more := PutFrom(s.drv, str[1..], Address(s.drv) % 256, s.rest, fixed);
        ThenSound(script, s, more);
        PutFromStep(d, s, more, |str| - 1);
        Then(s, more)
  }

  /** The first set-address command of `lcdPutString`, then its loop. */
  lemma PutFrame(d: Driver, c: Run, more: Run, n: nat)
    requires c.rc == 0 && c.drv == d
    requires Framed(d, more) && (Valid(d) ==> Valid(more.drv))
    requires more.rc == 0 ==> more.drv.cursor == StepN(d.cursor, d.forward, d.width, d.height, n) && more.drv.error == d.error
    ensures var r := Then(c, more);
      && Framed(d, r) && (Valid(d) ==> Valid(r.drv))
      && (r.rc == 0 ==> r.drv == d.(cursor := StepN(d.cursor, d.forward, d.width, d.height, n)))
  {
  }

  /** `lcdPutString` as written (`fixed` false), and with the re-address
      command carrying the new address (`fixed` true). */
  function Put(d: Driver, str: seq<byte>, script: seq<int>, fixed: bool): (r: Run)
    ensures Sound(script, r) && Framed(d, r)
    ensures r.rc == 0 ==> r.drv == d.(cursor := StepN(d.cursor, d.forward, d.width, d.height, |str|))
    ensures Valid(d) ==> Valid(r.drv)
    ensures 0 < |r.trace| && r.trace[0] == IO(false, false, false, DAddr(Address(d) % 256))
  {
    var address := Address(d) % 256;
    var c := Command(d, DAddr(address), script);
    if c.rc != 0 then
      Fail(c)
    else
      var more := PutFrom(c.drv, str, address, c.rest, fixed);
      PutJoin(d, str, address, script, fixed);
      Then(c, more)
  }

  /** The success path of `Put`: the first set-address command, then the
      loop. */
  lemma PutJoin(d: Driver, str: seq<byte>, address: byte, script: seq<int>, fixed: bool)
    requires address == Address(d) % 256 && Command(d, DAddr(address), script).rc == 0
    ensures var c := Command(d, DAddr(address), script);
      var r := Then(c, PutFrom(d, str, address, c.rest, fixed));
      && Sound(script, r) && Framed(d, r)
      && (r.rc == 0 ==> r.drv == d.(cursor := StepN(d.cursor, d.forward, d.width, d.height, |str|)))
      && (Valid(d) ==> Valid(r.drv))
      && 0 < |r.trace| && r.trace[0] == IO(false, false, false, DAddr(address))
  {
    var c := Command(d, DAddr(address), script);
    var more := PutFrom(d, str, address, c.rest, fixed);
    ThenSound(script, c, more);
    PutFrame(d, c, more, |str|);
  }

  /** `lcdPutString` as the source has it. */
  function PutString(d: Driver, str: seq<byte>, script: seq<int>): (r: Run)
    ensures Sound(script, r)
    ensures r.rc == 0 ==> r.drv == d.(cursor := StepN(d.cursor, d.forward, d.width, d.height, |str|))
    ensures Valid(d) ==> Valid(r.drv)
  {
    Put(d, str, script, false)
  }

  /** `lcdPutString` with the re-address command sending the new address. */
  function PutStringFixed(d: Driver, str: seq<byte>, script: seq<int>): (r: Run)
    ensures Sound(script, r)
    ensures r.rc == 0 ==> r.drv == d.(cursor := StepN(d.cursor, d.forward, d.width, d.height, |str|))
    ensures Valid(d) ==> Valid(r.drv)
  {
    Put(d, str, script, true)
  }
}
