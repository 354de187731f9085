/** The controller's side of `lcdPutString`: where the HD44780's display
    address counter puts each character the driver writes. A set-address
    instruction loads the counter with its low seven bits; a data write
    stores the character at the counter and then moves the counter one
    address in the entry-mode direction. Following the calls `PutOps`
    lists through this counter shows the line that re-addresses the
    controller sending the previous address instead of the new one, and
    that the corrected line puts every character on its cursor cell. */
module Addressing {
  import opened Commands
  import opened Cursor
  import opened Lcd
  import opened EngineFacts
  import Facade

  /** The address counter after a data write: one address on, within the
      seven-bit display address space. */
  function Bump(ac: int, forward: bool): int {
    (if forward then ac + 1 else ac - 1) % 128
  }

  /** The address counter after the calls `ops`. */
  function Counter(ops: seq<Op>, ac: int, forward: bool): int {
    if |ops| == 0 then ac
    else if ops[0].rs then Counter(ops[1..], Bump(ac, forward), forward)
    else if ops[0].v >= 0x80 then Counter(ops[1..], ops[0].v - 0x80, forward)
    else Counter(ops[1..], ac, forward)
  }

  /** The display addresses that the data writes among `ops` land on, in
      order, starting from address counter `ac`. */
  function Landings(ops: seq<Op>, ac: int, forward: bool): seq<int> {
    if |ops| == 0 then []
    else if ops[0].rs then [ac] + Landings(ops[1..], Bump(ac, forward), forward)
    else if ops[0].v >= 0x80 then Landings(ops[1..], ops[0].v - 0x80, forward)
    else Landings(ops[1..], ac, forward)
  }

  /** Running two call lists one after the other. */
  lemma {:induction false} LandingsAppend(a: seq<Op>, b: seq<Op>, ac: int, forward: bool)
    ensures Landings(a + b, ac, forward) == Landings(a, ac, forward) + Landings(b, Counter(a, ac, forward), forward)
  {
    if |a| == 0 {
      assert a + b == b;
    } else {
      assert (a + b)[0] == a[0] && (a + b)[1..] == a[1..] + b;
      var next := if a[0].rs then Bump(ac, forward) else if a[0].v >= 0x80 then a[0].v - 0x80 else ac;
      LandingsAppend(a[1..], b, next, forward);
    }
  }

  /** The display address of the cell the cursor is on after `i` steps,
      as the driver computes it. */
  function Target(d: Driver, i: nat): int {
    Decode(StepN(d.cursor, d.forward, d.width, d.height, i), d.width) % 128
  }

  /** Where the characters of a forward write should land: on the cells
      the cursor passes, one after another. */
  function Targets(d: Driver, n: nat): seq<int> {
    seq(n, i requires 0 <= i < n => Target(d, i))
  }

  lemma TargetsAfterStep(d: Driver, n: nat)
    requires 0 < n
    ensures Targets(d, n) == [Target(d, 0)] + Targets(Advance(d), n - 1)
  {
    forall i | 0 <= i < n - 1
      ensures Target(Advance(d), i) == Target(d, i + 1)
    {
      StepNAfterStep(d.cursor, d.forward, d.width, d.height, i);
    }
  }

  /** One pass of the corrected loop: the character lands on the counter,
      and the counter ends on the next cell's address. */
  lemma FixedPass(d: Driver, chr: byte, address: byte, ac: int)
    requires d.forward
    requires ac == address % 128
    ensures var moved := Advance(d);
      var head := [Op(true, chr)] + Facade.Readdressing(moved, address, true);
      && Landings(head, ac, true) == [ac]
      && Counter(head, ac, true) == (Address(moved) % 256) % 128
  {
    var moved := Advance(d);
    var na := Address(moved) % 256;
    var extra := Facade.Readdressing(moved, address, true);
    var head := [Op(true, chr)] + extra;
    assert head[0] == Op(true, chr) && head[1..] == extra;
    if na != address + 1 {
      DAddrOffset(na);
      assert extra == [Op(false, DAddr(na))];
      assert extra[1..] == [];
      assert Counter(extra, Bump(ac, true), true) == na % 128;
      assert Landings(extra, Bump(ac, true), true) == [];
    } else {
      assert extra == [];
      NextAddress(address);
    }
  }

  /** Keeping eight bits of an address, then seven, keeps seven. */
  lemma NarrowAddress(a: int)
    ensures (a % 256) % 128 == a % 128
  {
  }

  lemma NextAddress(a: int)
    ensures (a % 128 + 1) % 128 == (a + 1) % 128
  {
  }

  /** The corrected loop writing forward puts every character on the cell
      the cursor was on when it was written. */
  lemma {:induction false} FixedLandsFrom(d: Driver, str: seq<byte>, address: byte, ac: int)
    requires d.forward
    requires address == Address(d) % 256 && ac == address % 128
    ensures Landings(Facade.PutOpsFrom(d, str, address, true), ac, true) == Targets(d, |str|)
    decreases |str|
  {
    var ops := Facade.PutOpsFrom(d, str, address, true);
    if |str| == 0 {
      assert ops[0].v >= 0x80 && ops[1..] == [];
    } else {
      var moved := Advance(d);
      var na := Address(moved) % 256;
      var head := [Op(true, str[0])] + Facade.Readdressing(moved, address, true);
      var tail := Facade.PutOpsFrom(moved, str[1..], na, true);
      assert ops == head + tail;
      FixedPass(d, str[0], address, ac);
      LandingsAppend(head, tail, ac, true);
      FixedLandsFrom(moved, str[1..], na, na % 128);
      TargetsAfterStep(d, |str|);
      NarrowAddress(Address(d));
      assert Target(d, 0) == ac;
    }
  }

  /** `lcdPutString` with the corrected re-address line, writing forward:
      the i-th character lands on the display address of the i-th cell the
      cursor passes, wherever the counter stood before. */
  lemma PutStringFixedLands(d: Driver, str: seq<byte>, ac: int)
    requires d.forward
    ensures Landings(Facade.PutOps(d, str, true), ac, true) == Targets(d, |str|)
  {
    var address := Address(d) % 256;
    var first := [Op(false, DAddr(address))];
    DAddrOffset(address);
    LandingsAppend(first, Facade.PutOpsFrom(d, str, address, true), ac, true);
    assert first[1..] == [];
    FixedLandsFrom(d, str, address, address % 128);
  }

  /** A 16x2 display in 4-bit mode, writing forward, cursor two cells
      before the end of the top line. */
  const Sample := Driver(0, 16, 2, true, false, false, DefaultTiming, Pos(14, 0), true)

  /** The cells three forward steps from `Sample`'s cursor. */
  lemma SampleCells()
    ensures Advance(Sample).cursor == Pos(15, 0)
    ensures Advance(Advance(Sample)).cursor == Pos(0, 1)
    ensures Advance(Advance(Advance(Sample))).cursor == Pos(1, 1)
    ensures Targets(Sample, 3) == [14, 15, 64]
  {
    StepNAfterStep(Sample.cursor, true, 16, 2, 0);
    StepNAfterStep(Sample.cursor, true, 16, 2, 1);
    assert Targets(Sample, 3) == [Target(Sample, 0), Target(Sample, 1), Target(Sample, 2)];
  }

  /** The calls `lcdPutString` as written makes for three characters on
      `Sample`: the re-address after the second character carries 15. */
  lemma SampleOps()
    ensures Facade.PutOps(Sample, [0x41, 0x42, 0x43], false)
      == [Op(false, 0x8E), Op(true, 0x41), Op(true, 0x42), Op(false, 0x8F), Op(true, 0x43), Op(false, 0xC1)]
  {
    SampleCells();
    var str: seq<byte> := [0x41, 0x42, 0x43];
    assert str[1..] == [0x42, 0x43];
    assert Address(Sample) == 14;
    var d1 := Advance(Sample);
    assert Address(d1) == 15;
    assert Facade.Readdressing(d1, 14, false) == [];
    SampleSecond();
    assert Facade.PutOpsFrom(Sample, str, 14, false) == [Op(true, 0x41)] + Facade.PutOpsFrom(d1, [0x42, 0x43], 15, false);
  }

  /** The second and third characters: after the second the cursor wraps
      to the next line, and the command sent carries 15. */
  lemma SampleSecond()
    ensures Facade.PutOpsFrom(Advance(Sample), [0x42, 0x43], 15, false)
      == [Op(true, 0x42), Op(false, 0x8F), Op(true, 0x43), Op(false, 0xC1)]
  {
    SampleCells();
    var d1 := Advance(Sample);
    var d2 := Advance(d1);
    var d3 := Advance(d2);
    var str: seq<byte> := [0x42, 0x43];
    assert str[1..] == [0x43] && str[1..][1..] == [];
    assert Address(d2) == 64 && Address(d3) == 65;
    assert Facade.Readdressing(d2, 15, false) == [Op(false, 0x8F)];
    assert Facade.Readdressing(d3, 64, false) == [];
    assert Facade.PutOpsFrom(d3, [], 65, false) == [Op(false, 0xC1)];
    assert Facade.PutOpsFrom(d2, [0x43], 64, false) == [Op(true, 0x43), Op(false, 0xC1)];
  }

  /** `lcdPutString` as written, three characters on `Sample`: the third
      belongs at the start of the second line (address 64), but the
      re-address command sends the previous address 15, so the third
      character lands on top of the second. */
  lemma PutStringMisplaces()
    ensures Targets(Sample, 3) == [14, 15, 64]
    ensures Landings(Facade.PutOps(Sample, [0x41, 0x42, 0x43], false), 0, true) == [14, 15, 15]
  {
    SampleCells();
    SampleOps();
    var ops := [Op(false, 0x8E), Op(true, 0x41), Op(true, 0x42), Op(false, 0x8F), Op(true, 0x43), Op(false, 0xC1)];
    assert Landings(ops[5..], 16, true) == [];
    assert Landings(ops[4..], 15, true) == [15];
    assert Landings(ops[3..], 16, true) == [15];
    assert Landings(ops[2..], 15, true) == [15, 15];
    assert Landings(ops[1..], 14, true) == [14, 15, 15];
  }
}
