/** The calls each public helper makes when every callback succeeds and the
    controller is never busy, stated against `Ideal` transactions, and the
    error paths that the C code's `||` chains give them. */
module FacadeFacts {
  import opened Commands
  import opened Cursor
  import opened Bus
  import opened Lcd
  import opened Engine
  import opened EngineFacts
  import Facade

  /** A command and its settle delay, all quiet. */
  lemma SettledQuiet(d: Driver, cmd: byte, us: u32)
    ensures Facade.Settled(d, cmd, us, []) == Run(0, d, [], Ideal(d, false, cmd, 0) + [Delay(us)])
  {
    TransferQuiet(d, false, cmd);
  }

  /** The settle delay failing after a successful command gives -1 but,
      unlike a failed bus call, records no error. */
  lemma SettledDelayFails(d: Driver, cmd: byte, us: u32, bad: int, tail: seq<int>)
    requires bad != 0
    ensures Facade.Settled(d, cmd, us, Answers(d, false, cmd, 0) + [0] + ([bad] + tail))
      == Run(-1, d, tail, Ideal(d, false, cmd, 0) + [Delay(us)])
  {
    TransferCompletes(d, false, cmd, 0, 0, [bad] + tail);
    var w := Call(d, Delay(us), [bad] + tail);
    assert w.rc == bad && w.rest == tail;
  }

  lemma ClearQuiet(d: Driver)
    ensures Facade.Clear(d, [])
      == Run(0, d.(cursor := Pos(0, 0)), [], Ideal(d, false, 0x01, 0) + [Delay(d.timing.busyHoldShort)])
  {
    SettledQuiet(d, 0x01, d.timing.busyHoldShort);
  }

  lemma HomeQuiet(d: Driver)
    ensures Facade.Home(d, [])
      == Run(0, d.(cursor := Pos(0, 0)), [], Ideal(d, false, 0x02, 0) + [Delay(d.timing.busyHoldLong)])
  {
    SettledQuiet(d, 0x02, d.timing.busyHoldLong);
  }

  /** A failed clear leaves the cursor where it was. */
  lemma ClearDelayFails(d: Driver, bad: int, tail: seq<int>)
    requires bad != 0
    ensures Facade.Clear(d, Answers(d, false, 0x01, 0) + [0] + ([bad] + tail))
      == Run(-1, d, tail, Ideal(d, false, 0x01, 0) + [Delay(d.timing.busyHoldShort)])
  {
    SettledDelayFails(d, 0x01, d.timing.busyHoldShort, bad, tail);
  }

  lemma DirectionQuiet(d: Driver, forward: bool)
    ensures Facade.Direction(d, forward, [])
      == Run(0, d.(forward := forward), [], Ideal(d, false, Entry(forward, false), 0) + [Delay(d.timing.busyHoldShort)])
  {
    SettledQuiet(d, Entry(forward, false), d.timing.busyHoldShort);
  }

  /** `lcdNext` moves the cursor and sends the new cell's address. */
  lemma NextQuiet(d: Driver)
    ensures Facade.Next(d, [])
      == Run(0, Advance(d), [], Ideal(d, false, DAddr(Address(Advance(d))), 0))
  {
    TransferQuiet(Advance(d), false, DAddr(Address(Advance(d))));
    FlattenSameBus(Advance(d), d, [Op(false, DAddr(Address(Advance(d))))]);
    FlattenCons(d, Op(false, DAddr(Address(Advance(d)))), []);
    FlattenCons(Advance(d), Op(false, DAddr(Address(Advance(d)))), []);
  }

  lemma SetDisplayQuiet(d: Driver, display: bool, cursor: bool, blink: bool)
    ensures Facade.SetDisplay(d, display, cursor, blink, [])
      == Run(0, d, [], Ideal(d, false, Display(display, cursor, blink), 0))
  {
    TransferQuiet(d, false, Display(display, cursor, blink));
  }

  lemma SetCursorQuiet(d: Driver, column: byte, row: byte)
    requires column < d.width && row < d.height
    ensures Facade.SetCursor(d, column, row, [])
      == Run(0, d.(cursor := Pos(column, row)), [], Ideal(d, false, Facade.CellCommand(d.width, column, row), 0))
  {
    var moved := d.(cursor := Pos(column, row));
    var op := Op(false, Facade.CellCommand(d.width, column, row));
    TransferQuiet(moved, false, op.v);
    FlattenSameBus(moved, d, [op]);
    FlattenCons(d, op, []);
    FlattenCons(moved, op, []);
  }

  /** Writing bytes quietly issues one write transaction per byte. */
  lemma {:induction false} WriteAllQuiet(d: Driver, data: seq<byte>)
    ensures Facade.WriteAll(d, data, []) == Run(0, d, [], Flatten(d, Facade.Writes(data)))
    decreases |data|
  {
    if |data| > 0 {
      TransferQuiet(d, true, data[0]);
      WriteAllQuiet(d, data[1..]);
      FlattenCons(d, Op(true, data[0]), Facade.Writes(data[1..]));
    }
  }

  /** Storing a glyph quietly: the character-RAM address, then its rows. */
  lemma StoreGlyphQuiet(d: Driver, which: int, bits: seq<byte>)
    requires -128 <= which < 128
    requires (d.largeFont && which / 2 < 4) || which < 8
    requires d.largeFont || 0 <= which
    requires Facade.GlyphRows(d.largeFont) <= |bits|
    ensures var rows := bits[..Facade.GlyphRows(d.largeFont)];
      Facade.StoreGlyph(d, which, bits, [])
      == Run(0, d, [], Flatten(d, [Op(false, CAddr(Facade.GlyphAddress(d.largeFont, which)))] + Facade.Writes(rows)))
  {
    var rows := bits[..Facade.GlyphRows(d.largeFont)];
    var op := Op(false, CAddr(Facade.GlyphAddress(d.largeFont, which)));
    TransferQuiet(d, false, op.v);
    WriteAllQuiet(d, rows);
    FlattenCons(d, op, Facade.Writes(rows));
  }

  lemma PlaceQuiet(d: Driver, chr: byte)
    ensures Facade.Place(d, chr, [])
      == Run(0, d, [], Ideal(d, false, DAddr(Address(d)), 0) + Ideal(d, true, chr, 0))
  {
    TransferQuiet(d, false, DAddr(Address(d)));
    TransferQuiet(d, true, chr);
  }

  /** Putting a character quietly: address, write, address of the next
      cell, and the cursor steps once. */
  lemma PutCharQuiet(d: Driver, chr: byte)
    ensures var moved := Advance(d);
      Facade.PutChar(d, chr, [])
      == Run(0, moved, [], Flatten(d, [Op(false, DAddr(Address(d))), Op(true, chr), Op(false, DAddr(Address(moved)))]))
  {
    var moved := Advance(d);
    var o1, o2, o3 := Op(false, DAddr(Address(d))), Op(true, chr), Op(false, DAddr(Address(moved)));
    PlaceQuiet(d, chr);
    TransferQuiet(moved, false, o3.v);
    ThreeOps(d, moved, o1, o2, o3);
  }

  lemma ThreeOps(d: Driver, moved: Driver, o1: Op, o2: Op, o3: Op)
    requires SameBus(moved, d)
    ensures Flatten(d, [o1, o2, o3])
      == Ideal(d, o1.rs, o1.v, 0) + Ideal(d, o2.rs, o2.v, 0) + Ideal(moved, o3.rs, o3.v, 0)
  {
    assert [o1, o2, o3] == [o1] + [o2, o3] && [o2, o3] == [o2] + [o3] && [o3] == [o3] + [];
    FlattenCons(d, o1, [o2, o3]);
    FlattenCons(d, o2, [o3]);
    FlattenCons(d, o3, []);
    IdealSameBus(moved, d, o3.rs, o3.v);
  }

  /** The re-address command, quietly: sent exactly when `Readdressing`
      lists it. */
  lemma ReaddressQuiet(d: Driver, address: byte, fixed: bool)
    ensures Facade.Readdress(d, address, [], fixed) == Run(0, d, [], Flatten(d, Facade.Readdressing(d, address, fixed)))
  {
    var extra := Facade.Readdressing(d, address, fixed);
    if |extra| > 0 {
      TransferQuiet(d, false, extra[0].v);
      FlattenCons(d, extra[0], []);
      assert extra == [extra[0]] + [];
    }
  }

  /** One pass of `lcdPutString`'s loop, quietly. */
  lemma PutStepQuiet(d: Driver, chr: byte, address: byte, fixed: bool)
    ensures Facade.PutStep(d, chr, address, [], fixed)
      == Run(0, Advance(d), [], Flatten(d, [Op(true, chr)] + Facade.Readdressing(Advance(d), address, fixed)))
  {
    var moved := Advance(d);
    var extra := Facade.Readdressing(moved, address, fixed);
    TransferQuiet(d, true, chr);
    ReaddressQuiet(moved, address, fixed);
    FlattenCons(d, Op(true, chr), extra);
    FlattenSameBus(moved, d, extra);
  }

  lemma {:induction false} PutFromQuiet(d: Driver, str: seq<byte>, address: byte, fixed: bool)
    ensures Facade.PutFrom(d, str, address, [], fixed)
      == Run(0, d.(cursor := StepN(d.cursor, d.forward, d.width, d.height, |str|)), [],
             Flatten(d, Facade.PutOpsFrom(d, str, address, fixed)))
    decreases |str|
  {
    if |str| == 0 {
      TransferQuiet(d, false, DAddr(address));
      FlattenCons(d, Op(false, DAddr(address)), []);
    } else {
      var moved := Advance(d);
      var na := Address(moved) % 256;
      var head := [Op(true, str[0])] + Facade.Readdressing(moved, address, fixed);
      var tail := Facade.PutOpsFrom(moved, str[1..], na, fixed);
      PutStepQuiet(d, str[0], address, fixed);
      PutFromQuiet(moved, str[1..], na, fixed);
      FlattenSameBus(moved, d, tail);
      FlattenAppend(d, head, tail);
      StepNAfterStep(d.cursor, d.forward, d.width, d.height, |str| - 1);
    }
  }

  /** `lcdPutString`, quietly: every call of `PutOps` in order, and the
      cursor `|str|` cells further on. */
  lemma PutStringQuiet(d: Driver, str: seq<byte>, fixed: bool)
    ensures Facade.Put(d, str, [], fixed)
      == Run(0, d.(cursor := StepN(d.cursor, d.forward, d.width, d.height, |str|)), [],
             Flatten(d, Facade.PutOps(d, str, fixed)))
  {
    var address := Address(d) % 256;
    TransferQuiet(d, false, DAddr(address));
    PutFromQuiet(d, str, address, fixed);
    FlattenCons(d, Op(false, DAddr(address)), Facade.PutOpsFrom(d, str, address, fixed));
  }

  /** The cursor after `r` is at most `n` steps on from `d`'s. */
  predicate Moved(d: Driver, r: Run, n: nat) {
    exists k :: 0 <= k <= n && r.drv.cursor == StepN(d.cursor, d.forward, d.width, d.height, k)
  }

  /** Whatever the callbacks answer, `lcdPutString`'s loop leaves the
      cursor on one of the cells it was to pass, at most `|str|` steps on.
      `PutFromStopsAt` says which one a given failure leaves it on. */
  lemma {:induction false} PutFromMovesAtMost(d: Driver, str: seq<byte>, address: byte, script: seq<int>, fixed: bool)
    ensures Moved(d, Facade.PutFrom(d, str, address, script, fixed), |str|)
    decreases |str|
  {
    var r := Facade.PutFrom(d, str, address, script, fixed);
    if |str| == 0 {
      assert r.drv.cursor == StepN(d.cursor, d.forward, d.width, d.height, 0);
    } else {
      var s := Facade.PutStep(d, str[0], address, script, fixed);
      if s.rc != 0 {
        WithinOne(d, s, |str|);
      } else {
        var more := Facade.PutFrom(s.drv, str[1..], Address(s.drv) % 256, s.rest, fixed);
        PutFromMovesAtMost(s.drv, str[1..], Address(s.drv) % 256, s.rest, fixed);
        MovedAfterStep(d, s, more, |str| - 1);
      }
    }
  }

  /** No step or one step is within `n >= 1` steps. */
  lemma WithinOne(d: Driver, r: Run, n: nat)
    requires 1 <= n
    requires r.drv.cursor == d.cursor || r.drv.cursor == Advance(d).cursor
    ensures Moved(d, r, n)
  {
    if r.drv.cursor == d.cursor {
      assert r.drv.cursor == StepN(d.cursor, d.forward, d.width, d.height, 0);
    } else {
      assert r.drv.cursor == StepN(d.cursor, d.forward, d.width, d.height, 1);
    }
  }

  /** One step, then at most `n` more. */
  lemma MovedAfterStep(d: Driver, s: Run, more: Run, n: nat)
    requires s.drv == Advance(d)
    requires Moved(s.drv, more, n)
    ensures Moved(d, Then(s, more), n + 1)
  {
    var k :| 0 <= k <= n && more.drv.cursor == StepN(s.drv.cursor, d.forward, d.width, d.height, k);
    StepNAfterStep(d.cursor, d.forward, d.width, d.height, k);
    assert Then(s, more).drv.cursor == StepN(d.cursor, d.forward, d.width, d.height, k + 1);
  }

  /** `lcdPutString`, whatever the callbacks answer: the cursor ends at
      most `|str|` steps on. `PutStopsAt` says which step a given failure
      leaves it on. */
  lemma PutMovesAtMost(d: Driver, str: seq<byte>, script: seq<int>, fixed: bool)
    ensures Moved(d, Facade.Put(d, str, script, fixed), |str|)
  {
    var r := Facade.Put(d, str, script, fixed);
    var address: byte := Address(d) % 256;
    var c := Command(d, DAddr(address), script);
    PutCases(d, str, script, fixed);
    if c.rc != 0 {
      NotMoved(d, r, |str|);
    } else {
      var more := Facade.PutFrom(d, str, address, c.rest, fixed);
      PutFromMovesAtMost(d, str, address, c.rest, fixed);
      SameCursor(d, more, r, |str|);
    }
  }

  /** Runs that leave the same driver moved it alike. */
  lemma SameCursor(d: Driver, a: Run, b: Run, n: nat)
    requires a.drv == b.drv && Moved(d, a, n)
    ensures Moved(d, b, n)
  {
  }

  /** Where `lcdPutString` leaves the cursor: where it was if the first
      set-address command fails, where the loop leaves it otherwise. */
  lemma PutCases(d: Driver, str: seq<byte>, script: seq<int>, fixed: bool)
    ensures var r, address := Facade.Put(d, str, script, fixed), Address(d) % 256;
      var c := Command(d, DAddr(address), script);
      && (c.rc != 0 ==> r.drv.cursor == d.cursor)
      && (c.rc == 0 ==> r.drv == Facade.PutFrom(d, str, address, c.rest, fixed).drv)
  {
  }

  /** No step is within any number of steps. */
  lemma NotMoved(d: Driver, r: Run, n: nat)
    requires r.drv.cursor == d.cursor
    ensures Moved(d, r, n)
  {
    assert r.drv.cursor == StepN(d.cursor, d.forward, d.width, d.height, 0);
  }

  /** The number of `lcdWrite` calls among `ops`. */
  function WriteCount(ops: seq<Op>): nat {
    if |ops| == 0 then 0 else (if ops[0].rs then 1 else 0) + WriteCount(ops[1..])
  }

  lemma {:induction false} WriteCountAppend(a: seq<Op>, b: seq<Op>)
    ensures WriteCount(a + b) == WriteCount(a) + WriteCount(b)
  {
    if |a| > 0 {
      assert (a + b)[0] == a[0] && (a + b)[1..] == a[1..] + b;
      WriteCountAppend(a[1..], b);
    } else {
      assert a + b == b;
    }
  }

  lemma ZerosAdd(a: nat, b: nat)
    ensures Zeros(a + b) == Zeros(a) + Zeros(b)
  {
  }

  /** With a never-busy controller every call of a transaction but the
      last is answered 0. */
  lemma AnswersZeros(d: Driver, rs: bool, v: byte)
    ensures Answers(d, rs, v, 0) == Zeros(|Ideal(d, rs, v, 0)| - 1)
  {
    if !d.writeOnly {
      var iter := PollIter(d.fourBits, d.timing);
      assert PollAnswers(iter, 0) == Zeros(|iter|);
    }
  }

  /** A transaction whose calls are all answered 0. */
  lemma OpQuiet(d: Driver, rs: bool, v: byte, rest: seq<int>)
    ensures Transfer(d, rs, v, Zeros(|Ideal(d, rs, v, 0)|) + rest) == Run(0, d, rest, Ideal(d, rs, v, 0))
  {
    QuietAnswers(d, rs, v, rest);
    TransferCompletes(d, rs, v, 0, 0, rest);
  }

  lemma QuietAnswers(d: Driver, rs: bool, v: byte, rest: seq<int>)
    ensures Zeros(|Ideal(d, rs, v, 0)|) + rest == Answers(d, rs, v, 0) + [0] + rest
  {
    var a := Answers(d, rs, v, 0);
    AnswersZeros(d, rs, v);
    ZerosAdd(|a|, 1);
    assert Zeros(1) == [0];
  }

  /** A never-busy transaction whose call `i`, before the last, fails. */
  lemma OpFails(d: Driver, rs: bool, v: byte, i: nat, bad: int, tail: seq<int>)
    requires i < |Ideal(d, rs, v, 0)| - 1 && Failed(Ideal(d, rs, v, 0)[i], bad)
    ensures Transfer(d, rs, v, Zeros(i) + [bad] + tail) == Run(-1, d.(error := EIO), tail, Ideal(d, rs, v, 0)[..i + 1])
  {
    AnswersZeros(d, rs, v);
    assert Answers(d, rs, v, 0)[..i] == Zeros(i);
    TransferStopsAt(d, rs, v, 0, i, bad, tail);
  }

  /** The re-address command with every call answered 0. */
  lemma ReaddressZeros(d: Driver, address: byte, fixed: bool, rest: seq<int>)
    ensures var extra := Facade.Readdressing(d, address, fixed);
      Facade.Readdress(d, address, Zeros(|Flatten(d, extra)|) + rest, fixed) == Run(0, d, rest, Flatten(d, extra))
  {
    var extra := Facade.Readdressing(d, address, fixed);
    if |extra| > 0 {
      FlattenCons(d, extra[0], []);
      assert extra == [extra[0]] + [];
      OpQuiet(d, false, extra[0].v, rest);
    }
  }

  /** A loop pass with every call answered 0. */
  lemma PutStepZeros(d: Driver, chr: byte, address: byte, fixed: bool, rest: seq<int>)
    ensures var head := [Op(true, chr)] + Facade.Readdressing(Advance(d), address, fixed);
      Facade.PutStep(d, chr, address, Zeros(|Flatten(d, head)|) + rest, fixed) == Run(0, Advance(d), rest, Flatten(d, head))
  {
    var moved := Advance(d);
    var extra := Facade.Readdressing(moved, address, fixed);
    HeadLayout(d, chr, extra, rest);
    OpQuiet(d, true, chr, Zeros(|Flatten(moved, extra)|) + rest);
    ReaddressZeros(moved, address, fixed, rest);
  }

  /** A loop pass's calls are the write's, then the re-address command's. */
  lemma HeadLayout(d: Driver, chr: byte, extra: seq<Op>, rest: seq<int>)
    ensures var head, w, m := [Op(true, chr)] + extra, Ideal(d, true, chr, 0), Flatten(Advance(d), extra);
      && Flatten(d, head) == w + m
      && Zeros(|Flatten(d, head)|) + rest == Zeros(|w|) + (Zeros(|m|) + rest)
  {
    FlattenCons(d, Op(true, chr), extra);
    FlattenSameBus(Advance(d), d, extra);
    ZerosAdd(|Ideal(d, true, chr, 0)|, |Flatten(d, extra)|);
  }

  /** A loop pass whose character write fails at call `i`. */
  lemma WriteStops(d: Driver, chr: byte, address: byte, fixed: bool, i: nat, bad: int, tail: seq<int>)
    requires i < |Ideal(d, true, chr, 0)| - 1 && Failed(Ideal(d, true, chr, 0)[i], bad)
    ensures Facade.PutStep(d, chr, address, Zeros(i) + [bad] + tail, fixed)
      == Run(-1, d.(error := EIO), tail, Ideal(d, true, chr, 0)[..i + 1])
  {
    OpFails(d, true, chr, i, bad, tail);
  }

  /** A loop pass whose write succeeds and whose re-address command fails
      at call `i`: the cursor has stepped once. */
  lemma ReaddressStops(d: Driver, chr: byte, address: byte, fixed: bool, o: Op, i: nat, bad: int, tail: seq<int>)
    requires Facade.Readdressing(Advance(d), address, fixed) == [o]
    requires i < |Ideal(d, o.rs, o.v, 0)| - 1 && Failed(Ideal(d, o.rs, o.v, 0)[i], bad)
    ensures Facade.PutStep(d, chr, address, Zeros(|Ideal(d, true, chr, 0)|) + (Zeros(i) + [bad] + tail), fixed)
      == Run(-1, Advance(d).(error := EIO), tail, Ideal(d, true, chr, 0) + Ideal(d, o.rs, o.v, 0)[..i + 1])
  {
    var moved := Advance(d);
    var rest := Zeros(i) + [bad] + tail;
    OpQuiet(d, true, chr, rest);
    IdealSameBus(moved, d, o.rs, o.v);
    ReaddressFails(moved, address, fixed, o, i, bad, tail);
    PassThenFail(d, chr, address, Zeros(|Ideal(d, true, chr, 0)|) + rest, fixed, rest, Ideal(d, true, chr, 0),
      Run(-1, moved.(error := EIO), tail, Ideal(d, o.rs, o.v, 0)[..i + 1]));
  }

  /** A loop pass whose write succeeds and whose re-address fails is the
      two, with -1. */
  lemma PassThenFail(d: Driver, chr: byte, address: byte, script: seq<int>, fixed: bool, rest: seq<int>, written: seq<Event>, c: Run)
    requires Write(d, chr, script) == Run(0, d, rest, written)
    requires Facade.Readdress(Advance(d), address, rest, fixed) == c && c.rc != 0
    ensures Facade.PutStep(d, chr, address, script, fixed) == Run(-1, c.drv, c.rest, written + c.trace)
  {
  }

  /** The re-address command failing at call `i`. */
  lemma ReaddressFails(d: Driver, address: byte, fixed: bool, o: Op, i: nat, bad: int, tail: seq<int>)
    requires Facade.Readdressing(d, address, fixed) == [o]
    requires i < |Ideal(d, o.rs, o.v, 0)| - 1 && Failed(Ideal(d, o.rs, o.v, 0)[i], bad)
    ensures Facade.Readdress(d, address, Zeros(i) + [bad] + tail, fixed)
      == Run(-1, d.(error := EIO), tail, Ideal(d, o.rs, o.v, 0)[..i + 1])
  {
    OpFails(d, o.rs, o.v, i, bad, tail);
  }

  lemma ZerosSplit(a: nat, b: nat, rest: seq<int>)
    ensures Zeros(a + b) + rest == Zeros(a) + (Zeros(b) + rest)
  {
    ZerosAdd(a, b);
  }

  /** The re-address command is a command, not a write. */
  lemma ReaddressingWrites(d: Driver, address: byte, fixed: bool)
    ensures WriteCount(Facade.Readdressing(d, address, fixed)) == 0
  {
  }

  /** The calls of one pass of `lcdPutString`'s loop that writes `chr`,
      when they all succeed. */
  function PassOps(d: Driver, chr: byte, address: byte, fixed: bool): seq<Op> {
    [Op(true, chr)] + Facade.Readdressing(Advance(d), address, fixed)
  }

  /** Call `i` of transaction `j` of `ops` exists, comes before that
      transaction's last call, and fails on the answer `bad`. */
  predicate FailsAt(d: Driver, ops: seq<Op>, j: nat, i: nat, bad: int) {
    j < |ops| && i < |Ideal(d, ops[j].rs, ops[j].v, 0)| - 1 && Failed(Ideal(d, ops[j].rs, ops[j].v, 0)[i], bad)
  }

  /** The answers that let the transactions of `ops` before `j` succeed
      with a never-busy controller, then fail call `i` of transaction `j`
      with `bad`; `tail` is left over. */
  function StopScript(d: Driver, ops: seq<Op>, j: nat, i: nat, bad: int, tail: seq<int>): seq<int>
    requires j <= |ops|
  {
    Zeros(|Flatten(d, ops[..j])|) + (Zeros(i) + [bad] + tail)
  }

  /** The outcome failure injection promises: -1 with `EIO` recorded, the
      cursor stepped once per character write before transaction `j`, and
      the calls of the transactions before `j`, then those of transaction
      `j` up to the failed one. */
  function StopRun(d: Driver, ops: seq<Op>, j: nat, i: nat, tail: seq<int>): Run
    requires j < |ops| && i < |Ideal(d, ops[j].rs, ops[j].v, 0)|
  {
    Run(-1, d.(cursor := StepN(d.cursor, d.forward, d.width, d.height, WriteCount(ops[..j])), error := EIO), tail,
        Flatten(d, ops[..j]) + Ideal(d, ops[j].rs, ops[j].v, 0)[..i + 1])
  }

  /** Failure injection into `lcdPutString`'s loop, `PutOpsFrom` being
      its calls: when call `i` of transaction `j` fails and all calls
      before it succeed, the loop stops right there with -1 and `EIO`, and
      the cursor has moved once for each character whose write went
      through. */
  lemma {:induction false} PutFromStopsAt(d: Driver, str: seq<byte>, address: byte, fixed: bool, j: nat, i: nat, bad: int, tail: seq<int>)
    requires FailsAt(d, Facade.PutOpsFrom(d, str, address, fixed), j, i, bad)
    ensures var ops := Facade.PutOpsFrom(d, str, address, fixed);
      Facade.PutFrom(d, str, address, StopScript(d, ops, j, i, bad, tail), fixed) == StopRun(d, ops, j, i, tail)
    decreases |str|, 1
  {
    if |str| == 0 {
      LastStops(d, str, address, fixed, j, i, bad, tail);
    } else if j == 0 {
      FirstWriteStops(d, str, address, fixed, j, i, bad, tail);
    } else if j < |PassOps(d, str[0], address, fixed)| {
      FirstReaddressStops(d, str, address, fixed, j, i, bad, tail);
    } else {
      LaterStops(d, str, address, fixed, j, i, bad, tail);
    }
  }

  /** A failure past the first loop pass: a quiet pass, then the rest of
      the loop failing. */
  lemma {:induction false} LaterStops(d: Driver, str: seq<byte>, address: byte, fixed: bool, j: nat, i: nat, bad: int, tail: seq<int>)
    requires |str| > 0 && |PassOps(d, str[0], address, fixed)| <= j
    requires FailsAt(d, Facade.PutOpsFrom(d, str, address, fixed), j, i, bad)
    ensures var ops := Facade.PutOpsFrom(d, str, address, fixed);
      Facade.PutFrom(d, str, address, StopScript(d, ops, j, i, bad, tail), fixed) == StopRun(d, ops, j, i, tail)
    decreases |str|, 0
  {
    var moved := Advance(d);
    var pass := PassOps(d, str[0], address, fixed);
    var later := Facade.PutOpsFrom(moved, str[1..], Address(moved) % 256, fixed);
    var k := j - |pass|;
    OpsUnfold(d, str, address, fixed);
    PassShape(d, str[0], address, fixed);
    LaterFacts(d, moved, pass, later, j, k, i, bad, tail);
    PutFromStopsAt(moved, str[1..], Address(moved) % 256, fixed, k, i, bad, tail);
    PassThenLoop(d, str, address, fixed, StopScript(moved, later, k, i, bad, tail), StopRun(moved, later, k, i, tail));
  }

  /** The final set-address command failing. */
  lemma {:induction false} LastStops(d: Driver, str: seq<byte>, address: byte, fixed: bool, j: nat, i: nat, bad: int, tail: seq<int>)
    requires |str| == 0
    requires FailsAt(d, Facade.PutOpsFrom(d, str, address, fixed), j, i, bad)
    ensures var ops := Facade.PutOpsFrom(d, str, address, fixed);
      Facade.PutFrom(d, str, address, StopScript(d, ops, j, i, bad, tail), fixed) == StopRun(d, ops, j, i, tail)
  {
    LastFacts(d, str, address, fixed, j, i, bad, tail);
    OpFails(d, false, DAddr(address), i, bad, tail);
  }

  lemma {:induction false} LastFacts(d: Driver, str: seq<byte>, address: byte, fixed: bool, j: nat, i: nat, bad: int, tail: seq<int>)
    requires |str| == 0
    requires FailsAt(d, Facade.PutOpsFrom(d, str, address, fixed), j, i, bad)
    ensures var ops, o := Facade.PutOpsFrom(d, str, address, fixed), Op(false, DAddr(address));
      && j == 0 && i < |Ideal(d, false, o.v, 0)| - 1 && Failed(Ideal(d, false, o.v, 0)[i], bad)
      && StopScript(d, ops, j, i, bad, tail) == Zeros(i) + [bad] + tail
      && StopRun(d, ops, j, i, tail) == Run(-1, d.(error := EIO), tail, Ideal(d, false, o.v, 0)[..i + 1])
  {
    var ops := Facade.PutOpsFrom(d, str, address, fixed);
    assert ops == [Op(false, DAddr(address))];
    assert ops[..0] == [];
  }

  /** A loop pass that fails returns its own result. */
  lemma {:induction false} PassFails(d: Driver, str: seq<byte>, address: byte, script: seq<int>, fixed: bool)
    requires |str| > 0 && Facade.PutStep(d, str[0], address, script, fixed).rc != 0
    ensures Facade.PutFrom(d, str, address, script, fixed) == Facade.PutStep(d, str[0], address, script, fixed)
  {
  }

  /** The first character's write failing. */
  lemma {:induction false} FirstWriteStops(d: Driver, str: seq<byte>, address: byte, fixed: bool, j: nat, i: nat, bad: int, tail: seq<int>)
    requires |str| > 0 && j == 0
    requires FailsAt(d, Facade.PutOpsFrom(d, str, address, fixed), j, i, bad)
    ensures var ops := Facade.PutOpsFrom(d, str, address, fixed);
      Facade.PutFrom(d, str, address, StopScript(d, ops, j, i, bad, tail), fixed) == StopRun(d, ops, j, i, tail)
  {
    FirstWriteFacts(d, str, address, fixed, i, bad, tail);
    WriteStops(d, str[0], address, fixed, i, bad, tail);
    PassFails(d, str, address, Zeros(i) + [bad] + tail, fixed);
  }

  lemma {:induction false} FirstWriteFacts(d: Driver, str: seq<byte>, address: byte, fixed: bool, i: nat, bad: int, tail: seq<int>)
    requires |str| > 0 && FailsAt(d, Facade.PutOpsFrom(d, str, address, fixed), 0, i, bad)
    ensures var ops := Facade.PutOpsFrom(d, str, address, fixed);
      && i < |Ideal(d, true, str[0], 0)| - 1 && Failed(Ideal(d, true, str[0], 0)[i], bad)
      && StopScript(d, ops, 0, i, bad, tail) == Zeros(i) + [bad] + tail
      && StopRun(d, ops, 0, i, tail) == Run(-1, d.(error := EIO), tail, Ideal(d, true, str[0], 0)[..i + 1])
  {
    var ops := Facade.PutOpsFrom(d, str, address, fixed);
    assert ops[0] == Op(true, str[0]);
    assert ops[..0] == [];
  }

  /** The first character's write succeeding and the re-address command
      after it failing. */
  lemma {:induction false} FirstReaddressStops(d: Driver, str: seq<byte>, address: byte, fixed: bool, j: nat, i: nat, bad: int, tail: seq<int>)
    requires |str| > 0 && 0 < j < |PassOps(d, str[0], address, fixed)|
    requires FailsAt(d, Facade.PutOpsFrom(d, str, address, fixed), j, i, bad)
    ensures var ops := Facade.PutOpsFrom(d, str, address, fixed);
      Facade.PutFrom(d, str, address, StopScript(d, ops, j, i, bad, tail), fixed) == StopRun(d, ops, j, i, tail)
  {
    var o := PassOps(d, str[0], address, fixed)[1];
    FirstReaddressFacts(d, str, address, fixed, j, i, bad, tail);
    ReaddressStops(d, str[0], address, fixed, o, i, bad, tail);
    PassFails(d, str, address, Zeros(|Ideal(d, true, str[0], 0)|) + (Zeros(i) + [bad] + tail), fixed);
  }

  lemma {:induction false} FirstReaddressFacts(d: Driver, str: seq<byte>, address: byte, fixed: bool, j: nat, i: nat, bad: int, tail: seq<int>)
    requires |str| > 0 && 0 < j < |PassOps(d, str[0], address, fixed)|
    requires FailsAt(d, Facade.PutOpsFrom(d, str, address, fixed), j, i, bad)
    ensures var ops, o := Facade.PutOpsFrom(d, str, address, fixed), PassOps(d, str[0], address, fixed)[1];
      && Facade.Readdressing(Advance(d), address, fixed) == [o]
      && i < |Ideal(d, o.rs, o.v, 0)| - 1 && Failed(Ideal(d, o.rs, o.v, 0)[i], bad)
      && StopScript(d, ops, j, i, bad, tail) == Zeros(|Ideal(d, true, str[0], 0)|) + (Zeros(i) + [bad] + tail)
      && StopRun(d, ops, j, i, tail)
        == Run(-1, Advance(d).(error := EIO), tail, Ideal(d, true, str[0], 0) + Ideal(d, o.rs, o.v, 0)[..i + 1])
  {
    var pass := PassOps(d, str[0], address, fixed);
    OpsUnfold(d, str, address, fixed);
    PassPair(d, str[0], address, fixed);
    StopAfterWrite(d, str[0], pass[1], Facade.PutOpsFrom(Advance(d), str[1..], Address(Advance(d)) % 256, fixed), i, bad, tail);
  }

  /** A first loop pass with a re-address command is two calls long. */
  lemma {:induction false} PassPair(d: Driver, chr: byte, address: byte, fixed: bool)
    requires 1 < |PassOps(d, chr, address, fixed)|
    ensures var pass := PassOps(d, chr, address, fixed);
      pass == [Op(true, chr), pass[1]] && Facade.Readdressing(Advance(d), address, fixed) == [pass[1]]
  {
  }

  /** Stopping in the second transaction, after a character write. */
  lemma {:induction false} StopAfterWrite(d: Driver, chr: byte, o: Op, later: seq<Op>, i: nat, bad: int, tail: seq<int>)
    requires i < |Ideal(d, o.rs, o.v, 0)|
    ensures var ops := [Op(true, chr), o] + later;
      && ops[1] == o
      && StopScript(d, ops, 1, i, bad, tail) == Zeros(|Ideal(d, true, chr, 0)|) + (Zeros(i) + [bad] + tail)
      && StopRun(d, ops, 1, i, tail)
        == Run(-1, Advance(d).(error := EIO), tail, Ideal(d, true, chr, 0) + Ideal(d, o.rs, o.v, 0)[..i + 1])
  {
    FirstOfPair(Op(true, chr), o, later);
    OneOp(d, Op(true, chr));
    StepOnce(d);
  }

  /** The transactions of `[w, o] + later` before the second. */
  lemma {:induction false} FirstOfPair(w: Op, o: Op, later: seq<Op>)
    ensures ([w, o] + later)[1] == o && ([w, o] + later)[..1] == [w]
  {
  }

  /** A single transaction. */
  lemma {:induction false} OneOp(d: Driver, w: Op)
    ensures Flatten(d, [w]) == Ideal(d, w.rs, w.v, 0)
    ensures WriteCount([w]) == if w.rs then 1 else 0
  {
    assert [w][1..] == [];
    assert Ideal(d, w.rs, w.v, 0) + [] == Ideal(d, w.rs, w.v, 0);
  }

  /** One step is an advance. */
  lemma {:induction false} StepOnce(d: Driver)
    ensures StepN(d.cursor, d.forward, d.width, d.height, 1) == Advance(d).cursor
  {
    assert StepN(d.cursor, d.forward, d.width, d.height, 1)
      == Step(StepN(d.cursor, d.forward, d.width, d.height, 0), d.forward, d.width, d.height);
  }

  /** The loop's calls: the first pass's, then the rest of the loop's. */
  lemma {:induction false} OpsUnfold(d: Driver, str: seq<byte>, address: byte, fixed: bool)
    requires |str| > 0
    ensures Facade.PutOpsFrom(d, str, address, fixed)
      == PassOps(d, str[0], address, fixed) + Facade.PutOpsFrom(Advance(d), str[1..], Address(Advance(d)) % 256, fixed)
  {
  }

  /** A quiet first loop pass, then the rest of the loop. */
  lemma {:induction false} PassThenLoop(d: Driver, str: seq<byte>, address: byte, fixed: bool, rest: seq<int>, more: Run)
    requires |str| > 0
    requires Facade.PutFrom(Advance(d), str[1..], Address(Advance(d)) % 256, rest, fixed) == more
    ensures var passed := Flatten(d, PassOps(d, str[0], address, fixed));
      Facade.PutFrom(d, str, address, Zeros(|passed|) + rest, fixed) == Run(more.rc, more.drv, more.rest, passed + more.trace)
  {
    PutStepZeros(d, str[0], address, fixed, rest);
  }

  /** The first loop pass writes its character, then only commands. */
  lemma {:induction false} PassShape(d: Driver, chr: byte, address: byte, fixed: bool)
    ensures WriteCount(PassOps(d, chr, address, fixed)) == 1
  {
    var pass := PassOps(d, chr, address, fixed);
    assert pass[1..] == Facade.Readdressing(Advance(d), address, fixed);
    ReaddressingWrites(Advance(d), address, fixed);
  }

  /** A failure past a first loop pass `pass`, seen from the rest of the
      loop `later`. */
  lemma {:induction false} LaterFacts(d: Driver, moved: Driver, pass: seq<Op>, later: seq<Op>, j: nat, k: nat, i: nat, bad: int, tail: seq<int>)
    requires moved == Advance(d) && WriteCount(pass) == 1 && j == |pass| + k
    requires FailsAt(d, pass + later, j, i, bad)
    ensures && k < |later| && i < |Ideal(moved, later[k].rs, later[k].v, 0)| - 1
      && Failed(Ideal(moved, later[k].rs, later[k].v, 0)[i], bad)
      && StopScript(d, pass + later, j, i, bad, tail) == Zeros(|Flatten(d, pass)|) + StopScript(moved, later, k, i, bad, tail)
      && var after := StopRun(moved, later, k, i, tail);
        StopRun(d, pass + later, j, i, tail) == Run(after.rc, after.drv, after.rest, Flatten(d, pass) + after.trace)
  {
    LaterFails(d, moved, pass, later, k, i, bad);
    LaterScript(d, moved, pass, later, k, i, bad, tail);
    LaterRun(d, moved, pass, later, k, i, tail);
  }

  /** The failing call, seen from `later`. */
  lemma {:induction false} LaterFails(d: Driver, moved: Driver, pass: seq<Op>, later: seq<Op>, k: nat, i: nat, bad: int)
    requires moved == Advance(d) && FailsAt(d, pass + later, |pass| + k, i, bad)
    ensures && k < |later| && i < |Ideal(moved, later[k].rs, later[k].v, 0)| - 1
      && Failed(Ideal(moved, later[k].rs, later[k].v, 0)[i], bad)
  {
    LaterSplit(d, moved, pass, later, |pass| + k);
  }

  /** Transaction `j` of `pass + later`, past `pass`, is transaction
      `j - |pass|` of `later`. */
  lemma {:induction false} LaterSplit(d: Driver, moved: Driver, pass: seq<Op>, later: seq<Op>, j: nat)
    requires moved == Advance(d) && |pass| <= j < |pass| + |later|
    ensures (pass + later)[j] == later[j - |pass|]
    ensures (pass + later)[..j] == pass + later[..j - |pass|]
    ensures Ideal(d, later[j - |pass|].rs, later[j - |pass|].v, 0) == Ideal(moved, later[j - |pass|].rs, later[j - |pass|].v, 0)
  {
    IdealSameBus(d, moved, later[j - |pass|].rs, later[j - |pass|].v);
  }

  lemma {:induction false} LaterScript(d: Driver, moved: Driver, pass: seq<Op>, later: seq<Op>, k: nat, i: nat, bad: int, tail: seq<int>)
    requires moved == Advance(d) && k <= |later|
    ensures StopScript(d, pass + later, |pass| + k, i, bad, tail)
      == Zeros(|Flatten(d, pass)|) + StopScript(moved, later, k, i, bad, tail)
  {
    assert (pass + later)[..|pass| + k] == pass + later[..k];
    FlattenAppend(d, pass, later[..k]);
    FlattenSameBus(moved, d, later[..k]);
    ZerosSplit(|Flatten(d, pass)|, |Flatten(d, later[..k])|, Zeros(i) + [bad] + tail);
  }

  /** The failure outcome past a quiet first pass: one more step of the
      cursor, and the pass's calls in front. */
  lemma {:induction false} LaterRun(d: Driver, moved: Driver, pass: seq<Op>, later: seq<Op>, k: nat, i: nat, tail: seq<int>)
    requires moved == Advance(d) && k < |later| && i < |Ideal(moved, later[k].rs, later[k].v, 0)|
    requires WriteCount(pass) == 1
    ensures var after := StopRun(moved, later, k, i, tail);
      StopRun(d, pass + later, |pass| + k, i, tail) == Run(after.rc, after.drv, after.rest, Flatten(d, pass) + after.trace)
  {
    var pre := later[..k];
    LaterSplit(d, moved, pass, later, |pass| + k);
    WriteCountAppend(pass, pre);
    LaterTrace(d, moved, pass, pre, later[k], i);
    LaterDriver(d, moved, WriteCount(pre));
  }

  /** `n + 1` steps from `d` are `n` steps from `d` advanced once. */
  lemma {:induction false} LaterDriver(d: Driver, moved: Driver, n: nat)
    requires moved == Advance(d)
    ensures d.(cursor := StepN(d.cursor, d.forward, d.width, d.height, 1 + n), error := EIO)
      == moved.(cursor := StepN(moved.cursor, moved.forward, moved.width, moved.height, n), error := EIO)
  {
    StepNAfterStep(d.cursor, d.forward, d.width, d.height, n);
  }

  /** `pass`'s calls, then those of `pre`, then those of `o` up to call `i`. */
  lemma {:induction false} LaterTrace(d: Driver, moved: Driver, pass: seq<Op>, pre: seq<Op>, o: Op, i: nat)
    requires moved == Advance(d) && i < |Ideal(moved, o.rs, o.v, 0)|
    ensures Flatten(d, pass + pre) + Ideal(d, o.rs, o.v, 0)[..i + 1]
      == Flatten(d, pass) + (Flatten(moved, pre) + Ideal(moved, o.rs, o.v, 0)[..i + 1])
  {
    FlattenAppend(d, pass, pre);
    FlattenSameBus(moved, d, pre);
    IdealSameBus(d, moved, o.rs, o.v);
    var calls := Ideal(d, o.rs, o.v, 0)[..i + 1];
    AppendAssoc(Flatten(d, pass), Flatten(d, pre), calls);
  }

  lemma AppendAssoc<T>(a: seq<T>, b: seq<T>, c: seq<T>)
    ensures a + b + c == a + (b + c)
  {
  }
  /** Failure injection into `lcdPutString`, `PutOps` being its calls: when
      call `i` of transaction `j` fails and all calls before it succeed,
      the function returns -1 right there with `EIO` recorded, its calls
      end at the failed one, and the cursor has moved once for each
      character whose write went through. */
  lemma {:induction false} PutStopsAt(d: Driver, str: seq<byte>, fixed: bool, j: nat, i: nat, bad: int, tail: seq<int>)
    requires FailsAt(d, Facade.PutOps(d, str, fixed), j, i, bad)
    ensures var ops := Facade.PutOps(d, str, fixed);
      Facade.Put(d, str, StopScript(d, ops, j, i, bad, tail), fixed) == StopRun(d, ops, j, i, tail)
  {
    if j == 0 {
      FirstCommandStops(d, str, fixed, i, bad, tail);
    } else {
      LoopStops(d, str, fixed, j, i, bad, tail);
    }
  }

  /** The first set-address command failing. */
  lemma {:induction false} FirstCommandStops(d: Driver, str: seq<byte>, fixed: bool, i: nat, bad: int, tail: seq<int>)
    requires FailsAt(d, Facade.PutOps(d, str, fixed), 0, i, bad)
    ensures var ops := Facade.PutOps(d, str, fixed);
      Facade.Put(d, str, StopScript(d, ops, 0, i, bad, tail), fixed) == StopRun(d, ops, 0, i, tail)
  {
    var address := Address(d) % 256;
    FirstStopFacts(d, Op(false, DAddr(address)), Facade.PutOpsFrom(d, str, address, fixed), i, bad, tail);
    OpFails(d, false, DAddr(address), i, bad, tail);
    PutCases(d, str, Zeros(i) + [bad] + tail, fixed);
  }

  /** Stopping in the first transaction of `[o] + rest`. */
  lemma {:induction false} FirstStopFacts(d: Driver, o: Op, rest: seq<Op>, i: nat, bad: int, tail: seq<int>)
    requires FailsAt(d, [o] + rest, 0, i, bad)
    ensures && i < |Ideal(d, o.rs, o.v, 0)| - 1 && Failed(Ideal(d, o.rs, o.v, 0)[i], bad)
      && StopScript(d, [o] + rest, 0, i, bad, tail) == Zeros(i) + [bad] + tail
      && StopRun(d, [o] + rest, 0, i, tail) == Run(-1, d.(error := EIO), tail, Ideal(d, o.rs, o.v, 0)[..i + 1])
  {
    assert ([o] + rest)[0] == o && ([o] + rest)[..0] == [];
  }

  /** The first set-address command succeeding and the loop failing. */
  lemma {:induction false} LoopStops(d: Driver, str: seq<byte>, fixed: bool, j: nat, i: nat, bad: int, tail: seq<int>)
    requires 0 < j && FailsAt(d, Facade.PutOps(d, str, fixed), j, i, bad)
    ensures var ops := Facade.PutOps(d, str, fixed);
      Facade.Put(d, str, StopScript(d, ops, j, i, bad, tail), fixed) == StopRun(d, ops, j, i, tail)
  {
    var address := Address(d) % 256;
    var rest := Facade.PutOpsFrom(d, str, address, fixed);
    LoopFacts(d, Op(false, DAddr(address)), rest, j, i, bad, tail);
    PutFromStopsAt(d, str, address, fixed, j - 1, i, bad, tail);
    CommandThenLoop(d, str, fixed, StopScript(d, rest, j - 1, i, bad, tail), StopRun(d, rest, j - 1, i, tail));
  }

  /** A failure past the first command `o` of `[o] + rest`, seen from
      `rest`. */
  lemma {:induction false} LoopFacts(d: Driver, o: Op, rest: seq<Op>, j: nat, i: nat, bad: int, tail: seq<int>)
    requires 0 < j && !o.rs && FailsAt(d, [o] + rest, j, i, bad)
    ensures && j - 1 < |rest| && i < |Ideal(d, rest[j - 1].rs, rest[j - 1].v, 0)| - 1
      && Failed(Ideal(d, rest[j - 1].rs, rest[j - 1].v, 0)[i], bad)
      && StopScript(d, [o] + rest, j, i, bad, tail) == Zeros(|Ideal(d, o.rs, o.v, 0)|) + StopScript(d, rest, j - 1, i, bad, tail)
      && var after := StopRun(d, rest, j - 1, i, tail);
        StopRun(d, [o] + rest, j, i, tail) == Run(after.rc, after.drv, after.rest, Ideal(d, o.rs, o.v, 0) + after.trace)
  {
    var pre := rest[..j - 1];
    HeadSplit(o, rest, j);
    OneOp(d, o);
    WriteCountAppend([o], pre);
    FlattenCons(d, o, pre);
    ZerosSplit(|Ideal(d, o.rs, o.v, 0)|, |Flatten(d, pre)|, Zeros(i) + [bad] + tail);
    AppendAssoc(Ideal(d, o.rs, o.v, 0), Flatten(d, pre), Ideal(d, rest[j - 1].rs, rest[j - 1].v, 0)[..i + 1]);
  }

  /** Transaction `j` of `[o] + rest`, past `o`, is transaction `j - 1` of
      `rest`. */
  lemma {:induction false} HeadSplit(o: Op, rest: seq<Op>, j: nat)
    requires 0 < j <= |rest|
    ensures ([o] + rest)[..j] == [o] + rest[..j - 1]
    ensures ([o] + rest)[j] == rest[j - 1]
  {
  }

  /** A quiet first set-address command, then the loop. */
  lemma {:induction false} CommandThenLoop(d: Driver, str: seq<byte>, fixed: bool, rest: seq<int>, more: Run)
    requires Facade.PutFrom(d, str, Address(d) % 256, rest, fixed) == more
    ensures var first := Ideal(d, false, DAddr(Address(d) % 256), 0);
      Facade.Put(d, str, Zeros(|first|) + rest, fixed) == Run(more.rc, more.drv, more.rest, first + more.trace)
  {
    OpQuiet(d, false, DAddr(Address(d) % 256), rest);
  }

  /** The last call of `lcdPutString` addresses the cell the cursor has
      reached after the whole string, as `include/lcd.h` line 462 reads. */
  lemma {:induction false} PutOpsLast(d: Driver, str: seq<byte>, fixed: bool)
    ensures var ops := Facade.PutOps(d, str, fixed);
      ops[|ops| - 1] == Op(false, DAddr(Address(d.(cursor := StepN(d.cursor, d.forward, d.width, d.height, |str|))) % 256))
  {
    var address: byte := Address(d) % 256;
    PutOpsFromLast(d, str, address, fixed);
    NoSteps(d);
    LastOfCons(Op(false, DAddr(address)), Facade.PutOpsFrom(d, str, address, fixed));
  }

  lemma {:induction false} NoSteps(d: Driver)
    ensures d.(cursor := StepN(d.cursor, d.forward, d.width, d.height, 0)) == d
  {
  }

  lemma {:induction false} LastOfCons(o: Op, rest: seq<Op>)
    requires 0 < |rest|
    ensures ([o] + rest)[|[o] + rest| - 1] == rest[|rest| - 1]
  {
  }

  /** The loop's last call: the final set-address command, to `address` for
      an empty string, to the cell reached after the string otherwise. */
  lemma {:induction false} PutOpsFromLast(d: Driver, str: seq<byte>, address: byte, fixed: bool)
    ensures var ops := Facade.PutOpsFrom(d, str, address, fixed);
      var reached := d.(cursor := StepN(d.cursor, d.forward, d.width, d.height, |str|));
      0 < |ops| && ops[|ops| - 1] == Op(false, DAddr(if |str| == 0 then address else Address(reached) % 256))
    decreases |str|
  {
    if |str| > 0 {
      var moved := Advance(d);
      var later := Facade.PutOpsFrom(moved, str[1..], Address(moved) % 256, fixed);
      var pass := PassOps(d, str[0], address, fixed);
      PutOpsFromLast(moved, str[1..], Address(moved) % 256, fixed);
      OpsUnfold(d, str, address, fixed);
      assert (pass + later)[|pass + later| - 1] == later[|later| - 1];
      StepNAfterStep(d.cursor, d.forward, d.width, d.height, |str| - 1);
      assert moved.(cursor := StepN(moved.cursor, d.forward, d.width, d.height, |str| - 1))
        == d.(cursor := StepN(d.cursor, d.forward, d.width, d.height, |str|));
      if |str| == 1 {
        assert StepN(moved.cursor, d.forward, d.width, d.height, 0) == moved.cursor;
      }
    }
  }
}
