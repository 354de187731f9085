/** The bus transaction engine of `lcdCommand` and `lcdWrite`: one byte
    becomes one or two enable pulses (the second carrying the low nibble in
    4-bit mode), followed either by a fixed settle delay (write-only mode) or
    by busy-flag polling and an idle cycle. Any failed call on the way
    records `EIO` and returns -1; the final delay or idle cycle passes its
    callback's result back untouched. */
module Engine {
  import opened Commands
  import opened Bus
  import opened Lcd

  /** Present `v` with enable low, raise enable, lower it again. */
  function Pulse(rs: bool, v: byte, t: Timing): seq<Event> {
    [IO(false, rs, false, v), Delay(t.addressSetup), IO(false, rs, true, v), Delay(t.enableHold), IO(false, rs, false, v)]
  }

  /** A pulse followed by the data-hold wait: one half-transaction. */
  function Half(rs: bool, v: byte, t: Timing): seq<Event> {
    Pulse(rs, v, t) + [Delay(t.dataHold)]
  }

  /** `v <<= 4` on a `uint8_t`: the low nibble moves into the high nibble
      and the high nibble is lost. */
  function Shl4(v: byte): (r: byte)
    ensures r / 16 == v % 16 && r % 16 == 0
  {
    (v * 16) % 256
  }

  /** The write part of a transaction: the byte, then in 4-bit mode the
      byte shifted left by four. */
  function Halves(d: Driver, rs: bool, v: byte): seq<Event> {
    Half(rs, v, d.timing) + (if d.fourBits then Half(rs, Shl4(v), d.timing) else [])
  }

  /** Switching the bus to reading the busy flag. */
  function PollSetup(t: Timing): seq<Event> {
    [IO(true, false, false, 0), Delay(t.addressSetup)]
  }

  /** Index of the status read within one poll iteration. */
  const ReadAt := 3

  /** One iteration of the busy poll; 4-bit mode clocks out the unused low
      nibble of the status with a second pulse. */
  function PollIter(fourBits: bool, t: Timing): (r: seq<Event>)
    ensures |r| == (if fourBits then 9 else 5)
    ensures r[ReadAt] == IO(true, false, true, 0)
  {
    [Delay(t.busyInterval), IO(true, false, true, 0), Delay(t.enableHold), IO(true, false, true, 0), IO(true, false, false, 0)]
    + (if fourBits then [Delay(t.dataHold), IO(true, false, true, 0), Delay(t.enableHold), IO(true, false, false, 0)] else [])
  }

  /** The idle cycle that ends a read-write transaction. */
  const Idle: Event := IO(false, false, false, 0)

  function Repeat(s: seq<Event>, n: nat): seq<Event> {
    if n == 0 then [] else s + Repeat(s, n - 1)
  }

  /** Bit 7 of a sampled bus value, `value & (1 << 7)`. Division here rounds
      down, which is what two's complement bit extraction does for negative
      values too. */
  predicate Busy(value: int) {
    (value / 128) % 2 == 1
  }

  /** The outcome of the poll loop; `polls` counts completed iterations. */
  datatype Polled = Polled(ok: bool, polls: nat, rest: seq<int>, trace: seq<Event>)

  /** The status read of iteration `k` (counting from 0) says busy. */
  predicate BusyAt(iter: seq<Event>, script: seq<int>, k: nat)
    requires ReadAt < |iter|
  {
    Busy(At(script, k * |iter| + ReadAt))
  }

  /** What the poll loop promises: the calls follow the script; on success
      they are whole iterations, every one but the last of which read busy,
      and the last read not busy; on failure they are whole iterations that
      all read busy, followed by part of one more, cut off right after the
      failed call. */
  predicate PollSpec(iter: seq<Event>, script: seq<int>, p: Polled)
    requires ReadAt < |iter|
  {
    && Follows(script, p.trace, p.rest)
    && (p.ok ==> AllSucceed(script, p.trace))
    && (p.ok ==> 1 <= p.polls && p.trace == Repeat(iter, p.polls))
    && (p.ok ==> !Busy(At(script, |p.trace| - |iter| + ReadAt)))
    && (p.ok ==> forall k: nat | k < p.polls - 1 :: BusyAt(iter, script, k))
    && (!p.ok ==> Repeat(iter, p.polls) < p.trace <= Repeat(iter, p.polls + 1))
    && (!p.ok ==> forall k: nat | k < p.polls :: BusyAt(iter, script, k))
    && (!p.ok ==> 0 < |p.trace| && Failed(p.trace[|p.trace| - 1], At(script, |p.trace| - 1)))
  }

  /** The `do { ... } while (value & (1 << 7))` loop over the iteration
      `iter`: iterations repeat while the status read says busy, and a
      failed call ends the loop at once. */
  function Poll(iter: seq<Event>, script: seq<int>): (p: Polled)
    requires ReadAt < |iter|
    ensures PollSpec(iter, script, p)
    decreases |script|
  {
    var c := RunChain(iter, script);
    if !c.ok then
      Polled(false, 0, c.rest, c.trace)
    else if Busy(At(script, ReadAt)) then
      var p := Poll(iter, c.rest);
      PollAgain(iter, script, c.rest, p);
      Polled(p.ok, p.polls + 1, p.rest, iter + p.trace)
    else
      Polled(true, 1, c.rest, c.trace)
  }

  /** The step case of `Poll`: a completed busy iteration in front of the
      rest of the loop. */
  lemma PollAgain(iter: seq<Event>, script: seq<int>, mid: seq<int>, p: Polled)
    requires ReadAt < |iter|
    requires Follows(script, iter, mid) && AllSucceed(script, iter)
    requires Busy(At(script, ReadAt))
    requires PollSpec(iter, mid, p)
    ensures PollSpec(iter, script, Polled(p.ok, p.polls + 1, p.rest, iter + p.trace))
  {
    FollowsThen(script, iter, mid, p.trace, p.rest);
    ShiftScript(script, |iter|);
    BusyShifts(iter, script, mid, if p.ok then p.polls - 1 else p.polls);
    if p.ok {
      assert |p.trace| >= |iter|;
    } else {
      PrependPrefix(iter, Repeat(iter, p.polls), p.trace);
      PrependPrefix(iter, p.trace, Repeat(iter, p.polls + 1));
    }
  }

  /** Iterations read busy on the script left after one iteration exactly
      when the iterations one further on read busy on the whole script. */
  lemma BusyShifts(iter: seq<Event>, script: seq<int>, mid: seq<int>, n: nat)
    requires ReadAt < |iter| && mid == Drop(script, |iter|)
    requires Busy(At(script, ReadAt))
    requires forall k: nat | k < n :: BusyAt(iter, mid, k)
    ensures forall k: nat | k < n + 1 :: BusyAt(iter, script, k)
  {
    ShiftScript(script, |iter|);
    forall k: nat | k < n + 1
      ensures BusyAt(iter, script, k)
    {
      if k > 0 {
        assert BusyAt(iter, mid, k - 1);
        assert (k - 1) * |iter| + ReadAt + |iter| == k * |iter| + ReadAt;
      }
    }
  }

  lemma PrependPrefix(a: seq<Event>, s: seq<Event>, t: seq<Event>)
    requires s <= t
    ensures a + s <= a + t
    ensures s < t ==> a + s < a + t
  {
    assert (a + t)[..|a + s|] == a + s;
  }

  /** Everything before the poll loop: the written halves and, in read-write
      mode, the switch to reading. These calls all fail the same way. */
  function PreEvents(d: Driver, rs: bool, v: byte): seq<Event> {
    Halves(d, rs, v) + (if d.writeOnly then [] else PollSetup(d.timing))
  }

  /** The final call of a transaction, whose answer it returns: the settle
      delay in write-only mode, the idle cycle otherwise. */
  function Last(d: Driver): Event {
    if d.writeOnly then Delay(d.timing.busyHoldShort) else Idle
  }

  /** The two ways a transaction whose calls before the final one were
      `pre` and more can end: a failed call before the final one, which
      ends the calls and alone records `EIO` and gives -1; or every call up
      to the final one made, the record left alone, and the final call's
      answer returned. */
  predicate Outcome(d: Driver, pre: seq<Event>, script: seq<int>, r: Run) {
    || (&& r.rc == -1 && r.drv == d.(error := EIO)
        && 0 < |r.trace| && Failed(r.trace[|r.trace| - 1], At(script, |r.trace| - 1)))
    || (&& r.drv == d && pre < r.trace
        && r.trace[|r.trace| - 1] == Last(d) && r.rc == At(script, |r.trace| - 1))
  }

  /** What a transaction does after the written halves and, in read-write
      mode, the switch to reading: the settle delay whose result is
      returned, or the poll loop, where a failure records `EIO` and gives
      -1, followed by the idle cycle whose result is returned. */
  function Finish(d: Driver, rest: seq<int>): (f: Run)
    ensures Sound(rest, f)
    ensures f.drv == d || f.drv == d.(error := EIO)
    ensures f.drv != d ==> f.rc == -1
    ensures Outcome(d, [], rest, f)
  {
    if d.writeOnly then
      Call(d, Delay(d.timing.busyHoldShort), rest)
    else
      var p := Poll(PollIter(d.fourBits, d.timing), rest);
      if !p.ok then
        Run(-1, d.(error := EIO), p.rest, p.trace)
      else
        var polled := Run(0, d, p.rest, p.trace);
        var last := Call(d, Idle, p.rest);
        ThenSound(rest, polled, last);
        ShiftScript(rest, |p.trace|);
        Then(polled, last)
  }

  /** `lcdCommand` (`rs` false) and `lcdWrite` (`rs` true). */
  function Transfer(d: Driver, rs: bool, v: byte, script: seq<int>): (r: Run)
    ensures Sound(script, r)
    ensures r.drv == d || r.drv == d.(error := EIO)
    ensures r.drv != d ==> r.rc == -1
    ensures 0 < |r.trace|
    ensures r.trace <= Halves(d, rs, v) || Halves(d, rs, v) <= r.trace
    ensures Outcome(d, PreEvents(d, rs, v), script, r)
  {
    var pre := PreEvents(d, rs, v);
    var c := RunChain(pre, script);
    if !c.ok then
      PrefixesAgree(c.trace, Halves(d, rs, v), pre);
      Run(-1, d.(error := EIO), c.rest, c.trace)
    else
      var head := Run(0, d, c.rest, c.trace);
      var f := Finish(d, c.rest);
      ThenSound(script, head, f);
      PrefixExtends(Halves(d, rs, v), pre, f.trace);
      FinishOutcome(d, pre, script, f);
      Then(head, f)
  }

  /** The calls before the final stretch, in front of it. */
  lemma FinishOutcome(d: Driver, pre: seq<Event>, script: seq<int>, f: Run)
    requires Outcome(d, [], Drop(script, |pre|), f)
    ensures Outcome(d, pre, script, Run(f.rc, f.drv, f.rest, pre + f.trace))
  {
    ShiftScript(script, |pre|);
    var t := pre + f.trace;
    if f.drv == d && [] < f.trace {
      assert t[|t| - 1] == f.trace[|f.trace| - 1];
      assert At(script, |t| - 1) == At(Drop(script, |pre|), |f.trace| - 1);
      PrefixExtends(pre, pre, f.trace);
    }
  }

  lemma PrefixExtends(a: seq<Event>, b: seq<Event>, c: seq<Event>)
    requires a <= b
    ensures a <= b + c
  {
    assert (b + c)[..|a|] == b[..|a|];
  }

  /** Two prefixes of one sequence are prefixes of each other. */
  lemma PrefixesAgree(a: seq<Event>, b: seq<Event>, s: seq<Event>)
    requires a <= s && b <= s
    ensures a <= b || b <= a
  {
  }

  /** `lcdCommand`: a transaction with register select low. */
  function Command(d: Driver, command: byte, script: seq<int>): (r: Run)
    ensures Sound(script, r)
    ensures 0 < |r.trace| && r.trace[0] == IO(false, false, false, command)
    ensures r.drv == d || (r.drv == d.(error := EIO) && r.rc == -1)
    ensures Outcome(d, PreEvents(d, false, command), script, r)
  {
    Transfer(d, false, command, script)
  }

  /** `lcdWrite`: a transaction with register select high. */
  function Write(d: Driver, data: byte, script: seq<int>): (r: Run)
    ensures Sound(script, r)
    ensures 0 < |r.trace| && r.trace[0] == IO(false, true, false, data)
    ensures r.drv == d || (r.drv == d.(error := EIO) && r.rc == -1)
    ensures Outcome(d, PreEvents(d, true, data), script, r)
  {
    Transfer(d, true, data, script)
  }
}
