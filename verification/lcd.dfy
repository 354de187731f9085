/** The driver record (`lcdDriver_t`) and the shape shared by every driver
    operation: an operation takes the record and the callbacks' script and
    returns its C return code, the updated record, the unused script and the
    trace of callback calls it made. */
module Lcd {
  import opened Commands
  import opened Cursor
  import opened Bus

  /** The POSIX input/output error number the driver records. */
  const EIO := 5

  /** The six bus timings, in microseconds. */
  datatype Timing = Timing(
    addressSetup: u32,
    enableHold: u32,
    dataHold: u32,
    busyInterval: u32,
    busyHoldShort: u32,
    busyHoldLong: u32)

  /** The `LCD_TIMING_*` defaults. */
  const DefaultTiming := Timing(10, 10, 10, 50, 500, 50000)

  /** `lcdDriver_t` without the callbacks, which the script replaces, and
      without `userData`, which the driver never reads. `forward` is the
      write direction (`direction`, true for forward). */
  datatype Driver = Driver(
    error: int,
    width: byte,
    height: byte,
    fourBits: bool,
    writeOnly: bool,
    largeFont: bool,
    timing: Timing,
    cursor: Pos,
    forward: bool)

  /** The states the cursor code is written for: a non-empty grid whose
      coordinates fit the signed 8-bit cursor fields, with the cursor on it. */
  predicate Valid(d: Driver) {
    && 1 <= d.width <= 127
    && 1 <= d.height <= 127
    && InGrid(d.cursor, d.width, d.height)
  }

  /** `lcdLoadDefaultTiming`: installs the default timings and changes
      nothing else. */
  function LoadDefaultTiming(d: Driver): (r: Driver)
    ensures r.timing.addressSetup == 10 && r.timing.enableHold == 10 && r.timing.dataHold == 10
    ensures r.timing.busyInterval == 50 && r.timing.busyHoldShort == 500 && r.timing.busyHoldLong == 50000
    ensures r == d.(timing := r.timing)
  {
    d.(timing := DefaultTiming)
  }

  /** The display-RAM address of the driver's cursor. */
  function Address(d: Driver): int {
    Decode(d.cursor, d.width)
  }

  /** `lcdUpdateCursor` applied to the driver. */
  function Advance(d: Driver): (r: Driver)
    ensures r == d.(cursor := r.cursor)
    ensures Valid(d) ==> Valid(r)
  {
    d.(cursor := Step(d.cursor, d.forward, d.width, d.height))
  }

  /** The result of one driver operation. */
  datatype Run = Run(rc: int, drv: Driver, rest: seq<int>, trace: seq<Event>)

  /** The trace consumed the script in order and stopped at the first failed
      call; a zero return code means no call failed. */
  predicate Sound(script: seq<int>, r: Run) {
    && Follows(script, r.trace, r.rest)
    && (r.rc == 0 ==> AllSucceed(script, r.trace))
  }

  /** One raw callback call whose answer is the return code. */
  function Call(d: Driver, e: Event, script: seq<int>): (r: Run)
    ensures Sound(script, r) && r.drv == d && r.trace == [e]
    ensures r.rc == At(script, 0) && r.rest == Drop(script, 1)
  {
    Run(At(script, 0), d, Drop(script, 1), [e])
  }

  /** A step that ended in a zero return code, followed by the next step run
      on what it left over. */
  function Then(first: Run, next: Run): Run {
    Run(next.rc, next.drv, next.rest, first.trace + next.trace)
  }

  lemma ThenSound(script: seq<int>, first: Run, next: Run)
    requires Sound(script, first) && first.rc == 0
    requires Sound(first.rest, next)
    ensures Sound(script, Then(first, next))
  {
    FollowsThen(script, first.trace, first.rest, next.trace, next.rest);
  }

  /** The C idiom `if (step) return -1;`. */
  function Fail(r: Run): (f: Run)
    ensures f.rc == -1 && f.drv == r.drv && f.rest == r.rest && f.trace == r.trace
  {
    r.(rc := -1)
  }
}
