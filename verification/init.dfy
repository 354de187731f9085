/** `lcdInit4Bit` and `lcdInit`: the power-on sequence that forces the
    controller into 8-bit mode three times, asks for 4-bit mode while it is
    still listening on the upper four lines, and then sets the display up
    through the ordinary command path. */
module Init {
  import opened Commands
  import opened Cursor
  import opened Bus
  import opened Lcd
  import opened Engine
  import opened EngineFacts
  import Facade
  import FacadeFacts

  /** The three raw 8-bit function-set pulses: a full pulse and a 5 ms
      wait, a full pulse and a 100 us wait, then a third pulse that raises
      enable at once, without first presenting the byte with enable low. */
  function Wakeup(t: Timing): (r: seq<Event>)
    ensures |r| == 16
  {
    var cmd := Function(true, false, false);
    Pulse(false, cmd, t) + [Delay(5000)]
    + Pulse(false, cmd, t) + [Delay(100)]
    + [IO(false, false, true, cmd), Delay(t.enableHold), IO(false, false, false, cmd), Delay(t.dataHold)]
  }

  /** The raw request for 4-bit mode; its last wait is `dataHold + 100`
      computed in `uint32_t`. */
  function Request(t: Timing): (r: seq<Event>)
    ensures |r| == 6
  {
    Pulse(false, Function(false, false, false), t) + [Delay((t.dataHold + 100) % 0x1_0000_0000)]
  }

  /** The raw calls of `lcdInit4Bit`, both chains. */
  function Raw(t: Timing): seq<Event> {
    Wakeup(t) + Request(t)
  }

  /** `lcdInit4Bit`: a failure anywhere in the two raw chains records `EIO`
      and gives -1; after them, the ordinary 4-bit function-set command's
      result is passed through. */
  function Init4Bit(d: Driver, script: seq<int>): (r: Run)
    ensures Sound(script, r)
    ensures r.drv == d || (r.drv == d.(error := EIO) && r.rc == -1)
    ensures r.trace < Raw(d.timing) ==> r.rc == -1 && r.drv == d.(error := EIO)
    ensures r.trace <= Raw(d.timing) || Raw(d.timing) < r.trace
    ensures 0 < |r.trace| && r.trace[0] == IO(false, false, false, 0x30)
  {
    var c1 := RunChain(Wakeup(d.timing), script);
    if !c1.ok then
      PrefixOfRaw(d.timing, c1.trace, []);
      Run(-1, d.(error := EIO), c1.rest, c1.trace)
    else
      var c2 := RunChain(Request(d.timing), c1.rest);
      FollowsThen(script, c1.trace, c1.rest, c2.trace, c2.rest);
      if !c2.ok then
        PrefixOfRaw(d.timing, c1.trace, c2.trace);
        Run(-1, d.(error := EIO), c2.rest, c1.trace + c2.trace)
      else
        var head := Run(0, d, c2.rest, c1.trace + c2.trace);
        var cmd := Command(d, Function(false, false, false), c2.rest);
        ThenSound(script, head, cmd);
        PrefixOfRaw(d.timing, c1.trace + c2.trace, cmd.trace);
        Then(head, cmd)
  }

  /** Where a trace of `lcdInit4Bit` stands against its raw calls. */
  lemma PrefixOfRaw(t: Timing, a: seq<Event>, b: seq<Event>)
    requires (a <= Wakeup(t) && b == []) || (a == Wakeup(t) && b <= Request(t)) || (a == Raw(t) && 0 < |b|)
    ensures a + b <= Raw(t) || Raw(t) < a + b
  {
    if a == Wakeup(t) && b <= Request(t) {
      PrependPrefix(a, b, Request(t));
    } else if a <= Wakeup(t) && b == [] {
      assert a + b == a;
      PrependPrefix(a, [], Raw(t)[|a|..]);
      assert a + Raw(t)[|a|..] == Raw(t);
    } else {
      assert (a + b)[..|Raw(t)|] == Raw(t);
    }
  }

  /** `lcdInit`'s middle: `lcdInit4Bit`, the function-set command for the
      display's lines and font, and the settle delay; any of them
      returning non-zero gives -1. */
  function Setup(d: Driver, script: seq<int>): (r: Run)
    ensures Sound(script, r)
    ensures r.rc == 0 || r.rc == -1
    ensures r.drv == d || (r.drv == d.(error := EIO) && r.rc == -1)
    ensures 0 < |r.trace| && r.trace[0] == IO(false, false, false, 0x30)
  {
    var a := Init4Bit(d, script);
    if a.rc != 0 then
      Fail(a)
    else
      var s := Facade.Settled(a.drv, Function(false, d.height > 1, d.largeFont), d.timing.busyHoldShort, a.rest);
      ThenSound(script, a, s);
      Then(a, s)
  }

  /** `lcdInit` for a 4-bit bus (the only one it supports): the cursor
      returns to the top-left cell first, whatever happens next; after a
      successful setup, `lcdClear`'s result is passed through. */
  function Init(d: Driver, script: seq<int>): (r: Run)
    requires d.fourBits
    ensures Sound(script, r)
    ensures r.rc == 0 || r.rc == -1
    ensures var home := d.(cursor := Pos(0, 0));
      r.drv == home || (r.drv == home.(error := EIO) && r.rc == -1)
    ensures 0 < |r.trace| && r.trace[0] == IO(false, false, false, 0x30)
  {
    var home := d.(cursor := Pos(0, 0));
    var s := Setup(home, script);
    if s.rc != 0 then
      s
    else
      var c := Facade.Clear(s.drv, s.rest);
      ThenSound(script, s, c);
      Then(s, c)
  }

  /** With callbacks that always succeed and a controller that is never
      busy, `lcdInit4Bit` makes its raw calls and then one 4-bit
      function-set transaction. */
  lemma Init4BitQuiet(d: Driver)
    ensures Init4Bit(d, []) == Run(0, d, [], Raw(d.timing) + Ideal(d, false, 0x20, 0))
  {
    ChainCompletes(Wakeup(d.timing), []);
    ChainCompletes(Request(d.timing), []);
    TransferQuiet(d, false, 0x20);
  }

  /** A raw call of `lcdInit4Bit` failing after the earlier ones succeeded:
      `EIO`, -1, and nothing called after it. */
  lemma Init4BitStopsAt(d: Driver, j: nat, bad: int, tail: seq<int>)
    requires j < |Raw(d.timing)| && Failed(Raw(d.timing)[j], bad)
    ensures Init4Bit(d, Zeros(j) + [bad] + tail) == Run(-1, d.(error := EIO), tail, Raw(d.timing)[..j + 1])
  {
    if j < |Wakeup(d.timing)| {
      StopsInWakeup(d, j, bad, tail);
    } else {
      StopsInRequest(d, j, bad, tail);
    }
  }

  lemma StopsInWakeup(d: Driver, j: nat, bad: int, tail: seq<int>)
    requires j < |Wakeup(d.timing)| && Failed(Raw(d.timing)[j], bad)
    ensures Init4Bit(d, Zeros(j) + [bad] + tail) == Run(-1, d.(error := EIO), tail, Raw(d.timing)[..j + 1])
  {
    var w := Wakeup(d.timing);
    assert w[j] == Raw(d.timing)[j];
    ChainFailsAt(w, j, bad, tail);
    assert Raw(d.timing)[..j + 1] == w[..j + 1];
  }

  lemma StopsInRequest(d: Driver, j: nat, bad: int, tail: seq<int>)
    requires |Wakeup(d.timing)| <= j < |Raw(d.timing)| && Failed(Raw(d.timing)[j], bad)
    ensures Init4Bit(d, Zeros(j) + [bad] + tail) == Run(-1, d.(error := EIO), tail, Raw(d.timing)[..j + 1])
  {
    var w, q := Wakeup(d.timing), Request(d.timing);
    var k := j - |w|;
    var rest := Zeros(k) + [bad] + tail;
    RequestIndex(w, q, j);
    ZerosSplit(|w|, k, bad, tail);
    PreDone(w, rest);
    ChainFailsAt(q, k, bad, tail);
  }

  /** Position `j` of the raw calls, past the wake-up. */
  lemma RequestIndex(w: seq<Event>, q: seq<Event>, j: nat)
    requires |w| <= j < |w| + |q|
    ensures (w + q)[j] == q[j - |w|]
    ensures (w + q)[..j + 1] == w + q[..j - |w| + 1]
  {
  }

  lemma ZerosSplit(m: nat, k: nat, bad: int, tail: seq<int>)
    ensures Zeros(m + k) + [bad] + tail == Zeros(m) + (Zeros(k) + [bad] + tail)
  {
    assert Zeros(m + k) == Zeros(m) + Zeros(k);
  }

  /** A chain whose calls before `j` are answered by zeros and whose call
      at `j` fails. */
  lemma ChainFailsAt(events: seq<Event>, j: nat, bad: int, tail: seq<int>)
    requires j < |events| && Failed(events[j], bad)
    ensures RunChain(events, Zeros(j) + [bad] + tail) == Chain(false, tail, events[..j + 1])
  {
    var script := Zeros(j) + [bad] + tail;
    assert forall i | 0 <= i < j :: At(script, i) == 0;
    assert At(script, j) == bad;
    ZerosSucceed(events, script, j);
    ChainStopsAt(events, script, j);
    assert Drop(script, j + 1) == tail;
  }

  /** Calls answered by zeros succeed. */
  lemma ZerosSucceed(events: seq<Event>, script: seq<int>, j: nat)
    requires j <= |events|
    requires forall i | 0 <= i < j :: At(script, i) == 0
    ensures forall i | 0 <= i < j :: !Failed(events[i], At(script, i))
  {
    forall i | 0 <= i < j
      ensures !Failed(events[i], At(script, i))
    {
      ZeroSucceeds(events[i]);
    }
  }

  /** `lcdInit`'s setup, quietly. */
  lemma SetupQuiet(d: Driver)
    ensures Setup(d, [])
      == Run(0, d, [], Raw(d.timing) + Ideal(d, false, 0x20, 0)
                       + (Ideal(d, false, Function(false, d.height > 1, d.largeFont), 0) + [Delay(d.timing.busyHoldShort)]))
  {
    Init4BitQuiet(d);
    FacadeFacts.SettledQuiet(d, Function(false, d.height > 1, d.largeFont), d.timing.busyHoldShort);
  }

  /** `lcdInit`, quietly: the raw wake-up and 4-bit request, the 4-bit
      function set, the function set for the display, a settle delay, and
      `lcdClear`; the cursor ends on the top-left cell. */
  lemma InitQuiet(d: Driver)
    requires d.fourBits
    ensures var t := d.timing;
      Init(d, [])
      == Run(0, d.(cursor := Pos(0, 0)), [],
             Raw(t) + Ideal(d, false, 0x20, 0)
             + (Ideal(d, false, Function(false, d.height > 1, d.largeFont), 0) + [Delay(t.busyHoldShort)])
             + (Ideal(d, false, 0x01, 0) + [Delay(t.busyHoldShort)]))
  {
    var home := d.(cursor := Pos(0, 0));
    SetupQuiet(home);
    FacadeFacts.ClearQuiet(home);
    IdealSameBus(home, d, false, 0x20);
    IdealSameBus(home, d, false, Function(false, d.height > 1, d.largeFont));
    IdealSameBus(home, d, false, 0x01);
  }
}
