/** What `lcdCommand` and `lcdWrite` do for every script: the exact call
    sequence of a transaction that succeeds after a given number of busy
    reads, the cut-off trace of one whose call fails at any chosen step, and
    the single difference between a command and a data write. */
module EngineFacts {
  import opened Commands
  import opened Bus
  import opened Lcd
  import opened Engine

  /** The complete call sequence of a transaction whose status read says
      busy `busy` times before it says ready. */
  function Ideal(d: Driver, rs: bool, v: byte, busy: nat): seq<Event> {
    if d.writeOnly then
      Halves(d, rs, v) + [Delay(d.timing.busyHoldShort)]
    else
      Halves(d, rs, v) + PollSetup(d.timing) + Repeat(PollIter(d.fourBits, d.timing), busy + 1) + [Idle]
  }

  /** Answers for one poll iteration of `n` calls whose status read gives
      `value` and whose other calls succeed. */
  function IterAnswers(n: nat, value: int): seq<int> {
    seq(n, i => if i == ReadAt then value else 0)
  }

  /** Answers for a poll over `iter` that reads busy (bit 7 set) `busy`
      times and then ready: one answer per call of the loop. */
  function PollAnswers(iter: seq<Event>, busy: nat): (r: seq<int>)
    ensures |r| == |Repeat(iter, busy + 1)|
  {
    if busy == 0 then IterAnswers(|iter|, 0) else IterAnswers(|iter|, 0x80) + PollAnswers(iter, busy - 1)
  }

  /** Successful answers for every call of `Ideal(d, rs, v, busy)` except
      the last one, whose answer the transaction returns. */
  function Answers(d: Driver, rs: bool, v: byte, busy: nat): (r: seq<int>)
    ensures |r| == |Ideal(d, rs, v, busy)| - 1
  {
    Zeros(|PreEvents(d, rs, v)|) + (if d.writeOnly then [] else PollAnswers(PollIter(d.fourBits, d.timing), busy))
  }

  /** One poll iteration whose calls all succeed and whose status read
      gives `v`. */
  lemma IterDone(iter: seq<Event>, v: int, rest: seq<int>)
    requires ReadAt < |iter| && iter[ReadAt].IO? && v >= 0
    ensures RunChain(iter, IterAnswers(|iter|, v) + rest) == Chain(true, rest, iter)
    ensures At(IterAnswers(|iter|, v) + rest, ReadAt) == v
  {
    var script := IterAnswers(|iter|, v) + rest;
    assert forall i | 0 <= i < |iter| :: At(script, i) == (if i == ReadAt then v else 0);
    ChainCompletes(iter, script);
    assert Drop(script, |iter|) == rest;
  }

  /** A poll whose first status read says ready stops after one
      iteration. */
  lemma PollReadyNow(iter: seq<Event>, rest: seq<int>)
    requires ReadAt < |iter| && iter[ReadAt].IO?
    ensures Poll(iter, IterAnswers(|iter|, 0) + rest) == Polled(true, 1, rest, iter)
  {
    IterDone(iter, 0, rest);
    assert !Busy(At(IterAnswers(|iter|, 0) + rest, ReadAt));
  }

  /** A poll whose first status read says busy goes round once more. */
  lemma PollBusyOnce(iter: seq<Event>, rest: seq<int>)
    requires ReadAt < |iter| && iter[ReadAt].IO?
    ensures var p := Poll(iter, rest);
      Poll(iter, IterAnswers(|iter|, 0x80) + rest) == Polled(p.ok, p.polls + 1, p.rest, iter + p.trace)
  {
    IterDone(iter, 0x80, rest);
    assert Busy(At(IterAnswers(|iter|, 0x80) + rest, ReadAt));
  }

  /** Busy `busy` times, then ready: the loop runs exactly `busy + 1`
      iterations and consumes exactly their answers. */
  lemma {:induction false} PollRunsUntilReady(iter: seq<Event>, busy: nat, tail: seq<int>)
    requires ReadAt < |iter| && iter[ReadAt].IO?
    ensures Poll(iter, PollAnswers(iter, busy) + tail) == Polled(true, busy + 1, tail, Repeat(iter, busy + 1))
  {
    if busy == 0 {
      PollReadyNow(iter, tail);
      assert Repeat(iter, 1) == iter;
    } else {
      var k := busy - 1;
      var rest := PollAnswers(iter, k) + tail;
      assert PollAnswers(iter, busy) + tail == IterAnswers(|iter|, 0x80) + rest;
      PollRunsUntilReady(iter, k, tail);
      PollBusyOnce(iter, rest);
    }
  }

  /** One poll iteration whose call `j` fails after the calls before it
      succeeded. */
  lemma IterStops(iter: seq<Event>, v: int, j: nat, bad: int, tail: seq<int>)
    requires ReadAt < |iter| && iter[ReadAt].IO? && v >= 0
    requires j < |iter| && Failed(iter[j], bad)
    ensures Poll(iter, IterAnswers(|iter|, v)[..j] + [bad] + tail) == Polled(false, 0, tail, iter[..j + 1])
  {
    var script := IterAnswers(|iter|, v)[..j] + [bad] + tail;
    assert forall i | 0 <= i < j :: At(script, i) == (if i == ReadAt then v else 0);
    assert At(script, j) == bad;
    ChainStopsAt(iter, script, j);
    assert Drop(script, j + 1) == tail;
  }

  /** What `PollStopsAt` promises. */
  predicate StopsAt(iter: seq<Event>, busy: nat, j: nat, bad: int, tail: seq<int>)
    requires ReadAt < |iter| && j < |Repeat(iter, busy + 1)|
  {
    var p := Poll(iter, PollAnswers(iter, busy)[..j] + [bad] + tail);
    !p.ok && p.rest == tail && p.trace == Repeat(iter, busy + 1)[..j + 1]
  }

  /** A call that fails at position `j` of the loop's calls ends the loop
      right there: no later call is made and the rest of the script is
      untouched. */
  lemma {:induction false} PollStopsAt(iter: seq<Event>, busy: nat, j: nat, bad: int, tail: seq<int>)
    requires ReadAt < |iter| && iter[ReadAt].IO?
    requires j < |Repeat(iter, busy + 1)| && Failed(Repeat(iter, busy + 1)[j], bad)
    ensures StopsAt(iter, busy, j, bad, tail)
  {
    if j < |iter| {
      PollStopsFirst(iter, busy, j, bad, tail);
    } else {
      var reps := Repeat(iter, busy);
      assert Repeat(iter, busy + 1) == iter + reps;
      assert busy - 1 + 1 == busy;
      PollStopsAt(iter, busy - 1, j - |iter|, bad, tail);
      AnswersSplit(iter, busy, j, bad, tail);
      PollStopsLater(iter, PollAnswers(iter, busy)[..j] + [bad] + tail,
        PollAnswers(iter, busy - 1)[..j - |iter|] + [bad] + tail, reps, j, tail);
    }
  }

  /** The failure is in the first iteration. */
  lemma PollStopsFirst(iter: seq<Event>, busy: nat, j: nat, bad: int, tail: seq<int>)
    requires ReadAt < |iter| && iter[ReadAt].IO?
    requires j < |iter| && Failed(iter[j], bad)
    ensures StopsAt(iter, busy, j, bad, tail)
  {
    var n := |iter|;
    var v := if busy == 0 then 0 else 0x80;
    assert Repeat(iter, busy + 1) == iter + Repeat(iter, busy);
    assert PollAnswers(iter, busy)[..j] == IterAnswers(n, v)[..j];
    IterStops(iter, v, j, bad, tail);
    assert Repeat(iter, busy + 1)[..j + 1] == iter[..j + 1];
  }

  /** The failure is in a later iteration: the first one reads busy and the
      rest is the loop again. */
  lemma PollStopsLater(iter: seq<Event>, script: seq<int>, rest: seq<int>, reps: seq<Event>, j: nat, tail: seq<int>)
    requires ReadAt < |iter| && iter[ReadAt].IO?
    requires script == IterAnswers(|iter|, 0x80) + rest
    requires |iter| <= j && j - |iter| < |reps|
    requires var p := Poll(iter, rest); !p.ok && p.rest == tail && p.trace == reps[..j - |iter| + 1]
    ensures var p := Poll(iter, script); !p.ok && p.rest == tail && p.trace == (iter + reps)[..j + 1]
  {
    PollBusyOnce(iter, rest);
    PrefixAfter(iter, reps, j - |iter| + 1);
  }

  lemma AnswersSplit(iter: seq<Event>, busy: nat, j: nat, bad: int, tail: seq<int>)
    requires 0 < busy && |iter| <= j < |Repeat(iter, busy + 1)|
    ensures PollAnswers(iter, busy)[..j] + [bad] + tail
      == IterAnswers(|iter|, 0x80) + (PollAnswers(iter, busy - 1)[..j - |iter|] + [bad] + tail)
  {
    assert PollAnswers(iter, busy) == IterAnswers(|iter|, 0x80) + PollAnswers(iter, busy - 1);
  }

  /** In read-write mode `Ideal` is the calls before the loop, the loop's
      iterations and the idle cycle. */
  lemma IdealThroughPoll(d: Driver, rs: bool, v: byte, busy: nat, k: nat)
    requires !d.writeOnly && k < |Repeat(PollIter(d.fourBits, d.timing), busy + 1)|
    ensures PreEvents(d, rs, v) + Repeat(PollIter(d.fourBits, d.timing), busy + 1)[..k + 1]
      == Ideal(d, rs, v, busy)[..|PreEvents(d, rs, v)| + k + 1]
    ensures Ideal(d, rs, v, busy)[|PreEvents(d, rs, v)| + k] == Repeat(PollIter(d.fourBits, d.timing), busy + 1)[k]
  {
    PrefixThrough(PreEvents(d, rs, v), Repeat(PollIter(d.fourBits, d.timing), busy + 1), [Idle], k + 1);
  }

  lemma PrefixThrough(a: seq<Event>, b: seq<Event>, c: seq<Event>, k: nat)
    requires k <= |b|
    ensures a + b[..k] == (a + b + c)[..|a| + k]
  {
    assert (a + b + c)[..|a| + k] == (a + b)[..|a| + k];
  }

  lemma PrefixAfter(a: seq<Event>, b: seq<Event>, k: nat)
    requires k <= |b|
    ensures a + b[..k] == (a + b)[..|a| + k]
  {
  }

  /** The transaction runs to its end: its calls are exactly `Ideal`, the
      last call's answer is returned unchanged, whatever it is, and the
      driver record (its `error` included) is left alone. */
  lemma TransferCompletes(d: Driver, rs: bool, v: byte, busy: nat, last: int, tail: seq<int>)
    ensures Transfer(d, rs, v, Answers(d, rs, v, busy) + [last] + tail)
      == Run(last, d, tail, Ideal(d, rs, v, busy))
  {
    if d.writeOnly {
      CompletesWriteOnly(d, rs, v, busy, last, tail);
    } else {
      CompletesPolling(d, rs, v, busy, last, tail);
    }
  }

  lemma CompletesWriteOnly(d: Driver, rs: bool, v: byte, busy: nat, last: int, tail: seq<int>)
    requires d.writeOnly
    ensures Transfer(d, rs, v, Answers(d, rs, v, busy) + [last] + tail)
      == Run(last, d, tail, Ideal(d, rs, v, busy))
  {
    var pre := PreEvents(d, rs, v);
    assert pre == Halves(d, rs, v);
    assert Answers(d, rs, v, busy) == Zeros(|pre|);
    var script := Answers(d, rs, v, busy) + [last] + tail;
    assert script == Zeros(|pre|) + ([last] + tail);
    PreDone(pre, [last] + tail);
    assert Drop([last] + tail, 1) == tail;
    assert Ideal(d, rs, v, busy) == pre + [Delay(d.timing.busyHoldShort)];
  }

  lemma CompletesPolling(d: Driver, rs: bool, v: byte, busy: nat, last: int, tail: seq<int>)
    requires !d.writeOnly
    ensures Transfer(d, rs, v, Answers(d, rs, v, busy) + [last] + tail)
      == Run(last, d, tail, Ideal(d, rs, v, busy))
  {
    var pre := PreEvents(d, rs, v);
    var iter := PollIter(d.fourBits, d.timing);
    var rest := PollAnswers(iter, busy) + ([last] + tail);
    PollingLayout(d, rs, v, busy, last, tail);
    PreDone(pre, rest);
    PollRunsUntilReady(iter, busy, [last] + tail);
    PollSuccessEnds(d, rs, v, Zeros(|pre|) + rest, rest, last, tail, Repeat(iter, busy + 1));
  }

  /** In read-write mode the answers are zeros for the calls before the
      loop, then the loop's, and `Ideal` is those calls, the loop's and the
      idle cycle. */
  lemma PollingLayout(d: Driver, rs: bool, v: byte, busy: nat, last: int, tail: seq<int>)
    requires !d.writeOnly
    ensures var pre, iter := PreEvents(d, rs, v), PollIter(d.fourBits, d.timing);
      && Answers(d, rs, v, busy) + [last] + tail == Zeros(|pre|) + (PollAnswers(iter, busy) + ([last] + tail))
      && Ideal(d, rs, v, busy) == pre + Repeat(iter, busy + 1) + [Idle]
  {
    var pre, iter := PreEvents(d, rs, v), PollIter(d.fourBits, d.timing);
    assert Answers(d, rs, v, busy) == Zeros(|pre|) + PollAnswers(iter, busy);
  }

  lemma PollSuccessEnds(d: Driver, rs: bool, v: byte, script: seq<int>, rest: seq<int>, last: int, tail: seq<int>, polled: seq<Event>)
    requires !d.writeOnly
    requires RunChain(PreEvents(d, rs, v), script) == Chain(true, rest, PreEvents(d, rs, v))
    requires var p := Poll(PollIter(d.fourBits, d.timing), rest); p.ok && p.rest == [last] + tail && p.trace == polled
    ensures Transfer(d, rs, v, script) == Run(last, d, tail, PreEvents(d, rs, v) + polled + [Idle])
  {
    TransferSplit(d, rs, v, script);
    assert Drop([last] + tail, 1) == tail;
  }

  /** Calls that all get zero answers all succeed. */
  lemma PreDone(pre: seq<Event>, rest: seq<int>)
    ensures RunChain(pre, Zeros(|pre|) + rest) == Chain(true, rest, pre)
  {
    var script := Zeros(|pre|) + rest;
    assert forall i | 0 <= i < |pre| :: At(script, i) == 0;
    ChainCompletes(pre, script);
    assert Drop(script, |pre|) == rest;
  }

  /** A transaction in which the calls before position `j` succeed and the
      call at `j` fails, anywhere before the final call: `error` becomes
      `EIO`, -1 is returned and the trace ends with the failed call. */
  lemma TransferStopsAt(d: Driver, rs: bool, v: byte, busy: nat, j: nat, bad: int, tail: seq<int>)
    requires j < |Ideal(d, rs, v, busy)| - 1 && Failed(Ideal(d, rs, v, busy)[j], bad)
    ensures Transfer(d, rs, v, Answers(d, rs, v, busy)[..j] + [bad] + tail)
      == Run(-1, d.(error := EIO), tail, Ideal(d, rs, v, busy)[..j + 1])
  {
    if j < |PreEvents(d, rs, v)| {
      StopsBeforePoll(d, rs, v, busy, j, bad, tail);
    } else {
      StopsInPoll(d, rs, v, busy, j, bad, tail);
    }
  }

  lemma StopsBeforePoll(d: Driver, rs: bool, v: byte, busy: nat, j: nat, bad: int, tail: seq<int>)
    requires j < |PreEvents(d, rs, v)| && Failed(PreEvents(d, rs, v)[j], bad)
    ensures Transfer(d, rs, v, Answers(d, rs, v, busy)[..j] + [bad] + tail)
      == Run(-1, d.(error := EIO), tail, Ideal(d, rs, v, busy)[..j + 1])
  {
    var pre := PreEvents(d, rs, v);
    var script := Answers(d, rs, v, busy)[..j] + [bad] + tail;
    assert Ideal(d, rs, v, busy)[..j + 1] == pre[..j + 1];
    assert forall i | 0 <= i < j :: At(script, i) == 0;
    assert At(script, j) == bad;
    ChainStopsAt(pre, script, j);
    assert Drop(script, j + 1) == tail;
    TransferSplit(d, rs, v, script);
  }

  lemma StopsInPoll(d: Driver, rs: bool, v: byte, busy: nat, j: nat, bad: int, tail: seq<int>)
    requires |PreEvents(d, rs, v)| <= j < |Ideal(d, rs, v, busy)| - 1
    requires Failed(Ideal(d, rs, v, busy)[j], bad)
    ensures Transfer(d, rs, v, Answers(d, rs, v, busy)[..j] + [bad] + tail)
      == Run(-1, d.(error := EIO), tail, Ideal(d, rs, v, busy)[..j + 1])
  {
    var k := j - |PreEvents(d, rs, v)|;
    assert !d.writeOnly;
    IdealThroughPoll(d, rs, v, busy, k);
    PollScript(d, rs, v, busy, j, bad, tail);
    LoopStops(d, rs, v, busy, k, bad, tail);
  }

  /** The calls before the loop succeed and the loop's call `k` fails. */
  lemma LoopStops(d: Driver, rs: bool, v: byte, busy: nat, k: nat, bad: int, tail: seq<int>)
    requires !d.writeOnly
    requires k < |Repeat(PollIter(d.fourBits, d.timing), busy + 1)|
    requires Failed(Repeat(PollIter(d.fourBits, d.timing), busy + 1)[k], bad)
    ensures var pre, iter := PreEvents(d, rs, v), PollIter(d.fourBits, d.timing);
      Transfer(d, rs, v, Zeros(|pre|) + (PollAnswers(iter, busy)[..k] + [bad] + tail))
      == Run(-1, d.(error := EIO), tail, pre + Repeat(iter, busy + 1)[..k + 1])
  {
    var pre, iter := PreEvents(d, rs, v), PollIter(d.fourBits, d.timing);
    var rest := PollAnswers(iter, busy)[..k] + [bad] + tail;
    PreDone(pre, rest);
    PollStopsAt(iter, busy, k, bad, tail);
    PollFailureEnds(d, rs, v, Zeros(|pre|) + rest, rest, tail, Repeat(iter, busy + 1)[..k + 1]);
  }

  /** The answers of a transaction that fails inside the loop: zeros for
      the calls before it, then the loop's own answers. */
  lemma PollScript(d: Driver, rs: bool, v: byte, busy: nat, j: nat, bad: int, tail: seq<int>)
    requires !d.writeOnly && |PreEvents(d, rs, v)| <= j < |Ideal(d, rs, v, busy)| - 1
    ensures Answers(d, rs, v, busy)[..j] + [bad] + tail
      == Zeros(|PreEvents(d, rs, v)|)
         + (PollAnswers(PollIter(d.fourBits, d.timing), busy)[..j - |PreEvents(d, rs, v)|] + [bad] + tail)
  {
  }

  lemma PollFailureEnds(d: Driver, rs: bool, v: byte, script: seq<int>, rest: seq<int>, tail: seq<int>, polled: seq<Event>)
    requires !d.writeOnly
    requires RunChain(PreEvents(d, rs, v), script) == Chain(true, rest, PreEvents(d, rs, v))
    requires var p := Poll(PollIter(d.fourBits, d.timing), rest); !p.ok && p.rest == tail && p.trace == polled
    ensures Transfer(d, rs, v, script) == Run(-1, d.(error := EIO), tail, PreEvents(d, rs, v) + polled)
  {
    TransferSplit(d, rs, v, script);
  }

  /** With callbacks that always succeed and a controller that is never
      busy, a transaction issues exactly its call sequence with a single
      poll iteration and returns 0. */
  lemma TransferQuiet(d: Driver, rs: bool, v: byte)
    ensures Transfer(d, rs, v, []) == Run(0, d, [], Ideal(d, rs, v, 0))
  {
    ChainCompletes(PreEvents(d, rs, v), []);
    var iter := PollIter(d.fourBits, d.timing);
    ChainCompletes(iter, []);
    assert Poll(iter, []) == Polled(true, 1, [], iter);
  }

  /** One `lcdCommand` (`rs` false) or `lcdWrite` (`rs` true) call. */
  datatype Op = Op(rs: bool, v: byte)

  /** The calls a sequence of transactions makes when every callback
      succeeds and the controller is never busy. */
  function Flatten(d: Driver, ops: seq<Op>): seq<Event> {
    if |ops| == 0 then [] else Ideal(d, ops[0].rs, ops[0].v, 0) + Flatten(d, ops[1..])
  }

  lemma FlattenAppend(d: Driver, a: seq<Op>, b: seq<Op>)
    ensures Flatten(d, a + b) == Flatten(d, a) + Flatten(d, b)
  {
    if |a| > 0 {
      assert (a + b)[0] == a[0] && (a + b)[1..] == a[1..] + b;
      FlattenAppend(d, a[1..], b);
    } else {
      assert a + b == b;
    }
  }

  lemma FlattenCons(d: Driver, o: Op, rest: seq<Op>)
    ensures Flatten(d, [o] + rest) == Ideal(d, o.rs, o.v, 0) + Flatten(d, rest)
  {
    assert ([o] + rest)[0] == o && ([o] + rest)[1..] == rest;
  }

  /** Transactions depend only on the bus setup: its width, write-only
      mode and timings. */
  predicate SameBus(a: Driver, b: Driver) {
    a.fourBits == b.fourBits && a.writeOnly == b.writeOnly && a.timing == b.timing
  }

  lemma IdealSameBus(a: Driver, b: Driver, rs: bool, v: byte)
    requires SameBus(a, b)
    ensures Ideal(a, rs, v, 0) == Ideal(b, rs, v, 0)
  {
  }

  lemma {:induction false} FlattenSameBus(a: Driver, b: Driver, ops: seq<Op>)
    requires SameBus(a, b)
    ensures Flatten(a, ops) == Flatten(b, ops)
  {
    if |ops| > 0 {
      FlattenSameBus(a, b, ops[1..]);
    }
  }

  /** The register-select line of a call, set to `rs`. */
  function WithRS(e: Event, rs: bool): Event {
    match e
    case IO(rw, _, en, data) => IO(rw, rs, en, data)
    case Delay(_) => e
  }

  /** Chains of calls of the same kinds fail at the same place. */
  lemma {:induction false} ChainsAlike(e1: seq<Event>, e2: seq<Event>, script: seq<int>)
    requires |e1| == |e2|
    requires forall i | 0 <= i < |e1| :: e1[i].IO? == e2[i].IO?
    ensures var c1, c2 := RunChain(e1, script), RunChain(e2, script);
      c1.ok == c2.ok && c1.rest == c2.rest && |c1.trace| == |c2.trace|
  {
    if |e1| > 0 && !Failed(e1[0], At(script, 0)) {
      ChainsAlike(e1[1..], e2[1..], Drop(script, 1));
    }
  }

  /** `w` is `c` with register select raised on the calls before `h`. */
  predicate Mirrors(w: seq<Event>, c: seq<Event>, h: nat) {
    && |w| == |c|
    && forall i | 0 <= i < |w| :: w[i] == (if i < h then WithRS(c[i], true) else c[i])
  }

  lemma MirrorsPrefix(w: seq<Event>, c: seq<Event>, h: nat, k: nat)
    requires Mirrors(w, c, h) && k <= |w|
    ensures Mirrors(w[..k], c[..k], h)
  {
  }

  lemma MirrorsAppend(w: seq<Event>, c: seq<Event>, h: nat, x: seq<Event>)
    requires Mirrors(w, c, h) && h <= |w|
    ensures Mirrors(w + x, c + x, h)
  {
  }

  /** What a transaction does once its first chain of calls has ended,
      with `ok` telling whether that chain succeeded and `rest` the script
      it left. The register-select line plays no part here. */
  function Tail(d: Driver, ok: bool, rest: seq<int>): Run {
    if ok then Finish(d, rest) else Run(-1, d.(error := EIO), rest, [])
  }

  /** A transaction is its first chain followed by `Tail`. */
  lemma TransferSplit(d: Driver, rs: bool, v: byte, script: seq<int>)
    ensures var c := RunChain(PreEvents(d, rs, v), script);
      var f := Tail(d, c.ok, c.rest);
      Transfer(d, rs, v, script) == Run(f.rc, f.drv, f.rest, c.trace + f.trace)
  {
    var c := RunChain(PreEvents(d, rs, v), script);
    if !c.ok {
      assert c.trace + [] == c.trace;
    }
  }

  /** The calls before the loop differ only in register select on the
      written halves. */
  lemma PreMirrors(d: Driver, v: byte)
    ensures Mirrors(PreEvents(d, true, v), PreEvents(d, false, v), |Halves(d, true, v)|)
  {
  }

  /** Two chains over mirrored calls, each followed by the same `Tail`. */
  lemma MirrorsJoin(pw: seq<Event>, pc: seq<Event>, h: nat, cw: Chain, cc: Chain, f: Run)
    requires Mirrors(pw, pc, h) && h <= |pw|
    requires cw.trace <= pw && cc.trace <= pc && |cw.trace| == |cc.trace|
    requires cw.ok ==> cw.trace == pw && cc.trace == pc
    requires !cw.ok ==> f.trace == []
    ensures Mirrors(cw.trace + f.trace, cc.trace + f.trace, h)
  {
    if cw.ok {
      MirrorsAppend(pw, pc, h, f.trace);
    } else {
      MirrorsPrefix(pw, pc, h, |cw.trace|);
      assert cw.trace + f.trace == pw[..|cw.trace|] && cc.trace + f.trace == pc[..|cw.trace|];
    }
  }

  /** `lcdWrite` behaves as `lcdCommand` does on the same script: same return
      code, same driver record, same calls, except that its written halves
      carry register select high. The busy poll and the idle cycle keep
      register select low in both. */
  lemma WriteMirrorsCommand(d: Driver, v: byte, script: seq<int>)
    ensures var w, c := Write(d, v, script), Command(d, v, script);
      && w.rc == c.rc && w.drv == c.drv && w.rest == c.rest
      && Mirrors(w.trace, c.trace, |Halves(d, true, v)|)
  {
    var pw, pc := PreEvents(d, true, v), PreEvents(d, false, v);
    PreMirrors(d, v);
    ChainsAlike(pw, pc, script);
    var cw, cc := RunChain(pw, script), RunChain(pc, script);
    TransferSplit(d, true, v, script);
    TransferSplit(d, false, v, script);
    MirrorsJoin(pw, pc, |Halves(d, true, v)|, cw, cc, Tail(d, cw.ok, cw.rest));
  }
}
