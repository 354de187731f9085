/** The driver's two external capabilities, seen from the driver: every call
    of the bus callback and of the delay callback is an event, and a script
    of integers supplies the callbacks' results in call order. Once the
    script is exhausted every further call answers 0, which is a success
    for both callbacks and reads as "not busy" on the bus. */
module Bus {
  import opened Commands

  /** A microsecond count as the delay callback receives it (`uint32_t`). */
  type u32 = x: int | 0 <= x < 0x1_0000_0000

  /** One call of `lcdBusIO(rw, rs, en, data)` or `lcdDelay(us)`. */
  datatype Event =
    | IO(rw: bool, rs: bool, en: bool, data: byte)
    | Delay(us: u32)

  /** The answer to the `i`-th call made from `script`. */
  function At(script: seq<int>, i: nat): int {
    if i < |script| then script[i] else 0
  }

  /** The script left after `n` calls. */
  function Drop(script: seq<int>, n: nat): (r: seq<int>)
    ensures |r| <= |script|
    ensures 0 < n && 0 < |script| ==> |r| < |script|
  {
    if n <= |script| then script[n..] else []
  }

  /** How the driver judges an answer: a negative bus result or a non-zero
      delay result is a failure. */
  predicate Failed(e: Event, answer: int) {
    match e
    case IO(_, _, _, _) => answer < 0
    case Delay(_) => answer != 0
  }

  /** `trace` consumed the front of `script`, leaving `rest`, and no event
      of it but possibly the last one failed: once a call fails, nothing
      more is issued. */
  predicate Follows(script: seq<int>, trace: seq<Event>, rest: seq<int>) {
    && rest == Drop(script, |trace|)
    && forall i {:trigger Passed(script, trace, i)} | 0 <= i < |trace| - 1 :: Passed(script, trace, i)
  }

  /** Every event of `trace` succeeded. */
  predicate AllSucceed(script: seq<int>, trace: seq<Event>) {
    forall i {:trigger Passed(script, trace, i)} | 0 <= i < |trace| :: Passed(script, trace, i)
  }

  /** The `i`-th event of `trace` succeeded. */
  predicate Passed(script: seq<int>, trace: seq<Event>, i: nat)
    requires i < |trace|
  {
    !Failed(trace[i], At(script, i))
  }

  /** The outcome of a short-circuit chain `c1 || c2 || ...` of calls. */
  datatype Chain = Chain(ok: bool, rest: seq<int>, trace: seq<Event>)

  /** What a chain promises: the trace is the events up to and including
      the first one that failed, or all of them when none failed. */
  predicate ChainSpec(events: seq<Event>, script: seq<int>, c: Chain) {
    && Follows(script, c.trace, c.rest)
    && c.trace <= events
    && (c.ok ==> c.trace == events && AllSucceed(script, c.trace))
    && (!c.ok ==> 0 < |c.trace| && Failed(c.trace[|c.trace| - 1], At(script, |c.trace| - 1)))
  }

  /** Issues `events` in order and stops right after the first one that
      fails. */
  function RunChain(events: seq<Event>, script: seq<int>): (c: Chain)
    ensures ChainSpec(events, script, c)
    decreases |events|
  {
    if |events| == 0 then
      Chain(true, script, [])
    else if Failed(events[0], At(script, 0)) then
      Chain(false, Drop(script, 1), [events[0]])
    else
      var c := RunChain(events[1..], Drop(script, 1));
      ChainCons(events, script, c);
      Chain(c.ok, c.rest, [events[0]] + c.trace)
  }

  /** The step case of `RunChain`: a first event that succeeded, in front of
      the chain of the remaining events. */
  lemma ChainCons(events: seq<Event>, script: seq<int>, c: Chain)
    requires 0 < |events| && !Failed(events[0], At(script, 0))
    requires ChainSpec(events[1..], Drop(script, 1), c)
    ensures ChainSpec(events, script, Chain(c.ok, c.rest, [events[0]] + c.trace))
  {
    var t := [events[0]] + c.trace;
    assert Passed(script, [events[0]], 0);
    FollowsThen(script, [events[0]], Drop(script, 1), c.trace, c.rest);
    assert events == [events[0]] + events[1..];
    if !c.ok {
      ShiftScript(script, 1);
      assert t[|t| - 1] == c.trace[|c.trace| - 1];
    }
  }

  /** Calls made after `n` earlier ones see the script shifted by `n`. */
  lemma ShiftScript(script: seq<int>, n: nat)
    ensures forall i: nat :: At(Drop(script, n), i) == At(script, n + i)
    ensures forall m: nat :: Drop(Drop(script, n), m) == Drop(script, n + m)
  {
  }

  /** Traces compose: a fully successful first part followed by a second
      part run on what the first left over behaves like one trace. */
  lemma FollowsThen(script: seq<int>, t1: seq<Event>, mid: seq<int>, t2: seq<Event>, rest: seq<int>)
    requires Follows(script, t1, mid) && AllSucceed(script, t1)
    requires Follows(mid, t2, rest)
    ensures Follows(script, t1 + t2, rest)
    ensures AllSucceed(mid, t2) ==> AllSucceed(script, t1 + t2)
  {
    ShiftScript(script, |t1|);
    var t := t1 + t2;
    forall i | 0 <= i < |t| - 1
      ensures Passed(script, t, i)
    {
      if i < |t1| {
        assert Passed(script, t1, i);
      } else {
        assert Passed(mid, t2, i - |t1|);
      }
    }
    if AllSucceed(mid, t2) {
      forall i | 0 <= i < |t|
        ensures Passed(script, t, i)
      {
        if i < |t1| {
          assert Passed(script, t1, i);
        } else {
          assert Passed(mid, t2, i - |t1|);
        }
      }
    }
  }

  /** A script of `n` zero answers. */
  function Zeros(n: nat): (r: seq<int>)
    ensures |r| == n && forall i | 0 <= i < n :: r[i] == 0
  {
    seq(n, _ => 0)
  }

  /** Every event succeeds on a zero answer. */
  lemma ZeroSucceeds(e: Event)
    ensures !Failed(e, 0)
  {
  }

  /** A chain either runs to its end or stops at the first failure; which
      one is decided by the answers alone. The two directions: */
  lemma ChainCompletes(events: seq<Event>, script: seq<int>)
    requires forall i | 0 <= i < |events| :: !Failed(events[i], At(script, i))
    ensures RunChain(events, script) == Chain(true, Drop(script, |events|), events)
  {
  }

  lemma ChainStopsAt(events: seq<Event>, script: seq<int>, j: nat)
    requires j < |events| && Failed(events[j], At(script, j))
    requires forall i | 0 <= i < j :: !Failed(events[i], At(script, i))
    ensures RunChain(events, script) == Chain(false, Drop(script, j + 1), events[..j + 1])
  {
    var c := RunChain(events, script);
    assert forall k | 0 <= k < |c.trace| :: c.trace[k] == events[k];
    assert |c.trace| > j ==> Passed(script, c.trace, j) || |c.trace| == j + 1;
    assert c.trace == events[..j + 1];
  }
}
