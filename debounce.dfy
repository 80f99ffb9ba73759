/**
 * The coalescing scheduler behind `debounce` and the scroll handler: one
 * timeout variable that every call clears and sets again. Time is an
 * abstract integer clock; a `Tick(t)` is the event loop reaching time `t`
 * and running any timeout that is due.
 */
module Debounce {
  import opened Wrappers

  /** Delays of the three triggers: resize, content mutation, scroll. */
  const ResizeWait: nat := 250
  const MutationWait: nat := 100
  const ScrollWait: nat := 50

  datatype Event = Call(time: int) | Tick(time: int)

  /** The deadline of the one pending run, if any, and the times at which runs happened. */
  datatype Schedule = Schedule(pending: Option<int>, runs: seq<int>)

  /**
   * One event: a call replaces whatever is pending by a run `wait` after it;
   * a tick at or after the deadline runs the work once and clears it.
   */
  function Step(s: Schedule, wait: nat, e: Event): (r: Schedule)
    ensures e.Call? ==> r.pending == Some(e.time + wait) && r.runs == s.runs
    ensures e.Tick? && s.pending.Some? && s.pending.value <= e.time ==> r == Schedule(None, s.runs + [e.time])
    ensures e.Tick? && !(s.pending.Some? && s.pending.value <= e.time) ==> r == s
  {
    match e
    case Call(t) => s.(pending := Some(t + wait))
    case Tick(t) =>
      if s.pending.Some? && s.pending.value <= t then Schedule(None, s.runs + [t]) else s
  }

  /** The schedule after a sequence of events, starting with nothing pending. */
  function Run(wait: nat, events: seq<Event>): Schedule
    decreases |events|
  {
    if events == [] then Schedule(None, [])
    else Step(Run(wait, events[..|events| - 1]), wait, events[|events| - 1])
  }

  /** Time of the last call among the events; only ticks come after it. */
  function LastCall(events: seq<Event>): (r: Option<int>)
    ensures r.Some? ==> exists k :: 0 <= k < |events| && events[k] == Call(r.value) &&
                                    forall j :: k < j < |events| ==> events[j].Tick?
    ensures r.None? ==> forall j :: 0 <= j < |events| ==> events[j].Tick?
    decreases |events|
  {
    if events == [] then None
    else
      var init := events[..|events| - 1];
      assert forall j :: 0 <= j < |init| ==> init[j] == events[j];
      match events[|events| - 1]
      case Call(t) => Some(t)
      case Tick(_) => LastCall(init)
  }

  /** Events arrive in the order of the clock. */
  predicate Chronological(events: seq<Event>)
  {
    forall i, j :: 0 <= i < j < |events| ==> events[i].time <= events[j].time
  }

  /**
   * Events that open with a call and in which every tick comes before the
   * deadline set by the call preceding it.
   */
  predicate Coalescing(wait: nat, events: seq<Event>)
    decreases |events|
  {
    if |events| == 0 then false
    else if |events| == 1 then events[0].Call?
    else
      var init := events[..|events| - 1];
      Coalescing(wait, init) &&
      match events[|events| - 1]
      case Call(_) => true
      case Tick(t) => LastCall(init).Some? && t < LastCall(init).value + wait
  }

  /** A burst: chronological events that keep coalescing into one pending run. */
  predicate Burst(wait: nat, events: seq<Event>)
  {
    Chronological(events) && Coalescing(wait, events)
  }

  /**
   * During a burst nothing runs, and exactly one run is pending, `wait` after
   * the last call, which is also the latest call on the clock.
   */
  lemma {:induction false} BurstPending(wait: nat, events: seq<Event>)
    requires Burst(wait, events)
    ensures LastCall(events).Some?
    ensures forall i :: 0 <= i < |events| && events[i].Call? ==> events[i].time <= LastCall(events).value
    ensures Run(wait, events) == Schedule(Some(LastCall(events).value + wait), [])
  {
    CoalescingPending(wait, events);
    var k :| 0 <= k < |events| && events[k] == Call(LastCall(events).value) &&
             forall j :: k < j < |events| ==> events[j].Tick?;
    forall i | 0 <= i < |events| && events[i].Call?
      ensures events[i].time <= LastCall(events).value
    {
      if i < k {
        assert events[i].time <= events[k].time;
      }
    }
  }

  lemma {:induction false} CoalescingPending(wait: nat, events: seq<Event>)
    requires Coalescing(wait, events)
    ensures LastCall(events).Some?
    ensures Run(wait, events) == Schedule(Some(LastCall(events).value + wait), [])
  {
    var n := |events|;
    if n == 1 {
      assert events[..0] == [];
    } else {
      CoalescingPending(wait, events[..n - 1]);
    }
  }

  /** Ticks alone change nothing once nothing is pending. */
  lemma {:induction false} QuietAfterRun(wait: nat, events: seq<Event>, later: seq<Event>)
    requires Run(wait, events).pending == None
    requires forall j :: 0 <= j < |later| ==> later[j].Tick?
    ensures Run(wait, events + later) == Run(wait, events)
    decreases |later|
  {
    if later != [] {
      var front := later[..|later| - 1];
      var all := events + later;
      assert all[..|all| - 1] == events + front;
      assert all[|all| - 1] == later[|later| - 1];
      QuietAfterRun(wait, events, front);
      assert Run(wait, all) == Step(Run(wait, events + front), wait, later[|later| - 1]);
    } else {
      assert events + later == events;
    }
  }

  /**
   * A burst followed by a tick at or after the last call's deadline runs the
   * work exactly once, at that tick; ticks after it run nothing more.
   */
  lemma BurstRunsOnce(wait: nat, events: seq<Event>, last: int, t: int, later: seq<Event>)
    requires Burst(wait, events) && LastCall(events) == Some(last) && last + wait <= t
    requires forall j :: 0 <= j < |later| ==> later[j].Tick?
    ensures Run(wait, events + [Tick(t)] + later) == Schedule(None, [t])
  {
    BurstPending(wait, events);
    assert (events + [Tick(t)])[..|events|] == events;
    QuietAfterRun(wait, events + [Tick(t)], later);
  }

  /**
   * For each handler's delay: calls at 0, 10 and 45 with a tick at 40 in
   * between run the update once, `wait` after the call at 45.
   */
  lemma HandlerBurst(wait: nat)
    requires wait == ResizeWait || wait == MutationWait || wait == ScrollWait
    ensures Run(wait, [Call(0), Call(10), Tick(40), Call(45), Tick(45 + wait), Tick(1000)]) == Schedule(None, [45 + wait])
  {
    var e1, e2, e3 := [Call(0)], [Call(0), Call(10)], [Call(0), Call(10), Tick(40)];
    var burst := e3 + [Call(45)];
    assert Coalescing(wait, e1);
    assert e2[..1] == e1;
    assert Coalescing(wait, e2);
    assert e3[..2] == e2;
    assert LastCall(e2) == Some(10);
    assert Coalescing(wait, e3);
    assert burst[..3] == e3;
    assert Coalescing(wait, burst);
    BurstRunsOnce(wait, burst, 45, 45 + wait, [Tick(1000)]);
    assert burst + [Tick(45 + wait)] + [Tick(1000)] == [Call(0), Call(10), Tick(40), Call(45), Tick(45 + wait), Tick(1000)];
  }

  /** The closure state of one debounced handler: its pending timeout. */
  class Debouncer {
    const wait: nat
    var pending: Option<int>

    constructor (wait: nat)
      ensures this.wait == wait && pending == None
    {
      this.wait := wait;
      pending := None;
    }

    /** `clearTimeout(timeout); timeout = setTimeout(later, wait)`. */
    method Trigger(now: int)
      modifies this
      ensures Schedule(pending, []) == Step(Schedule(old(pending), []), wait, Call(now))
    {
      pending := None;
      pending := Some(now + wait);
    }

    /** The clock reaches `now`; `fire` says whether the debounced work runs now. */
    method Tick(now: int) returns (fire: bool)
      modifies this
      ensures fire <==> old(pending).Some? && old(pending).value <= now
      ensures Schedule(pending, if fire then [now] else []) == Step(Schedule(old(pending), []), wait, Event.Tick(now))
    {
      fire := pending.Some? && pending.value <= now;
      if fire {
        pending := None;
      }
    }
  }
}
