/**
 * Authorization calls of services/nopsai: the remote service first, the in-process evaluator when it
 * fails, and ten seconds without the remote after a failure. Calls may overlap: a run is the order
 * in which they touch the shared deadline, with the time each event was stamped with.
 */
module AaaBreaker {
  import opened Wrappers

  /** Nanoseconds. */
  const SECOND := 1_000_000_000
  const BACKOFF := 10 * SECOND

  datatype Event =
    | Began(id: nat, at: int)      // the remote is tried
    | Skipped(id: nat, at: int)    // the remote is not tried
    | Succeeded(id: nat, at: int)  // the remote answered
    | Failed(id: nat, at: int)     // the remote did not

  datatype Setup = Setup(remote: bool, local: bool, since: int)

  datatype State = State(retryAfter: Option<int>, now: int, started: set<nat>, flying: set<nat>)

  predicate CanTry(setup: Setup, retryAfter: Option<int>, now: int) {
    setup.remote && (!setup.local || retryAfter.None? || now >= retryAfter.value)
  }

  /** The state after an event, or None if the event cannot happen. */
  function Step(setup: Setup, s: State, e: Event): Option<State> {
    if e.at < s.now then None
    else
      match e
      case Began(id, at) =>
        if id !in s.started && CanTry(setup, s.retryAfter, at)
        then Some(State(s.retryAfter, at, s.started + {id}, s.flying + {id})) else None
      case Skipped(id, at) =>
        if id !in s.started && !CanTry(setup, s.retryAfter, at)
        then Some(State(s.retryAfter, at, s.started + {id}, s.flying)) else None
      case Succeeded(id, at) =>
        if id in s.flying
        then Some(State(if setup.local then None else s.retryAfter, at, s.started, s.flying - {id})) else None
      case Failed(id, at) =>
        if id in s.flying
        then Some(State(if setup.local then Some(at + BACKOFF) else s.retryAfter, at, s.started, s.flying - {id}))
        else None
  }

  function Run(setup: Setup, events: seq<Event>): Option<State> {
    if events == [] then Some(State(None, setup.since, {}, {}))
    else
      var before := Run(setup, events[..|events| - 1]);
      if before.None? then None else Step(setup, before.value, events[|events| - 1])
  }

  lemma {:induction false} PrefixRuns(setup: Setup, events: seq<Event>, k: nat)
    requires Run(setup, events).Some? && k <= |events|
    ensures Run(setup, events[..k]).Some?
    decreases |events|
  {
    if k == |events| {
      assert events[..k] == events;
    } else {
      assert events[..|events| - 1][..k] == events[..k];
      PrefixRuns(setup, events[..|events| - 1], k);
    }
  }

  lemma {:induction false} StepAt(setup: Setup, events: seq<Event>, k: nat)
    requires Run(setup, events).Some? && k < |events|
    ensures Run(setup, events[..k]).Some? && Run(setup, events[..k + 1]).Some?
    ensures Some(Run(setup, events[..k + 1]).value) == Step(setup, Run(setup, events[..k]).value, events[k])
  {
    PrefixRuns(setup, events, k + 1);
    assert events[..k + 1][..k] == events[..k];
  }

  lemma {:induction false} TimesRise(setup: Setup, events: seq<Event>, i: nat, j: nat)
    requires Run(setup, events).Some? && i <= j < |events|
    ensures events[i].at <= events[j].at
    ensures Run(setup, events[..j + 1]).Some? && Run(setup, events[..j + 1]).value.now == events[j].at
    decreases j
  {
    StepAt(setup, events, j);
    if i < j {
      TimesRise(setup, events, i, j - 1);
      assert j - 1 + 1 == j;
    }
  }

  /** Whoever is in flight began, and has not reported since. */
  lemma {:induction false} FlyingBegan(setup: Setup, events: seq<Event>, k: nat, id: nat) returns (b: nat)
    requires Run(setup, events).Some? && k <= |events| && Run(setup, events[..k]).Some?
    requires id in Run(setup, events[..k]).value.flying
    ensures b < k && events[b].Began? && events[b].id == id
    decreases k
  {
    StepAt(setup, events, k - 1);
    if events[k - 1].Began? && events[k - 1].id == id {
      b := k - 1;
    } else {
      b := FlyingBegan(setup, events, k - 1, id);
    }
  }

  predicate SuccessBetween(events: seq<Event>, i: int, j: int) {
    exists k :: i < k < j && 0 <= k < |events| && events[k].Succeeded?
  }

  /** Until some call succeeds, a failure keeps the deadline at ten seconds after it or later. */
  lemma {:induction false} DeadlineHolds(setup: Setup, events: seq<Event>, i: nat, j: nat)
    requires setup.local && Run(setup, events).Some? && i < j <= |events|
    requires events[i].Failed? && !SuccessBetween(events, i, j)
    ensures Run(setup, events[..j]).Some?
    ensures Run(setup, events[..j]).value.retryAfter.Some?
    ensures Run(setup, events[..j]).value.retryAfter.value >= events[i].at + BACKOFF
    decreases j
  {
    StepAt(setup, events, j - 1);
    if i < j - 1 {
      DeadlineHolds(setup, events, i, j - 1);
      TimesRise(setup, events, i, j - 1);
    }
  }

  lemma {:induction false} FirstSuccess(events: seq<Event>, i: nat, j: nat) returns (k: nat)
    requires i < j <= |events| && SuccessBetween(events, i, j)
    ensures i < k < j && events[k].Succeeded? && !SuccessBetween(events, i, k)
    decreases j
  {
    k :| i < k < j && events[k].Succeeded?;
    if SuccessBetween(events, i, k) {
      k := FirstSuccess(events, i, k);
    }
  }

  /**
   * Whatever the interleaving, an attempt less than ten seconds after a failure means that a call
   * begun before the failure has succeeded since: nothing else lifts the deadline.
   */
  lemma EarlyAttempt(setup: Setup, events: seq<Event>, i: nat, j: nat) returns (b: nat, k: nat)
    requires setup.local && Run(setup, events).Some? && i < j < |events|
    requires events[i].Failed? && events[j].Began? && events[j].at < events[i].at + BACKOFF
    ensures b < i < k < j && events[b].Began? && events[k].Succeeded? && events[b].id == events[k].id
  {
    StepAt(setup, events, j);
    if !SuccessBetween(events, i, j) {
      DeadlineHolds(setup, events, i, j);
      assert false;
    }
    k := FirstSuccess(events, i, j);
    StepAt(setup, events, k);
    b := FlyingBegan(setup, events, k, events[k].id);
    if b > i {
      StepAt(setup, events, b);
      assert !SuccessBetween(events, i, b);
      DeadlineHolds(setup, events, i, b);
      TimesRise(setup, events, b, j);
      assert false;
    }
  }

  /** What the deadline is at any point: ten seconds after the last report, if that was a failure. */
  function Deadline(setup: Setup, events: seq<Event>): Option<int> {
    if events == [] || !setup.local then None
    else
      match events[|events| - 1]
      case Succeeded(_, _) => None
      case Failed(_, at) => Some(at + 10_000_000_000)
      case _ => Deadline(setup, events[..|events| - 1])
  }

  lemma {:induction false} DeadlineIs(setup: Setup, events: seq<Event>)
    requires Run(setup, events).Some?
    ensures Run(setup, events).value.retryAfter == Deadline(setup, events)
    decreases |events|
  {
    if events != [] {
      DeadlineIs(setup, events[..|events| - 1]);
    }
  }

  /** A call leaves the remote out exactly when there is none, or the deadline has not come. */
  lemma {:induction false} SkippedIff(setup: Setup, events: seq<Event>, k: nat)
    requires Run(setup, events).Some? && k < |events| && (events[k].Began? || events[k].Skipped?)
    ensures events[k].Skipped?
       <==> !setup.remote || (Deadline(setup, events[..k]).Some? && events[k].at < Deadline(setup, events[..k]).value)
    ensures setup.remote && !setup.local ==> events[k].Began?
  {
    StepAt(setup, events, k);
    DeadlineIs(setup, events[..k]);
  }

  // ----- How far apart failures are.

  /** The attempts in flight after the first `k` events. */
  function FlyingAt(setup: Setup, events: seq<Event>, k: nat): set<nat>
    requires k <= |events|
  {
    var s := Run(setup, events[..k]);
    if s.None? then {} else s.value.flying
  }

  /** A call that started and is not in flight never is again. */
  lemma {:induction false} Landed(setup: Setup, events: seq<Event>, i: nat, j: nat, id: nat)
    requires Run(setup, events).Some? && i <= j <= |events| && Run(setup, events[..i]).Some?
    requires id in Run(setup, events[..i]).value.started && id !in Run(setup, events[..i]).value.flying
    ensures Run(setup, events[..j]).Some?
    ensures id in Run(setup, events[..j]).value.started && id !in Run(setup, events[..j]).value.flying
    decreases j
  {
    if i < j {
      Landed(setup, events, i, j - 1, id);
      StepAt(setup, events, j - 1);
    }
  }

  /** An attempt that has not begun by the end of a moment with nothing in flight begins later. */
  lemma BeganAfter(setup: Setup, events: seq<Event>, i: nat, j: nat) returns (b: nat)
    requires Run(setup, events).Some? && i < j < |events| && FlyingAt(setup, events, i + 1) == {}
    requires events[j].Succeeded? || events[j].Failed?
    ensures i < b < j && events[b].Began? && events[b].id == events[j].id
  {
    StepAt(setup, events, j);
    b := FlyingBegan(setup, events, j, events[j].id);
    if b <= i {
      StepAt(setup, events, b);
      StaysStarted(setup, events, b + 1, i + 1, events[j].id);
      Landed(setup, events, i + 1, j, events[j].id);
      assert false;
    }
  }

  lemma {:induction false} StaysStarted(setup: Setup, events: seq<Event>, i: nat, j: nat, id: nat)
    requires Run(setup, events).Some? && i <= j <= |events| && Run(setup, events[..i]).Some?
    requires id in Run(setup, events[..i]).value.started
    ensures Run(setup, events[..j]).Some? && id in Run(setup, events[..j]).value.started
    decreases j
  {
    if i < j {
      StaysStarted(setup, events, i, j - 1, id);
      StepAt(setup, events, j - 1);
    }
  }

  /**
   * A failure reported while no other attempt is in flight is followed by no failure for ten
   * seconds, however many calls overlap before or after.
   */
  lemma {:induction false} LoneFailureSpaced(setup: Setup, events: seq<Event>, i: nat, j: nat)
    requires setup.local && Run(setup, events).Some? && i < j < |events|
    requires events[i].Failed? && events[j].Failed? && FlyingAt(setup, events, i + 1) == {}
    ensures events[j].at >= events[i].at + BACKOFF
  {
    var b := BeganAfter(setup, events, i, j);
    TimesRise(setup, events, b, j);
    if events[b].at < events[i].at + BACKOFF {
      var early, k := EarlyAttempt(setup, events, i, b);
      var again := BeganAfter(setup, events, i, k);
      SameAttempt(setup, events, early, again);
      assert false;
    }
  }

  /** No two attempts share an id. */
  lemma {:induction false} SameAttempt(setup: Setup, events: seq<Event>, a: nat, b: nat)
    requires Run(setup, events).Some? && a <= b < |events|
    requires events[a].Began? && events[b].Began? && events[a].id == events[b].id
    ensures a == b
  {
    StepAt(setup, events, a);
    StepAt(setup, events, b);
    if a < b {
      StaysStarted(setup, events, a + 1, b, events[a].id);
    }
  }

  /** No more than `n` attempts are ever in flight at once. */
  ghost predicate AtMostFlying(setup: Setup, events: seq<Event>, n: nat) {
    forall k :: 0 <= k <= |events| ==> |FlyingAt(setup, events, k)| <= n
  }

  ghost predicate Spaced(events: seq<Event>) {
    forall i, j :: 0 <= i < j < |events| && events[i].Failed? && events[j].Failed?
      ==> events[j].at >= events[i].at + BACKOFF
  }

  lemma {:induction false} OneAtATimeIsSpaced(setup: Setup, events: seq<Event>)
    requires setup.local && Run(setup, events).Some? && AtMostFlying(setup, events, 1)
    ensures Spaced(events)
  {
    forall i, j | 0 <= i < j < |events| && events[i].Failed? && events[j].Failed?
      ensures events[j].at >= events[i].at + BACKOFF
    {
      StepAt(setup, events, i);
      var before := FlyingAt(setup, events, i);
      assert |before - {events[i].id}| == |before| - 1;
      assert FlyingAt(setup, events, i + 1) == before - {events[i].id};
      LoneFailureSpaced(setup, events, i, j);
    }
  }

  /** The failing run: two attempts in flight at once both fail, at the same moment. */
  lemma BothInFlightFail() returns (setup: Setup, events: seq<Event>)
    ensures setup.local && setup.remote && Run(setup, events).Some? && AtMostFlying(setup, events, 2)
    ensures !Spaced(events)
  {
    setup := Setup(true, true, 0);
    events := [Began(0, 0), Began(1, 0), Failed(0, 0), Failed(1, 0)];
    BothInFlight(setup, events);
    forall k | 0 <= k <= |events| ensures |FlyingAt(setup, events, k)| <= 2 {
      var all: set<nat> := {0, 1};
      assert |all - FlyingAt(setup, events, k)| == |all| - |FlyingAt(setup, events, k)|;
    }
    assert events[2].Failed? && events[3].Failed? && events[3].at < events[2].at + BACKOFF;
  }

  lemma {:induction false} BothInFlight(setup: Setup, events: seq<Event>)
    requires setup == Setup(true, true, 0)
    requires events == [Began(0, 0), Began(1, 0), Failed(0, 0), Failed(1, 0)]
    ensures Run(setup, events).Some?
    ensures forall k :: 0 <= k <= 4 ==> FlyingAt(setup, events, k) <= {0, 1}
  {
    forall k | 0 <= k < 4 ensures events[..k + 1] == events[..k] + [events[k]] {}
    Snoc(setup, events[..0], events[0]);
    Snoc(setup, events[..1], events[1]);
    Snoc(setup, events[..2], events[2]);
    Snoc(setup, events[..3], events[3]);
    assert events[..4] == events;
    forall k | 0 <= k <= 4 ensures FlyingAt(setup, events, k) <= {0, 1} {
      assert k == 0 || k == 1 || k == 2 || k == 3 || k == 4;
    }
  }

  /**
   * With a local evaluator and room for `n` attempts at once, failures are always ten seconds
   * apart if and only if there is room for no more than one.
   */
  lemma SpacedIffOneAtATime(n: nat)
    ensures (forall setup: Setup, events ::
               setup.local && Run(setup, events).Some? && AtMostFlying(setup, events, n) ==> Spaced(events))
       <==> n <= 1
  {
    if n <= 1 {
      forall setup: Setup, events | setup.local && Run(setup, events).Some? && AtMostFlying(setup, events, n)
        ensures Spaced(events)
      {
        assert AtMostFlying(setup, events, 1);
        OneAtATimeIsSpaced(setup, events);
      }
    } else {
      var setup, events := BothInFlightFail();
      assert setup.local && Run(setup, events).Some? && AtMostFlying(setup, events, n) && !Spaced(events);
    }
  }

  /** The failures stamped within a window. */
  function FailuresIn(events: seq<Event>, from: int, width: nat): nat {
    if events == [] then 0
    else
      var last := events[|events| - 1];
      FailuresIn(events[..|events| - 1], from, width)
      + if last.Failed? && from <= last.at <= from + width then 1 else 0
  }

  /** The last failure counted is as late as ten seconds for each one before it. */
  lemma {:induction false} LastFailureLate(events: seq<Event>, from: int, width: nat) returns (k: nat)
    requires Spaced(events) && FailuresIn(events, from, width) > 0
    ensures k < |events| && events[k].Failed? && events[k].at <= from + width
    ensures events[k].at >= from + (FailuresIn(events, from, width) - 1) * BACKOFF
    decreases |events|
  {
    var n := |events| - 1;
    var front, last := events[..n], events[n];
    assert Spaced(front);
    var counted := last.Failed? && from <= last.at <= from + width;
    if FailuresIn(front, from, width) > 0 {
      k := LastFailureLate(front, from, width);
      assert events[k] == front[k];
      if counted {
        assert last.at >= events[k].at + BACKOFF;
        k := n;
      }
    } else {
      k := n;
    }
  }

  /** At most one failed attempt, and one more for each ten seconds of the window. */
  lemma {:induction false} FailuresAreRare(setup: Setup, events: seq<Event>, from: int, width: nat)
    requires setup.local && Run(setup, events).Some? && AtMostFlying(setup, events, 1)
    ensures FailuresIn(events, from, width) <= width / BACKOFF + 1
  {
    OneAtATimeIsSpaced(setup, events);
    var count := FailuresIn(events, from, width);
    if count > 0 {
      var k := LastFailureLate(events, from, width);
      assert (count - 1) * BACKOFF <= width;
    }
  }

  // ----- The calls.

  /**
   * Who answers, read off the events a call leaves: the remote when it succeeded; otherwise the
   * evaluator; without one, a failed attempt's own error, and an error when nobody was asked.
   */
  ghost predicate Answers<T>(events: seq<Event>, setup: Setup, answer: Result<T, string>,
                             remote: Result<T, string>, local: Result<T, string>) {
    forall e :: e in events ==>
      match e
      case Began(_, _) => true
      case Succeeded(_, _) => remote.Ok? && answer == remote
      case Failed(_, _) => remote.Err? && answer == if setup.local then local else remote
      case Skipped(_, _) => if setup.local then answer == local else answer == Err("authorization unavailable")
  }

  /** What a call puts in the run when no other call comes between. */
  function Events(id: nat, tried: bool, start: int, finish: int, ok: bool): seq<Event> {
    if !tried then [Skipped(id, start)]
    else [Began(id, start), if ok then Succeeded(id, finish) else Failed(id, finish)]
  }

  /** A call made while nothing is in flight is alone in flight. */
  lemma {:induction false} CallFliesAlone(
      setup: Setup, log: seq<Event>, id: nat, tried: bool, start: int, finish: int, ok: bool)
    requires Run(setup, log).Some? && Run(setup, log).value.flying == {} && AtMostFlying(setup, log, 1)
    ensures var after := log + Events(id, tried, start, finish, ok);
            Run(setup, after).Some? ==> AtMostFlying(setup, after, 1)
  {
    var events := Events(id, tried, start, finish, ok);
    var after := log + events;
    if Run(setup, after).Some? {
      forall k | 0 <= k <= |after| ensures |FlyingAt(setup, after, k)| <= 1 {
        if k <= |log| {
          assert after[..k] == log[..k];
          assert FlyingAt(setup, after, k) == FlyingAt(setup, log, k);
        } else {
          StepAt(setup, after, |log|);
          assert after[..|log|] == log;
          if k == |log| + 2 {
            StepAt(setup, after, |log| + 1);
          }
        }
      }
    }
  }

  class Authorizer {
    const setup: Setup
    var retryAfter: Option<int>
    ghost var log: seq<Event>

    /** The deadline is where the events so far put it, in whatever order calls made them. */
    ghost predicate Valid() reads this {
      Run(setup, log).Some? && Run(setup, log).value.retryAfter == retryAfter
    }

    /** No call is in flight, and no two ever were. */
    ghost predicate Idle() reads this {
      Valid() && AtMostFlying(setup, log, 1) && Run(setup, log).value.flying == {}
      && forall id :: id in Run(setup, log).value.started ==> id < |log|
    }

    ghost function Now(): int reads this requires Valid() {
      Run(setup, log).value.now
    }

    constructor (remote: bool, local: bool, now: int)
      ensures Idle() && log == [] && setup == Setup(remote, local, now)
    {
      setup := Setup(remote, local, now);
      retryAfter := None;
      log := [];
    }

    method ShouldTryRemote(ghost id: nat, now: int) returns (tried: bool)
      requires Valid() && now >= Now() && id !in Run(setup, log).value.started
      modifies `log
      ensures Valid() && log == old(log) + [if tried then Began(id, now) else Skipped(id, now)]
    {
      if !setup.remote {
        tried := false;
      } else if !setup.local {
        tried := true;
      } else {
        tried := retryAfter.None? || !(now < retryAfter.value);
      }
      Snoc(setup, log, if tried then Began(id, now) else Skipped(id, now));
      log := log + [if tried then Began(id, now) else Skipped(id, now)];
    }

    method MarkRemoteHealthy(ghost id: nat, ghost now: int)
      requires Valid() && now >= Now() && id in Run(setup, log).value.flying
      modifies this
      ensures Valid() && log == old(log) + [Succeeded(id, now)]
    {
      if setup.local {
        retryAfter := None;
      }
      Snoc(setup, log, Succeeded(id, now));
      log := log + [Succeeded(id, now)];
    }

    method MarkRemoteUnavailable(ghost id: nat, now: int)
      requires Valid() && now >= Now() && id in Run(setup, log).value.flying
      modifies this
      ensures Valid() && log == old(log) + [Failed(id, now)]
    {
      if setup.local {
        retryAfter := Some(now + BACKOFF);
      }
      Snoc(setup, log, Failed(id, now));
      log := log + [Failed(id, now)];
    }

    /**
     * One call made while no other is: the shape shared by introspection, check, filter and audit.
     * What the remote would answer, and what the evaluator would, are given.
     */
    method Call<T>(start: int, finish: int, remote: Result<T, string>, local: Result<T, string>)
      returns (answer: Result<T, string>)
      requires Idle() && Now() <= start <= finish
      modifies this
      ensures Idle()
      ensures log == old(log) + Events(old(|log|), CanTry(setup, old(retryAfter), start), start, finish, remote.Ok?)
      ensures Answers(log[old(|log|)..], setup, answer, remote, local)
    {
      ghost var id := |log|;
      ghost var after := log + Events(id, CanTry(setup, retryAfter, start), start, finish, remote.Ok?);
      CallFliesAlone(setup, log, id, CanTry(setup, retryAfter, start), start, finish, remote.Ok?);
      var tried := ShouldTryRemote(id, start);
      if tried {
        if remote.Ok? {
          MarkRemoteHealthy(id, finish);
          assert log == after;
          return remote;
        }
        MarkRemoteUnavailable(id, finish);
        assert log == after;
        if setup.local {
          return local;
        }
        return remote;
      }
      if setup.local {
        return local;
      }
      answer := Err("authorization unavailable");
    }

    /** A batch of no checks is answered without asking anyone; any other as a call is. */
    method BatchCheck<C, D>(start: int, finish: int, checks: seq<C>, remote: Result<seq<D>, string>,
                            local: Result<seq<D>, string>)
      returns (answer: Result<seq<D>, string>)
      requires Idle() && Now() <= start <= finish
      modifies this
      ensures Idle()
      ensures checks == [] ==> answer == Ok([]) && log == old(log) && retryAfter == old(retryAfter)
      ensures checks != [] ==>
                var tried := CanTry(setup, old(retryAfter), start);
                && log == old(log) + Events(old(|log|), tried, start, finish, remote.Ok?)
                && Answers(log[old(|log|)..], setup, answer, remote, local)
    {
      if checks == [] {
        return Ok([]);
      }
      answer := Call(start, finish, remote, local);
    }
  }

  /** However many calls an authorizer with a local evaluator has answered one at a time. */
  lemma {:induction false} AuthorizerFailuresAreRare(a: Authorizer, from: int, width: nat)
    requires a.Idle() && a.setup.local
    ensures Spaced(a.log) && FailuresIn(a.log, from, width) <= width / BACKOFF + 1
  {
    OneAtATimeIsSpaced(a.setup, a.log);
    FailuresAreRare(a.setup, a.log, from, width);
  }

  lemma {:induction false} Snoc(setup: Setup, events: seq<Event>, e: Event)
    requires Run(setup, events).Some?
    ensures Run(setup, events + [e]) == Step(setup, Run(setup, events).value, e)
  {
    assert (events + [e])[..|events|] == events;
  }
}
