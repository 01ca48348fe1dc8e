/** The idle timer of a connection: one timer, re-armed from an activity time that is kept in whole seconds. */
module IdleTimer {

  /** Times are in nanoseconds, as in Go's time package. */
  const SECOND: int := 1_000_000_000

  /** time.Unix(t.Unix(), 0): the whole second t lies in. */
  function WholeSecond(t: nat): (s: nat)
    ensures s <= t < s + SECOND
  {
    t / SECOND * SECOND
  }

  /** `idle` is ConnIdleTime; timers fire at most `latency` after they are due. */
  datatype Setup = Setup(idle: int, latency: nat)

  /** `activeTime` is the field of TCPConn; `lastEvent` is when the last event, or the creation, really was. */
  datatype State = State(
    now: nat,
    connected: bool,
    activeTime: nat,
    lastEvent: nat,
    timers: seq<int>,            // due times of the pending timers
    decided: bool,               // a timer has called Close
    eventSinceArming: bool,
    rearmed: bool)               // the pending timer is not the one armed at creation

  datatype Action =
    | Event(at: nat)             // Handle
    | Fire(at: nat, timer: nat)  // the function returned by closeTimeoutConn
    | Disconnect(at: nat)        // handleClose, for whatever reason

  /** Without an idle time there is no timer, and nobody keeps the activity time. */
  function Create(p: Setup, at: nat): State {
    if p.idle > 0 then State(at, true, WholeSecond(at), at, [at + p.idle], false, false, false)
    else State(at, true, 0, at, [], false, false, false)
  }

  /** Time goes on, and never past the point by which a pending timer must have fired. */
  predicate Enabled(s: State, p: Setup, a: Action) {
    && s.now <= a.at && (forall i :: 0 <= i < |s.timers| ==> a.at <= s.timers[i] + p.latency)
    && match a
       case Event(_) => s.connected
       case Fire(at, i) => i < |s.timers| && s.timers[i] <= at
       case Disconnect(_) => s.connected
  }

  function Apply(s: State, p: Setup, a: Action): State
    requires Enabled(s, p, a)
  {
    var s := s.(now := a.at);
    match a
    case Event(at) =>
      s.(activeTime := if p.idle > 0 then WholeSecond(at) else s.activeTime, lastEvent := at, eventSinceArming := true)
    case Disconnect(_) => s.(connected := false)
    case Fire(at, i) =>
      var s := s.(timers := s.timers[..i] + s.timers[i + 1..]);
      if !s.connected then s
      else
        var intervals := at - s.activeTime;
        if intervals >= p.idle then s.(decided := true)
        else s.(timers := s.timers + [at + (p.idle - intervals)], eventSinceArming := false, rearmed := true)
  }

  predicate IsRun(p: Setup, start: nat, actions: seq<Action>)
    decreases |actions|, 0
  {
    actions == [] ||
    var before := actions[..|actions| - 1];
    IsRun(p, start, before) && Enabled(After(p, start, before), p, actions[|actions| - 1])
  }

  function After(p: Setup, start: nat, actions: seq<Action>): State
    requires IsRun(p, start, actions)
    decreases |actions|, 1
  {
    if actions == [] then Create(p, start)
    else Apply(After(p, start, actions[..|actions| - 1]), p, actions[|actions| - 1])
  }

  /** Until a close is decided there is exactly one timer, due no later than the idle time after the last event. */
  ghost predicate Inv(s: State, p: Setup) {
    && s.activeTime == WholeSecond(s.lastEvent)
    && s.lastEvent <= s.now
    && (s.connected && !s.decided ==>
          && |s.timers| == 1
          && s.timers[0] <= s.lastEvent + p.idle
          && (!s.eventSinceArming ==> s.activeTime <= s.timers[0] - p.idle))
    && (!s.connected || s.decided ==> |s.timers| <= 1)
    && (s.decided ==> s.timers == [])
  }

  /** Which second the pending timer was armed for. */
  ghost predicate ArmedFor(s: State, p: Setup, start: nat) {
    && start <= s.lastEvent
    && (s.connected && !s.decided ==>
          && |s.timers| == 1
          && var armedFor := s.timers[0] - p.idle;
             if s.rearmed then armedFor <= s.activeTime else armedFor == start)
  }

  lemma {:induction false} RunKeepsInv(p: Setup, start: nat, actions: seq<Action>)
    requires p.idle > 0 && IsRun(p, start, actions)
    ensures Inv(After(p, start, actions), p) && ArmedFor(After(p, start, actions), p, start)
    decreases |actions|
  {
    if actions != [] {
      RunKeepsInv(p, start, actions[..|actions| - 1]);
      WholeSecondMonotone(After(p, start, actions[..|actions| - 1]).lastEvent, actions[|actions| - 1].at);
    }
  }

  lemma WholeSecondMonotone(a: nat, b: nat)
    ensures a <= b ==> WholeSecond(a) <= WholeSecond(b)
    ensures WholeSecond(a) == a <==> a % SECOND == 0
  {
  }

  /** A connection still open and not yet timed out has exactly one pending timer, due in time for its last event. */
  lemma OneTimerPending(p: Setup, start: nat, actions: seq<Action>)
    requires p.idle > 0 && IsRun(p, start, actions)
    ensures var s := After(p, start, actions);
            s.connected && !s.decided ==> |s.timers| == 1 && s.timers[0] <= s.lastEvent + p.idle
  {
    RunKeepsInv(p, start, actions);
  }

  /** When a timer finds the connection open and decides to close it, the connection has been idle for more than
      ConnIdleTime less one second (the price of whole seconds) and for at most ConnIdleTime plus the latency of timers.
      When it re-arms instead, there has been an event since it was armed, and the new timer is due within ConnIdleTime
      of the last event. On a closed connection it does neither. */
  lemma FiringIsRight(p: Setup, start: nat, actions: seq<Action>, a: Action)
    requires p.idle > 0 && IsRun(p, start, actions) && Enabled(After(p, start, actions), p, a) && a.Fire?
    ensures var s, s' := After(p, start, actions), Apply(After(p, start, actions), p, a);
            && !s.decided
            && if !s.connected then !s'.decided && s'.timers == []
               else if s'.decided then p.idle - 1_000_000_000 < a.at - s.lastEvent <= p.idle + p.latency
               else s.eventSinceArming && |s'.timers| == 1 && s'.timers[0] - p.idle <= s.lastEvent
  {
    hide IsRun, After, WholeSecond;
    RunKeepsInv(p, start, actions);
  }

  /** A firing so far was the last: it decided to close, or found the connection closed. */
  predicate Stopped(p: Setup, start: nat, actions: seq<Action>)
    requires IsRun(p, start, actions)
    decreases |actions|
  {
    actions != [] &&
    var before, a := actions[..|actions| - 1], actions[|actions| - 1];
    || Stopped(p, start, before)
    || (a.Fire? && (!After(p, start, before).connected || After(p, start, actions).decided))
  }

  /** The chain of timers goes on, one at a time, until a firing decides to close or finds the connection closed;
      closing the connection does not stop it. */
  lemma {:induction false} TimerUntilStopped(p: Setup, start: nat, actions: seq<Action>)
    requires p.idle > 0 && IsRun(p, start, actions)
    ensures |After(p, start, actions).timers| == if Stopped(p, start, actions) then 0 else 1
    decreases |actions|
  {
    if actions != [] {
      TimerUntilStopped(p, start, actions[..|actions| - 1]);
      RunKeepsInv(p, start, actions[..|actions| - 1]);
    }
  }

  /** Without an idle time no connection is ever closed for being idle. */
  lemma {:induction false} NoIdleTimeNoClose(p: Setup, start: nat, actions: seq<Action>)
    requires p.idle <= 0 && IsRun(p, start, actions)
    ensures After(p, start, actions).timers == [] && !After(p, start, actions).decided
    decreases |actions|
  {
    if actions != [] { NoIdleTimeNoClose(p, start, actions[..|actions| - 1]); }
  }

  /** Exactly when a close comes too early, in every run and at every firing: the idle time has passed since the whole
      second of the last event, but not since the last event. */
  lemma EarlyExactlyWhen(p: Setup, start: nat, actions: seq<Action>, a: Action)
    requires p.idle > 0 && IsRun(p, start, actions) && Enabled(After(p, start, actions), p, a) && a.Fire?
    requires After(p, start, actions).connected && !After(p, start, actions).decided
    ensures var s, s' := After(p, start, actions), Apply(After(p, start, actions), p, a);
            s'.decided && a.at - s.lastEvent < p.idle <==>
              WholeSecond(s.lastEvent) + p.idle <= a.at < s.lastEvent + p.idle
  {
    RunKeepsInv(p, start, actions);
  }

  /** With exact timers the moment of the close is known. A timer that has been re-armed closes the idle time after
      the whole second of the last event, so early if and only if that event was not on a full second. The timer armed
      at creation closes the idle time after the creation, unless an event has come in a later second; and early if
      and only if an event has come at all. */
  lemma ExactTimersEarlyIff(p: Setup, start: nat, actions: seq<Action>, a: Action)
    requires p.idle > 0 && p.latency == 0
    requires IsRun(p, start, actions) && Enabled(After(p, start, actions), p, a) && a.Fire?
    requires After(p, start, actions).connected && !After(p, start, actions).decided
    ensures var s, s' := After(p, start, actions), Apply(After(p, start, actions), p, a);
            && (s'.decided <==> if s.rearmed then a.at == WholeSecond(s.lastEvent) + p.idle
                                else WholeSecond(s.lastEvent) <= start)
            && (s'.decided ==>
                  && a.at == (if s.rearmed then WholeSecond(s.lastEvent) else start) + p.idle
                  && (a.at - s.lastEvent < p.idle <==>
                        if s.rearmed then s.lastEvent % SECOND != 0 else s.lastEvent > start))
  {
    RunKeepsInv(p, start, actions);
    WholeSecondMonotone(After(p, start, actions).lastEvent, start);
  }

  lemma FirstSecond(t: nat)
    requires t < SECOND
    ensures WholeSecond(t) == 0
  {
  }

  lemma Start(p: Setup, start: nat) returns (actions: seq<Action>)
    ensures IsRun(p, start, actions) && After(p, start, actions) == Create(p, start)
  {
    actions := [];
  }

  lemma Extend(p: Setup, start: nat, actions: seq<Action>, a: Action)
    requires IsRun(p, start, actions) && Enabled(After(p, start, actions), p, a)
    ensures IsRun(p, start, actions + [a]) && After(p, start, actions + [a]) == Apply(After(p, start, actions), p, a)
  {
    assert (actions + [a])[..|actions + [a]| - 1] == actions;
  }

  /** The bound is met, for every idle time and every timer: there is a run that loses all of the second but a
      nanosecond, or all of a shorter idle time. */
  lemma AlmostASecondEarly(p: Setup) returns (actions: seq<Action>)
    requires p.idle > 0
    ensures IsRun(p, 0, actions) && After(p, 0, actions).decided
    ensures After(p, 0, actions).now - After(p, 0, actions).lastEvent ==
            if p.idle < SECOND then 0 else p.idle - SECOND + 1
  {
    var last := if p.idle < SECOND then p.idle else SECOND - 1;
    hide WholeSecond, IsRun, After;
    FirstSecond(last);
    FirstSecond(0);
    actions := Start(p, 0);
    Extend(p, 0, actions, Event(last));
    actions := actions + [Event(last)];
    assert After(p, 0, actions) == State(last, true, 0, last, [p.idle], false, true, false);
    Extend(p, 0, actions, Fire(p.idle, 0));
    actions := actions + [Fire(p.idle, 0)];
  }
}
