/** The wake protocol between any number of threads calling Trigger and the loop thread running Poll, one atomic
    action at a time: Push under the spin lock, the load of eventHandling, the write to the eventfd; and on the loop
    the return of epoll_wait, the read of the eventfd, the two stores to eventHandling, the swap of the job list, each
    job. */
module WakeProtocol {

  /** The loop thread, which calls Trigger from handlers and jobs; every other number is some other thread. */
  const LOOP: nat := 0

  /** Where a thread is inside Trigger, and for which job: the first one ever pushed is number 0. */
  datatype Stage = Idle | Pushed(number: nat) | Waking(number: nat)

  datatype Ready = Socket(fd: int) | WakeFd

  /** Where the loop thread is. `events` are those of the current epoll_wait not looked at yet, `wake` is Poll's
      variable, `forWake` tells handler(-1, 0) from a socket's handler, `rest` is what remains of a swapped-out job
      list. */
  datatype Pc<J> =
    | Blocked
    | Batch(events: seq<Ready>, wake: bool)
    | Handling(events: seq<Ready>, wake: bool, forWake: bool)
    | Cleared(events: seq<Ready>, wake: bool, forWake: bool)
    | Running(events: seq<Ready>, wake: bool, forWake: bool, rest: seq<J>)

  datatype State<J> = State(
    pc: Pc<J>,
    eventHandling: bool,
    counter: nat,                 // of the eventfd
    queue: seq<J>,
    stages: map<nat, Stage>,      // threads not in it are Idle
    pushed: seq<J>,               // all jobs ever pushed, in push order
    executed: seq<J>)

  datatype Action<J> =
    | Push(thread: nat, job: J)
    | Check(thread: nat)
    | Wake(thread: nat)
    | Wait(events: seq<Ready>)
    | Dispatch
    | ReadWake
    | EndBatch
    | Clear
    | Swap
    | RunJob
    | Finish

  function Init<J>(): State<J> {
    State(Blocked, false, 0, [], map[], [], [])
  }

  function StageOf<J>(s: State<J>, thread: nat): Stage {
    if thread in s.stages then s.stages[thread] else Idle
  }

  /** Every thread is where it was inside Trigger. */
  ghost predicate SameStages<J>(s: State<J>, s': State<J>) {
    forall t: nat :: StageOf(s, t) == StageOf(s', t)
  }

  lemma SameStagesChain<J>(s: State<J>, s': State<J>, s'': State<J>)
    requires SameStages(s, s') && SameStages(s', s'')
    ensures SameStages(s, s'')
  {
    forall t: nat ensures StageOf(s, t) == StageOf(s'', t) {
      assert StageOf(s, t) == StageOf(s', t);
    }
  }

  /** epoll_wait reports the eventfd at most once, and only if it is readable; an interrupted call reports nothing. */
  ghost predicate LegalBatch(events: seq<Ready>, counter: nat) {
    && (WakeFd in events ==> counter > 0)
    && (forall i, j :: 0 <= i < j < |events| && events[i] == WakeFd ==> events[j] != WakeFd)
  }

  ghost predicate Enabled<J>(s: State<J>, a: Action<J>) {
    match a
    case Push(t, _) => StageOf(s, t) == Idle && (t == LOOP ==> s.pc.Handling? || s.pc.Running?)
    case Check(t) => StageOf(s, t).Pushed?
    case Wake(t) => StageOf(s, t).Waking?
    case Wait(events) => s.pc.Blocked? && LegalBatch(events, s.counter)
    case Dispatch => s.pc.Batch? && s.pc.events != [] && s.pc.events[0].Socket?
    case ReadWake => s.pc.Batch? && s.pc.events != [] && s.pc.events[0].WakeFd?
    case EndBatch => s.pc.Batch? && s.pc.events == []
    case Clear => s.pc.Handling? && StageOf(s, LOOP) == Idle
    case Swap => s.pc.Cleared?
    case RunJob => s.pc.Running? && s.pc.rest != [] && StageOf(s, LOOP) == Idle
    case Finish => s.pc.Running? && s.pc.rest == [] && StageOf(s, LOOP) == Idle
  }

  function Apply<J>(s: State<J>, a: Action<J>): State<J>
    requires Enabled(s, a)
  {
    match a
    case Push(t, job) =>
      s.(queue := s.queue + [job], pushed := s.pushed + [job], stages := s.stages[t := Pushed(|s.pushed|)])
    case Check(t) =>
      s.(stages := s.stages[t := if s.eventHandling then Idle else Waking(StageOf(s, t).number)])
    case Wake(t) => s.(counter := s.counter + 1, stages := s.stages[t := Idle])
    case Wait(events) => s.(pc := Batch(events, false))
    case Dispatch => s.(pc := Handling(s.pc.events[1..], s.pc.wake, false), eventHandling := true)
    case ReadWake => s.(pc := Batch(s.pc.events[1..], true), counter := 0)
    case EndBatch =>
      if s.pc.wake then s.(pc := Handling([], true, true), eventHandling := true) else s.(pc := Blocked)
    case Clear => s.(pc := Cleared(s.pc.events, s.pc.wake, s.pc.forWake), eventHandling := false)
    case Swap => s.(pc := Running(s.pc.events, s.pc.wake, s.pc.forWake, s.queue), queue := [])
    case RunJob => s.(pc := s.pc.(rest := s.pc.rest[1..]), executed := s.executed + [s.pc.rest[0]])
    case Finish => s.(pc := if s.pc.forWake then Blocked else Batch(s.pc.events, s.pc.wake))
  }

  /** A run: every action enabled where it happens. */
  ghost predicate IsRun<J>(actions: seq<Action<J>>)
    decreases |actions|, 0
  {
    actions == [] ||
    var before := actions[..|actions| - 1];
    IsRun(before) && Enabled(After(before), actions[|actions| - 1])
  }

  ghost function After<J>(actions: seq<Action<J>>): State<J>
    requires IsRun(actions)
    decreases |actions|, 1
  {
    if actions == [] then Init() else Apply(After(actions[..|actions| - 1]), actions[|actions| - 1])
  }

  lemma Extend<J>(actions: seq<Action<J>>, a: Action<J>)
    requires IsRun(actions) && Enabled(After(actions), a)
    ensures IsRun(actions + [a]) && After(actions + [a]) == Apply(After(actions), a)
  {
    assert (actions + [a])[..|actions + [a]| - 1] == actions;
  }

  lemma LoopKeepsStages<J>(s: State<J>, a: Action<J>)
    requires Enabled(s, a) && !(a.Push? || a.Check? || a.Wake?)
    ensures SameStages(s, Apply(s, a))
  {
    assert Apply(s, a).stages == s.stages;
  }

  // ---------- the invariant ----------

  /** The loop will swap the job list again before it blocks. */
  predicate Committed<J>(pc: Pc<J>) {
    match pc
    case Blocked => false
    case Batch(events, wake) => wake || events != []
    case Handling(_, _, _) => true
    case Cleared(_, _, _) => true
    case Running(events, wake, forWake, _) => !forWake && (wake || events != [])
  }

  predicate InTriggerFor<J>(s: State<J>, t: nat, i: nat) {
    StageOf(s, t) != Idle && StageOf(s, t).number == i
  }

  /** The call of Trigger for job number i has not returned yet. */
  ghost predicate Unfinished<J>(s: State<J>, i: nat) {
    exists t: nat :: InTriggerFor(s, t, i)
  }

  /** The same, and the call is not one made on the loop thread. */
  ghost predicate UnfinishedElsewhere<J>(s: State<J>, i: nat) {
    exists t: nat :: t != LOOP && InTriggerFor(s, t, i)
  }

  ghost predicate QueuedUnfinished<J>(s: State<J>) {
    forall i: nat :: |s.pushed| - |s.queue| <= i < |s.pushed| ==> Unfinished(s, i)
  }

  function Rest<J>(pc: Pc<J>): seq<J> {
    if pc.Running? then pc.rest else []
  }

  ghost predicate Inv<J>(s: State<J>) {
    && (s.eventHandling <==> s.pc.Handling?)
    && (StageOf(s, LOOP) != Idle ==> s.pc.Handling? || s.pc.Running?)
    && (s.pc.Running? && s.pc.forWake ==> s.pc.events == [])
    && (s.pc.Handling? && s.pc.forWake ==> s.pc.events == [])
    && (s.pc.Cleared? && s.pc.forWake ==> s.pc.events == [])
    && (!s.pc.Blocked? ==> LegalBatch(s.pc.events, s.counter))
    // a wake-up in the eventfd, or a swap the loop is bound to make, or else each queued job's own Trigger unfinished
    && (s.counter > 0 || Committed(s.pc) || QueuedUnfinished(s))
    // conservation: executed, then being run, then queued
    && s.executed + Rest(s.pc) + s.queue == s.pushed
  }

  lemma PushKeepsUnfinished<J>(s: State<J>, t: nat, job: J)
    requires QueuedUnfinished(s) && Enabled(s, Push(t, job))
    ensures QueuedUnfinished(Apply(s, Push(t, job)))
  {
    var s' := Apply(s, Push(t, job));
    forall i: nat | |s'.pushed| - |s'.queue| <= i < |s'.pushed| ensures Unfinished(s', i) {
      if i == |s.pushed| {
        assert InTriggerFor(s', t, i);
      } else {
        assert Unfinished(s, i);
        var u: nat :| InTriggerFor(s, u, i);
        assert InTriggerFor(s', u, i);
      }
    }
  }

  lemma CheckKeepsUnfinished<J>(s: State<J>, t: nat)
    requires QueuedUnfinished(s) && Enabled(s, Check(t)) && !s.eventHandling
    ensures QueuedUnfinished(Apply(s, Check(t)))
  {
    var s' := Apply(s, Check(t));
    forall i: nat | |s'.pushed| - |s'.queue| <= i < |s'.pushed| ensures Unfinished(s', i) {
      assert Unfinished(s, i);
      var u: nat :| InTriggerFor(s, u, i);
      assert InTriggerFor(s', u, i);
    }
  }

  /** The steps of Trigger keep the invariant. */
  lemma TriggerKeepsInv<J>(s: State<J>, a: Action<J>)
    requires Inv(s) && Enabled(s, a) && (a.Push? || a.Check? || a.Wake?)
    ensures Inv(Apply(s, a))
  {
    match a
    case Push(t, job) =>
      if QueuedUnfinished(s) { PushKeepsUnfinished(s, t, job); }
      assert s.executed + Rest(s.pc) + s.queue + [job] == s.executed + Rest(s.pc) + (s.queue + [job]);
    case Check(t) =>
      if QueuedUnfinished(s) && !s.eventHandling { CheckKeepsUnfinished(s, t); }
    case Wake(t) =>
  }

  lemma LoopKeepsUnfinished<J>(s: State<J>, a: Action<J>)
    requires QueuedUnfinished(s) && Enabled(s, a) && !(a.Push? || a.Check? || a.Wake?)
    ensures QueuedUnfinished(Apply(s, a))
  {
    var s' := Apply(s, a);
    forall i: nat | |s'.pushed| - |s'.queue| <= i < |s'.pushed| ensures Unfinished(s', i) {
      assert Unfinished(s, i);
      var u: nat :| InTriggerFor(s, u, i);
      assert InTriggerFor(s', u, i);
    }
  }

  /** The steps of the loop thread keep the invariant. */
  lemma LoopKeepsInv<J>(s: State<J>, a: Action<J>)
    requires Inv(s) && Enabled(s, a) && !(a.Push? || a.Check? || a.Wake?)
    ensures Inv(Apply(s, a))
  {
    if QueuedUnfinished(s) { LoopKeepsUnfinished(s, a); }
    match a
    case RunJob =>
      assert s.executed + s.pc.rest == s.executed + [s.pc.rest[0]] + s.pc.rest[1..];
    case Swap =>
      assert s.executed + [] + s.queue == s.executed + s.queue + [];
    case _ =>
  }

  lemma {:induction false} RunKeepsInv<J>(actions: seq<Action<J>>)
    requires IsRun(actions)
    ensures Inv(After(actions))
    decreases |actions|
  {
    if actions != [] {
      var before, a := actions[..|actions| - 1], actions[|actions| - 1];
      RunKeepsInv(before);
      if a.Push? || a.Check? || a.Wake? {
        TriggerKeepsInv(After(before), a);
      } else {
        LoopKeepsInv(After(before), a);
      }
    }
  }

  /** No lost wake-up, for every job by itself: in every interleaving, when the loop is blocked in epoll_wait with
      nothing in the eventfd, every job whose own Trigger has returned has been executed, once and in push order,
      whatever other threads are inside Trigger. */
  lemma NoLostWakeup<J>(actions: seq<Action<J>>)
    requires IsRun(actions)
    requires var s := After(actions); s.pc.Blocked? && s.counter == 0
    ensures var s := After(actions);
            && s.executed + s.queue == s.pushed
            && (forall i: nat :: i < |s.pushed| && !Unfinished(s, i) ==> i < |s.executed|)
  {
    RunKeepsInv(actions);
    var s := After(actions);
    assert s.executed + [] == s.executed;
  }

  /** A job's number is taken by one thread only: the one that pushed it and is still inside Trigger for it. */
  ghost predicate NumbersDistinct<J>(s: State<J>) {
    && (forall t: nat :: StageOf(s, t) != Idle ==> StageOf(s, t).number < |s.pushed|)
    && (forall t: nat, u: nat :: StageOf(s, t) != Idle && StageOf(s, u) != Idle && t != u ==>
          StageOf(s, t).number != StageOf(s, u).number)
  }

  lemma {:induction false} OneThreadPerJob<J>(actions: seq<Action<J>>)
    requires IsRun(actions)
    ensures NumbersDistinct(After(actions))
    decreases |actions|
  {
    if actions != [] {
      var before, a := actions[..|actions| - 1], actions[|actions| - 1];
      OneThreadPerJob(before);
      var s, s' := After(before), After(actions);
      forall t: nat
        ensures StageOf(s', t) == StageOf(s, t) || StageOf(s', t) == Idle || a == Check(t) || (a.Push? && a.thread == t)
      {
      }
    }
  }

  lemma FirstOfThree<J>(a: seq<J>, b: seq<J>, c: seq<J>)
    ensures a <= a + b + c
  {
  }

  /** Job conservation and order, at every step of every interleaving. */
  lemma JobsConserved<J>(actions: seq<Action<J>>)
    requires IsRun(actions)
    ensures var s := After(actions); s.executed + Rest(s.pc) + s.queue == s.pushed
  {
    RunKeepsInv(actions);
  }

  // ---------- the loop gets round to it ----------

  /** What the loop thread does next when all other threads stand still and no socket becomes ready: it first gets out
      of Trigger, if a handler or a job has called it. */
  function NextAlone<J>(s: State<J>): Action<J>
    requires !s.pc.Blocked? || s.counter > 0
  {
    if StageOf(s, LOOP).Pushed? then Check(LOOP)
    else if StageOf(s, LOOP).Waking? then Wake(LOOP)
    else
      match s.pc
      case Blocked => Wait([WakeFd])
      case Batch(events, _) => if events == [] then EndBatch else if events[0].WakeFd? then ReadWake else Dispatch
      case Handling(_, _, _) => Clear
      case Cleared(_, _, _) => Swap
      case Running(_, _, _, rest) => if rest == [] then Finish else RunJob
  }

  function Phase<J>(pc: Pc<J>): nat {
    match pc
    case Blocked => 0
    case Batch(_, _) => 1
    case Running(_, _, _, _) => 2
    case Cleared(_, _, _) => 3
    case Handling(_, _, _) => 4
  }

  /** There is a wake-up that the current batch does not report. */
  predicate Unreported<J>(s: State<J>) {
    s.counter > 0 && (s.pc.Blocked? || WakeFd !in s.pc.events)
  }

  /** Poll still has to call handler(-1, 0) for this batch. */
  predicate WakeUnserved<J>(pc: Pc<J>) {
    !pc.Blocked? && pc.wake && (pc.Batch? || !pc.forWake)
  }

  function StepsInTrigger(g: Stage): nat {
    match g
    case Idle => 0
    case Waking(_) => 1
    case Pushed(_) => 2
  }

  /** The loop thread has not touched what other threads are doing. */
  ghost predicate OthersSame<J>(s: State<J>, s': State<J>) {
    && s'.pushed == s.pushed
    && forall t: nat :: t != LOOP ==> StageOf(s', t) == StageOf(s, t)
  }

  lemma AloneEnabled<J>(s: State<J>)
    requires Inv(s) && (!s.pc.Blocked? || s.counter > 0)
    ensures Enabled(s, NextAlone(s)) && Inv(Apply(s, NextAlone(s)))
    ensures OthersSame(s, Apply(s, NextAlone(s)))
    ensures StageOf(s, LOOP) == Idle ==> StageOf(Apply(s, NextAlone(s)), LOOP) == Idle
    ensures StepsInTrigger(StageOf(s, LOOP)) > 0 ==>
              StepsInTrigger(StageOf(Apply(s, NextAlone(s)), LOOP)) < StepsInTrigger(StageOf(s, LOOP))
  {
    assert LegalBatch([WakeFd], 1);
    if StageOf(s, LOOP) == Idle {
      LoopKeepsInv(s, NextAlone(s));
    } else {
      TriggerKeepsInv(s, NextAlone(s));
    }
  }

  /** The loop thread on its own until it blocks with nothing to wake it. */
  ghost function Alone<J>(s: State<J>): State<J>
    requires Inv(s)
    decreases StepsInTrigger(StageOf(s, LOOP)), Unreported(s), if s.pc.Blocked? then 0 else |s.pc.events|,
              WakeUnserved(s.pc), Phase(s.pc), |Rest(s.pc)|
  {
    if s.pc.Blocked? && s.counter == 0 then s
    else
      AloneEnabled(s);
      Alone(Apply(s, NextAlone(s)))
  }

  lemma {:induction false} AloneFinishes<J>(s: State<J>)
    requires Inv(s)
    ensures var e := Alone(s); e.pc.Blocked? && e.counter == 0 && Inv(e) && OthersSame(s, e)
    decreases StepsInTrigger(StageOf(s, LOOP)), Unreported(s), if s.pc.Blocked? then 0 else |s.pc.events|,
              WakeUnserved(s.pc), Phase(s.pc), |Rest(s.pc)|
  {
    if !(s.pc.Blocked? && s.counter == 0) {
      AloneEnabled(s);
      AloneFinishes(Apply(s, NextAlone(s)));
    }
  }

  /** Every job is run: from wherever any interleaving has got to, though every other thread should stop where it is,
      the loop thread executes, in order, at least all jobs whose Trigger has returned and those it has itself posted,
      before it blocks. */
  lemma EveryJobGetsRun<J>(actions: seq<Action<J>>)
    requires IsRun(actions)
    ensures Inv(After(actions))
    ensures var s, e := After(actions), Alone(After(actions));
            && e.executed <= s.pushed
            && (forall i: nat :: i < |s.pushed| && !UnfinishedElsewhere(s, i) ==> i < |e.executed|)
  {
    RunKeepsInv(actions);
    var s := After(actions);
    AloneFinishes(s);
    var e := Alone(s);
    assert e.executed + [] == e.executed && e.executed + e.queue == e.pushed;
    forall i: nat | |e.executed| <= i < |s.pushed| ensures UnfinishedElsewhere(s, i) {
      assert Unfinished(e, i);
      var t: nat :| InTriggerFor(e, t, i);
      assert InTriggerFor(s, t, i);
    }
  }
}
