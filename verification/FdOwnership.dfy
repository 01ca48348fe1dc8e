/** Descriptor numbers are reused by the kernel. The listener thread accepts and binds connections, the loop threads
    work through batches of events and tear connections down, and the rest of the process opens and closes
    descriptors, all interleaved one atomic step at a time. */
module FdOwnership {
  import opened Bits

  /** How far handleNewConnection has got: BindHandler stores the handler first, then registers with epoll. */
  datatype Binding = Unbound | Stored | Bound(registered: bool)

  /** How far handleClose has got. */
  datatype Teardown = Open | Disconnected | Deregistered | Unlisted | Closed

  datatype ConnInfo = ConnInfo(fd: int, loop: nat, binding: Binding, teardown: Teardown)

  /** An entry of one loop's handler table, or of its epoll set. */
  datatype Key = Key(loop: nat, fd: int)

  /** What epoll_wait returned: a descriptor number, and (not visible to the code) whose registration it was. */
  datatype Report = Report(fd: int, id: nat)

  datatype State = State(
    conns: map<nat, ConnInfo>,      // by connection id
    idGen: nat,
    nextLoop: nat,
    open: map<int, nat>,            // the kernel's open descriptors, and the connection each belongs to, or OTHER
    handlers: map<Key, nat>,
    epoll: map<Key, nat>,
    batches: map<nat, seq<Report>>, // what each loop thread's last epoll_wait returned and it has not dispatched yet
    busy: set<nat>,                 // loop threads inside handleEvent
    closing: map<nat, nat>)         // the connection a loop thread is inside handleClose for

  /** The owner of descriptors that are no connection of this server's. */
  const OTHER: nat := 0

  datatype Action =
    | Elsewhere(fd: int)            // the rest of the process opens a descriptor, or closes one of its own
    | Accept(fd: int)
    | StoreHandler(id: nat)
    | AddRead(id: nat, ok: bool)
    | Wait(loop: nat, reports: seq<Report>)
    | Dispatch(loop: nat)           // handleEvent for the next event of the batch
    | WakeUp(loop: nat)             // handleEvent(-1, 0), after the batch
    | Return(loop: nat)
    | BeginClose(id: nat)
    | PollerDel(id: nat)
    | DeleteHandler(id: nat)
    | CloseFd(id: nat)

  /** `loops` connection loops; `early` lets a connection be closed before it is bound, as OnConnect could. */
  datatype Setup = Setup(loops: nat, early: bool)

  function Init(): State {
    State(map[], 0, 0, map[], map[], map[], map[], {}, map[])
  }

  function KeyOf(i: ConnInfo): Key {
    Key(i.loop, i.fd)
  }

  function BatchOf(s: State, loop: nat): seq<Report> {
    if loop in s.batches then s.batches[loop] else []
  }

  /** A connection is closed from its own loop's handleEvent, be it by an event or by a job. */
  predicate Enabled(s: State, p: Setup, a: Action) {
    match a
    case Elsewhere(fd) => fd in s.open ==> s.open[fd] == OTHER
    case Accept(fd) => fd !in s.open && p.loops > 0
    case StoreHandler(id) => id in s.conns && s.conns[id].binding == Unbound
    case AddRead(id, ok) =>
      && id in s.conns && s.conns[id].binding == Stored
      && (ok ==> s.conns[id].fd in s.open && KeyOf(s.conns[id]) !in s.epoll)
    case Wait(loop, reports) =>
      && loop !in s.busy && BatchOf(s, loop) == []
      && (forall r :: r in reports ==> Key(loop, r.fd) in s.epoll && s.epoll[Key(loop, r.fd)] == r.id)
    case Dispatch(loop) => loop !in s.busy && BatchOf(s, loop) != []
    case WakeUp(loop) => loop !in s.busy && BatchOf(s, loop) == []
    case Return(loop) => loop in s.busy && loop !in s.closing
    case BeginClose(id) =>
      && id in s.conns && s.conns[id].teardown == Open
      && s.conns[id].loop in s.busy && s.conns[id].loop !in s.closing && (s.conns[id].binding.Bound? || p.early)
    case PollerDel(id) => id in s.conns && s.conns[id].teardown == Disconnected
    case DeleteHandler(id) => id in s.conns && s.conns[id].teardown == Deregistered
    case CloseFd(id) => id in s.conns && s.conns[id].teardown == Unlisted
  }

  function Apply(s: State, p: Setup, a: Action): State
    requires Enabled(s, p, a)
  {
    match a
    case Elsewhere(fd) => s.(open := if fd in s.open then s.open - {fd} else s.open[fd := OTHER])
    case Accept(fd) =>
      var id := s.idGen + 1;
      s.(idGen := id, nextLoop := (s.nextLoop + 1) % p.loops, open := s.open[fd := id],
         conns := s.conns[id := ConnInfo(fd, s.nextLoop, Unbound, Open)])
    case StoreHandler(id) =>
      var i := s.conns[id];
      s.(handlers := s.handlers[KeyOf(i) := id], conns := s.conns[id := i.(binding := Stored)])
    case AddRead(id, ok) =>
      var i := s.conns[id];
      s.(conns := s.conns[id := i.(binding := Bound(ok))],
         epoll := if ok then s.epoll[KeyOf(i) := s.open[i.fd]] else s.epoll,
         handlers := if ok then s.handlers else s.handlers - {KeyOf(i)})
    case Wait(loop, reports) => s.(batches := s.batches[loop := reports])
    case Dispatch(loop) => s.(batches := s.batches[loop := s.batches[loop][1..]], busy := s.busy + {loop})
    case WakeUp(loop) => s.(busy := s.busy + {loop})
    case Return(loop) => s.(busy := s.busy - {loop})
    case BeginClose(id) =>
      var i := s.conns[id];
      s.(conns := s.conns[id := i.(teardown := Disconnected)], closing := s.closing[i.loop := id])
    case PollerDel(id) =>
      var i := s.conns[id];
      s.(conns := s.conns[id := i.(teardown := Deregistered)], epoll := s.epoll - {KeyOf(i)})
    case DeleteHandler(id) =>
      var i := s.conns[id];
      s.(conns := s.conns[id := i.(teardown := Unlisted)], handlers := s.handlers - {KeyOf(i)})
    case CloseFd(id) =>
      var i := s.conns[id];
      s.(conns := s.conns[id := i.(teardown := Closed)], open := s.open - {i.fd}, closing := s.closing - {i.loop})
  }

  predicate IsRun(p: Setup, actions: seq<Action>)
    decreases |actions|, 0
  {
    actions == [] ||
    var before := actions[..|actions| - 1];
    IsRun(p, before) && Enabled(After(p, before), p, actions[|actions| - 1])
  }

  function After(p: Setup, actions: seq<Action>): State
    requires IsRun(p, actions)
    decreases |actions|, 1
  {
    if actions == [] then Init() else Apply(After(p, actions[..|actions| - 1]), p, actions[|actions| - 1])
  }

  // ---------- what has to hold ----------

  /** Every entry of a handler table belongs to the connection that owns the descriptor, on that connection's loop. */
  ghost predicate HandlersLive(s: State) {
    forall k :: k in s.handlers ==> OwnedBy(s, k, s.handlers[k])
  }

  predicate OwnedBy(s: State, k: Key, id: nat) {
    && id in s.conns && KeyOf(s.conns[id]) == k
    && k.fd in s.open && s.open[k.fd] == id && s.conns[id].teardown != Closed
  }

  /** The connection numbered id is the one that owns its descriptor, until it has closed it. */
  ghost predicate OpenOwned(s: State) {
    && (forall fd :: fd in s.open && s.open[fd] != OTHER ==>
          s.open[fd] in s.conns && s.conns[s.open[fd]].fd == fd && s.conns[s.open[fd]].teardown != Closed)
    && (forall id :: id in s.conns && s.conns[id].teardown != Closed ==>
          s.conns[id].fd in s.open && s.open[s.conns[id].fd] == id)
  }

  ghost predicate Inv(s: State) {
    && OpenOwned(s)
    && HandlersLive(s)
    && (forall id :: id in s.conns ==> OTHER < id <= s.idGen)
    && (forall k :: k in s.epoll ==> OwnedBy(s, k, s.epoll[k]) && s.conns[s.epoll[k]].teardown in {Open, Disconnected})
    && (forall k :: k in s.handlers ==> Listed(s.conns[s.handlers[k]]))
    && (forall id :: id in s.conns && s.conns[id].teardown != Open ==> s.conns[id].binding.Bound?)
    && (forall id :: id in s.conns && s.conns[id].teardown in {Disconnected, Deregistered, Unlisted} ==>
          s.conns[id].loop in s.closing && s.closing[s.conns[id].loop] == id)
  }

  /** Its handler is in the table: from BindHandler's Store to the Delete of a teardown or of a failed binding. */
  predicate Listed(i: ConnInfo) {
    && (i.binding == Stored || i.binding == Bound(true))
    && i.teardown in {Open, Disconnected, Deregistered}
  }

  predicate Registered(i: ConnInfo) {
    i.binding == Bound(true) && i.teardown in {Open, Disconnected}
  }

  /** The converse of HandlersLive: what is listed and registered can be found. */
  ghost predicate Complete(s: State) {
    && (forall id :: id in s.conns && Listed(s.conns[id]) ==> FoundIn(s.handlers, s.conns[id], id))
    && (forall id :: id in s.conns && Registered(s.conns[id]) ==> FoundIn(s.epoll, s.conns[id], id))
  }

  predicate FoundIn(table: map<Key, nat>, i: ConnInfo, id: nat) {
    KeyOf(i) in table && table[KeyOf(i)] == id
  }

  /** What a batch reports was registered, for good. A loop thread in a teardown is in handleEvent. */
  ghost predicate Reports(s: State) {
    && (forall loop: nat, r: Report :: r in BatchOf(s, loop) ==> Reported(s, loop, r))
    && (forall loop :: loop in s.closing ==> loop in s.busy)
    && (forall k :: k in s.epoll && s.epoll[k] in s.conns ==> s.conns[s.epoll[k]].binding == Bound(true))
  }

  predicate Reported(s: State, loop: nat, r: Report) {
    r.id in s.conns && KeyOf(s.conns[r.id]) == Key(loop, r.fd) && s.conns[r.id].binding == Bound(true)
  }

  // Binding a new connection.

  lemma AcceptKeepsInv(s: State, p: Setup, a: Action)
    requires Inv(s) && Enabled(s, p, a) && a.Accept?
    ensures Inv(Apply(s, p, a))
  {
  }

  lemma StoreHandlerKeepsInv(s: State, p: Setup, a: Action)
    requires Inv(s) && Enabled(s, p, a) && a.StoreHandler?
    ensures Inv(Apply(s, p, a))
  {
  }

  lemma AddReadKeepsInv(s: State, p: Setup, a: Action)
    requires Inv(s) && Enabled(s, p, a) && a.AddRead?
    ensures Inv(Apply(s, p, a))
  {
  }

  lemma ElsewhereKeepsInv(s: State, p: Setup, a: Action)
    requires Inv(s) && Enabled(s, p, a) && a.Elsewhere?
    ensures Inv(Apply(s, p, a))
  {
  }

  /** Events come and go without touching connections, tables and descriptors. */
  lemma EventKeepsInv(s: State, p: Setup, a: Action)
    requires Inv(s) && Enabled(s, p, a) && (a.Wait? || a.Dispatch? || a.WakeUp? || a.Return?)
    ensures Inv(Apply(s, p, a))
  {
    var s' := Apply(s, p, a);
    assert s' == s.(batches := s'.batches, busy := s'.busy);
  }

  // Tearing one down.

  lemma BeginCloseKeepsInv(s: State, p: Setup, a: Action)
    requires Inv(s) && Enabled(s, p, a) && a.BeginClose? && !p.early
    ensures Inv(Apply(s, p, a))
  {
  }

  lemma PollerDelKeepsInv(s: State, p: Setup, a: Action)
    requires Inv(s) && Enabled(s, p, a) && a.PollerDel?
    ensures Inv(Apply(s, p, a))
  {
  }

  lemma DeleteHandlerKeepsInv(s: State, p: Setup, a: Action)
    requires Inv(s) && Enabled(s, p, a) && a.DeleteHandler?
    ensures Inv(Apply(s, p, a))
  {
  }

  lemma CloseFdKeepsInv(s: State, p: Setup, a: Action)
    requires Inv(s) && Enabled(s, p, a) && a.CloseFd?
    ensures Inv(Apply(s, p, a))
  {
  }

  lemma StepKeepsInv(s: State, p: Setup, a: Action)
    requires Inv(s) && Enabled(s, p, a) && !p.early
    ensures Inv(Apply(s, p, a))
  {
    match a
    case Accept(_) => AcceptKeepsInv(s, p, a);
    case StoreHandler(_) => StoreHandlerKeepsInv(s, p, a);
    case AddRead(_, _) => AddReadKeepsInv(s, p, a);
    case BeginClose(_) => BeginCloseKeepsInv(s, p, a);
    case PollerDel(_) => PollerDelKeepsInv(s, p, a);
    case DeleteHandler(_) => DeleteHandlerKeepsInv(s, p, a);
    case CloseFd(_) => CloseFdKeepsInv(s, p, a);
    case Elsewhere(_) => ElsewhereKeepsInv(s, p, a);
    case _ => EventKeepsInv(s, p, a);
  }

  lemma {:induction false} RunKeepsInv(p: Setup, actions: seq<Action>)
    requires !p.early && IsRun(p, actions)
    ensures Inv(After(p, actions))
    decreases |actions|
  {
    if actions != [] {
      var before, a := actions[..|actions| - 1], actions[|actions| - 1];
      RunKeepsInv(p, before);
      StepKeepsInv(After(p, before), p, a);
    }
  }

  // What a step removes is never what another connection needs.

  lemma OwnKey(s: State, id: nat, other: nat)
    requires OpenOwned(s) && id in s.conns && other in s.conns && id != other
    requires s.conns[id].teardown != Closed && s.conns[other].teardown != Closed
    ensures KeyOf(s.conns[id]) != KeyOf(s.conns[other])
  {
  }

  /** The connection whose binding or teardown an action is a step of. */
  predicate OwnStep(a: Action, id: nat) {
    match a
    case StoreHandler(i) => i == id
    case AddRead(i, _) => i == id
    case BeginClose(i) => i == id
    case PollerDel(i) => i == id
    case DeleteHandler(i) => i == id
    case CloseFd(i) => i == id
    case _ => false
  }

  lemma StepKeepsOthers(s: State, p: Setup, a: Action, id: nat)
    requires OpenOwned(s) && Complete(s) && Enabled(s, p, a)
    requires id in s.conns && id <= s.idGen && !OwnStep(a, id)
    requires forall own: nat :: own in s.conns && OwnStep(a, own) ==> s.conns[own].teardown != Closed
    ensures var s' := Apply(s, p, a);
            && id in s'.conns && s'.conns[id] == s.conns[id]
            && (Listed(s.conns[id]) ==> FoundIn(s'.handlers, s.conns[id], id))
            && (Registered(s.conns[id]) ==> FoundIn(s'.epoll, s.conns[id], id))
  {
    if s.conns[id].teardown != Closed {
      forall own: nat | own in s.conns && OwnStep(a, own) ensures KeyOf(s.conns[own]) != KeyOf(s.conns[id]) {
        OwnKey(s, own, id);
      }
      assert a.StoreHandler? || a.AddRead? || a.PollerDel? || a.DeleteHandler? ==> OwnStep(a, a.id);
    }
  }

  lemma StepKeepsOwn(s: State, p: Setup, a: Action, id: nat)
    requires Inv(s) && Complete(s) && Enabled(s, p, a) && OwnStep(a, id)
    ensures var s' := Apply(s, p, a);
            && id in s'.conns
            && (Listed(s'.conns[id]) ==> FoundIn(s'.handlers, s'.conns[id], id))
            && (Registered(s'.conns[id]) ==> FoundIn(s'.epoll, s'.conns[id], id))
  {
  }

  lemma StepKeepsComplete(s: State, p: Setup, a: Action)
    requires Inv(s) && Complete(s) && Enabled(s, p, a)
    ensures Complete(Apply(s, p, a))
  {
    hide OpenOwned, HandlersLive, FoundIn, Listed, Registered;
    var s' := Apply(s, p, a);
    forall id | id in s'.conns
      ensures Listed(s'.conns[id]) ==> FoundIn(s'.handlers, s'.conns[id], id)
      ensures Registered(s'.conns[id]) ==> FoundIn(s'.epoll, s'.conns[id], id)
    {
      if OwnStep(a, id) {
        StepKeepsOwn(s, p, a, id);
      } else if id in s.conns {
        StepKeepsOthers(s, p, a, id);
      } else {
        NewcomerIsUnbound(s, p, a, id);
      }
    }
  }

  lemma NewcomerIsUnbound(s: State, p: Setup, a: Action, id: nat)
    requires Enabled(s, p, a) && id !in s.conns && id in Apply(s, p, a).conns
    ensures var i := Apply(s, p, a).conns[id]; !Listed(i) && !Registered(i)
  {
  }

  lemma StepKeepsReports(s: State, p: Setup, a: Action)
    requires Inv(s) && Reports(s) && Enabled(s, p, a)
    ensures Reports(Apply(s, p, a))
  {
    var s' := Apply(s, p, a);
    forall loop: nat, r: Report | r in BatchOf(s', loop) ensures Reported(s', loop, r) {
      if !a.Wait? || a.loop != loop { assert r in BatchOf(s, loop); }
    }
  }

  lemma {:induction false} RunKeepsComplete(p: Setup, actions: seq<Action>)
    requires !p.early && IsRun(p, actions)
    ensures Inv(After(p, actions)) && Complete(After(p, actions)) && Reports(After(p, actions))
    decreases |actions|
  {
    RunKeepsInv(p, actions);
    if actions != [] {
      var before, a := actions[..|actions| - 1], actions[|actions| - 1];
      RunKeepsComplete(p, before);
      StepKeepsComplete(After(p, before), p, a);
      StepKeepsReports(After(p, before), p, a);
    }
  }

  /** Fd-reuse safety: however the kernel reuses numbers, and however binding and teardown interleave, what a teardown
      step removes from epoll, from the handler table or from the kernel is its own connection's or nothing at all; all
      other registrations, table entries and descriptors, of connections or not, stay. */
  lemma TeardownTouchesOnlyItsOwn(p: Setup, actions: seq<Action>, a: Action)
    requires !p.early && IsRun(p, actions) && Enabled(After(p, actions), p, a)
    requires a.PollerDel? || a.DeleteHandler? || a.CloseFd?
    ensures var s, s' := After(p, actions), Apply(After(p, actions), p, a);
            && (forall id :: id in s.conns && id != a.id ==> id in s'.conns && s'.conns[id] == s.conns[id])
            && (forall k :: k in s.epoll && s.epoll[k] != a.id ==> k in s'.epoll && s'.epoll[k] == s.epoll[k])
            && (forall k :: k in s.handlers && s.handlers[k] != a.id ==>
                  k in s'.handlers && s'.handlers[k] == s.handlers[k])
            && (forall fd :: fd in s.open && s.open[fd] != a.id ==> fd in s'.open && s'.open[fd] == s.open[fd])
  {
    RunKeepsInv(p, actions);
  }

  /** The connection that handleEvent finds for the next event of the loop's batch. */
  function Target(s: State, loop: nat): Option<nat>
    requires BatchOf(s, loop) != []
  {
    var k := Key(loop, s.batches[loop][0].fd);
    if k in s.handlers then Some(s.handlers[k]) else None
  }

  /** A connection has taken over the number, on the same loop, and is in the table. */
  ghost predicate Rebound(s: State, k: Key, id: nat) {
    exists other :: other in s.conns && other != id && KeyOf(s.conns[other]) == k && Listed(s.conns[other])
  }

  /** What epoll_wait reports is about connections open at that moment, under their own numbers. */
  lemma WaitReportsOpen(p: Setup, actions: seq<Action>, loop: nat, reports: seq<Report>)
    requires !p.early && IsRun(p, actions) && Enabled(After(p, actions), p, Wait(loop, reports))
    ensures var s := After(p, actions);
            forall r :: r in reports ==>
              r.id in s.conns && KeyOf(s.conns[r.id]) == Key(loop, r.fd) && s.conns[r.id].teardown == Open
  {
    RunKeepsComplete(p, actions);
  }

  /** Where the events of a batch go. An event is delivered to an open connection that owns the number, or to none. It
      reaches the connection it was reported for if and only if that connection has not been closed since, by an earlier
      event of the batch or a job run after one; and it reaches another one if and only if, besides, the number has been
      accepted and bound again on this loop. */
  lemma DispatchReaches(p: Setup, actions: seq<Action>, loop: nat)
    requires !p.early && IsRun(p, actions) && Enabled(After(p, actions), p, Dispatch(loop))
    ensures var s := After(p, actions); var r := s.batches[loop][0]; var t := Target(s, loop);
            && r.id in s.conns && s.conns[r.id].teardown in {Open, Closed}
            && (t.Some? ==> OwnedBy(s, Key(loop, r.fd), t.value) && s.conns[t.value].teardown == Open)
            && (t == Some(r.id) <==> s.conns[r.id].teardown == Open)
            && (t.Some? && t.value != r.id <==> s.conns[r.id].teardown == Closed && Rebound(s, Key(loop, r.fd), r.id))
  {
    RunKeepsComplete(p, actions);
    var s := After(p, actions);
    var r := s.batches[loop][0];
    assert Reported(s, loop, r) by { assert r in BatchOf(s, loop); }
  }

  /** An open connection that was bound gets its events: epoll watches its descriptor, and the table leads
      back to it. */
  lemma EventsFindTheirConnection(p: Setup, actions: seq<Action>, id: nat)
    requires !p.early && IsRun(p, actions)
    requires var s := After(p, actions);
             id in s.conns && s.conns[id].binding == Bound(true) && s.conns[id].teardown == Open
    ensures var s := After(p, actions); var k := KeyOf(s.conns[id]);
            && k in s.epoll && s.epoll[k] == id && k in s.handlers && s.handlers[k] == id
            && k.fd in s.open && s.open[k.fd] == id
  {
    RunKeepsComplete(p, actions);
  }

  /** Once a connection has closed its descriptor, nothing refers to the connection any more. */
  lemma ClosedLeavesNothing(p: Setup, actions: seq<Action>, id: nat)
    requires !p.early && IsRun(p, actions)
    requires id in After(p, actions).conns && After(p, actions).conns[id].teardown == Closed
    ensures var s := After(p, actions);
            && (forall k :: k in s.epoll ==> s.epoll[k] != id) && (forall k :: k in s.handlers ==> s.handlers[k] != id)
            && (forall fd :: fd in s.open ==> s.open[fd] != id)
  {
    RunKeepsInv(p, actions);
  }

  /** A registration may fail at any time. That leaves the connection out of both tables, and its descriptor open:
      no event will reach it, so only a job can still close it. */
  lemma FailedBinding(p: Setup, actions: seq<Action>, id: nat)
    requires !p.early && IsRun(p, actions)
    requires id in After(p, actions).conns && After(p, actions).conns[id].binding == Stored
    ensures Enabled(After(p, actions), p, AddRead(id, false))
    ensures var s := Apply(After(p, actions), p, AddRead(id, false)); var fd := s.conns[id].fd;
            && (forall k :: k in s.handlers ==> s.handlers[k] != id) && (forall k :: k in s.epoll ==> s.epoll[k] != id)
            && s.conns[id].teardown == Open && fd in s.open && s.open[fd] == id
  {
    RunKeepsComplete(p, actions);
  }

  // ---------- which loop gets a connection ----------

  function Turn(k: nat, n: nat): nat
    requires n > 0
  {
    k % n
  }

  lemma OneMoreLap(q: nat, n: nat)
    ensures (q + 1) * n == q * n + n
  {
  }

  lemma TurnGoesRound(k: nat, n: nat)
    requires n > 0
    ensures (Turn(k, n) + 1) % n == Turn(k + 1, n)
  {
    var q, r := k / n, k % n;
    if r + 1 < n {
      RemainderIs(k + 1, n, q, r + 1);
      RemainderIs(r + 1, n, 0, r + 1);
    } else {
      OneMoreLap(q, n);
      RemainderIs(k + 1, n, q + 1, 0);
      RemainderIs(n, n, 1, 0);
    }
  }

  ghost predicate Dealt(s: State, n: nat)
    requires n > 0
  {
    && s.nextLoop == Turn(s.idGen, n)
    && (forall id :: id in s.conns ==> 1 <= id <= s.idGen && s.conns[id].loop == Turn(id - 1, n))
  }

  lemma StepKeepsDealt(s: State, p: Setup, a: Action)
    requires p.loops > 0 && Enabled(s, p, a) && Dealt(s, p.loops)
    ensures Dealt(Apply(s, p, a), p.loops)
  {
    hide Turn;
    TurnGoesRound(s.idGen, p.loops);
  }

  lemma {:induction false} RunKeepsDealt(p: Setup, actions: seq<Action>)
    requires p.loops > 0 && IsRun(p, actions)
    ensures Dealt(After(p, actions), p.loops)
    decreases |actions|
  {
    if actions != [] {
      RunKeepsDealt(p, actions[..|actions| - 1]);
      StepKeepsDealt(After(p, actions[..|actions| - 1]), p, actions[|actions| - 1]);
    } else {
      RemainderIs(0, p.loops, 0, 0);
    }
  }

  /** nextLoop deals connections out in turn: the i-th accepted one goes to loop i - 1 modulo the number of loops. */
  lemma RoundRobin(p: Setup, actions: seq<Action>)
    requires p.loops > 0 && IsRun(p, actions)
    ensures var s := After(p, actions);
            && s.nextLoop == s.idGen % p.loops
            && (forall id :: id in s.conns ==> 1 <= id <= s.idGen && s.conns[id].loop == (id - 1) % p.loops)
  {
    RunKeepsDealt(p, actions);
  }

  // ---------- why connections must be bound before they are closed ----------

  lemma Start(p: Setup) returns (actions: seq<Action>)
    ensures IsRun(p, actions) && After(p, actions) == Init()
  {
    actions := [];
  }

  lemma Extend(p: Setup, actions: seq<Action>, a: Action)
    requires IsRun(p, actions) && Enabled(After(p, actions), p, a)
    ensures IsRun(p, actions + [a]) && After(p, actions + [a]) == Apply(After(p, actions), p, a)
  {
    assert (actions + [a])[..|actions + [a]| - 1] == actions;
  }

  /** handleClose from beginning to end, with nothing in between. */
  lemma CloseRun(p: Setup, actions: seq<Action>, id: nat) returns (after: seq<Action>)
    requires IsRun(p, actions) && Enabled(After(p, actions), p, BeginClose(id))
    ensures IsRun(p, after)
    ensures var s, s' := After(p, actions), After(p, after); var i := s.conns[id];
            s' == s.(conns := s.conns[id := i.(teardown := Closed)], epoll := s.epoll - {KeyOf(i)},
                     handlers := s.handlers - {KeyOf(i)}, open := s.open - {i.fd}, closing := s'.closing) &&
            s'.closing == s.closing[i.loop := id] - {i.loop}
  {
    hide IsRun, After;
    after := actions;
    Extend(p, after, BeginClose(id));
    after := after + [BeginClose(id)];
    Extend(p, after, PollerDel(id));
    after := after + [PollerDel(id)];
    Extend(p, after, DeleteHandler(id));
    after := after + [DeleteHandler(id)];
    Extend(p, after, CloseFd(id));
    after := after + [CloseFd(id)];
  }

  /** OnConnect closes the connection, and the loop tears it down before the listener thread goes on. */
  lemma ClosedUnboundRun(p: Setup) returns (actions: seq<Action>)
    requires p.loops > 0 && p.early
    ensures IsRun(p, actions)
    ensures var s := After(p, actions);
            && s.conns == map[1 := ConnInfo(7, 0, Unbound, Closed)]
            && s.open == map[] && s.epoll == map[] && s.handlers == map[]
  {
    hide IsRun, After;
    actions := Start(p);
    Extend(p, actions, Accept(7));
    actions := actions + [Accept(7)];
    Extend(p, actions, WakeUp(0));
    actions := actions + [WakeUp(0)];
    actions := CloseRun(p, actions, 1);
  }

  /** OnConnect closes the connection; the loop tears it down and the process gets the number for something else; only
      then does the listener thread store the handler and register the number. The binding succeeds, and leaves the
      table leading to a dead connection for the events of a foreign descriptor. */
  lemma EarlyCloseRun(p: Setup) returns (actions: seq<Action>)
    requires p.loops > 0 && p.early
    ensures IsRun(p, actions) && Settled(After(p, actions)) && !HandlersLive(After(p, actions))
    ensures var s := After(p, actions); Key(0, 7) in s.epoll && s.epoll[Key(0, 7)] == OTHER
  {
    hide IsRun, After;
    actions := ClosedUnboundRun(p);
    Extend(p, actions, Elsewhere(7));
    actions := actions + [Elsewhere(7)];
    Extend(p, actions, StoreHandler(1));
    actions := actions + [StoreHandler(1)];
    Extend(p, actions, AddRead(1, true));
    actions := actions + [AddRead(1, true)];
    var s := After(p, actions);
    assert s.conns[1].teardown == Closed && Key(0, 7) in s.handlers;
    assert !OwnedBy(s, Key(0, 7), 1);
  }

  /** handleNewConnection from beginning to end, with nothing in between. */
  lemma BindRun(p: Setup, actions: seq<Action>, fd: int) returns (after: seq<Action>)
    requires IsRun(p, actions) && Enabled(After(p, actions), p, Accept(fd))
    requires Key(After(p, actions).nextLoop, fd) !in After(p, actions).epoll
    ensures IsRun(p, after)
    ensures var s := After(p, actions); var id, k := s.idGen + 1, Key(s.nextLoop, fd);
            After(p, after) ==
              s.(idGen := id, nextLoop := (s.nextLoop + 1) % p.loops, open := s.open[fd := id],
                 conns := s.conns[id := ConnInfo(fd, s.nextLoop, Bound(true), Open)],
                 handlers := s.handlers[k := id], epoll := s.epoll[k := id])
  {
    hide IsRun, After;
    var id := After(p, actions).idGen + 1;
    after := actions;
    Extend(p, after, Accept(fd));
    after := after + [Accept(fd)];
    Extend(p, after, StoreHandler(id));
    after := after + [StoreHandler(id)];
    Extend(p, after, AddRead(id, true));
    after := after + [AddRead(id, true)];
  }

  /** Handler-table entries always lead to the live owner of their descriptor if and only if no connection is closed
      before it is bound; otherwise they can lead elsewhere even when every binding is complete. */
  lemma HandlersLiveIffBoundFirst(p: Setup)
    requires p.loops > 0
    ensures (forall actions: seq<Action> :: IsRun(p, actions) ==> HandlersLive(After(p, actions))) <==> !p.early
    ensures (forall actions: seq<Action> :: IsRun(p, actions) && Settled(After(p, actions)) ==>
               HandlersLive(After(p, actions))) <==> !p.early
  {
    if p.early {
      var actions := EarlyCloseRun(p);
    } else {
      forall actions: seq<Action> | IsRun(p, actions) ensures HandlersLive(After(p, actions)) {
        RunKeepsInv(p, actions);
      }
    }
  }

  ghost predicate Settled(s: State) {
    forall id :: id in s.conns ==> s.conns[id].binding.Bound?
  }

  // ---------- a stale event ----------

  function BothBound(): State {
    var conns := map[1 := ConnInfo(7, 0, Bound(true), Open), 2 := ConnInfo(8, 0, Bound(true), Open)];
    var table := map[Key(0, 7) := 1, Key(0, 8) := 2];
    State(conns, 2, 0, map[7 := 1, 8 := 2], table, table, map[], {}, map[])
  }

  lemma BothBoundRun(p: Setup) returns (actions: seq<Action>)
    requires p.loops == 1
    ensures IsRun(p, actions) && After(p, actions) == BothBound()
  {
    hide IsRun, After;
    actions := Start(p);
    actions := BindRun(p, actions, 7);
    actions := BindRun(p, actions, 8);
  }

  /** Both are ready in one batch, and the loop thread is at the first. */
  lemma FirstDispatchedRun(p: Setup) returns (actions: seq<Action>)
    requires p.loops == 1
    ensures IsRun(p, actions)
    ensures After(p, actions) == BothBound().(batches := map[0 := [Report(7, 1)]], busy := {0})
  {
    hide IsRun, After;
    actions := BothBoundRun(p);
    var batch := Wait(0, [Report(8, 2), Report(7, 1)]);
    Extend(p, actions, batch);
    actions := actions + [batch];
    Extend(p, actions, Dispatch(0));
    actions := actions + [Dispatch(0)];
    assert {} + {0} == {0};
    assert [Report(8, 2), Report(7, 1)][1..] == [Report(7, 1)];
  }

  /** Two connections are ready in one batch. A job run after the first event closes the second connection, and the
      listener thread binds a new one under the same number: the second event goes to the new connection. */
  lemma StaleEventRun(p: Setup) returns (actions: seq<Action>)
    requires p.loops == 1 && !p.early
    ensures IsRun(p, actions) && Enabled(After(p, actions), p, Dispatch(0))
    ensures var s := After(p, actions); s.batches[0][0].id == 1 && Target(s, 0) == Some(3)
  {
    hide IsRun, After;
    actions := FirstDispatchedRun(p);
    actions := CloseRun(p, actions, 1);
    actions := BindRun(p, actions, 7);
    Extend(p, actions, Return(0));
    actions := actions + [Return(0)];
  }
}
