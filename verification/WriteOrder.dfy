/** The loop and one of its connections together: payloads written from any threads reach the socket whole and in
    the order in which they were queued, with handler replies only between them. */
module WriteOrder {
  import opened ByteQueue
  import opened Connection
  import opened Faults
  import opened Framing
  import opened Outbound
  import opened Payloads
  import opened Teardown
  import W = WakeProtocol

  /** A job of the loop, from this connection's point of view: TCPConn.Write, TCPConn.Close, or somebody else's. */
  datatype Work = WriteWork(bytes: seq<byte>) | CloseWork | OtherWork

  datatype System = System(loop: W.State<Work>, conn: Conn)

  /** Loop actions, where RunJob also does its work; and the connection's Handle, inside the loop's handler. */
  datatype Act = LoopAct(a: W.Action<Work>) | HandleAct(e: Readiness)

  function RunWork(c: Conn, s: Setting, t: Work): Outcome {
    match t
    case WriteWork(bytes) => Write(c, s, Posted(bytes))
    case CloseWork => Outcome(Close(c), NoFault)
    case OtherWork => Outcome(c, NoFault)
  }

  /** The connection's part of an action. */
  function ConnPart(y: System, s: Setting, act: Act): Outcome
    requires Terminating(s.unpacker)
    requires act.LoopAct? && act.a.RunJob? ==> y.loop.pc.Running? && y.loop.pc.rest != []
  {
    match act
    case HandleAct(e) => Dispatch(y.conn, s, e)
    case LoopAct(a) => if a.RunJob? then RunWork(y.conn, s, y.loop.pc.rest[0]) else Outcome(y.conn, NoFault)
  }

  ghost predicate CanAct(y: System, s: Setting, act: Act)
    requires Terminating(s.unpacker)
  {
    && (match act
        case HandleAct(_) => y.loop.pc.Handling? && !y.loop.pc.forWake && W.StageOf(y.loop, W.LOOP) == W.Idle
        case LoopAct(a) => W.Enabled(y.loop, a))
    && ConnPart(y, s, act).fault == NoFault
  }

  ghost function Do(y: System, s: Setting, act: Act): System
    requires Terminating(s.unpacker) && CanAct(y, s, act)
  {
    System(if act.LoopAct? then W.Apply(y.loop, act.a) else y.loop, ConnPart(y, s, act).c)
  }

  ghost predicate IsSystemRun(c: Conn, s: Setting, acts: seq<Act>)
    requires Terminating(s.unpacker)
    decreases |acts|, 0
  {
    acts == [] ||
    var before := acts[..|acts| - 1];
    IsSystemRun(c, s, before) && CanAct(SystemAfter(c, s, before), s, acts[|acts| - 1])
  }

  ghost function SystemAfter(c: Conn, s: Setting, acts: seq<Act>): System
    requires Terminating(s.unpacker) && IsSystemRun(c, s, acts)
    decreases |acts|, 1
  {
    if acts == [] then System(W.Init(), c)
    else Do(SystemAfter(c, s, acts[..|acts| - 1]), s, acts[|acts| - 1])
  }

  // ---------- what the order is about ----------

  /** The payloads of the Write jobs among jobs. */
  function Writes(ts: seq<Work>): seq<seq<byte>>
    decreases |ts|
  {
    if ts == [] then []
    else
      var before, last := Writes(ts[..|ts| - 1]), ts[|ts| - 1];
      if last.WriteWork? then before + [last.bytes] else before
  }

  lemma WritesSnoc(ts: seq<Work>, t: Work)
    ensures Writes(ts + [t]) == Writes(ts) + if t.WriteWork? then [t.bytes] else []
  {
    assert (ts + [t])[..|ts|] == ts;
  }

  /** While open, the payloads of Write jobs written are those of the jobs executed; a close only cuts them short. */
  ghost predicate InStep(c: Conn, executed: seq<Work>) {
    && PostedOnly(c.wire.written) <= Writes(executed)
    && (c.connected ==> PostedOnly(c.wire.written) == Writes(executed))
  }

  /** What a job does to an open connection. It closes it if and only if it is a Close job, or a Write job whose send
      fails; a Write job puts its payload, and nothing else, behind what was written; a Close job writes and sends
      nothing; any other job changes nothing. And it panics only if it is a Write job with more than fits. */
  lemma RunWorkExactly(c: Conn, s: Setting, t: Work)
    requires c.connected
    ensures var o := RunWork(c, s, t);
            && (!o.c.connected <==> t.CloseWork? || SomeSendFailed(s, c.wire.sends, o.c.wire.sends))
            && (o.c.wire.written == c.wire.written + if t.WriteWork? then [Posted(t.bytes)] else [])
            && (t.CloseWork? ==> o.c.wire.sends == c.wire.sends && o.c.wire.sent == c.wire.sent)
            && (t.OtherWork? ==> o.c == c)
            && (o.fault != NoFault ==>
                  t.WriteWork? && o.fault == TooLarge && |c.outbound.bytes| + |t.bytes| > LARGEST)
  {
    if t.WriteWork? {
      WriteCloses(c, s, Posted(t.bytes));
      WriteLogs(c, s, Posted(t.bytes));
      WritePanicsIff(c, s, Posted(t.bytes));
    }
  }

  lemma RunWorkKeeps(c: Conn, s: Setting, t: Work, executed: seq<Work>)
    requires Conserved(c) && InStep(c, executed) && RunWork(c, s, t).fault == NoFault
    ensures Conserved(RunWork(c, s, t).c) && InStep(RunWork(c, s, t).c, executed + [t])
  {
    WritesSnoc(executed, t);
    if c.connected { RunWorkExactly(c, s, t); }
    if t.WriteWork? {
      WriteConserves(c, s, Posted(t.bytes));
      WrittenSnoc(c.wire.written, Posted(t.bytes));
    }
    assert RunWork(c, s, t).c.connected ==> c.connected;
  }

  // ---------- the connection's share of a system run ----------

  /** What an action is for the connection. */
  function EventsOf(y: System, act: Act): seq<Event>
    requires act.LoopAct? && act.a.RunJob? ==> y.loop.pc.Running? && y.loop.pc.rest != []
  {
    match act
    case HandleAct(e) => [Ready(e)]
    case LoopAct(a) =>
      if !a.RunJob? then []
      else
        match y.loop.pc.rest[0]
        case WriteWork(bytes) => [WriteJob(bytes)]
        case CloseWork => [CloseJob]
        case OtherWork => []
  }

  ghost function Events(c: Conn, s: Setting, acts: seq<Act>): seq<Event>
    requires Terminating(s.unpacker) && IsSystemRun(c, s, acts)
    decreases |acts|
  {
    if acts == [] then []
    else
      var before := acts[..|acts| - 1];
      Events(c, s, before) + EventsOf(SystemAfter(c, s, before), acts[|acts| - 1])
  }

  lemma RunSnoc(c: Conn, s: Setting, es: seq<Event>, e: Event)
    requires Terminating(s.unpacker) && Run(c, s, es).fault == NoFault
    ensures Run(c, s, es + [e]) == Step(Run(c, s, es).c, s, e)
  {
    assert (es + [e])[..|es|] == es;
  }

  lemma ConnPartIsEvents(c: Conn, s: Setting, es: seq<Event>, y: System, act: Act)
    requires Terminating(s.unpacker) && Run(c, s, es) == Outcome(y.conn, NoFault)
    requires act.LoopAct? && act.a.RunJob? ==> y.loop.pc.Running? && y.loop.pc.rest != []
    ensures Run(c, s, es + EventsOf(y, act)) == ConnPart(y, s, act)
  {
    var more := EventsOf(y, act);
    if more == [] {
      assert es + more == es;
    } else {
      RunSnoc(c, s, es, more[0]);
      assert more == [more[0]];
    }
  }

  /** In every system run, what happens to the connection is one of its own runs. So all that is proved about those
      holds in the system. */
  lemma {:induction false} ConnIsRun(c: Conn, s: Setting, acts: seq<Act>)
    requires Terminating(s.unpacker) && IsSystemRun(c, s, acts)
    ensures Run(c, s, Events(c, s, acts)) == Outcome(SystemAfter(c, s, acts).conn, NoFault)
    decreases |acts|
  {
    if acts != [] {
      var before := acts[..|acts| - 1];
      hide Run, ConnPart, EventsOf, W.Apply, W.Enabled;
      ConnIsRun(c, s, before);
      ConnPartIsEvents(c, s, Events(c, s, before), SystemAfter(c, s, before), acts[|acts| - 1]);
    }
  }

  // ---------- the invariant ----------

  ghost predicate SystemInv(y: System, s: Setting) {
    && W.Inv(y.loop) && Conserved(y.conn) && Answered(y.conn, s) && InStep(y.conn, y.loop.executed)
    && OpenOrReleased(y.conn)
  }

  lemma DoKeepsInv(y: System, s: Setting, act: Act)
    requires Terminating(s.unpacker) && SystemInv(y, s) && CanAct(y, s, act)
    ensures SystemInv(Do(y, s, act), s)
  {
    match act
    case HandleAct(e) =>
      StepAnswers(y.conn, s, Ready(e));
      StepConserves(y.conn, s, Ready(e));
      StepTeardown(y.conn, s, Ready(e));
      StepStaysClosed(y.conn, s, Ready(e));
      assert Dispatch(y.conn, s, e) == Step(y.conn, s, Ready(e));
    case LoopAct(a) =>
      if a.Push? || a.Check? || a.Wake? {
        W.TriggerKeepsInv(y.loop, a);
      } else {
        W.LoopKeepsInv(y.loop, a);
      }
      if a.RunJob? { WorkKeepsInv(y.conn, s, y.loop.pc.rest[0], y.loop.executed); }
  }

  lemma WorkKeepsInv(c: Conn, s: Setting, t: Work, executed: seq<Work>)
    requires Terminating(s.unpacker) && Conserved(c) && Answered(c, s) && InStep(c, executed) && OpenOrReleased(c)
    requires RunWork(c, s, t).fault == NoFault
    ensures var c' := RunWork(c, s, t).c;
            Conserved(c') && Answered(c', s) && InStep(c', executed + [t]) && OpenOrReleased(c')
  {
    RunWorkKeeps(c, s, t, executed);
    match t
    case WriteWork(bytes) =>
      StepAnswers(c, s, WriteJob(bytes));
      StepTeardown(c, s, WriteJob(bytes));
    case CloseWork => StepTeardown(c, s, CloseJob);
    case OtherWork =>
  }

  lemma {:induction false} SystemKeepsInv(inCap: nat, outCap: nat, s: Setting, acts: seq<Act>)
    requires Terminating(s.unpacker) && IsSystemRun(NewConn(inCap, outCap), s, acts)
    ensures SystemInv(SystemAfter(NewConn(inCap, outCap), s, acts), s)
    decreases |acts|
  {
    if acts != [] {
      SystemKeepsInv(inCap, outCap, s, acts[..|acts| - 1]);
      DoKeepsInv(SystemAfter(NewConn(inCap, outCap), s, acts[..|acts| - 1]), s, acts[|acts| - 1]);
    }
  }

  /** End-to-end order, in every interleaving of writers with the loop and for every kernel. While the connection is
      open, the socket's bytes followed by the backlog are whole payloads one after the other: those of Write jobs
      among them are exactly those of the jobs executed, which are the first jobs pushed, in push order; the others
      are exactly the handler's answers to the packets delivered. After a close the same holds of what had got out by
      then: the socket's bytes are a prefix of such a stream. */
  lemma EndToEndOrder(inCap: nat, outCap: nat, s: Setting, acts: seq<Act>)
    requires Terminating(s.unpacker) && IsSystemRun(NewConn(inCap, outCap), s, acts)
    ensures var y := SystemAfter(NewConn(inCap, outCap), s, acts);
            && y.conn.wire.sent <= Stream(y.conn.wire.written)
            && PostedOnly(y.conn.wire.written) <= Writes(y.loop.executed)
            && RepliesOnly(y.conn.wire.written) == Answers(s, y.conn.wire.delivered)
            && y.loop.executed <= y.loop.pushed
            && (y.conn.connected ==>
                  && y.conn.wire.sent + y.conn.outbound.bytes == Stream(y.conn.wire.written)
                  && PostedOnly(y.conn.wire.written) == Writes(y.loop.executed))
  {
    SystemKeepsInv(inCap, outCap, s, acts);
    var loop := SystemAfter(NewConn(inCap, outCap), s, acts).loop;
    W.FirstOfThree(loop.executed, W.Rest(loop.pc), loop.queue);
  }

  /** When the loop is blocked with nothing to wake it, every payload whose own Write call has returned is on the wire
      or in the backlog, in push order: what was written is what the first n jobs write, and all later jobs are still
      inside Trigger. */
  lemma NothingIsLeftQueued(inCap: nat, outCap: nat, s: Setting, acts: seq<Act>)
    requires Terminating(s.unpacker) && IsSystemRun(NewConn(inCap, outCap), s, acts)
    requires var y := SystemAfter(NewConn(inCap, outCap), s, acts);
             y.conn.connected && y.loop.pc.Blocked? && y.loop.counter == 0
    ensures var y := SystemAfter(NewConn(inCap, outCap), s, acts); var n := |y.loop.executed|;
            && n <= |y.loop.pushed| && PostedOnly(y.conn.wire.written) == Writes(y.loop.pushed[..n])
            && (forall i: nat :: n <= i < |y.loop.pushed| ==> W.Unfinished(y.loop, i))
  {
    SystemKeepsInv(inCap, outCap, s, acts);
    var loop := SystemAfter(NewConn(inCap, outCap), s, acts).loop;
    assert loop.executed + [] == loop.executed && loop.executed + loop.queue == loop.pushed;
    assert loop.pushed[..|loop.executed|] == loop.executed;
  }

  // ---------- when the connection is closed, and when the system is stuck ----------

  /** Some event handled so far said to close: an error, or a read that found the end of the stream or failed. */
  ghost predicate EventClosed(c: Conn, s: Setting, acts: seq<Act>)
    requires Terminating(s.unpacker) && IsSystemRun(c, s, acts)
    decreases |acts|
  {
    acts != [] &&
    var before, act := acts[..|acts| - 1], acts[|acts| - 1];
    EventClosed(c, s, before) || (act.HandleAct? && SaysClose(SystemAfter(c, s, before).conn, Ready(act.e)))
  }

  /** Whether an action on an open connection closes it. */
  lemma DoClosesExactlyWhen(y: System, s: Setting, act: Act)
    requires Terminating(s.unpacker) && Open(y.conn) && CanAct(y, s, act)
    ensures var y' := Do(y, s, act);
            && y.conn.wire.sends <= y'.conn.wire.sends
            && (!y'.conn.connected <==>
                  || (act.HandleAct? && SaysClose(y.conn, Ready(act.e)))
                  || (act.LoopAct? && act.a.RunJob? && y.loop.pc.rest[0].CloseWork?)
                  || SomeSendFailed(s, y.conn.wire.sends, y'.conn.wire.sends))
  {
    match act
    case HandleAct(e) =>
      ClosesExactlyWhen(y.conn, s, Ready(e));
      assert Dispatch(y.conn, s, e) == Step(y.conn, s, Ready(e));
    case LoopAct(a) =>
      if a.RunJob? {
        RunWorkExactly(y.conn, s, y.loop.pc.rest[0]);
        if y.loop.pc.rest[0].WriteWork? { WriteCloses(y.conn, s, Posted(y.loop.pc.rest[0].bytes)); }
      }
  }

  lemma ClosedActs(y: System, s: Setting, act: Act)
    requires Terminating(s.unpacker) && !y.conn.connected && CanAct(y, s, act)
    ensures !Do(y, s, act).conn.connected && Do(y, s, act).conn.wire.sends == y.conn.wire.sends
  {
  }

  /** In every interleaving the connection is closed if and only if a Close job has been executed, an event has said so,
      or one of its sends has failed. */
  lemma {:induction false} ClosedExactlyWhen(inCap: nat, outCap: nat, s: Setting, acts: seq<Act>)
    requires Terminating(s.unpacker) && IsSystemRun(NewConn(inCap, outCap), s, acts)
    ensures var y := SystemAfter(NewConn(inCap, outCap), s, acts);
            !y.conn.connected <==>
              || CloseWork in y.loop.executed
              || EventClosed(NewConn(inCap, outCap), s, acts)
              || SomeSendFailed(s, 0, y.conn.wire.sends)
    decreases |acts|
  {
    if acts != [] {
      var c, before, act := NewConn(inCap, outCap), acts[..|acts| - 1], acts[|acts| - 1];
      var y := SystemAfter(c, s, before);
      ClosedExactlyWhen(inCap, outCap, s, before);
      SystemKeepsInv(inCap, outCap, s, before);
      ExecutedGrows(y, s, act);
      if y.conn.connected {
        DoClosesExactlyWhen(y, s, act);
        FailuresAdd(s, 0, y.conn.wire.sends, SystemAfter(c, s, acts).conn.wire.sends);
      } else {
        ClosedActs(y, s, act);
      }
    }
  }

  lemma ExecutedGrows(y: System, s: Setting, act: Act)
    requires Terminating(s.unpacker) && CanAct(y, s, act)
    ensures Do(y, s, act).loop.executed ==
            y.loop.executed + if act.LoopAct? && act.a.RunJob? then [y.loop.pc.rest[0]] else []
  {
  }

  /** Nothing but a lack of room or an unguarded unpacker keeps the system from making a step that its loop can make. */
  lemma StuckOnlyFor(inCap: nat, outCap: nat, s: Setting, acts: seq<Act>, act: Act)
    requires Terminating(s.unpacker) && IsSystemRun(NewConn(inCap, outCap), s, acts)
    requires var y := SystemAfter(NewConn(inCap, outCap), s, acts);
             if act.LoopAct? then W.Enabled(y.loop, act.a)
             else y.loop.pc.Handling? && !y.loop.pc.forWake && W.StageOf(y.loop, W.LOOP) == W.Idle
    ensures var y := SystemAfter(NewConn(inCap, outCap), s, acts); var w := ConnPart(y, s, act).c.wire;
            || CanAct(y, s, act)
            || |Concat(w.received)| > LARGEST || |Stream(w.written)| > LARGEST
            || (!Guarded(s.unpacker) && SomeSendFailed(s, 0, w.sends))
  {
    var c := NewConn(inCap, outCap);
    var y := SystemAfter(c, s, acts);
    ConnIsRun(c, s, acts);
    ConnPartIsEvents(c, s, Events(c, s, acts), y, act);
    if ConnPart(y, s, act).fault != NoFault {
      PanicsOnlyFor(inCap, outCap, s, Events(c, s, acts) + EventsOf(y, act));
    }
  }
}
