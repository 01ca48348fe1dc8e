/** Closing a connection: each teardown effect once, in order, and nothing touched afterwards. */
module Teardown {
  import opened Bits
  import opened ByteQueue
  import opened Connection

  /** What tearing a connection down means: each effect exactly once; the descriptor's registration goes before the
      descriptor, which can be reissued from then on; OnClose still finds the descriptor open and the buffers there; and
      the buffers go last. */
  ghost predicate EachOnceInOrder(effects: seq<Effect>) {
    && (forall e: Effect :: multiset(effects)[e] == 1)
    && Before(effects, Deregister, NotifyClose) && Before(effects, Deregister, CloseFd)
    && Before(effects, NotifyClose, CloseFd) && Before(effects, CloseFd, Release)
  }

  predicate Before(effects: seq<Effect>, first: Effect, second: Effect) {
    forall i, j :: 0 <= i < |effects| && 0 <= j < |effects| && effects[i] == first && effects[j] == second ==> i < j
  }

  /** Open and listed, and then no effect at all has happened; or closed, and then each has happened exactly once, the
      handler-table entry is gone and the buffers are gone. */
  ghost predicate TornDownOnce(c: Conn) {
    if c.connected then (forall e: Effect :: e !in c.wire.teardown) && c.wire.listed
    else EachOnceInOrder(c.wire.teardown) && !c.wire.listed && c.inbound == c.outbound == Empty(0) && c.buffer == []
  }

  lemma TeardownInOrder()
    ensures EachOnceInOrder(TEARDOWN)
  {
    var done: seq<Effect> := [Deregister, NotifyClose, CloseFd, Release];
    assert TEARDOWN == done;
    assert multiset(done) == multiset{Deregister, NotifyClose, CloseFd, Release};
    forall e: Effect ensures multiset(done)[e] == 1 {
      match e
      case Deregister =>
      case NotifyClose =>
      case CloseFd =>
      case Release =>
    }
  }

  /** The same in terms of Close's constant, for the induction over runs. */
  ghost predicate OpenOrReleased(c: Conn) {
    if c.connected then c.wire.teardown == [] && c.wire.listed
    else c.wire.teardown == TEARDOWN && !c.wire.listed && c.inbound == c.outbound == Empty(0) && c.buffer == []
  }

  lemma WriteTeardown(c: Conn, s: Setting, p: Payload)
    requires OpenOrReleased(c)
    ensures OpenOrReleased(Write(c, s, p).c)
  {
  }

  lemma HandleWriteTeardown(c: Conn, s: Setting, split: nat)
    requires OpenOrReleased(c) && c.connected
    ensures OpenOrReleased(HandleWrite(c, s, split))
  {
  }

  lemma DeliverTeardown(c: Conn, s: Setting, n: int)
    requires OpenOrReleased(c) && c.connected
    ensures OpenOrReleased(Deliver(c, s, n).c)
  {
    HandOverKeepsRest(c, n);
    var c2 := HandOver(c, n);
    WriteTeardown(c2, s, Reply(s.onPacket(c2.wire.delivered)));
  }

  lemma {:induction false} UnpackLoopTeardown(c: Conn, s: Setting)
    requires Terminating(s.unpacker) && OpenOrReleased(c)
    ensures OpenOrReleased(UnpackLoop(c, s).c)
    decreases |Pending(c)|
  {
    if c.connected {
      match FrameOf(s.unpacker, Pending(c))
      case None =>
      case Some(n) =>
        assert Pending(c) != [];
        DeliverTeardown(c, s, n);
        DeliverConsumes(c, s, n);
        var o := Deliver(c, s, n);
        if o.fault == NoFault { UnpackLoopTeardown(o.c, s); }
    }
  }

  lemma StepTeardown(c: Conn, s: Setting, e: Event)
    requires Terminating(s.unpacker) && OpenOrReleased(c)
    ensures OpenOrReleased(Step(c, s, e).c)
  {
    match e
    case WriteJob(bytes) => WriteTeardown(c, s, Posted(bytes));
    case CloseJob =>
    case Ready(r) =>
      if c.connected && !r.error {
        if c.outbound.bytes != [] {
          HandleWriteTeardown(c, s, r.split);
        } else if r.readable && r.recv.Data? {
          var c' := Received(c, r.recv.bytes);
          UnpackLoopTeardown(c', s);
        }
      }
  }

  lemma {:induction false} RunTeardown(inCap: nat, outCap: nat, s: Setting, es: seq<Event>)
    requires Terminating(s.unpacker)
    ensures OpenOrReleased(Run(NewConn(inCap, outCap), s, es).c)
    decreases |es|
  {
    if es != [] {
      RunTeardown(inCap, outCap, s, es[..|es| - 1]);
      var o := Run(NewConn(inCap, outCap), s, es[..|es| - 1]);
      if o.fault == NoFault { StepTeardown(o.c, s, es[|es| - 1]); }
    }
  }

  /** Exactly-once teardown: over every run of readiness events, Write jobs and any number of Close jobs (from user
      threads or idle timers), deregistration, OnClose, the close of the fd and the release happen once each, in that
      order, if the connection is closed, and not at all if it is open; a panic does not disturb this. */
  lemma TeardownHappensOnce(inCap: nat, outCap: nat, s: Setting, es: seq<Event>)
    requires Terminating(s.unpacker)
    ensures TornDownOnce(Run(NewConn(inCap, outCap), s, es).c)
  {
    RunTeardown(inCap, outCap, s, es);
    TeardownInOrder();
  }

  lemma {:induction false} UnlistedIsFinal(c: Conn, s: Setting, es: seq<Event>)
    requires Terminating(s.unpacker) && !c.connected && !c.wire.listed
    ensures Run(c, s, es) == Outcome(c, NoFault)
    decreases |es|
  {
    if es != [] { UnlistedIsFinal(c, s, es[..|es| - 1]); }
  }

  /** What makes a close final is that it removes the handler-table entry: whatever events and jobs come afterwards, a
      closed connection stays as it is and no step looks at its released buffers, if and only if it is not listed. */
  lemma FinalIffUnlisted(c: Conn, s: Setting)
    requires Terminating(s.unpacker) && !c.connected
    ensures (forall es: seq<Event> :: Run(c, s, es) == Outcome(c, NoFault)) <==> !c.wire.listed
  {
    if c.wire.listed {
      var e := Ready(Readiness(false, true, false, RecvAgain, 0));
      assert [e][..0] == [] && Run(c, s, []) == Outcome(c, NoFault);
      assert Run(c, s, [e]).fault == NilDeref;
    } else {
      forall es: seq<Event> ensures Run(c, s, es) == Outcome(c, NoFault) {
        UnlistedIsFinal(c, s, es);
      }
    }
  }

  /** After a close, however a run has come to it, no further events have any effect, and none panics: every event
      that the poller may still have for the connection is dropped, because the table entry is gone. */
  lemma {:induction false} ClosedIsFinal(inCap: nat, outCap: nat, s: Setting, es: seq<Event>, more: seq<Event>)
    requires Terminating(s.unpacker)
    requires var o := Run(NewConn(inCap, outCap), s, es); o.fault == NoFault && !o.c.connected
    ensures Run(NewConn(inCap, outCap), s, es + more) == Run(NewConn(inCap, outCap), s, es)
    decreases |more|
  {
    if more == [] {
      assert es + more == es;
    } else {
      var before := more[..|more| - 1];
      ClosedIsFinal(inCap, outCap, s, es, before);
      RunTeardown(inCap, outCap, s, es);
      assert (es + more)[..|es + more| - 1] == es + before;
    }
  }

  // ---------- the write failure inside the unpack loop ----------

  /** One of the sends numbered from..to failed. */
  ghost predicate SomeSendFailed(s: Setting, from: nat, to: nat) {
    exists i :: from <= i < to && s.kernel(i) == SendError
  }

  lemma DeliverCloses(c: Conn, s: Setting, n: int)
    requires c.connected
    ensures var o := Deliver(c, s, n);
            && c.wire.sends <= o.c.wire.sends && o.fault != NilDeref
            && (!o.c.connected <==> SomeSendFailed(s, c.wire.sends, o.c.wire.sends))
            && (!o.c.connected ==> o.fault == NoFault)
  {
    ShiftNConsumes(c, n);
    var o := Deliver(c, s, n);
    assert o.c.wire.sends == c.wire.sends || o.c.wire.sends == c.wire.sends + 1;
    if !o.c.connected { assert s.kernel(c.wire.sends) == SendError; }
  }

  lemma {:induction false} UnpackLoopCloses(c: Conn, s: Setting)
    requires Terminating(s.unpacker) && c.connected
    ensures var o := UnpackLoop(c, s);
            && c.wire.sends <= o.c.wire.sends
            && (!o.c.connected <==> SomeSendFailed(s, c.wire.sends, o.c.wire.sends))
            && (o.fault == NilDeref <==> !o.c.connected && !Guarded(s.unpacker))
    decreases |Pending(c)|
  {
    match FrameOf(s.unpacker, Pending(c))
    case None =>
    case Some(n) =>
      assert Pending(c) != [];
      DeliverCloses(c, s, n);
      DeliverConsumes(c, s, n);
      var o := Deliver(c, s, n);
      if o.fault == NoFault && o.c.connected {
        UnpackLoopCloses(o.c, s);
        FailuresAdd(s, c.wire.sends, o.c.wire.sends, UnpackLoop(o.c, s).c.wire.sends);
      }
  }

  lemma FailuresAdd(s: Setting, a: nat, b: nat, d: nat)
    requires a <= b <= d
    ensures SomeSendFailed(s, a, d) <==> SomeSendFailed(s, a, b) || SomeSendFailed(s, b, d)
  {
    if SomeSendFailed(s, a, d) {
      var i :| a <= i < d && s.kernel(i) == SendError;
      assert i < b || b <= i;
    }
  }

  /** A read panics on the released buffers if and only if the unpacker goes straight to ReadN instead of starting
      with Read, and one of the sends that the read itself made (those counted between its two states) failed, which
      closed the connection inside the loop. */
  lemma ReleasedBufferTouched(c: Conn, s: Setting, recv: RecvAnswer)
    requires Terminating(s.unpacker) && c.connected
    ensures var o := HandleRead(c, s, recv);
            o.fault == NilDeref <==>
              !Guarded(s.unpacker) && recv.Data? && SomeSendFailed(s, c.wire.sends, o.c.wire.sends)
  {
    if recv.Data? {
      UnpackLoopCloses(Received(c, recv.bytes), s);
    }
  }

  /** Starting with Read is exactly what an unpacker needs: for one that finds a packet in some bytes at all, no
      handler, kernel or connection state makes it touch released buffers if and only if it is guarded. */
  lemma GuardedIffNeverTouches(u: Unpacker, p: seq<byte>)
    requires Terminating(u) && FrameOf(u, p).Some?
    ensures Guarded(u) <==>
            forall c: Conn, s: Setting, recv: RecvAnswer {:trigger HandleRead(c, s, recv)} ::
              c.connected && s.unpacker == u && LegalRead(recv) ==> HandleRead(c, s, recv).fault != NilDeref
  {
    if Guarded(u) {
      forall c: Conn, s: Setting, recv: RecvAnswer | c.connected && s.unpacker == u && LegalRead(recv)
        ensures HandleRead(c, s, recv).fault != NilDeref
      {
        ReleasedBufferTouched(c, s, recv);
      }
    } else {
      assert p != [];
      var parked, last := p[..|p| - 1], p[|p| - 1];
      var c := NewConn(0, 0).(inbound := Queue(parked, 0, 0));
      assert parked + [last] == p;
      UnguardedPanics(u, c, [last]);
      assert LegalRead(Data([last]));
    }
  }

  /** The failing input: a read completes a packet, and the first reply meets a broken socket. */
  lemma UnguardedPanics(u: Unpacker, c: Conn, bytes: seq<byte>)
    requires Terminating(u) && !Guarded(u)
    requires c.connected && c.outbound.bytes == [] && FrameOf(u, c.inbound.bytes + bytes).Some?
    ensures HandleRead(c, Setting(_ => SendError, u, _ => [0]), Data(bytes)).fault == NilDeref
  {
    var s := Setting(_ => SendError, u, _ => [0]);
    var c1 := Received(c, bytes);
    var n := FrameOf(u, Pending(c1)).value;
    HandOverKeepsRest(c1, n);
    var o := Deliver(c1, s, n);
    assert !o.c.connected && o.fault == NoFault;
    assert UnpackLoop(o.c, s).fault == NilDeref;
    assert UnpackLoop(c1, s) == UnpackLoop(o.c, s);
  }

  /** No run with a guarded unpacker ever touches a released buffer. */
  lemma {:induction false} GuardedRunsNeverTouch(inCap: nat, outCap: nat, s: Setting, es: seq<Event>)
    requires Terminating(s.unpacker) && Guarded(s.unpacker)
    ensures Run(NewConn(inCap, outCap), s, es).fault != NilDeref
    decreases |es|
  {
    if es != [] {
      GuardedRunsNeverTouch(inCap, outCap, s, es[..|es| - 1]);
      var o := Run(NewConn(inCap, outCap), s, es[..|es| - 1]);
      var e := es[|es| - 1];
      RunTeardown(inCap, outCap, s, es[..|es| - 1]);
      if e.Ready? && o.c.connected { ReleasedBufferTouched(o.c, s, e.e.recv); }
    }
  }

  // ---------- what closes a connection, and what does nothing ----------

  /** The event itself says to close: a Close job, an error, or a read that finds the end of the stream or fails. */
  predicate SaysClose(c: Conn, e: Event) {
    match e
    case WriteJob(_) => false
    case CloseJob => true
    case Ready(r) =>
      r.error || (c.outbound.bytes == [] && r.readable && (r.recv.EndOfFile? || r.recv.RecvError?))
  }

  lemma WriteCloses(c: Conn, s: Setting, p: Payload)
    requires c.connected
    ensures var o := Write(c, s, p);
            && c.wire.sends <= o.c.wire.sends
            && (!o.c.connected <==> SomeSendFailed(s, c.wire.sends, o.c.wire.sends))
  {
    var o := Write(c, s, p);
    assert o.c.wire.sends == c.wire.sends || o.c.wire.sends == c.wire.sends + 1;
    if !o.c.connected { assert s.kernel(c.wire.sends) == SendError; }
  }

  lemma SendFrontCloses(c: Conn, s: Setting, len: nat)
    requires c.connected && len <= |c.outbound.bytes|
    ensures var c' := SendFront(c, s, len).0;
            && c'.wire.sends == c.wire.sends + 1
            && (!c'.connected <==> s.kernel(c.wire.sends) == SendError)
            && (!c'.connected <==> SomeSendFailed(s, c.wire.sends, c'.wire.sends))
            && (!c'.connected <==> SendFront(c, s, len).1.Failed?)
  {
  }

  lemma HandleWriteCloses(c: Conn, s: Setting, split: nat)
    requires c.connected
    ensures var c' := HandleWrite(c, s, split);
            && c.wire.sends <= c'.wire.sends
            && (!c'.connected <==> SomeSendFailed(s, c.wire.sends, c'.wire.sends))
  {
    var total := |c.outbound.bytes|;
    var k := SplitAt(split, total);
    SendFrontCloses(c, s, k);
    var (c1, first) := SendFront(c, s, k);
    if first.Count? && first.n == k && k < total {
      SendFrontCloses(c1, s, total - k);
      var c2 := SendFront(c1, s, total - k).0;
      FailuresAdd(s, c.wire.sends, c1.wire.sends, c2.wire.sends);
    }
  }

  /** An open connection is closed by a step if and only if the event says so, or one of the sends it makes fails. */
  lemma ClosesExactlyWhen(c: Conn, s: Setting, e: Event)
    requires Terminating(s.unpacker) && Open(c)
    ensures var o := Step(c, s, e);
            && c.wire.sends <= o.c.wire.sends
            && (!o.c.connected <==> SaysClose(c, e) || SomeSendFailed(s, c.wire.sends, o.c.wire.sends))
  {
    match e
    case WriteJob(bytes) => WriteCloses(c, s, Posted(bytes));
    case CloseJob =>
    case Ready(r) =>
      if !r.error {
        if c.outbound.bytes != [] {
          HandleWriteCloses(c, s, r.split);
        } else if r.readable && r.recv.Data? {
          UnpackLoopCloses(Received(c, r.recv.bytes), s);
        }
      }
  }

  /** Data that is read counts as received, exactly once, whatever becomes of it. */
  lemma DataIsReceived(c: Conn, s: Setting, r: Readiness)
    requires Terminating(s.unpacker) && c.connected && !r.error && c.outbound.bytes == [] && r.readable && r.recv.Data?
    ensures Handle(c, s, r).c.wire.received == c.wire.received + [r.recv.bytes]
  {
    UnpackLoopReceivesNothing(
      Received(c, r.recv.bytes), s);
  }

  lemma {:induction false} UnpackLoopReceivesNothing(c: Conn, s: Setting)
    requires Terminating(s.unpacker)
    ensures UnpackLoop(c, s).c.wire.received == c.wire.received
    decreases |Pending(c)|
  {
    if c.connected {
      match FrameOf(s.unpacker, Pending(c))
      case None =>
      case Some(n) =>
        assert Pending(c) != [];
        DeliverConsumes(c, s, n);
        var o := Deliver(c, s, n);
        ShiftNConsumes(c, n);
        if o.fault == NoFault { UnpackLoopReceivesNothing(o.c, s); }
    }
  }

  /** The event is for the connection: a job, an error, the direction it waits for, and for a read, bytes or the end. */
  predicate Concerns(c: Conn, e: Event) {
    match e
    case WriteJob(_) => true
    case CloseJob => true
    case Ready(r) => r.error || if c.outbound.bytes != [] then r.writable else r.readable && !r.recv.RecvAgain?
  }

  /** A step on an open connection leaves a trace if and only if the event concerns it: there is no event that it takes
      note of without a payload written, a chunk received, a write(2) made or a teardown, and none that it acts on while
      it waits for the other direction. */
  lemma ChangesExactlyWhen(c: Conn, s: Setting, e: Event)
    requires Terminating(s.unpacker) && Open(c)
    ensures Step(c, s, e) != Outcome(c, NoFault) <==> Concerns(c, e)
    ensures Step(c, s, e) != Outcome(c, NoFault) <==> Step(c, s, e).c.wire != c.wire
  {
    match e
    case WriteJob(bytes) => WriteIsLogged(c, s, Posted(bytes));
    case CloseJob =>
    case Ready(r) =>
      if !r.error {
        if c.outbound.bytes != [] {
          HandleWriteSends(c, s, r.split);
        } else if r.readable && r.recv.Data? {
          DataIsReceived(c, s, r);
        }
      }
  }

  lemma WriteIsLogged(c: Conn, s: Setting, p: Payload)
    requires c.connected
    ensures Write(c, s, p).c.wire.written == c.wire.written + [p]
  {
  }

  lemma HandleWriteSends(c: Conn, s: Setting, split: nat)
    ensures HandleWrite(c, s, split).wire.sends > c.wire.sends
  {
    var total := |c.outbound.bytes|;
    var k := SplitAt(split, total);
    var (c1, first) := SendFront(c, s, k);
    assert c1.wire.sends == c.wire.sends + 1;
  }
}
