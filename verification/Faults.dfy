/** When a step panics because a ring buffer would have to grow past 2^62 bytes, and that nothing smaller makes it. */
module Faults {
  import opened Bits
  import opened ByteQueue
  import opened Connection
  import opened Framing
  import opened Inbound
  import opened Outbound
  import opened Teardown

  /** The largest capacity a ring buffer can have: 2^62. */
  const LARGEST: nat := 0x4000_0000_0000_0000

  /** A write panics if and only if what the kernel did not take of the payload does not fit behind the backlog. */
  lemma WritePanicsIff(c: Conn, s: Setting, p: Payload)
    requires c.connected
    ensures var o := Write(c, s, p); var answer := s.kernel(c.wire.sends);
            && (o.fault == TooLarge <==>
                  if c.outbound.bytes != [] then |c.outbound.bytes| + |p.bytes| > LARGEST
                  else answer != SendError && |p.bytes| - Took(answer, |p.bytes|) > LARGEST)
            && o.fault != NilDeref
  {
  }

  /** Parking panics if and only if the parked bytes and the leftover together do not fit. */
  lemma ParkPanicsIff(c: Conn)
    ensures Park(c).fault ==
            if c.connected && |c.inbound.bytes| + |c.buffer| > LARGEST then TooLarge else NoFault
  {
  }

  /** The payloads of a write that panics are more than fit. */
  lemma WriteTooLarge(c: Conn, s: Setting, p: Payload)
    requires Conserved(c) && Write(c, s, p).fault == TooLarge
    ensures |Stream(Write(c, s, p).c.wire.written)| > LARGEST
  {
    hide Stream;
    WritePanicsIff(c, s, p);
    WriteOffers(c, s, p);
    StreamSnoc(c.wire.written, p);
    assert Write(c, s, p).c.wire.written == c.wire.written + [p];
  }

  lemma {:induction false} UnpackLoopTooLarge(c: Conn, s: Setting)
    requires Terminating(s.unpacker) && Conserved(c) && UnpackLoop(c, s).fault == TooLarge
    ensures |Stream(UnpackLoop(c, s).c.wire.written)| > LARGEST
    decreases |Pending(c)|
  {
    assert c.connected;
    var n := FrameOf(s.unpacker, Pending(c)).value;
    assert Pending(c) != [];
    HandOverKeepsRest(c, n);
    DeliverConsumes(c, s, n);
    DeliverConserves(c, s, n);
    var o, c2 := Deliver(c, s, n), HandOver(c, n);
    if o.fault == NoFault {
      UnpackLoopTooLarge(o.c, s);
    } else {
      WritePanicsIff(c2, s, Reply(s.onPacket(c2.wire.delivered)));
      WriteTooLarge(c2, s, Reply(s.onPacket(c2.wire.delivered)));
    }
  }

  lemma ReadTooLarge(c: Conn, s: Setting, bytes: seq<byte>)
    requires Terminating(s.unpacker) && c.connected && Conserved(c) && Refines(c, s.unpacker)
    requires HandleRead(c, s, Data(bytes)).fault == TooLarge
    ensures var w := HandleRead(c, s, Data(bytes)).c.wire;
            |Concat(w.received)| > LARGEST || |Stream(w.written)| > LARGEST
  {
    var c1 := Received(c, bytes);
    var o := UnpackLoop(c1, s);
    if o.fault == NoFault {
      ParkPanicsIff(o.c);
      UnpackLoopParses(c1, s);
      assert c1.wire.received[..|c.wire.received|] == c.wire.received;
      assert ParseChunks(s.unpacker, c1.wire.received).rest == Pending(o.c);
      ChunksConserve(s.unpacker, c1.wire.received);
    } else {
      UnpackLoopTooLarge(c1, s);
    }
  }

  lemma StepTooLarge(c: Conn, s: Setting, e: Event)
    requires Terminating(s.unpacker) && Conserved(c) && Refines(c, s.unpacker) && Step(c, s, e).fault == TooLarge
    ensures var w := Step(c, s, e).c.wire;
            |Concat(w.received)| > LARGEST || |Stream(w.written)| > LARGEST
  {
    match e
    case WriteJob(bytes) => WriteTooLarge(c, s, Posted(bytes));
    case CloseJob =>
    case Ready(r) => ReadTooLarge(c, s, r.recv.bytes);
  }

  /** No ordinary run runs out of room: in every run from a new connection, a panic for want of room means that more
      than 2^62 bytes have been received, or given to write. */
  lemma {:induction false} TooLargeNeedsTooMuch(inCap: nat, outCap: nat, s: Setting, es: seq<Event>)
    requires Terminating(s.unpacker) && Run(NewConn(inCap, outCap), s, es).fault == TooLarge
    ensures var w := Run(NewConn(inCap, outCap), s, es).c.wire;
            |Concat(w.received)| > LARGEST || |Stream(w.written)| > LARGEST
    decreases |es|
  {
    var before := es[..|es| - 1];
    var o := Run(NewConn(inCap, outCap), s, before);
    if o.fault == NoFault {
      StreamConserved(inCap, outCap, s, before);
      RunRefines(inCap, outCap, s, before);
      StepTooLarge(o.c, s, es[|es| - 1]);
    } else {
      TooLargeNeedsTooMuch(inCap, outCap, s, before);
    }
  }

  /** So there are two ways to panic, and no other: too much data, or an unpacker that does not start with Read after a
      send that failed. */
  lemma PanicsOnlyFor(inCap: nat, outCap: nat, s: Setting, es: seq<Event>)
    requires Terminating(s.unpacker) && Run(NewConn(inCap, outCap), s, es).fault != NoFault
    ensures var w := Run(NewConn(inCap, outCap), s, es).c.wire;
            || |Concat(w.received)| > LARGEST || |Stream(w.written)| > LARGEST
            || (!Guarded(s.unpacker) && SomeSendFailed(s, 0, w.sends))
  {
    if Run(NewConn(inCap, outCap), s, es).fault == TooLarge {
      TooLargeNeedsTooMuch(inCap, outCap, s, es);
    } else {
      NilDerefNeedsFailure(inCap, outCap, s, es);
    }
  }

  lemma {:induction false} NilDerefNeedsFailure(inCap: nat, outCap: nat, s: Setting, es: seq<Event>)
    requires Terminating(s.unpacker) && Run(NewConn(inCap, outCap), s, es).fault == NilDeref
    ensures !Guarded(s.unpacker) && SomeSendFailed(s, 0, Run(NewConn(inCap, outCap), s, es).c.wire.sends)
    decreases |es|
  {
    var before, e := es[..|es| - 1], es[|es| - 1];
    var o := Run(NewConn(inCap, outCap), s, before);
    if o.fault == NoFault {
      RunTeardown(inCap, outCap, s, before);
      if e.WriteJob? && o.c.connected { WritePanicsIff(o.c, s, Posted(e.bytes)); }
      ReleasedBufferTouched(o.c, s, e.e.recv);
      var sends := Step(o.c, s, e).c.wire.sends;
      var i :| o.c.wire.sends <= i < sends && s.kernel(i) == SendError;
    } else {
      NilDerefNeedsFailure(inCap, outCap, s, before);
    }
  }
}
