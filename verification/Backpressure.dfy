/** The echo server of benchmarks/: how much memory back-pressure leaves it needing. */
module Backpressure {
  import opened Bits
  import opened ByteQueue
  import opened Connection
  import opened Framing

  /** Default unpacking, and a handler that sends every packet back. */
  ghost predicate EchoServer(s: Setting) {
    && s.unpacker == Default
    && forall packets: seq<seq<byte>> :: packets != [] ==> s.onPacket(packets) == packets[|packets| - 1]
  }

  /** No Write jobs: the handler's replies are the only output. */
  ghost predicate EchoOnly(es: seq<Event>) {
    AllLegal(es) && forall i :: 0 <= i < |es| ==> !es[i].WriteJob?
  }

  /** Room for one packet buffer: 0xFFFF rounded up. */
  const ECHO_CAP: nat := 0x1_0000

  ghost predicate Bounded(c: Conn, outCap: nat) {
    && c.wire.sent <= Concat(c.wire.received)
    && (c.wire.listed ==> c.connected)
    && (c.connected ==>
          && c.inbound.bytes == []
          && c.wire.sent + c.outbound.bytes == Concat(c.wire.received)
          && |c.outbound.bytes| <= 0xFFFF
          && c.outbound.cap <= (if outCap > 65536 then outCap else 65536))
  }

  /** Back-pressure: while there is a backlog nothing is read. */
  lemma NoReadWithBacklog(c: Conn, s: Setting, e: Readiness)
    requires Terminating(s.unpacker) && c.connected && c.outbound.bytes != []
    ensures NothingRead(c, Handle(c, s, e).c) && Handle(c, s, e).fault == NoFault
  {
    HandleWriteReadsNothing(c, s, e.split);
  }

  /** Filling an empty backlog with part of a packet buffer does not grow past ECHO_CAP. */
  lemma EnqueueBounded(c: Conn, buf: seq<byte>)
    requires c.outbound.bytes == [] && |buf| <= PACKET_SIZE
    ensures Enqueue(c, buf).fault == NoFault && Enqueue(c, buf).c.outbound.bytes == buf
    ensures Enqueue(c, buf).c.outbound.cap <= c.outbound.cap || Enqueue(c, buf).c.outbound.cap <= ECHO_CAP
  {
    assert c.outbound.bytes + buf == buf;
    assert Pow2(16) == ECHO_CAP by {
      assert Pow2(4) == 16;
      Pow2Add(4, 4);
      Pow2Add(8, 8);
    }
    CeilPow2Least(|buf|, 16);
  }

  lemma EchoReply(c: Conn, s: Setting, buf: seq<byte>, outCap: nat)
    requires c.connected && c.outbound.bytes == [] && |buf| <= PACKET_SIZE && c.inbound.bytes == []
    requires c.outbound.cap <= (if outCap > ECHO_CAP then outCap else ECHO_CAP)
    requires c.wire.sent + buf == Concat(c.wire.received)
    ensures var o := Write(c, s, Reply(buf)); o.fault == NoFault && Bounded(o.c, outCap)
  {
    var c1 := c.(wire := c.wire.(written := c.wire.written + [Reply(buf)]));
    var (w, result) := Send(c1.wire, s.kernel, buf);
    var c2 := c1.(wire := w);
    match result
    case Count(n) =>
      EnqueueBounded(c2, buf[n..]);
      ConcatSplit(c.wire.sent, buf[..n], buf[n..]);
      assert buf[..n] + buf[n..] == buf;
      if n == |buf| { assert w.sent + [] == w.sent; }
    case Again => EnqueueBounded(c2, buf);
    case Failed =>
  }

  /** The default protocol takes all pending bytes as one packet ... */
  lemma EchoDeliver(c: Conn, s: Setting, outCap: nat)
    requires EchoServer(s) && c.connected && c.outbound.bytes == [] && c.inbound.bytes == []
    requires 1 <= |c.buffer| <= PACKET_SIZE
    requires c.outbound.cap <= (if outCap > ECHO_CAP then outCap else ECHO_CAP)
    requires c.wire.sent + c.buffer == Concat(c.wire.received)
    ensures var o := Deliver(c, s, |c.buffer|); o.fault == NoFault && Bounded(o.c, outCap) && Pending(o.c) == []
  {
    var bytes := c.buffer;
    var n := |bytes|;
    assert Pending(c)[..n] == bytes;
    assert ShiftN(c, n) == c.(buffer := []);
    var c3 := HandOver(c, n);
    assert s.onPacket(c3.wire.delivered) == bytes;
    EchoReply(c3, s, bytes, outCap);
    assert Deliver(c, s, n) == Write(c3, s, Reply(bytes));
    ReplyKeepsPending(c3, s, bytes);
  }

  lemma ReplyKeepsPending(c: Conn, s: Setting, buf: seq<byte>)
    requires c.inbound.bytes == c.buffer == []
    ensures Pending(Write(c, s, Reply(buf)).c) == []
  {
  }

  /** ... and finds nothing the second time round. */
  lemma NothingPendingEnds(c: Conn, s: Setting)
    requires s.unpacker == Default && Pending(c) == []
    ensures UnpackLoop(c, s) == Outcome(c, NoFault)
  {
  }

  lemma EchoLoop(c: Conn, s: Setting, outCap: nat)
    requires EchoServer(s) && c.connected && c.outbound.bytes == [] && c.inbound.bytes == []
    requires 1 <= |c.buffer| <= PACKET_SIZE
    requires c.outbound.cap <= (if outCap > ECHO_CAP then outCap else ECHO_CAP)
    requires c.wire.sent + c.buffer == Concat(c.wire.received)
    ensures var o := UnpackLoop(c, s);
            o.fault == NoFault && Bounded(o.c, outCap) && Pending(o.c) == []
  {
    var n := |c.buffer|;
    assert Pending(c) == c.buffer;
    EchoDeliver(c, s, outCap);
    NothingPendingEnds(Deliver(c, s, n).c, s);
    assert UnpackLoop(c, s) == UnpackLoop(Deliver(c, s, n).c, s);
  }

  lemma EchoRead(c: Conn, s: Setting, recv: RecvAnswer, outCap: nat)
    requires EchoServer(s) && c.connected && c.outbound.bytes == [] && Bounded(c, outCap) && LegalRead(recv)
    ensures var o := HandleRead(c, s, recv); o.fault == NoFault && Bounded(o.c, outCap)
  {
    if recv.Data? {
      var c1 := Received(c, recv.bytes);
      assert c1.wire.received[..|c.wire.received|] == c.wire.received;
      assert c.wire.sent + [] == c.wire.sent;
      EchoLoop(c1, s, outCap);
      EchoPark(UnpackLoop(c1, s).c, outCap);
    }
  }

  lemma EchoPark(c: Conn, outCap: nat)
    requires Bounded(c, outCap) && Pending(c) == []
    ensures Park(c).fault == NoFault && Bounded(Park(c).c, outCap)
  {
  }

  lemma EchoHandleWrite(c: Conn, s: Setting, split: nat, outCap: nat)
    requires c.connected && Bounded(c, outCap)
    ensures Bounded(HandleWrite(c, s, split), outCap)
  {
    var total := |c.outbound.bytes|;
    var k := SplitAt(split, total);
    EchoSend(c, s, k, outCap);
    var (c1, first) := SendFront(c, s, k);
    EchoSettle(c1, outCap);
    if first.Count? && first.n == k && k < total {
      EchoSend(c1, s, total - k, outCap);
      EchoSettle(SendFront(c1, s, total - k).0, outCap);
    }
  }

  lemma EchoSettle(c: Conn, outCap: nat)
    requires Bounded(c, outCap)
    ensures Bounded(Settle(c), outCap)
  {
  }

  lemma EchoSend(c: Conn, s: Setting, len: nat, outCap: nat)
    requires c.connected && Bounded(c, outCap) && len <= |c.outbound.bytes|
    ensures var (c', r) := SendFront(c, s, len); Bounded(c', outCap) && (c'.connected <==> !r.Failed?)
  {
    match SendFront(c, s, len).1
    case Count(n) =>
      ConcatSplit(c.wire.sent, c.outbound.bytes[..n], c.outbound.bytes[n..]);
      assert c.outbound.bytes[..len][..n] == c.outbound.bytes[..n];
      assert c.outbound.bytes[..n] + c.outbound.bytes[n..] == c.outbound.bytes;
    case Again =>
    case Failed =>
  }

  /** Bounded memory: in every run of an echo server nothing panics; while it is open, what the socket took followed by
      the backlog is what was received, the backlog fits one packet buffer, and its ring never grows past 65536 or its
      initial capacity. */
  lemma {:induction false} EchoIsBounded(inCap: nat, outCap: nat, s: Setting, es: seq<Event>)
    requires EchoServer(s) && EchoOnly(es)
    ensures var o := Run(NewConn(inCap, outCap), s, es); o.fault == NoFault && Bounded(o.c, outCap)
    decreases |es|
  {
    if es != [] {
      EchoIsBounded(inCap, outCap, s, es[..|es| - 1]);
      var c := Run(NewConn(inCap, outCap), s, es[..|es| - 1]).c;
      var e := es[|es| - 1];
      if e.Ready? && c.connected && !e.e.error {
        if c.outbound.bytes != [] {
          EchoHandleWrite(c, s, e.e.split, outCap);
        } else if e.e.readable {
          EchoRead(c, s, e.e.recv, outCap);
        }
      }
    }
  }
}
