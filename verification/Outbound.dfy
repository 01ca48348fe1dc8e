/** What leaves a connection: byte order, and the poller's write interest, over every run and every kernel. */
module Outbound {
  import opened Bits
  import opened ByteQueue
  import opened Connection

  /** The payloads one after the other. */
  function Stream(ps: seq<Payload>): seq<byte>
    decreases |ps|
  {
    if ps == [] then [] else Stream(ps[..|ps| - 1]) + ps[|ps| - 1].bytes
  }

  lemma StreamSnoc(ps: seq<Payload>, p: Payload)
    ensures Stream(ps + [p]) == Stream(ps) + p.bytes
  {
    assert (ps + [p])[..|ps|] == ps;
  }

  /** What the socket took followed by the backlog is everything that was to be written. */
  ghost predicate Conserved(c: Conn) {
    && c.wire.sent <= Stream(c.wire.written)
    && (c.connected ==> c.wire.sent + c.outbound.bytes == Stream(c.wire.written))
  }

  ghost predicate StillConserved(o: Outcome) {
    && o.c.wire.sent <= Stream(o.c.wire.written)
    && (o.fault == NoFault ==> Conserved(o.c))
  }

  lemma CloseConserves(c: Conn)
    requires c.wire.sent <= Stream(c.wire.written)
    ensures c.connected ==> Conserved(Close(c))
    ensures Close(c).wire.(listed := c.wire.listed, teardown := c.wire.teardown) == c.wire
  {
  }

  lemma EnqueueFirst(c: Conn, buf: seq<byte>)
    requires c.outbound.bytes == []
    ensures var o := Enqueue(c, buf);
            && (o.fault == NoFault ==> o.c.outbound.bytes == buf)
            && o.c.wire == c.wire && o.c.connected == c.connected
  {
    assert [] + buf == buf;
  }

  lemma PrefixStays(a: seq<byte>, b: seq<byte>, n: nat)
    requires n <= |b|
    ensures a + b[..n] <= a + b && a <= a + b
    ensures a + b[..n] + b[n..] == a + b
  {
    assert b[..n] + b[n..] == b;
  }

  /** The payload goes straight to the socket, as far as the kernel takes it. */
  lemma DirectWriteConserves(c: Conn, s: Setting, p: Payload)
    requires Conserved(c) && c.connected && c.outbound.bytes == []
    ensures StillConserved(Write(c, s, p))
  {
    hide Enqueue, Close, Stream;
    var buf := p.bytes;
    var sent := c.wire.sent;
    StreamSnoc(c.wire.written, p);
    assert sent + [] == sent;
    assert Stream(c.wire.written + [p]) == sent + buf;
    var c1 := c.(wire := c.wire.(written := c.wire.written + [p]));
    var (w, result) := Send(c1.wire, s.kernel, buf);
    var c2 := c1.(wire := w);
    match result
    case Count(n) =>
      EnqueueFirst(c2, buf[n..]);
      PrefixStays(sent, buf, n);
      if n == |buf| { assert w.sent + [] == w.sent; }
    case Again =>
      EnqueueFirst(c2, buf);
      PrefixStays(sent, buf, 0);
    case Failed =>
      CloseConserves(c2);
      PrefixStays(sent, buf, 0);
  }

  /** Appending to a non-empty backlog, sending at once, sending in part, EAGAIN and failure all keep the order. */
  lemma WriteConserves(c: Conn, s: Setting, p: Payload)
    requires Conserved(c)
    ensures StillConserved(Write(c, s, p))
  {
    if c.connected {
      if c.outbound.bytes == [] {
        DirectWriteConserves(c, s, p);
      } else {
        StreamSnoc(c.wire.written, p);
        ConcatSplit(c.wire.sent, c.outbound.bytes, p.bytes);
      }
    }
  }

  lemma SendFrontConserves(c: Conn, s: Setting, len: nat)
    requires c.connected && len <= |c.outbound.bytes|
    ensures var (c', r) := SendFront(c, s, len);
            && c.wire.sent <= c'.wire.sent && c'.wire.written == c.wire.written
            && c'.wire.sent <= c.wire.sent + c.outbound.bytes
            && (c'.connected ==> c'.wire.sent + c'.outbound.bytes == c.wire.sent + c.outbound.bytes)
            && (c'.connected <==> !r.Failed?)
    ensures len > 0 && s.kernel(c.wire.sends).Accept? && s.kernel(c.wire.sends).limit > 0 ==>
              |SendFront(c, s, len).0.wire.sent| > |c.wire.sent|
  {
    match SendFront(c, s, len).1
    case Count(n) =>
      ConcatSplit(c.wire.sent, c.outbound.bytes[..n], c.outbound.bytes[n..]);
      assert c.outbound.bytes[..len][..n] == c.outbound.bytes[..n];
      assert c.outbound.bytes[..n] + c.outbound.bytes[n..] == c.outbound.bytes;
    case Again =>
    case Failed =>
  }

  /** A write event moves bytes from the front of the backlog to the socket: accepting k bytes shrinks it by k. */
  lemma HandleWriteConserves(c: Conn, s: Setting, split: nat)
    requires c.connected && Conserved(c)
    ensures Conserved(HandleWrite(c, s, split))
    ensures var c' := HandleWrite(c, s, split);
            && c.wire.sent <= c'.wire.sent
            && (c'.connected ==> |c'.outbound.bytes| == |c.outbound.bytes| - (|c'.wire.sent| - |c.wire.sent|))
    ensures c.outbound.bytes != [] && s.kernel(c.wire.sends).Accept? && s.kernel(c.wire.sends).limit > 0 ==>
              |HandleWrite(c, s, split).wire.sent| > |c.wire.sent|
  {
    hide SendFront;
    var total := |c.outbound.bytes|;
    var k := SplitAt(split, total);
    SendFrontConserves(c, s, k);
    var (c1, first) := SendFront(c, s, k);
    if first.Count? && first.n == k && k < total {
      SendFrontConserves(c1, s, total - k);
    }
  }

  lemma {:induction false} UnpackLoopConserves(c: Conn, s: Setting)
    requires Terminating(s.unpacker) && Conserved(c)
    ensures StillConserved(UnpackLoop(c, s))
    decreases |Pending(c)|
  {
    if c.connected {
      match FrameOf(s.unpacker, Pending(c))
      case None =>
      case Some(n) =>
        DeliverConserves(c, s, n);
        DeliverConsumes(c, s, n);
        assert Pending(c) != [];
        var o := Deliver(c, s, n);
        if o.fault == NoFault { UnpackLoopConserves(o.c, s); }
    }
  }

  lemma DeliverConserves(c: Conn, s: Setting, n: int)
    requires Conserved(c)
    ensures StillConserved(Deliver(c, s, n))
  {
    HandOverKeepsRest(c, n);
    var c2 := HandOver(c, n);
    WriteConserves(c2, s, Reply(s.onPacket(c2.wire.delivered)));
  }

  lemma StepConserves(c: Conn, s: Setting, e: Event)
    requires Terminating(s.unpacker) && Conserved(c)
    ensures StillConserved(Step(c, s, e))
  {
    match e
    case WriteJob(bytes) => WriteConserves(c, s, Posted(bytes));
    case CloseJob =>
    case Ready(r) =>
      if c.connected && !r.error {
        if c.outbound.bytes != [] {
          HandleWriteConserves(c, s, r.split);
        } else if r.readable && r.recv.Data? {
          var c' := Received(c, r.recv.bytes);
          UnpackLoopConserves(c', s);
        }
      }
  }

  /** Outbound FIFO conservation, for every sequence of events and every behaviour of the kernel: while connected, the
      bytes the socket accepted followed by the backlog are the payloads given to write, in order; and at any time,
      closed or not, what the socket accepted is a prefix of them. */
  lemma {:induction false} StreamConserved(inCap: nat, outCap: nat, s: Setting, es: seq<Event>)
    requires Terminating(s.unpacker)
    ensures StillConserved(Run(NewConn(inCap, outCap), s, es))
    decreases |es|
  {
    if es != [] {
      StreamConserved(inCap, outCap, s, es[..|es| - 1]);
      var o := Run(NewConn(inCap, outCap), s, es[..|es| - 1]);
      if o.fault == NoFault { StepConserves(o.c, s, es[|es| - 1]); }
    }
  }

  // ---------- how much is sent ----------

  /** How many of n bytes offered to it the kernel takes with an answer. */
  function Took(answer: SendAnswer, n: nat): nat {
    match answer
    case Accept(limit) => if limit < n then limit else n
    case SendAgain => 0
    case SendError => 0
  }

  /** A payload is offered to the socket at once, all of it, if and only if there is no backlog. */
  lemma WriteOffers(c: Conn, s: Setting, p: Payload)
    requires c.connected
    ensures var w, w' := c.wire, Write(c, s, p).c.wire; var offered := c.outbound.bytes == [];
            && w'.sends == w.sends + (if offered then 1 else 0)
            && w'.sent == w.sent + (if offered then p.bytes[..Took(s.kernel(w.sends), |p.bytes|)] else [])
  {
  }

  lemma SendFrontOffers(c: Conn, s: Setting, len: nat)
    requires len <= |c.outbound.bytes|
    ensures var c', result := SendFront(c, s, len).0, SendFront(c, s, len).1;
            && c'.wire.sends == c.wire.sends + 1
            && |c'.wire.sent| == |c.wire.sent| + Took(s.kernel(c.wire.sends), len)
            && (result.Count? ==> result.n == Took(s.kernel(c.wire.sends), len))
            && (s.kernel(c.wire.sends).Accept? <==> result.Count?)
  {
  }

  /** A write event offers the whole backlog: the part before the wrap, and if all of that is taken, the rest. So the
      backlog is gone afterwards, with the connection open, if and only if the kernel takes both parts whole. */
  lemma HandleWriteOffersAll(c: Conn, s: Setting, split: nat)
    requires c.connected && 0 < split <= |c.outbound.bytes|
    ensures var c' := HandleWrite(c, s, split); var total := |c.outbound.bytes|;
            var answer, next := s.kernel(c.wire.sends), s.kernel(c.wire.sends + 1);
            var first := Took(answer, split); var both := first == split < total;
            && c'.wire.sends == c.wire.sends + (if both then 2 else 1)
            && |c'.wire.sent| == |c.wire.sent| + first + (if both then Took(next, total - split) else 0)
            && (c'.connected && c'.outbound.bytes == [] <==>
                  first == split && (split < total ==> Took(next, total - split) == total - split))
  {
    hide SendFront;
    SendFrontOffers(c, s, split);
    var (c1, first) := SendFront(c, s, split);
    SendFrontConserves(c, s, split);
    TookSome(s.kernel(c.wire.sends), split);
    if first.Count? && first.n == split && split < |c.outbound.bytes| {
      SendFrontOffers(c1, s, |c.outbound.bytes| - split);
      SendFrontConserves(c1, s, |c.outbound.bytes| - split);
      TookSome(s.kernel(c.wire.sends + 1), |c.outbound.bytes| - split);
    }
  }

  lemma TookSome(answer: SendAnswer, n: nat)
    requires n > 0
    ensures Took(answer, n) == n ==> answer.Accept?
  {
  }

  // ---------- write interest ----------

  /** The poller waits for writability exactly when there is a backlog. */
  predicate InterestMatches(c: Conn) {
    c.connected ==> (c.wire.writeInterest <==> c.outbound.bytes != [])
  }

  /** The one way to lose the match: an empty payload answered with EAGAIN asks for writability with nothing
      to write. */
  predicate SpuriousInterest(c: Conn, s: Setting, p: Payload) {
    c.connected && c.outbound.bytes == [] && p.bytes == [] && s.kernel(c.wire.sends) == SendAgain
  }

  lemma WriteInterest(c: Conn, s: Setting, p: Payload)
    requires InterestMatches(c)
    ensures var o := Write(c, s, p); o.fault == NoFault ==> (InterestMatches(o.c) <==> !SpuriousInterest(c, s, p))
  {
  }

  lemma DeliverInterest(c: Conn, s: Setting, n: int)
    requires InterestMatches(c)
    ensures var o := Deliver(c, s, n); o.fault == NoFault ==> InterestMatches(o.c)
  {
    HandOverKeepsRest(c, n);
    var c2 := HandOver(c, n);
    WriteInterest(c2, s, Reply(s.onPacket(c2.wire.delivered)));
  }

  lemma {:induction false} UnpackLoopInterest(c: Conn, s: Setting)
    requires Terminating(s.unpacker) && InterestMatches(c)
    ensures var o := UnpackLoop(c, s); o.fault == NoFault ==> InterestMatches(o.c)
    decreases |Pending(c)|
  {
    if c.connected {
      match FrameOf(s.unpacker, Pending(c))
      case None =>
      case Some(n) =>
        DeliverInterest(c, s, n);
        DeliverConsumes(c, s, n);
        assert Pending(c) != [];
        var o := Deliver(c, s, n);
        if o.fault == NoFault { UnpackLoopInterest(o.c, s); }
    }
  }

  /** Every step keeps the match, except a Write job of an empty payload met with EAGAIN, which always breaks it. */
  lemma StepInterest(c: Conn, s: Setting, e: Event)
    requires Terminating(s.unpacker) && InterestMatches(c) && Step(c, s, e).fault == NoFault
    ensures InterestMatches(Step(c, s, e).c) <==> !(e.WriteJob? && SpuriousInterest(c, s, Posted(e.bytes)))
  {
    match e
    case WriteJob(bytes) => WriteInterest(c, s, Posted(bytes));
    case CloseJob =>
    case Ready(r) =>
      if c.connected && !r.error && c.outbound.bytes == [] && r.readable && r.recv.Data? {
        var c' := Received(c, r.recv.bytes);
        UnpackLoopInterest(c', s);
      }
  }

  /** No backlog is ever left without a write registration, and none is registered without a backlog. */
  lemma {:induction false} InterestMatchesBacklog(inCap: nat, outCap: nat, s: Setting, es: seq<Event>)
    requires Terminating(s.unpacker)
    requires forall i :: 0 <= i < |es| && es[i].WriteJob? ==> es[i].bytes != []
    ensures var o := Run(NewConn(inCap, outCap), s, es); o.fault == NoFault ==> InterestMatches(o.c)
    decreases |es|
  {
    if es != [] {
      InterestMatchesBacklog(inCap, outCap, s, es[..|es| - 1]);
      var o := Run(NewConn(inCap, outCap), s, es[..|es| - 1]);
      if Run(NewConn(inCap, outCap), s, es).fault == NoFault { StepInterest(o.c, s, es[|es| - 1]); }
    }
  }

  /** It does happen: the first thing written is an empty payload, and the socket is full. */
  lemma EmptyPayloadRegisters(inCap: nat, outCap: nat, s: Setting)
    requires Terminating(s.unpacker) && s.kernel(0) == SendAgain
    ensures var o := Run(NewConn(inCap, outCap), s, [WriteJob([])]); o.fault == NoFault && !InterestMatches(o.c)
  {
    var c := NewConn(inCap, outCap);
    assert [WriteJob([])][..0] == [] && Run(c, s, []) == Outcome(c, NoFault);
    assert SpuriousInterest(c, s, Posted([]));
    assert Step(c, s, WriteJob([])).fault == NoFault;
    StepInterest(c, s, WriteJob([]));
  }

  // ---------- the backlog gets out ----------

  /** A kernel that always takes something. */
  ghost predicate Willing(s: Setting) {
    forall i: nat :: s.kernel(i).Accept? && s.kernel(i).limit > 0
  }

  /** An event that says only that the socket is writable. */
  predicate JustWritable(e: Event) {
    e.Ready? && !e.e.error && e.e.writable && !e.e.readable
  }

  lemma WritableShrinks(c: Conn, s: Setting, e: Event)
    requires Terminating(s.unpacker) && Open(c) && Conserved(c) && InterestMatches(c) && Willing(s) && JustWritable(e)
    ensures var o := Step(c, s, e);
            && o.fault == NoFault && Open(o.c) && Conserved(o.c) && InterestMatches(o.c)
            && |o.c.outbound.bytes| <= (if c.outbound.bytes == [] then 0 else |c.outbound.bytes| - 1)
  {
    StepInterest(c, s, e);
    if c.outbound.bytes != [] {
      HandleWriteConserves(c, s, e.e.split);
      WillingStaysOpen(c, s, e.e.split);
    }
  }

  lemma WillingStaysOpen(c: Conn, s: Setting, split: nat)
    requires Open(c) && Willing(s)
    ensures Open(HandleWrite(c, s, split))
  {
    assert s.kernel(c.wire.sends).Accept? && s.kernel(c.wire.sends + 1).Accept?;
  }

  lemma {:induction false} WritableEventsShrink(c: Conn, s: Setting, es: seq<Event>)
    requires Terminating(s.unpacker) && Open(c) && Conserved(c) && InterestMatches(c) && Willing(s)
    requires forall i :: 0 <= i < |es| ==> JustWritable(es[i])
    ensures var o := Run(c, s, es);
            && o.fault == NoFault && Open(o.c) && Conserved(o.c) && InterestMatches(o.c)
            && |o.c.outbound.bytes| <= (if |c.outbound.bytes| < |es| then 0 else |c.outbound.bytes| - |es|)
    decreases |es|
  {
    if es != [] {
      WritableEventsShrink(c, s, es[..|es| - 1]);
      WritableShrinks(Run(c, s, es[..|es| - 1]).c, s, es[|es| - 1]);
    }
  }

  /** Nothing stays behind: as many write events as there are bytes of backlog, however the kernel splits them as long
      as it takes something each time, put every payload on the wire, and the poller stops waiting for writability. */
  lemma BacklogDrains(c: Conn, s: Setting, es: seq<Event>)
    requires Terminating(s.unpacker) && Open(c) && Conserved(c) && InterestMatches(c) && Willing(s)
    requires |es| >= |c.outbound.bytes| && forall i :: 0 <= i < |es| ==> JustWritable(es[i])
    ensures var o := Run(c, s, es);
            && o.fault == NoFault && Open(o.c)
            && o.c.wire.sent == Stream(o.c.wire.written) && !o.c.wire.writeInterest
  {
    WritableEventsShrink(c, s, es);
    var c' := Run(c, s, es).c;
    assert c'.outbound.bytes == [] && c'.wire.sent + [] == c'.wire.sent;
  }
}
