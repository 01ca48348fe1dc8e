/** What enters a connection: packets do not depend on how the stream was cut into reads. */
module Inbound {
  import opened Bits
  import opened ByteQueue
  import opened Connection
  import opened Framing

  /** Between events: the packets so far and the parked leftover are those of the chunks read. */
  ghost predicate Refines(c: Conn, u: Unpacker)
    requires Terminating(u)
  {
    var parsed := ParseChunks(u, c.wire.received);
    && c.wire.delivered <= parsed.packets
    && (c.connected ==> c.wire.delivered == parsed.packets && c.inbound.bytes == parsed.rest)
  }

  /** The loop delivers the packets of what is pending; a close or a panic can only cut the list short. */
  ghost predicate LoopParses(c: Conn, o: Outcome, u: Unpacker)
    requires Terminating(u)
  {
    var parsed := Parse(u, Pending(c));
    && o.c.wire.received == c.wire.received
    && o.c.wire.delivered <= c.wire.delivered + parsed.packets
    && (o.fault == NoFault && o.c.connected ==>
          o.c.wire.delivered == c.wire.delivered + parsed.packets && Pending(o.c) == parsed.rest)
  }

  lemma WriteKeepsInbound(c: Conn, s: Setting, p: Payload)
    ensures var o := Write(c, s, p);
            && o.c.wire.received == c.wire.received && o.c.wire.delivered == c.wire.delivered
            && (o.c.connected ==> o.c.inbound == c.inbound && o.c.buffer == c.buffer)
            && (o.c.connected ==> c.connected)
  {
  }

  lemma DeliverParses(c: Conn, s: Setting, n: int)
    ensures var o := Deliver(c, s, n); var k := EffectiveN(n, |Pending(c)|);
            && o.c.wire.received == c.wire.received
            && o.c.wire.delivered == c.wire.delivered + [Pending(c)[..k]]
            && (o.c.connected ==> Pending(o.c) == Pending(c)[k..])
  {
    HandOverKeepsRest(c, n);
    var c2 := HandOver(c, n);
    WriteKeepsInbound(c2, s, Reply(s.onPacket(c2.wire.delivered)));
  }

  lemma {:induction false} UnpackLoopParses(c: Conn, s: Setting)
    requires Terminating(s.unpacker)
    ensures LoopParses(c, UnpackLoop(c, s), s.unpacker)
    decreases |Pending(c)|
  {
    if c.connected {
      match FrameOf(s.unpacker, Pending(c))
      case None =>
      case Some(n) =>
        assert Pending(c) != [];
        DeliverParses(c, s, n);
        DeliverConsumes(c, s, n);
        var o := Deliver(c, s, n);
        var k := EffectiveN(n, |Pending(c)|);
        var rest := Parse(s.unpacker, Pending(c)[k..]).packets;
        assert c.wire.delivered + [Pending(c)[..k]] + rest == c.wire.delivered + ([Pending(c)[..k]] + rest);
        if o.fault == NoFault {
          UnpackLoopParses(o.c, s);
          if !o.c.connected { assert UnpackLoop(o.c, s).c == o.c; }
        }
    }
  }

  lemma HandleReadRefines(c: Conn, s: Setting, recv: RecvAnswer)
    requires Terminating(s.unpacker) && Refines(c, s.unpacker) && c.connected
    ensures var o := HandleRead(c, s, recv);
            var parsed := ParseChunks(s.unpacker, o.c.wire.received);
            o.c.wire.delivered <= parsed.packets && (o.fault == NoFault ==> Refines(o.c, s.unpacker))
  {
    if recv.Data? {
      var bytes := recv.bytes;
      var c' := Received(c, bytes);
      UnpackLoopParses(c', s);
      assert c'.wire.received[..|c.wire.received|] == c.wire.received;
      var o := UnpackLoop(c', s);
      assert Pending(o.c) == o.c.inbound.bytes + o.c.buffer;
    }
  }

  lemma StepRefines(c: Conn, s: Setting, e: Event)
    requires Terminating(s.unpacker) && Refines(c, s.unpacker)
    ensures var o := Step(c, s, e);
            var parsed := ParseChunks(s.unpacker, o.c.wire.received);
            o.c.wire.delivered <= parsed.packets && (o.fault == NoFault ==> Refines(o.c, s.unpacker))
  {
    match e
    case WriteJob(bytes) => WriteKeepsInbound(c, s, Posted(bytes));
    case CloseJob =>
    case Ready(r) =>
      if c.connected && !r.error {
        if c.outbound.bytes != [] {
          HandleWriteReadsNothing(c, s, r.split);
        } else if r.readable {
          HandleReadRefines(c, s, r.recv);
        }
      }
  }

  /** For every unpacker, every run delivers the packets of the chunks read, one chunk after the other. */
  lemma {:induction false} RunRefines(inCap: nat, outCap: nat, s: Setting, es: seq<Event>)
    requires Terminating(s.unpacker)
    ensures var o := Run(NewConn(inCap, outCap), s, es);
            var parsed := ParseChunks(s.unpacker, o.c.wire.received);
            o.c.wire.delivered <= parsed.packets && (o.fault == NoFault ==> Refines(o.c, s.unpacker))
    decreases |es|
  {
    if es != [] {
      RunRefines(inCap, outCap, s, es[..|es| - 1]);
      var o := Run(NewConn(inCap, outCap), s, es[..|es| - 1]);
      if o.fault == NoFault { StepRefines(o.c, s, es[|es| - 1]); }
    }
  }

  /** Chunking independence: with a prefix-stable framing, while the connection stays open, the packets delivered and
      the leftover parked are those of the whole received stream parsed at once, in any run with any writes in
      between. */
  lemma PacketsIgnoreChunking(inCap: nat, outCap: nat, s: Setting, es: seq<Event>)
    requires Terminating(s.unpacker) && PrefixStable(s.unpacker)
    requires var o := Run(NewConn(inCap, outCap), s, es); o.fault == NoFault && o.c.connected
    ensures var c := Run(NewConn(inCap, outCap), s, es).c;
            Parse(s.unpacker, Concat(c.wire.received)) == Parsed(c.wire.delivered, c.inbound.bytes)
  {
    RunRefines(inCap, outCap, s, es);
    StableIsIndependent(s.unpacker, Run(NewConn(inCap, outCap), s, es).c.wire.received);
  }

  /** Between events no complete packet is waiting to be delivered. */
  lemma NoPacketWaits(inCap: nat, outCap: nat, s: Setting, es: seq<Event>)
    requires Terminating(s.unpacker)
    requires var o := Run(NewConn(inCap, outCap), s, es); o.fault == NoFault && o.c.connected
    ensures FrameOf(s.unpacker, Run(NewConn(inCap, outCap), s, es).c.inbound.bytes) == None
  {
    RunRefines(inCap, outCap, s, es);
    var chunks := Run(NewConn(inCap, outCap), s, es).c.wire.received;
    if chunks != [] {
      var before := ParseChunks(s.unpacker, chunks[..|chunks| - 1]);
      ParseIsComplete(s.unpacker, before.rest + chunks[|chunks| - 1]);
    }
  }

  /** Inbound conservation: whatever the unpacker, packets and leftover together are the bytes received. */
  lemma InboundConserved(inCap: nat, outCap: nat, s: Setting, es: seq<Event>)
    requires Terminating(s.unpacker)
    requires var o := Run(NewConn(inCap, outCap), s, es); o.fault == NoFault && o.c.connected
    ensures var c := Run(NewConn(inCap, outCap), s, es).c;
            Concat(c.wire.delivered) + c.inbound.bytes == Concat(c.wire.received)
  {
    RunRefines(inCap, outCap, s, es);
    ChunksConserve(s.unpacker, Run(NewConn(inCap, outCap), s, es).c.wire.received);
  }

  // ---------- when the unpack loop ends ----------

  /** The loop of the source has one more packet to deliver. */
  predicate Going(o: Outcome, u: Unpacker) {
    o.fault == NoFault && o.c.connected && FrameOf(u, Pending(o.c)).Some?
  }

  predicate Alive(o: Outcome) {
    o.fault == NoFault && o.c.connected
  }

  /** At most k turns of the unpack loop, with any unpacker. */
  function Turns(c: Conn, s: Setting, k: nat): Outcome
    decreases k
  {
    if k == 0 || !Going(Outcome(c, NoFault), s.unpacker) then Outcome(c, NoFault)
    else
      var o := Deliver(c, s, FrameOf(s.unpacker, Pending(c)).value);
      if o.fault == NoFault then Turns(o.c, s, k - 1) else o
  }

  /** The loop never ends: however many turns it has made, it makes another. */
  ghost predicate Spins(c: Conn, s: Setting) {
    forall k: nat :: Going(Turns(c, s, k), s.unpacker)
  }

  /** No reply fails to go out, or overflows the backlog. */
  ghost predicate StaysAlive(c: Conn, s: Setting) {
    forall k: nat :: Alive(Turns(c, s, k))
  }

  /** Taking packet after packet from p, the unpacker gets to the end of p with nothing left over. */
  predicate UsesUp(u: Unpacker, p: seq<byte>)
    decreases |p|
  {
    p == [] ||
    var n := FrameOf(u, p);
    n.Some? && UsesUp(u, p[EffectiveN(n.value, |p|)..])
  }

  /** What happens after the first turn happens after all. */
  lemma AfterOneTurn(c: Conn, s: Setting)
    requires Going(Outcome(c, NoFault), s.unpacker)
    ensures var o := Deliver(c, s, FrameOf(s.unpacker, Pending(c)).value);
            && (!Alive(o) ==> !Alive(Turns(c, s, 1)))
            && (Alive(o) ==> (Spins(c, s) <==> Spins(o.c, s)) && (StaysAlive(c, s) <==> StaysAlive(o.c, s)))
  {
    var o := Deliver(c, s, FrameOf(s.unpacker, Pending(c)).value);
    if Alive(o) {
      assert forall k: nat :: Turns(c, s, k + 1) == Turns(o.c, s, k);
      forall k: nat ensures k > 0 ==> Turns(c, s, k) == Turns(o.c, s, k - 1) {
        if k > 0 { assert Turns(c, s, (k - 1) + 1) == Turns(o.c, s, k - 1); }
      }
      assert Going(Turns(c, s, 0), s.unpacker) && Alive(Turns(c, s, 0));
    } else {
      assert Turns(c, s, 1) == if o.fault == NoFault then Turns(o.c, s, 0) else o;
    }
  }

  /** An empty packet in no bytes leaves no bytes, so there is another one. */
  lemma {:induction false} NothingLeftGoesOn(c: Conn, s: Setting, k: nat)
    requires !Terminating(s.unpacker) && c.connected && Pending(c) == [] && StaysAlive(c, s)
    ensures Going(Turns(c, s, k), s.unpacker)
    decreases k
  {
    hide Deliver, FrameOf;
    assert Terminating(s.unpacker) == FrameOf(s.unpacker, []).None?;
    if k > 0 {
      AfterOneTurn(c, s);
      var n := FrameOf(s.unpacker, Pending(c)).value;
      var o := Deliver(c, s, n);
      assert Alive(Turns(c, s, 1));
      DeliverParses(c, s, n);
      assert Pending(o.c) == [];
      NothingLeftGoesOn(o.c, s, k - 1);
    }
  }

  /** Exactly when the unpack loop of an open connection never ends, for every unpacker, handler and kernel: the
      unpacker reports a packet in no bytes, the pending bytes are used up by packets, and no reply closes the
      connection or overflows the backlog. */
  lemma {:induction false} SpinsExactlyWhen(c: Conn, s: Setting)
    requires c.connected
    ensures Spins(c, s) <==> !Terminating(s.unpacker) && UsesUp(s.unpacker, Pending(c)) && StaysAlive(c, s)
    decreases |Pending(c)|
  {
    var u := s.unpacker;
    assert Spins(c, s) ==> StaysAlive(c, s) by {
      if Spins(c, s) {
        forall k: nat ensures Alive(Turns(c, s, k)) { assert Going(Turns(c, s, k), u); }
      }
    }
    assert Turns(c, s, 0) == Outcome(c, NoFault);
    if Pending(c) == [] {
      assert Spins(c, s) ==> Going(Turns(c, s, 0), u);
      if !Terminating(u) && StaysAlive(c, s) {
        forall k: nat ensures Going(Turns(c, s, k), u) { NothingLeftGoesOn(c, s, k); }
      }
    } else if FrameOf(u, Pending(c)) == None {
      assert !Going(Turns(c, s, 0), u);
    } else {
      var n := FrameOf(u, Pending(c)).value;
      var o := Deliver(c, s, n);
      AfterOneTurn(c, s);
      DeliverParses(c, s, n);
      if Alive(o) { SpinsExactlyWhen(o.c, s); }
    }
  }

  /** A handler that never replies. */
  ghost predicate Silent(s: Setting) {
    forall packets :: s.onPacket(packets) == []
  }

  lemma {:induction false} SilentStaysAlive(c: Conn, s: Setting, k: nat)
    requires Silent(s) && c.connected
    ensures Alive(Turns(c, s, k))
    decreases k
  {
    if k > 0 && Going(Outcome(c, NoFault), s.unpacker) {
      var n := FrameOf(s.unpacker, Pending(c)).value;
      HandOverKeepsRest(c, n);
      assert Deliver(c, s, n) == Outcome(HandOver(c, n), NoFault);
      SilentStaysAlive(HandOver(c, n), s, k - 1);
    }
  }

  /** With a handler that never replies the condition is one about the unpacker and the bytes: the loop stops after some
      number of turns if and only if no packet is found in no bytes, or the packets do not use up what is pending. */
  lemma SilentLoopEndsIff(c: Conn, s: Setting)
    requires Silent(s) && c.connected
    ensures !Spins(c, s) <==> Terminating(s.unpacker) || !UsesUp(s.unpacker, Pending(c))
  {
    forall k: nat ensures Alive(Turns(c, s, k)) { SilentStaysAlive(c, s, k); }
    SpinsExactlyWhen(c, s);
  }

  /** Turns are turns of the loop that HandleRead runs: where they end by themselves, UnpackLoop ends too, in the same
      state; a closed connection is then met by one more call of the unpacker. */
  lemma {:induction false} LoopIsTurns(c: Conn, s: Setting, k: nat)
    requires Terminating(s.unpacker) && k >= |Pending(c)|
    ensures var o := Turns(c, s, k);
            !Going(o, s.unpacker) && UnpackLoop(c, s) == if o.fault == NoFault then UnpackLoop(o.c, s) else o
    ensures Alive(Turns(c, s, k)) ==> UnpackLoop(c, s) == Turns(c, s, k)
    decreases |Pending(c)|
  {
    if Going(Outcome(c, NoFault), s.unpacker) {
      assert Pending(c) != [];
      var n := FrameOf(s.unpacker, Pending(c)).value;
      DeliverConsumes(c, s, n);
      var o := Deliver(c, s, n);
      if o.fault == NoFault {
        assert !o.c.connected ==> Pending(o.c) == [];
        LoopIsTurns(o.c, s, k - 1);
      }
    }
  }

  /** A read that never returns to the loop: on a connection just made, any read whose bytes the packets of such an
      unpacker use up. */
  lemma ReadSpins(inCap: nat, outCap: nat, s: Setting, bytes: seq<byte>)
    requires !Terminating(s.unpacker) && Silent(s) && LegalRead(Data(bytes)) && UsesUp(s.unpacker, bytes)
    ensures Spins(Received(NewConn(inCap, outCap), bytes), s)
  {
    var c := Received(NewConn(inCap, outCap), bytes);
    assert Pending(c) == bytes;
    SilentLoopEndsIff(c, s);
  }

  /** The default protocol without its test for "nothing there" is such an unpacker, and every read hangs it. */
  lemma UntestedDefaultSpins(inCap: nat, outCap: nat, kernel: nat -> SendAnswer, bytes: seq<byte>)
    requires LegalRead(Data(bytes))
    ensures var u := Framed((p: seq<byte>) => Some(|p|), true);
            Spins(Received(NewConn(inCap, outCap), bytes), Setting(kernel, u, _ => []))
  {
    var u := Framed((p: seq<byte>) => Some(|p|), true);
    assert bytes[|bytes|..] == [];
    ReadSpins(inCap, outCap, Setting(kernel, u, _ => []), bytes);
  }
}
