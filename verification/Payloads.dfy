/** What is given to write, over a whole run: every reply a handler makes, every payload a Write job brings, each once
    and in order. What then becomes of the payloads is Outbound's subject. */
module Payloads {
  import opened ByteQueue
  import opened Connection

  /** The payloads of Write jobs among those written, and the replies among them. */
  function PostedOnly(ps: seq<Payload>): seq<seq<byte>>
    decreases |ps|
  {
    if ps == [] then []
    else
      var before, last := PostedOnly(ps[..|ps| - 1]), ps[|ps| - 1];
      if last.Posted? then before + [last.bytes] else before
  }

  function RepliesOnly(ps: seq<Payload>): seq<seq<byte>>
    decreases |ps|
  {
    if ps == [] then []
    else
      var before, last := RepliesOnly(ps[..|ps| - 1]), ps[|ps| - 1];
      if last.Reply? then before + [last.bytes] else before
  }

  /** What the handler answers to the packets, one after the other; an empty answer is none. */
  function Answers(s: Setting, packets: seq<seq<byte>>): seq<seq<byte>>
    decreases |packets|
  {
    if packets == [] then []
    else
      var before, answer := Answers(s, packets[..|packets| - 1]), s.onPacket(packets);
      if answer == [] then before else before + [answer]
  }

  /** The payloads of the Write jobs among events. */
  function JobPayloads(es: seq<Event>): seq<seq<byte>>
    decreases |es|
  {
    if es == [] then []
    else
      var before, last := JobPayloads(es[..|es| - 1]), es[|es| - 1];
      if last.WriteJob? then before + [last.bytes] else before
  }

  lemma WrittenSnoc(ps: seq<Payload>, p: Payload)
    ensures PostedOnly(ps + [p]) == PostedOnly(ps) + if p.Posted? then [p.bytes] else []
    ensures RepliesOnly(ps + [p]) == RepliesOnly(ps) + if p.Reply? then [p.bytes] else []
  {
    assert (ps + [p])[..|ps|] == ps;
  }

  lemma AnswersSnoc(s: Setting, packets: seq<seq<byte>>, packet: seq<byte>)
    ensures var answer := s.onPacket(packets + [packet]);
            Answers(s, packets + [packet]) == Answers(s, packets) + if answer == [] then [] else [answer]
  {
    assert (packets + [packet])[..|packets|] == packets;
  }

  lemma WriteLogs(c: Conn, s: Setting, p: Payload)
    ensures Write(c, s, p).c.wire.written == c.wire.written + if c.connected then [p] else []
    ensures Write(c, s, p).c.wire.delivered == c.wire.delivered
  {
  }

  /** The replies written are the handler's answers to the packets delivered. */
  ghost predicate Answered(c: Conn, s: Setting) {
    RepliesOnly(c.wire.written) == Answers(s, c.wire.delivered)
  }

  /** From c to c' only replies have been written. */
  ghost predicate OnlyReplied(c: Conn, c': Conn) {
    && PostedOnly(c'.wire.written) == PostedOnly(c.wire.written)
    && c.wire.written <= c'.wire.written
  }

  lemma DeliverAnswers(c: Conn, s: Setting, n: int)
    requires c.connected && Answered(c, s)
    ensures Answered(Deliver(c, s, n).c, s) && OnlyReplied(c, Deliver(c, s, n).c)
  {
    HandOverKeepsRest(c, n);
    var c2 := HandOver(c, n);
    var packet := Pending(c)[..EffectiveN(n, |Pending(c)|)];
    AnswersSnoc(s, c.wire.delivered, packet);
    var reply := Reply(s.onPacket(c2.wire.delivered));
    WriteLogs(c2, s, reply);
    WrittenSnoc(c.wire.written, reply);
  }

  lemma {:induction false} UnpackLoopAnswers(c: Conn, s: Setting)
    requires Terminating(s.unpacker) && Answered(c, s)
    ensures Answered(UnpackLoop(c, s).c, s) && OnlyReplied(c, UnpackLoop(c, s).c)
    decreases |Pending(c)|
  {
    if c.connected {
      match FrameOf(s.unpacker, Pending(c))
      case None =>
      case Some(n) =>
        assert Pending(c) != [];
        DeliverAnswers(c, s, n);
        DeliverConsumes(c, s, n);
        var o := Deliver(c, s, n);
        if o.fault == NoFault { UnpackLoopAnswers(o.c, s); }
    }
  }

  /** A step writes answers, or the payload of its Write job, and nothing else. */
  lemma StepAnswers(c: Conn, s: Setting, e: Event)
    requires Terminating(s.unpacker) && Answered(c, s)
    ensures var c' := Step(c, s, e).c;
            && Answered(c', s)
            && (if e.WriteJob? then
                  c'.wire.written == c.wire.written + if c.connected then [Posted(e.bytes)] else []
                else OnlyReplied(c, c'))
  {
    match e
    case WriteJob(bytes) =>
      WriteLogs(c, s, Posted(bytes));
      WrittenSnoc(c.wire.written, Posted(bytes));
    case CloseJob =>
    case Ready(r) =>
      if c.connected && !r.error {
        if c.outbound.bytes != [] {
          HandleWriteReadsNothing(c, s, r.split);
        } else if r.readable && r.recv.Data? {
          UnpackLoopAnswers(Received(c, r.recv.bytes), s);
        }
      }
  }

  lemma StepStaysClosed(c: Conn, s: Setting, e: Event)
    requires Terminating(s.unpacker)
    ensures !c.connected ==> !Step(c, s, e).c.connected
  {
  }

  /** Every payload is given to write. In every run, closed or not, faulted or not, the replies written are, in order,
      exactly the handler's non-empty answers to the packets delivered so far; and the posted payloads written are, in
      order, those of the Write jobs that have come, all of them while the connection is open. */
  lemma {:induction false} PayloadsAccounted(inCap: nat, outCap: nat, s: Setting, es: seq<Event>)
    requires Terminating(s.unpacker)
    ensures var o := Run(NewConn(inCap, outCap), s, es); var written := o.c.wire.written;
            && RepliesOnly(written) == Answers(s, o.c.wire.delivered)
            && PostedOnly(written) <= JobPayloads(es)
            && (o.fault == NoFault && o.c.connected ==> PostedOnly(written) == JobPayloads(es))
    decreases |es|
  {
    if es != [] {
      var before, e := es[..|es| - 1], es[|es| - 1];
      PayloadsAccounted(inCap, outCap, s, before);
      var o := Run(NewConn(inCap, outCap), s, before);
      if o.fault == NoFault {
        StepAnswers(o.c, s, e);
        if e.WriteJob? { WrittenSnoc(o.c.wire.written, Posted(e.bytes)); }
        StepStaysClosed(o.c, s, e);
      }
    }
  }
}
