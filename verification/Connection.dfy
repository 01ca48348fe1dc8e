/** conn.go as a function of the connection's state, what the kernel answers, and what the application does.

    The class in TcpConn.dfy is proved to do exactly this; the properties of whole runs are proved about this. */
module Connection {
  import opened Bits
  import opened ByteQueue

  // ---------- the surroundings: kernel, poller, application ----------

  /** The kernel's answer to one write(2): it takes at most `limit` bytes, or EAGAIN, or another error. */
  datatype SendAnswer = Accept(limit: nat) | SendAgain | SendError

  /** The kernel's answer to one read(2) into the loop's packet buffer. */
  datatype RecvAnswer = Data(bytes: seq<byte>) | EndOfFile | RecvAgain | RecvError

  const PACKET_SIZE: nat := 0xFFFF

  /** The unpacking protocol of the server's options. `Default` delivers whatever is pending. A `Framed` protocol finds
      the length of the first packet in the pending bytes; it may start by calling Read, or go straight to ReadN. */
  datatype Unpacker =
    | Default
    | Framed(frame: seq<byte> -> Option<int>, startsWithRead: bool)

  /** `kernel(i)` answers the i-th write(2) of the connection; `onPacket` replies to the last packet, given all of
      them. */
  datatype Setting = Setting(
    kernel: nat -> SendAnswer,
    unpacker: Unpacker,
    onPacket: seq<seq<byte>> -> seq<byte>)

  /** A payload handed to `write`: a handler's reply, or the argument of a `Write` job. */
  datatype Payload = Reply(bytes: seq<byte>) | Posted(bytes: seq<byte>)

  datatype Effect = Deregister | NotifyClose | CloseFd | Release

  /** Everything the connection has done to its surroundings so far. */
  datatype Wire = Wire(
    sends: nat,                    // calls of write(2)
    sent: seq<byte>,               // bytes the kernel accepted
    received: seq<seq<byte>>,      // what each read(2) returned
    delivered: seq<seq<byte>>,     // packets given to OnPacket
    written: seq<Payload>,         // payloads given to write while connected
    writeInterest: bool,           // the poller also waits for writability
    listed: bool,                  // the loop's handler table leads to the connection
    teardown: seq<Effect>)

  const TEARDOWN: seq<Effect> := [Deregister, NotifyClose, CloseFd, Release]

  /** `inbound`, `buffer` and `outbound` are empty once the connection is released. */
  datatype Conn = Conn(connected: bool, inbound: Queue, buffer: seq<byte>, outbound: Queue, wire: Wire)

  /** A Go panic inside a step: use of a released (nil) buffer, or a ring-buffer growth past 2^62. */
  datatype Fault = NoFault | NilDeref | TooLarge

  datatype Outcome = Outcome(c: Conn, fault: Fault)

  function NewWire(): Wire {
    Wire(0, [], [], [], [], false, true, [])
  }

  /** A connection just made and bound, with two pooled (empty) ring buffers. */
  function NewConn(inCap: nat, outCap: nat): Conn {
    Conn(true, Empty(inCap), [], Empty(outCap), NewWire())
  }

  // ---------- reading ----------

  function Pending(c: Conn): seq<byte> {
    c.inbound.bytes + c.buffer
  }

  /** ReadN and ShiftN take "everything" when n is not positive or more than there is. */
  function EffectiveN(n: int, total: nat): (k: nat)
    ensures k <= total && (total > 0 ==> k > 0)
  {
    if total < n || n <= 0 then total else n
  }

  function ResetBuffer(c: Conn): Conn {
    c.(buffer := [], inbound := Clear(c.inbound))
  }

  function ShiftN(c: Conn, n: int): Conn {
    var inLen, total := |c.inbound.bytes|, |c.inbound.bytes| + |c.buffer|;
    if total < n || n <= 0 then ResetBuffer(c)
    else if inLen == 0 then c.(buffer := c.buffer[n..])
    else if inLen >= n then c.(inbound := Drop(c.inbound, n))
    else c.(inbound := Clear(c.inbound), buffer := c.buffer[n - inLen..])
  }

  /** Consuming takes exactly what was asked for: n bytes if there are as many, and everything if n is not positive or
      more than there is; the rest stays pending, wherever the split between ring and read buffer falls. */
  lemma ShiftNConsumes(c: Conn, n: int)
    ensures var p := Pending(c); var k := if 1 <= n <= |p| then n else |p|;
            && k == EffectiveN(n, |p|)
            && Pending(ShiftN(c, n)) == p[k..] && p == p[..k] + Pending(ShiftN(c, n))
    ensures ShiftN(c, n).(inbound := c.inbound, buffer := c.buffer) == c
  {
    var inLen, p := |c.inbound.bytes|, Pending(c);
    var k := EffectiveN(n, |p|);
    assert Pending(ShiftN(c, n)) == p[k..] by {
      if n <= 0 || |p| < n {
        assert p[k..] == [] + [];
      } else if n <= inLen {
        assert p[n..] == c.inbound.bytes[n..] + c.buffer;
      } else {
        assert p[n..] == c.buffer[n - inLen..] == [] + c.buffer[n - inLen..];
      }
    }
    assert p == p[..k] + p[k..];
  }

  // ---------- closing ----------

  function Close(c: Conn): Conn {
    if c.connected then
      Conn(false, Empty(0), [], Empty(0), c.wire.(listed := false, teardown := c.wire.teardown + TEARDOWN))
    else c
  }

  // ---------- writing ----------

  datatype SendResult = Count(n: nat) | Again | Failed

  function Send(w: Wire, kernel: nat -> SendAnswer, buf: seq<byte>): (r: (Wire, SendResult))
    ensures r.1.Count? ==> r.1.n <= |buf|
  {
    var w' := w.(sends := w.sends + 1);
    match kernel(w.sends)
    case Accept(limit) =>
      var n := if limit < |buf| then limit else |buf|;
      (w'.(sent := w.sent + buf[..n]), Count(n))
    case SendAgain => (w', Again)
    case SendError => (w', Failed)
  }

  /** Appends to the outbound buffer, or panics. */
  function Enqueue(c: Conn, buf: seq<byte>): Outcome {
    if Fits(c.outbound, buf) then Outcome(c.(outbound := Append(c.outbound, buf)), NoFault)
    else Outcome(c, TooLarge)
  }

  function WantWrite(c: Conn): Conn {
    c.(wire := c.wire.(writeInterest := true))
  }

  function Write(c: Conn, s: Setting, p: Payload): Outcome {
    if !c.connected then Outcome(c, NoFault)
    else
      var c := c.(wire := c.wire.(written := c.wire.written + [p]));
      var buf := p.bytes;
      if c.outbound.bytes != [] then Enqueue(c, buf)
      else
        var (w, result) := Send(c.wire, s.kernel, buf);
        var c := c.(wire := w);
        match result
        case Again =>
          var o := Enqueue(c, buf);
          if o.fault == NoFault then Outcome(WantWrite(o.c), NoFault) else o
        case Failed => Outcome(Close(c), NoFault)
        case Count(n) =>
          var o := if n < |buf| then Enqueue(c, buf[n..]) else Outcome(c, NoFault);
          if o.fault == NoFault && o.c.outbound.bytes != [] then Outcome(WantWrite(o.c), NoFault) else o
  }

  /** Back to waiting for readability only, once everything is out. */
  function Settle(c: Conn): Conn {
    if c.outbound.bytes == [] then c.(wire := c.wire.(writeInterest := false)) else c
  }

  /** One of the two sends of handleWrite, and the Shift of what it took. */
  function SendFront(c: Conn, s: Setting, len: nat): (r: (Conn, SendResult))
    requires len <= |c.outbound.bytes|
    ensures r.1.Count? ==> r.1.n <= len && r.0.outbound == Drop(c.outbound, r.1.n)
  {
    var (w, result) := Send(c.wire, s.kernel, c.outbound.bytes[..len]);
    var c := c.(wire := w);
    match result
    case Again => (c, result)
    case Failed => (Close(c), result)
    case Count(n) => (c.(outbound := Drop(c.outbound, n)), result)
  }

  /** Where the stored bytes wrap round the end of the array: somewhere after the first byte. */
  function SplitAt(split: nat, total: nat): (k: nat)
    ensures k <= total && (total > 0 ==> k > 0)
  {
    if split > total then total else if split == 0 && total > 0 then 1 else split
  }

  function HandleWrite(c: Conn, s: Setting, split: nat): Conn {
    var total := |c.outbound.bytes|;
    var k := SplitAt(split, total);
    var (c1, first) := SendFront(c, s, k);
    if !first.Count? then c1
    else if first.n == k && k < total then
      var (c2, second) := SendFront(c1, s, total - k);
      if !second.Count? then c2 else Settle(c2)
    else Settle(c1)
  }

  /** c' differs from c by no read, no packet and no new payload. */
  predicate NothingRead(c: Conn, c': Conn) {
    && c'.wire.received == c.wire.received
    && c'.wire.delivered == c.wire.delivered
    && c'.wire.written == c.wire.written
    && (c'.connected ==> c.connected && c'.inbound == c.inbound)
  }

  lemma SendFrontReadsNothing(c: Conn, s: Setting, len: nat)
    requires len <= |c.outbound.bytes|
    ensures NothingRead(c, SendFront(c, s, len).0)
  {
  }

  lemma HandleWriteReadsNothing(c: Conn, s: Setting, split: nat)
    ensures NothingRead(c, HandleWrite(c, s, split))
  {
    var total := |c.outbound.bytes|;
    var k := SplitAt(split, total);
    SendFrontReadsNothing(c, s, k);
    var (c1, first) := SendFront(c, s, k);
    if first.Count? && first.n == k && k < total {
      SendFrontReadsNothing(c1, s, total - k);
    }
  }

  // ---------- the unpack loop ----------

  function FrameOf(u: Unpacker, p: seq<byte>): Option<int> {
    match u
    case Default => if p == [] then None else Some(|p|)
    case Framed(frame, _) => frame(p)
  }

  /** No packet in no bytes: what the loop needs of an unpacker in order to end. */
  predicate Terminating(u: Unpacker) {
    FrameOf(u, []) == None
  }

  /** The unpacker looks at Read, which reports nothing after a close, before anything else. */
  predicate Guarded(u: Unpacker) {
    u.Default? || u.startsWithRead
  }

  /** One packet consumed and handed to the application. */
  function HandOver(c: Conn, n: int): Conn {
    var packet := Pending(c)[..EffectiveN(n, |Pending(c)|)];
    var c := ShiftN(c, n);
    c.(wire := c.wire.(delivered := c.wire.delivered + [packet]))
  }

  /** One turn of the unpack loop: a packet, and the reply to it. */
  function Deliver(c: Conn, s: Setting, n: int): Outcome {
    var c := HandOver(c, n);
    var out := s.onPacket(c.wire.delivered);
    if out == [] then Outcome(c, NoFault) else Write(c, s, Reply(out))
  }

  /** Handing over a packet changes what is pending and what was delivered, and nothing else. */
  lemma HandOverKeepsRest(c: Conn, n: int)
    ensures var c' := HandOver(c, n); var k := EffectiveN(n, |Pending(c)|);
            && Pending(c') == Pending(c)[k..]
            && c'.wire.delivered == c.wire.delivered + [Pending(c)[..k]]
            && c'.(inbound := c.inbound, buffer := c.buffer, wire := c.wire) == c
            && c'.wire.(delivered := c.wire.delivered) == c.wire
  {
    ShiftNConsumes(c, n);
  }

  lemma DeliverConsumes(c: Conn, s: Setting, n: int)
    ensures var o := Deliver(c, s, n); !o.c.connected || Pending(o.c) == Pending(c)[EffectiveN(n, |Pending(c)|)..]
    ensures c.connected && !Deliver(c, s, n).c.connected ==> Pending(Deliver(c, s, n).c) == []
  {
    HandOverKeepsRest(c, n);
  }

  function UnpackLoop(c: Conn, s: Setting): Outcome
    requires Terminating(s.unpacker)
    decreases |Pending(c)|
  {
    if !c.connected then Outcome(c, if Guarded(s.unpacker) then NoFault else NilDeref)
    else
      match FrameOf(s.unpacker, Pending(c))
      case None => Outcome(c, NoFault)
      case Some(n) =>
        var o := Deliver(c, s, n);
        assert Pending(c) != [];
        DeliverConsumes(c, s, n);
        if o.fault == NoFault then UnpackLoop(o.c, s) else o
  }

  /** What is left over goes to the inbound buffer. After a close in the loop the receiver is nil and the buffer is
      empty, and Write returns before it looks at its receiver. */
  function Park(c: Conn): Outcome {
    if !c.connected then Outcome(c, NoFault)
    else if Fits(c.inbound, c.buffer) then Outcome(c.(inbound := Append(c.inbound, c.buffer)), NoFault)
    else Outcome(c, TooLarge)
  }

  /** What read(2) has just put into the loop's packet buffer. */
  function Received(c: Conn, bytes: seq<byte>): Conn {
    c.(buffer := bytes, wire := c.wire.(received := c.wire.received + [bytes]))
  }

  function HandleRead(c: Conn, s: Setting, recv: RecvAnswer): Outcome
    requires Terminating(s.unpacker)
  {
    match recv
    case RecvAgain => Outcome(c, NoFault)
    case EndOfFile => Outcome(Close(c), NoFault)
    case RecvError => Outcome(Close(c), NoFault)
    case Data(bytes) =>
      var o := UnpackLoop(Received(c, bytes), s);
      if o.fault == NoFault then Park(o.c) else o
  }

  // ---------- events ----------

  datatype Readiness = Readiness(error: bool, readable: bool, writable: bool, recv: RecvAnswer, split: nat)

  /** On a released connection only an error is harmless; anything else looks at the outbound buffer, which is nil. */
  function Handle(c: Conn, s: Setting, e: Readiness): Outcome
    requires Terminating(s.unpacker)
  {
    if e.error then Outcome(Close(c), NoFault)
    else if !c.connected then Outcome(c, NilDeref)
    else if c.outbound.bytes != [] then
      Outcome(if e.writable then HandleWrite(c, s, e.split) else c, NoFault)
    else if e.readable then HandleRead(c, s, e.recv)
    else Outcome(c, NoFault)
  }

  /** handleEvent: the event goes to the connection if the handler table leads to it. */
  function Dispatch(c: Conn, s: Setting, e: Readiness): Outcome
    requires Terminating(s.unpacker)
  {
    if c.wire.listed then Handle(c, s, e) else Outcome(c, NoFault)
  }

  /** A connection in use: not closed, and known to its loop. */
  predicate Open(c: Conn) {
    c.connected && c.wire.listed
  }

  /** What the loop thread can do with the connection: dispatch readiness, or run a Write or a Close job. */
  datatype Event = Ready(e: Readiness) | WriteJob(bytes: seq<byte>) | CloseJob

  /** What read(2) can return for a packet buffer of PACKET_SIZE bytes. */
  predicate LegalRead(recv: RecvAnswer) {
    recv.Data? ==> 1 <= |recv.bytes| <= PACKET_SIZE
  }

  predicate Legal(e: Event) {
    e.Ready? ==> LegalRead(e.e.recv)
  }

  function Step(c: Conn, s: Setting, e: Event): Outcome
    requires Terminating(s.unpacker)
  {
    match e
    case Ready(r) => Dispatch(c, s, r)
    case WriteJob(bytes) => Write(c, s, Posted(bytes))
    case CloseJob => Outcome(Close(c), NoFault)
  }

  /** A run ends at the first panic. */
  function Run(c: Conn, s: Setting, es: seq<Event>): Outcome
    requires Terminating(s.unpacker)
    decreases |es|
  {
    if es == [] then Outcome(c, NoFault)
    else
      var o := Run(c, s, es[..|es| - 1]);
      if o.fault == NoFault then Step(o.c, s, es[|es| - 1]) else o
  }

  ghost predicate AllLegal(es: seq<Event>) {
    forall i :: 0 <= i < |es| ==> Legal(es[i])
  }
}
