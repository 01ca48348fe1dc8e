/** conn.go: TCPConn, updating its fields and its two ring buffers in place. */
module TcpConns {
  import opened Bits
  import opened ByteQueue
  import opened Connection
  import RingBuffers

  /** What a connection acts on besides its own fields: its socket, its poller entry, and the application. `wire`
      records what was done; the setting answers. */
  class Host {
    const setting: Setting
    const connIdleTime: int      // the option of that name; no timer if it is not positive
    var wire: Wire

    constructor (setting: Setting, connIdleTime: int)
      ensures this.setting == setting && this.connIdleTime == connIdleTime && wire == NewWire()
    {
      this.setting := setting;
      this.connIdleTime := connIdleTime;
      wire := NewWire();
    }

    method SendBytes(buf: seq<byte>) returns (result: SendResult)
      modifies this
      ensures (wire, result) == Send(old(wire), setting.kernel, buf)
    {
      var (w, r) := Send(wire, setting.kernel, buf);
      wire := w;
      result := r;
    }

    method EnableReadWrite()
      modifies this
      ensures wire == old(wire).(writeInterest := true)
    {
      wire := wire.(writeInterest := true);
    }

    method EnableRead()
      modifies this
      ensures wire == old(wire).(writeInterest := false)
    {
      wire := wire.(writeInterest := false);
    }

    method OnPacket(packet: seq<byte>) returns (out: seq<byte>)
      modifies this
      ensures wire == old(wire).(delivered := old(wire).delivered + [packet])
      ensures out == setting.onPacket(wire.delivered)
    {
      wire := wire.(delivered := wire.delivered + [packet]);
      out := setting.onPacket(wire.delivered);
    }

    /** DeleteFdInLoop. */
    method DeleteFd()
      modifies this
      ensures wire == old(wire).(listed := false, teardown := old(wire).teardown + [Deregister])
    {
      wire := wire.(listed := false, teardown := wire.teardown + [Deregister]);
    }

    method Note(effect: Effect)
      modifies this
      ensures wire == old(wire).(teardown := old(wire).teardown + [effect])
    {
      wire := wire.(teardown := wire.teardown + [effect]);
    }

    method NoteWritten(p: Payload)
      modifies this
      ensures wire == old(wire).(written := old(wire).written + [p])
    {
      wire := wire.(written := wire.written + [p]);
    }

    method NoteReceived(bytes: seq<byte>)
      modifies this
      ensures wire == old(wire).(received := old(wire).received + [bytes])
    {
      wire := wire.(received := wire.received + [bytes]);
    }
  }

  class TCPConn {
    const host: Host
    var connected: bool
    var buffer: seq<byte>                           // what the last read returned and nobody consumed yet
    var inboundBuffer: RingBuffers.RingBuffer?      // from the client, parked
    var outboundBuffer: RingBuffers.RingBuffer?     // to the client, not sent yet
    var activeTime: int                             // of the last event, in seconds; the idle timer reads it

    ghost function Repr(): set<object>
      reads this, inboundBuffer, outboundBuffer
    {
      {this, host}
      + (if inboundBuffer == null then {} else inboundBuffer.Repr())
      + (if outboundBuffer == null then {} else outboundBuffer.Repr())
    }

    /** Open with two separate ring buffers, or released. */
    ghost predicate Valid()
      reads this, inboundBuffer, outboundBuffer, Repr()
    {
      && (connected <==> inboundBuffer != null) && (connected <==> outboundBuffer != null)
      && (connected ==>
            && inboundBuffer.Repr() !! outboundBuffer.Repr()
            && inboundBuffer.Valid() && outboundBuffer.Valid())
      && (!connected ==> buffer == [])
    }

    ghost function State(): Conn
      reads this, host, inboundBuffer, outboundBuffer
    {
      Conn(connected,
           if inboundBuffer == null then Empty(0) else inboundBuffer.Model, buffer,
           if outboundBuffer == null then Empty(0) else outboundBuffer.Model, host.wire)
    }

    /** Where the backlog wraps round the end of its array. */
    ghost function SplitPoint(): nat
      requires Valid()
      reads this, inboundBuffer, outboundBuffer, Repr()
    {
      if connected then outboundBuffer.HeadLength() else 0
    }

    /** With two buffers as the pool hands them out, which is empty; `now` is the Unix time. */
    constructor (host: Host, inbound: RingBuffers.RingBuffer, outbound: RingBuffers.RingBuffer, now: int)
      requires inbound.Valid() && outbound.Valid() && inbound.Repr() !! outbound.Repr()
      requires inbound.Model.bytes == [] && outbound.Model.bytes == []
      ensures Valid() && State() == Conn(true, inbound.Model, [], outbound.Model, host.wire)
      ensures Pending(State()) == [] && State().outbound.bytes == []
      ensures this.host == host && inboundBuffer == inbound && outboundBuffer == outbound
      ensures activeTime == if host.connIdleTime > 0 then now else 0
    {
      this.host := host;
      activeTime := if host.connIdleTime > 0 then now else 0;
      connected := true;
      buffer := [];
      inboundBuffer, outboundBuffer := inbound, outbound;
    }

    // ---------- reading the pending bytes ----------

    method Read() returns (bytes: seq<byte>)
      requires Valid()
      ensures bytes == if connected then Pending(State()) else []
    {
      hide RingBuffers.RingBuffer.Valid;
      if !connected { return []; }
      var empty := inboundBuffer.IsEmpty();
      if empty { return buffer; }
      bytes := inboundBuffer.WithByteBuffer(buffer);
    }

    method ResetBuffer()
      requires Valid() && connected
      modifies `buffer, inboundBuffer
      ensures Valid() && State() == Connection.ResetBuffer(old(State()))
      ensures Repr() == old(Repr())
    {
      hide RingBuffers.RingBuffer.Valid;
      buffer := buffer[..0];
      inboundBuffer.Reset();
    }

    /** Peeks: the first n pending bytes, or all of them. */
    method ReadN(n: int) returns (size: int, bytes: seq<byte>)
      requires Valid() && connected
      ensures size == if 1 <= n <= |Pending(State())| then n else |Pending(State())|
      ensures bytes == Pending(State())[..size]
    {
      hide RingBuffers.RingBuffer.Valid;
      var n := n;
      var inBufferLen := inboundBuffer.Length();
      var totalLen := inBufferLen + |buffer|;
      if totalLen < n || n <= 0 { n := totalLen; }
      size := n;
      var empty := inboundBuffer.IsEmpty();
      if empty {
        bytes := buffer[..n];
        assert Pending(State()) == buffer;
        return;
      }
      var head, tail := inboundBuffer.LazyRead(n);
      bytes := head + tail;
      if inBufferLen >= n {
        assert Pending(State())[..n] == inboundBuffer.Model.bytes[..n];
        return;
      }
      var restSize := n - inBufferLen;
      bytes := bytes + buffer[..restSize];
      assert Pending(State())[..n] == inboundBuffer.Model.bytes + buffer[..restSize];
    }

    /** Consumes what ReadN shows. */
    method ShiftN(n: int) returns (size: int)
      requires Valid() && connected
      modifies `buffer, inboundBuffer
      ensures Valid() && Repr() == old(Repr())
      ensures size == if 1 <= n <= |Pending(old(State()))| then n else |Pending(old(State()))|
      ensures State() == Connection.ShiftN(old(State()), n)
      ensures Pending(State()) == Pending(old(State()))[size..]
    {
      hide RingBuffers.RingBuffer.Valid;
      ShiftNConsumes(State(), n);
      var inBufferLen := inboundBuffer.Length();
      var tempBufferLen := |buffer|;
      if inBufferLen + tempBufferLen < n || n <= 0 {
        ResetBuffer();
        size := inBufferLen + tempBufferLen;
        return;
      }
      size := n;
      var empty := inboundBuffer.IsEmpty();
      if empty {
        buffer := buffer[n..];
        return;
      }
      if inBufferLen >= n {
        inboundBuffer.Shift(n);
        return;
      }
      inboundBuffer.Reset();
      var restSize := n - inBufferLen;
      buffer := buffer[restSize..];
    }

    // ---------- unpacking ----------

    /** options.go: the default protocol. */
    method DefaultUnPack() returns (packet: Option<seq<byte>>)
      requires Valid()
      modifies `buffer, if connected then {inboundBuffer} else {}
      ensures Valid() && Repr() == old(Repr())
      ensures UnPacked(old(State()), Default, packet, State())
    {
      hide RingBuffers.RingBuffer.Valid;
      var bytes := Read();
      if |bytes| == 0 { return None; }
      assert Pending(State())[..|bytes|] == bytes;
      ResetBuffer();
      packet := Some(bytes);
    }

    /** A protocol that looks for the first frame in the pending bytes and takes it with ReadN and ShiftN. `None,
        NilDeref` is ReadN's use of the released inbound buffer. */
    method FramedUnPack(frame: seq<byte> -> Option<int>, startsWithRead: bool)
      returns (packet: Option<seq<byte>>, fault: Fault)
      requires Valid() && Terminating(Framed(frame, startsWithRead))
      modifies `buffer, if connected then {inboundBuffer} else {}
      ensures Valid() && Repr() == old(Repr())
      ensures fault == if connected || startsWithRead then NoFault else NilDeref
      ensures UnPacked(old(State()), Framed(frame, startsWithRead), packet, State())
    {
      hide RingBuffers.RingBuffer.Valid;
      fault := NoFault;
      var all;
      if startsWithRead {
        all := Read();
      } else {
        if inboundBuffer == null { return None, NilDeref; }
        var size;
        size, all := ReadN(0);
        assert Pending(State())[..|all|] == Pending(State());
      }
      var n := frame(all);
      if n == None { return None, NoFault; }
      var _, bytes := ReadN(n.value);
      var _ := ShiftN(n.value);
      packet := Some(bytes);
    }

    /** One call of the server's unPacket. */
    method UnPack() returns (packet: Option<seq<byte>>, fault: Fault)
      requires Valid() && Terminating(host.setting.unpacker)
      modifies `buffer, if connected then {inboundBuffer} else {}
      ensures Valid() && Repr() == old(Repr())
      ensures fault == if connected || Guarded(host.setting.unpacker) then NoFault else NilDeref
      ensures UnPacked(old(State()), host.setting.unpacker, packet, State())
    {
      hide RingBuffers.RingBuffer.Valid;
      match host.setting.unpacker
      case Default =>
        packet := DefaultUnPack();
        fault := NoFault;
      case Framed(frame, startsWithRead) =>
        packet, fault := FramedUnPack(frame, startsWithRead);
    }

    // ---------- closing ----------

    method HandleClose()
      requires Valid()
      modifies this, host
      ensures Valid() && State() == Close(old(State())) && Repr() <= old(Repr())
      ensures activeTime == old(activeTime)
    {
      hide RingBuffers.RingBuffer.Valid;
      if connected {
        connected := false;
        host.DeleteFd();
        host.Note(NotifyClose);
        host.Note(CloseFd);
        DropBuffers();
        assert host.wire.teardown == old(host.wire.teardown) + TEARDOWN;
      }
    }

    /** release: the ring buffers go back to the pool, and the connection forgets them. */
    method DropBuffers()
      modifies this`buffer, this`inboundBuffer, this`outboundBuffer, host
      ensures buffer == [] && inboundBuffer == null && outboundBuffer == null
      ensures host.wire == old(host.wire).(teardown := old(host.wire).teardown + [Release])
    {
      hide RingBuffers.RingBuffer.Valid;
      buffer := [];
      host.Note(Release);
      inboundBuffer, outboundBuffer := null, null;
    }

    // ---------- writing ----------

    method Buffer(bytes: seq<byte>) returns (fault: Fault)
      requires Valid() && connected
      modifies outboundBuffer.Repr()
      ensures Valid() && Outcome(State(), fault) == Enqueue(old(State()), bytes)
      ensures inboundBuffer == old(inboundBuffer) && outboundBuffer == old(outboundBuffer)
      ensures fresh(Repr() - old(Repr()))
    {
      hide RingBuffers.RingBuffer.Valid;
      var _, ok := outboundBuffer.Write(bytes);
      fault := if ok then NoFault else TooLarge;
    }

    /** write: straight to the socket if nothing is waiting, else behind what is. */
    method WriteOut(p: Payload) returns (fault: Fault)
      requires Valid()
      modifies Repr()
      ensures Valid() && fresh(Repr() - old(Repr()))
      ensures Outcome(State(), fault) == Write(old(State()), host.setting, p)
      ensures activeTime == old(activeTime)
    {
      hide RingBuffers.RingBuffer.Valid, Enqueue, Send, Close;
      fault := NoFault;
      if !connected { return; }
      host.NoteWritten(p);
      var buf := p.bytes;
      var empty := outboundBuffer.IsEmpty();
      if !empty {
        fault := Buffer(buf);
        return;
      }
      var result := host.SendBytes(buf);
      match result {
        case Again =>
          fault := Buffer(buf);
          if fault == NoFault { host.EnableReadWrite(); }
        case Failed =>
          HandleClose();
        case Count(n) =>
          if n == 0 && buf != [] {
            fault := Buffer(buf);
            assert buf[n..] == buf;
          } else if n < |buf| {
            fault := Buffer(buf[n..]);
          }
          if fault != NoFault { return; }
          var length := outboundBuffer.Length();
          if length > 0 { host.EnableReadWrite(); }
      }
    }

    /** One write(2) of the front of the backlog, with what handleWrite does about its result. */
    method SendPart(part: seq<byte>) returns (result: SendResult)
      requires Valid() && connected && part <= outboundBuffer.Model.bytes
      modifies Repr()
      ensures Valid() && Repr() <= old(Repr())
      ensures (State(), result) == SendFront(old(State()), host.setting, |part|)
      ensures connected <==> !result.Failed?
      ensures result.Count? ==> outboundBuffer.Model.bytes == old(outboundBuffer.Model.bytes)[result.n..]
      ensures activeTime == old(activeTime)
    {
      hide RingBuffers.RingBuffer.Valid;
      assert outboundBuffer.Model.bytes[..|part|] == part;
      result := host.SendBytes(part);
      match result
      case Again =>
      case Failed => HandleClose();
      case Count(n) => outboundBuffer.Shift(n);
    }

    method HandleWrite()
      requires Valid() && connected
      modifies Repr()
      ensures Valid() && Repr() <= old(Repr())
      ensures State() == Connection.HandleWrite(old(State()), host.setting, old(SplitPoint()))
      ensures activeTime == old(activeTime)
    {
      hide RingBuffers.RingBuffer.Valid, SendFront, Send, Settle, Drop, Close;
      var head, tail := outboundBuffer.LazyReadAll();
      assert SplitAt(SplitPoint(), |outboundBuffer.Model.bytes|) == |head|;
      hide RingBuffers.RingBuffer.HeadLength, SplitAt;
      var result := SendPart(head);
      if !result.Count? { return; }
      if |head| == result.n && tail != [] {
        SecondHalf(head, tail);
        result := SendPart(tail);
        if !result.Count? { return; }
      }
      StopWriting();
    }

    /** The end of handleWrite: with everything out, the poller need not wait for writability any more. */
    method StopWriting()
      requires Valid() && connected
      modifies host
      ensures Valid() && State() == Settle(old(State()))
    {
      hide RingBuffers.RingBuffer.Valid;
      var empty := outboundBuffer.IsEmpty();
      if empty { host.EnableRead(); }
    }

    // ---------- events ----------

    /** One turn of the unpack loop; there is none when the unpacker reports no packet, or panics. */
    method DeliverNext() returns (more: bool, fault: Fault)
      requires Valid() && Terminating(host.setting.unpacker)
      modifies Repr()
      ensures Valid() && fresh(Repr() - old(Repr()))
      ensures !more ==> Outcome(State(), fault) == UnpackLoop(old(State()), host.setting)
      ensures more ==> old(connected) && FrameOf(host.setting.unpacker, Pending(old(State()))).Some? &&
                       Outcome(State(), fault) == Deliver(old(State()), host.setting,
                                                          FrameOf(host.setting.unpacker, Pending(old(State()))).value)
      ensures activeTime == old(activeTime)
    {
      hide RingBuffers.RingBuffer.Valid;
      var packet;
      packet, fault := UnPack();
      if fault != NoFault || packet == None { return false, fault; }
      more := true;
      var out := host.OnPacket(packet.value);
      if |out| > 0 { fault := WriteOut(Reply(out)); }
    }

    /** The unpack loop of handleRead. */
    method DeliverAll() returns (fault: Fault)
      requires Valid() && Terminating(host.setting.unpacker)
      modifies Repr()
      ensures Valid() && fresh(Repr() - old(Repr()))
      ensures Outcome(State(), fault) == UnpackLoop(old(State()), host.setting)
      ensures activeTime == old(activeTime)
    {
      hide RingBuffers.RingBuffer.Valid, Deliver, Write;
      var more;
      while true
        invariant Valid() && fresh(Repr() - old(Repr()))
        invariant activeTime == old(activeTime)
        invariant UnpackLoop(State(), host.setting) == UnpackLoop(old(State()), host.setting)
        decreases |Pending(State())|
      {
        ghost var before := State();
        more, fault := DeliverNext();
        if !more { return; }
        ghost var n := FrameOf(host.setting.unpacker, Pending(before)).value;
        DeliverConsumes(before, host.setting, n);
        assert Pending(before) != [];
        if fault != NoFault { return; }
      }
    }

    method HandleRead(recv: RecvAnswer) returns (fault: Fault)
      requires Valid() && connected && Terminating(host.setting.unpacker)
      modifies Repr()
      ensures Valid() && fresh(Repr() - old(Repr()))
      ensures Outcome(State(), fault) == Connection.HandleRead(old(State()), host.setting, recv)
      ensures activeTime == old(activeTime)
    {
      hide RingBuffers.RingBuffer.Valid, UnpackLoop, Close;
      fault := NoFault;
      match recv {
        case RecvAgain => return;
        case EndOfFile => HandleClose(); return;
        case RecvError => HandleClose(); return;
        case Data(bytes) =>
          host.NoteReceived(bytes);
          buffer := bytes;
      }
      fault := DeliverAll();
      if fault != NoFault { return; }
      // Write on the nil buffer of a closed connection returns at once, because `buffer` is empty then.
      if inboundBuffer != null {
        var _, ok := inboundBuffer.Write(buffer);
        if !ok { fault := TooLarge; }
      }
    }

    /** Anything but an error panics on the outbound buffer of a released connection. */
    method Handle(now: int, error: bool, readable: bool, writable: bool, recv: RecvAnswer) returns (fault: Fault)
      requires Valid() && Terminating(host.setting.unpacker)
      modifies Repr()
      ensures Valid() && fresh(Repr() - old(Repr()))
      ensures activeTime == if host.connIdleTime > 0 then now else old(activeTime)
      ensures Outcome(State(), fault) ==
              Connection.Handle(old(State()), host.setting,
                                Readiness(error, readable, writable, recv, old(SplitPoint())))
    {
      hide RingBuffers.RingBuffer.Valid, Connection.HandleWrite, Connection.HandleRead, Close;
      fault := NoFault;
      if host.connIdleTime > 0 { activeTime := now; }
      if error { HandleClose(); return; }
      if outboundBuffer == null { return NilDeref; }
      var empty := outboundBuffer.IsEmpty();
      if !empty {
        if writable { HandleWrite(); }
        return;
      }
      if readable { fault := HandleRead(recv); }
    }
  }

  lemma SecondHalf(head: seq<byte>, tail: seq<byte>)
    ensures (head + tail)[|head|..] == tail
  {
  }

  /** What one call of the unpacker reports and leaves behind. */
  ghost predicate UnPacked(c: Conn, u: Unpacker, packet: Option<seq<byte>>, c': Conn) {
    if !c.connected then packet == None && c' == c
    else
      match FrameOf(u, Pending(c))
      case None => packet == None && c' == c
      case Some(n) => packet == Some(Pending(c)[..EffectiveN(n, |Pending(c)|)]) && c' == Connection.ShiftN(c, n)
  }
}
