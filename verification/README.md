# limnet, modelled and proved in Dafny

limnet is an event-driven TCP server library in Go. This project models its data path, from the bytes a socket returns to
the bytes it accepts, and proves what each layer promises to the next.

| file | what it covers |
| --- | --- |
| `Bits.dfy` | powers of two, `fillBits`, `CeilToPowerOfTwo`, index masking |
| `ByteQueue.dfy` | what a ring buffer is for: a FIFO of bytes, and how its capacity grows |
| `RingBuffer.dfy` | the ring buffer, in place over an array |
| `Connection.dfy` | `conn.go` as a function of state, kernel answers and application |
| `TcpConn.dfy` | `TCPConn` as a class over two ring buffers, proved to compute those functions |
| `Framing.dfy`, `Inbound.dfy` | packets against chunks of the TCP stream |
| `Outbound.dfy` | byte order towards the socket, how much is sent, and the poller's write interest |
| `Payloads.dfy` | that every reply and every Write job is given to write |
| `Teardown.dfy` | closing once, and what is touched afterwards |
| `Faults.dfy` | what a panic takes |
| `Backpressure.dfy` | memory of an echo server |
| `WakeProtocol.dfy`, `EventLoop.dfy` | `Trigger` against the loop thread: the protocol, and the code that follows it |
| `WriteOrder.dfy` | the loop and a connection together: order of concurrent writers |
| `FdOwnership.dfy` | reuse of descriptor numbers |
| `IdleTimer.dfy` | the idle timer |
| `Pool.dfy` | size classes and calibration of the buffer pool |

## How it is modelled

- The kernel is an arbitrary function from the number of a `write(2)` call to its answer (up to so many bytes, `EAGAIN`,
  another error); what `read(2)` returns is part of the event. A theorem for all settings and all event sequences is a
  theorem for every kernel. The application's handler is an arbitrary function of the packets delivered so far.
- `TCPConn`, `RingBuffer`, `EventLoop`, `AsyncJobQueue` and `Pool` are classes that update their fields as the source does.
  Their methods equate the new state with a function of the old one; theorems about whole runs are about those functions.
- Concurrency is a transition system over atomic actions, with arbitrary interleaving. `EventLoop` carries a ghost trace of
  the protocol actions its code performs, so it cannot perform them in an order the protocol does not allow.
- A Go panic is an outcome (`Fault`, or `ok == false` from the ring buffer), not an excluded input: use of a released buffer,
  and growth of a ring buffer past 2^62 bytes.
- Slices handed to and from callbacks are values. A connection is bound before its first event and its first close
  (`FdOwnership` shows what happens otherwise) and its handlers and jobs do not panic on their own account. Whether the loop's
  handler table leads to the connection is part of its state (`Wire.listed`), and events are dispatched through it; that no run
  dispatches to a released connection is proved, not assumed.
- A queued job is known by its number in push order, and a thread inside `Trigger` by the number of the job it is there for. So
  theorems about the wake protocol are about each job by itself, whatever other threads are doing.
- Between events the pending bytes are the inbound ring buffer alone: `c.buffer` keeps its stale content after the leftover
  has been parked (conn.go:152), in the model as in the source.

## Where the code does not do what one might expect

Each of these is a theorem with the exact condition, and a failing input or run, not an exclusion.

- A reply that cannot be sent closes the connection inside the unpack loop. The next `unPacket` then uses a nil ring buffer,
  unless it starts with `Read`, which checks for the close (`Teardown.ReleasedBufferTouched`,
  `Teardown.GuardedIffNeverTouches`, `Teardown.UnguardedPanics`).
- The unpack loop need not end. It goes on for ever exactly when the `unPacket` reports a packet in no bytes, its packets use up all
  pending bytes, and no reply closes the connection or overflows the backlog (`Inbound.SpinsExactlyWhen`,
  `Inbound.SilentLoopEndsIff`); a single read on a new connection can bring this about (`Inbound.ReadSpins`).
- An empty payload answered with `EAGAIN` registers write interest with nothing to write (`Outbound.StepInterest`,
  `Outbound.EmptyPayloadRegisters`).
- The default `unPacket` delivers different packets for different chunkings of the same stream
  (`Framing.DefaultDependsOnChunking`); exactly the prefix-stable protocols do not.
- An event in a batch can reach another connection than the one it was reported for: exactly when that connection has been
  closed since, by an earlier event of the batch or a job run after one, and its number has been accepted and bound again on the
  same loop (`FdOwnership.DispatchReaches`, `FdOwnership.StaleEventRun`). If the event is an error, it closes the newcomer.
- `OnConnect` gets a connection that is not bound yet. Closing it there can leave, with all bindings complete, a handler-table
  entry for a dead connection and the registration of a foreign descriptor (`FdOwnership.HandlersLiveIffBoundFirst`,
  `FdOwnership.EarlyCloseRun`).
- A binding whose registration fails leaves the accepted connection open, with its descriptor, where no event will reach it
  (`FdOwnership.FailedBinding`).
- The idle timer keeps whole seconds and can close up to one second early. It does so exactly when the idle time has passed
  since the whole second of the last event but not since that event (`IdleTimer.EarlyExactlyWhen`); with exact timers, when the
  last event was not on a full second, or was after the creation while the first timer was running
  (`IdleTimer.ExactTimersEarlyIff`).
- `CeilToPowerOfTwo` is documented as the least power of two not below n, which holds exactly from n = 2 on; below, it returns 2
  (`Bits.CeilAsDocumentedIff`).

In documentation only: the repository's README shows `OnPacket` without a result; the code's `OnPacket` returns the reply. The
model follows the code.

## Model

| member | source | states |
|---|---|---|
| Bits.FillBitsAllOnes | pkg/ringbuffer/ringbuffer.go:405-413 | the six or-shift steps turn any number whose top bit is k < 64 into 2^(k+1) - 1 |
| Bits.CeilPow2Least | pkg/ringbuffer/ringbuffer.go:391-404 | the reference rounding is a power of two, at least 2 and n, and no larger than any other such power; less than 2n when above 2 |
| Bits.CeilToPowerOfTwoCorrect | pkg/ringbuffer/ringbuffer.go:391-404 | the bit tricks give exactly that rounding for every n up to 2^62, and panic exactly above it |
| Bits.CeilAsDocumentedIff | pkg/ringbuffer/ringbuffer.go:385-404 | the rounding is below every power of two that is at least n, as documented, if and only if n is at least 2 |
| Bits.MaskIsRemainder | pkg/ringbuffer/ringbuffer.go:162 | masking with 2^k - 1 is the remainder by 2^k, for every index |
| ByteQueue.GrowthBound | pkg/ringbuffer/ringbuffer.go:368-383 | growth keeps a power-of-two capacity with room, at least doubles a non-zero one, and lands on the least power that fits or on 4096 for a first allocation |
| ByteQueue.FrontAndRest | pkg/ringbuffer/ringbuffer.go:127-168 | for every request size, what is read followed by what stays is the queue, and as much is read as was asked for and there is |
| ByteQueue.FifoConservation | pkg/ringbuffer/ringbuffer.go:100-243 | over any sequence of writes, reads, shifts and resets, bytes taken followed by bytes left are the initial bytes followed by the bytes put in |
| ByteQueue.AmortisedGrowth | pkg/ringbuffer/ringbuffer.go:368-383 | over any such sequence, bytes copied by reallocation never exceed the growth of the capacity |
| RingBuffers.RingBuffer.New | pkg/ringbuffer/ringbuffer.go:31-43 | a new buffer is empty, with capacity 0 or the least power of two that fits; the panic happens exactly past 2^62 |
| RingBuffers.RingBuffer.Length | pkg/ringbuffer/ringbuffer.go:246-259 | the number of stored bytes, wrapped or not, telling full from empty |
| RingBuffers.RingBuffer.Free | pkg/ringbuffer/ringbuffer.go:272-285 | free plus stored is the capacity |
| RingBuffers.RingBuffer.IsFull | pkg/ringbuffer/ringbuffer.go:352-354 | true exactly when the stored bytes fill a non-zero capacity |
| RingBuffers.RingBuffer.LazyRead | pkg/ringbuffer/ringbuffer.go:46-79 | head and tail together are the first min(len, length) stored bytes, as Read would return them |
| RingBuffers.RingBuffer.LazyReadAll | pkg/ringbuffer/ringbuffer.go:82-98 | head and tail together are all stored bytes; the head is non-empty if anything is stored |
| RingBuffers.RingBuffer.ByteBuffer | pkg/ringbuffer/ringbuffer.go:297-319 | all stored bytes in order |
| RingBuffers.RingBuffer.WithByteBuffer | pkg/ringbuffer/ringbuffer.go:323-349 | all stored bytes followed by the given ones |
| RingBuffers.RingBuffer.Reset | pkg/ringbuffer/ringbuffer.go:362-366 | the queue becomes empty, its capacity stays |
| RingBuffers.RingBuffer.Shift | pkg/ringbuffer/ringbuffer.go:101-114 | the first n bytes are dropped, all if there are fewer, none if n is not positive |
| RingBuffers.RingBuffer.Advance | pkg/ringbuffer/ringbuffer.go:162-165 | the masked step of the read index drops exactly n bytes and notices emptiness |
| RingBuffers.RingBuffer.CopyOut | pkg/ringbuffer/ringbuffer.go:154-161 | the one or two copies of a wrapped read yield the first n bytes and nothing else changes |
| RingBuffers.RingBuffer.Read | pkg/ringbuffer/ringbuffer.go:127-168 | count, error, bytes copied, rest of p untouched, and the queue without those bytes |
| RingBuffers.RingBuffer.ReadByte | pkg/ringbuffer/ringbuffer.go:171-185 | the first byte, or ErrIsEmpty exactly when there is none |
| RingBuffers.RingBuffer.Fill | pkg/ringbuffer/ringbuffer.go:204-224 | after room has been made, the copies append p, from a valid or a just-regrown buffer |
| RingBuffers.RingBuffer.Write | pkg/ringbuffer/ringbuffer.go:193-227 | p is appended, growing as ByteQueue.Append says; the panic happens exactly past 2^62 and changes nothing |
| RingBuffers.RingBuffer.WriteByte | pkg/ringbuffer/ringbuffer.go:230-243 | the same for one byte |
| RingBuffers.RingBuffer.ChooseCap | pkg/ringbuffer/ringbuffer.go:369-374 | the capacity chosen fits, is valid, and is that of the queue's growth rule |
| RingBuffers.RingBuffer.Malloc | pkg/ringbuffer/ringbuffer.go:368-383 | contents move to the front of a large enough array; the result is Regrown, in which isEmpty may be wrong |
| Connection.ShiftNConsumes | conn.go:323-350 | for every n, ShiftN removes exactly the first n pending bytes, or all when n is not positive or too large, wherever the split between ring and read buffer falls, and touches nothing else |
| TcpConns.TCPConn.constructor | conn.go:73-90 | a new connection over two empty buffers is open, with nothing pending and nothing to send, active from now on if there is an idle time |
| TcpConns.TCPConn.Read | conn.go:271-281 | all pending bytes without consuming them; nothing after a close |
| TcpConns.TCPConn.ResetBuffer | conn.go:284-289 | nothing is pending any more |
| TcpConns.TCPConn.ReadN | conn.go:292-321 | the first n pending bytes, or all when n is not positive or too large, across ring and read buffer, with their count |
| TcpConns.TCPConn.ShiftN | conn.go:324-350 | reports the size ReadN reports, and leaves pending what ReadN does not show |
| TcpConns.TCPConn.DefaultUnPack | options.go:34-42 | takes all pending bytes as one packet, or reports none |
| TcpConns.TCPConn.UnPack | conn.go:156-158 | what a call of the unpacker reports and consumes, open or closed, and when it uses a released buffer |
| TcpConns.TCPConn.HandleClose | conn.go:189-205 | an open connection does the four teardown effects in order and forgets its buffers; a closed one does nothing |
| TcpConns.TCPConn.DropBuffers | conn.go:252-261 | buffers are released and forgotten |
| TcpConns.TCPConn.WriteOut | conn.go:207-249 | every branch on backlog, full, partial or zero send, EAGAIN and failure gives the state of Connection.Write |
| TcpConns.TCPConn.SendPart | conn.go:162-169 | one send of the front of the backlog: shifted by what was taken, kept on EAGAIN, closed on failure |
| TcpConns.TCPConn.HandleWrite | conn.go:160-187 | head, then tail only after a complete head, then read interest when all is out |
| TcpConns.TCPConn.DeliverNext | conn.go:146-151 | one turn of the loop: unpack, OnPacket, write the reply |
| TcpConns.TCPConn.DeliverAll | conn.go:146-151 | the loop ends, and does what the recursive UnpackLoop does |
| TcpConns.TCPConn.HandleRead | conn.go:134-154 | EAGAIN, end of file and errors, the unpack loop, and parking of the leftover, with both panics |
| TcpConns.TCPConn.Handle | conn.go:111-132 | the activity time, and which of close, write and read an event leads to, depending on the backlog; on a released connection anything but an error panics |
| Framing.ChunkingIndependentIffStable | conn.go:134-154 | packets and leftover are the same for every way of cutting every stream into legal reads if and only if the framing is prefix-stable |
| Framing.DefaultDependsOnChunking | options.go:34-42 | the default protocol is not prefix-stable: two streams of reads with equal bytes and different packets |
| Framing.ChunksConserve | conn.go:134-154 | for every unpacker and chunking, packets followed by leftover are the stream |
| Framing.ParseIsComplete | conn.go:146-151 | parsing ends only where the protocol finds no further packet |
| Inbound.RunRefines | conn.go:134-154 | in every run, packets and parked leftover are those of the reads parsed one after the other; a close or panic only cuts the packets short |
| Inbound.PacketsIgnoreChunking | conn.go:134-154 | with a prefix-stable framing, in every run that stays open, packets and leftover are those of the whole received stream parsed at once |
| Inbound.InboundConserved | conn.go:134-154 | with any unpacker, in every run that stays open, packets followed by leftover are the bytes received |
| Inbound.NoPacketWaits | conn.go:146-152 | in every run that stays open, no complete packet is left parked |
| Inbound.SpinsExactlyWhen | conn.go:146-151 | for every unpacker, handler and kernel, the loop never ends if and only if the unpacker finds a packet in no bytes, the pending bytes are used up by packets, and no reply closes the connection or overflows the backlog |
| Inbound.SilentLoopEndsIff | conn.go:146-151 | without replies the condition is about unpacker and bytes alone |
| Inbound.LoopIsTurns | conn.go:146-151 | counted turns are turns of the recursive loop, and end in its state, within as many turns as there are bytes |
| Inbound.ReadSpins | conn.go:134-151 | the failing input: on a new connection, every legal read whose bytes such an unpacker uses up |
| Inbound.UntestedDefaultSpins | options.go:34-42 | the default protocol without its test for an empty buffer hangs on every read |
| Outbound.WriteConserves | conn.go:207-249 | one write keeps sent bytes plus backlog equal to the payloads in order, for every answer of the kernel |
| Outbound.HandleWriteConserves | conn.go:160-187 | a write event keeps that too; accepting k bytes shrinks the backlog by k, and a willing kernel makes progress |
| Outbound.WriteOffers | conn.go:207-243 | a payload is offered to the socket at once and whole if and only if there is no backlog, and what the kernel takes of it is sent |
| Outbound.HandleWriteOffersAll | conn.go:160-187 | a write event offers the part before the wrap and, if that is taken, the rest; the backlog is gone if and only if the kernel takes both parts whole |
| Outbound.StreamConserved | conn.go:160-249 | in every run, sent bytes plus backlog are the payloads in order while open, and sent bytes are a prefix of them always |
| Outbound.StepInterest | conn.go:207-249 | a step keeps write interest equivalent to a backlog if and only if it is not an empty payload met with EAGAIN on an empty backlog |
| Outbound.EmptyPayloadRegisters | conn.go:217-224 | the failing run: an empty Write as the first thing, with the socket full |
| Outbound.InterestMatchesBacklog | conn.go:160-249 | in every run without empty Write payloads, write interest is registered exactly when there is a backlog |
| Outbound.BacklogDrains | conn.go:160-187 | as many write events as bytes of backlog, with a kernel that takes something each time, put every payload on the wire and end the write interest |
| Payloads.StepAnswers | conn.go:146-151 | a step writes the handler's answers, or the payload of its Write job, behind what was written, and nothing else |
| Payloads.PayloadsAccounted | conn.go:146-151 | in every run, the replies written are exactly the non-empty answers to the packets delivered, in order, and the posted payloads those of the Write jobs, all of them while open |
| Teardown.TeardownHappensOnce | conn.go:189-261 | in every run, deregistration, OnClose, the close of the fd and the release have happened exactly once each, in that order, if the connection is closed, and not at all if it is open |
| Teardown.ClosedIsFinal | conn.go:189-211 | after a close, however a run came to it, no further events and jobs change or touch anything |
| Teardown.FinalIffUnlisted | pkg/eventloop/eventloop.go:125-130 | a closed connection is safe from all further events if and only if the handler table does not lead to it |
| Teardown.ClosesExactlyWhen | conn.go:111-261 | a step closes an open connection if and only if the event or job says so or one of the sends made in the step fails |
| Teardown.ChangesExactlyWhen | conn.go:111-249 | a step on an open connection leaves a trace if and only if the event is a job, an error, or about the direction waited for with more than EAGAIN to read |
| Teardown.DataIsReceived | conn.go:134-143 | data that is read counts as received exactly once, whatever the unpacker, the handler and the sends do |
| Teardown.ReleasedBufferTouched | conn.go:134-154 | a read panics on a released buffer if and only if one of the sends made during it failed and the unpacker does not start with Read |
| Teardown.GuardedIffNeverTouches | conn.go:271-274 | an unpacker never touches released buffers, whatever kernel and handler, if and only if it starts with Read |
| Teardown.UnguardedPanics | conn.go:292-293 | the failing input: any read that completes a packet, with a broken socket and a handler that replies |
| Teardown.GuardedRunsNeverTouch | conn.go:111-154 | no run with such an unpacker touches a released buffer, be it in the loop or by an event dispatched after a close |
| Faults.WritePanicsIff | conn.go:207-249 | a write panics if and only if backlog and what is not taken of the payload exceed 2^62 bytes |
| Faults.ParkPanicsIff | conn.go:152 | parking panics if and only if parked bytes and leftover exceed 2^62 bytes |
| Faults.TooLargeNeedsTooMuch | conn.go:111-249 | in every run, a panic for want of room means more than 2^62 bytes received or given to write |
| Faults.PanicsOnlyFor | conn.go:111-249 | in every run, a panic is that one, or an unguarded unpacker after a failed send |
| Backpressure.NoReadWithBacklog | conn.go:120-131 | while there is a backlog, Handle reads, delivers and queues nothing |
| Backpressure.EchoIsBounded | conn.go:111-154 | an echo server never panics, echoes exactly what it received, has at most 0xFFFF bytes of backlog, and never grows its ring past 65536 or the initial capacity |
| WakeProtocol.TriggerKeepsInv | pkg/eventloop/eventloop.go:109-115 | push, flag test and wake each keep the invariant: a wake-up pending, a drain the loop is bound to make, or the own Trigger of each queued job unfinished; and job conservation |
| WakeProtocol.LoopKeepsInv | pkg/eventloop/eventloop.go:117-134 | so does each step of the loop thread |
| WakeProtocol.OneThreadPerJob | pkg/eventloop/eventloop.go:109-115 | at every step, threads inside Trigger are there for different jobs, all of them pushed |
| WakeProtocol.NoLostWakeup | pkg/limpoller/epoll.go:148-187 | in every interleaving, a loop blocked with an empty eventfd has executed, in order, every job whose own Trigger has returned, whatever other threads are doing |
| WakeProtocol.JobsConserved | pkg/eventloop/queue.go:31-51 | at every step, jobs executed, being executed and queued are the jobs pushed, in order |
| WakeProtocol.EveryJobGetsRun | pkg/limpoller/epoll.go:148-187 | from every reachable state, if all other threads stop where they are, the loop alone executes every job whose Trigger has returned, and those posted on the loop thread, before it blocks |
| EventLoops.AsyncJobQueue.Push | pkg/eventloop/queue.go:31-38 | appends one job and returns the new length |
| EventLoops.AsyncJobQueue.TakeAll | pkg/eventloop/queue.go:41-44 | takes the whole list and leaves none |
| EventLoops.EventLoop.Trigger | pkg/eventloop/eventloop.go:109-115 | queues the job, wakes the loop exactly when it is not handling an event, and follows the protocol |
| EventLoops.EventLoop.ExecuteJobs | pkg/eventloop/queue.go:40-51 | runs exactly the jobs queued at the swap, in order; what they post is queued for later with a wake-up each |
| EventLoops.EventLoop.CallHandler | pkg/eventloop/eventloop.go:124-130 | raises the flag and calls the handler of a known descriptor, whose jobs are queued without a wake-up |
| EventLoops.EventLoop.ClearAndDrain | pkg/eventloop/eventloop.go:131-133 | lowers the flag and runs all queued jobs |
| EventLoops.EventLoop.HandleEvent | pkg/eventloop/eventloop.go:117-134 | the handler runs with the flag up, then all queued jobs including those it posted run with the flag down |
| EventLoops.EventLoop.FoundExactly | pkg/eventloop/eventloop.go:125-130 | a batch has one handler call for each event of a known descriptor, and none for any other |
| EventLoops.EventLoop.PollOnce | pkg/limpoller/epoll.go:156-182 | a turn of Poll calls the handlers of its events once each, in order, follows the protocol, and if it ends with nothing in the eventfd, every job whose Trigger has returned has been executed |
| WriteOrder.RunWorkExactly | conn.go:353-381 | a job closes an open connection if and only if it is a Close job or its send fails; a Write job appends exactly its payload; any other job changes nothing; only a Write job with more than fits panics |
| WriteOrder.RunWorkKeeps | conn.go:353-361 | running one queued job keeps the payloads written in step with the jobs executed |
| WriteOrder.ConnIsRun | pkg/eventloop/eventloop.go:117-134 | in every interleaving, what happens to the connection is a run of its own, so all results about those hold |
| WriteOrder.EndToEndOrder | conn.go:353-361 | in every interleaving, the socket and backlog hold whole payloads, the posted ones those of the jobs executed in push order, the others exactly the answers to the packets; after a close a prefix of that |
| WriteOrder.NothingIsLeftQueued | conn.go:353-361 | when the loop is blocked with an empty eventfd, every payload whose own Write call has got through Trigger is on the wire or in the backlog |
| WriteOrder.ClosedExactlyWhen | conn.go:189-261 | in every interleaving, the connection is closed if and only if a Close job was executed, an event said so, or one of its sends failed |
| WriteOrder.StuckOnlyFor | pkg/eventloop/eventloop.go:117-134 | from every reachable state, each step the loop can make is one the connection can make, except for a panic of the two kinds |
| FdOwnership.StepKeepsInv | conn.go:189-203 | every step of binding and teardown keeps descriptor, handler table and epoll set consistent with their owners |
| FdOwnership.TeardownTouchesOnlyItsOwn | conn.go:189-203 | in every interleaving with descriptor reuse, a teardown step leaves every other registration, table entry and descriptor alone, also those that are no connection |
| FdOwnership.WaitReportsOpen | pkg/limpoller/epoll.go:157-165 | in every interleaving, epoll_wait reports connections that are open at that moment, under their own numbers |
| FdOwnership.DispatchReaches | pkg/eventloop/eventloop.go:117-134 | an event of a batch reaches the connection it was reported for if and only if that is still open, and another one if and only if the number has been bound again on the loop; always an open owner of the number, or nobody |
| FdOwnership.StaleEventRun | pkg/limpoller/epoll.go:164-181 | the failing run: a job after the first event of a batch closes the second connection, whose number is reused before the second event |
| FdOwnership.EventsFindTheirConnection | pkg/eventloop/eventloop.go:88-98 | in every interleaving, epoll watches the descriptor of an open bound connection and the table leads back to it |
| FdOwnership.ClosedLeavesNothing | conn.go:189-203 | in every interleaving, nothing refers to a connection that has closed its descriptor |
| FdOwnership.FailedBinding | pkg/eventloop/eventloop.go:89-98 | a registration can fail whenever it is tried; the connection is then in neither table, open and with its descriptor |
| FdOwnership.RoundRobin | server.go:152-156 | the i-th accepted connection is on loop i - 1 modulo the number of loops |
| FdOwnership.EarlyCloseRun | server.go:158-169 | a close from OnConnect and a reuse of the number before BindHandler leave, for good, a table entry for a dead connection and a foreign descriptor registered |
| FdOwnership.HandlersLiveIffBoundFirst | pkg/eventloop/eventloop.go:88-106 | table entries always lead to the live owner, also just when no binding is under way, if and only if connections are bound before they are closed |
| IdleTimer.OneTimerPending | conn.go:85-106 | an open connection not timed out has exactly one timer, due within ConnIdleTime of its last event |
| IdleTimer.FiringIsRight | conn.go:94-105 | a close is decided after more than ConnIdleTime - 1s and at most ConnIdleTime plus timer latency without events; a re-arm means there was an event; on a closed connection neither happens |
| IdleTimer.TimerUntilStopped | conn.go:92-106 | in every run there is one timer until a firing decides to close or finds the connection closed, and none afterwards |
| IdleTimer.NoIdleTimeNoClose | conn.go:85-88 | without an idle time there is never a timer nor an idle close |
| IdleTimer.EarlyExactlyWhen | conn.go:94-105 | in every run, a firing closes too early if and only if the idle time has passed since the whole second of the last event but not since that event |
| IdleTimer.ExactTimersEarlyIff | conn.go:85-106 | with exact timers, the moment of the close; early if and only if the last event was not on a full second, or for the first timer if there was an event at all |
| IdleTimer.AlmostASecondEarly | conn.go:98-100 | for every idle time and latency, some run loses all of the second but a nanosecond, or all of a shorter idle time |
| Pools.Index | pkg/ringbuffer/pool.go:145-157 | the least size class that holds n, capped at the last |
| Pools.ClassSizes | pkg/ringbuffer/pool.go:13-22 | the first class is 64 bytes, each next one twice as much, the last 32 MB |
| Pools.TopIsHeaviest | pkg/ringbuffer/pool.go:102-118 | no k classes have more calls than the k first of the sorted ones |
| Pools.PrefixIsGreedy | pkg/ringbuffer/pool.go:107-118 | stopping when the sum exceeds maxSum takes the fewest classes possible |
| Pools.KeptSizesCover | pkg/ringbuffer/pool.go:80-84 | buffers up to maxSize serve more than maxSum of the counted calls, or every class |
| Pools.MaxSumIs95Percent | pkg/ringbuffer/pool.go:106-107 | the threshold is the largest whole number that is at most 95% of the calls |
| Pools.Pool.TakeCalls | pkg/ringbuffer/pool.go:92-101 | the counters become a histogram with its total, and start again at zero |
| Pools.Pool.ChooseMax | pkg/ringbuffer/pool.go:104-118 | goes down the classes exactly until maxSum is exceeded and returns the largest size met |
| Pools.Pool.Calibrate | pkg/ringbuffer/pool.go:87-124 | the default is a most-used size, not above maxSize; the choice of maxSize is sound and minimal; a calibration under way is not disturbed |
| Pools.Pool.Put | pkg/ringbuffer/pool.go:73-85 | counts the right class, calibrates past the threshold, and keeps the buffer emptied unless it is above maxSize |
| Pools.Pool.Allocate | pkg/ringbuffer/pool.go:61 | a new buffer is empty and has the calibrated default capacity |

## Left out

- Sockets, epoll and eventfd themselves: only their answers and the eventfd counter are modelled. Poller calls are taken to succeed, and EINTR is an empty batch.
- pkg/limpoller/kqueue.go: its bookkeeping does not follow the kernel's filters, so write interest is stated for epoll.
- conn_ws.go and server_ws.go: the WebSocket connection duplicates ReadN, ShiftN and ResetBuffer, does not park leftovers, and closes from any goroutine; the properties here are those of the TCP connection.
- Panics raised by handlers and jobs, and the recovery in handleEvent, which skips clearing the flag and the drain.
- Stopping a loop (`Poller.Close`, `EventLoop.Stop`, `LIMNet.Stop`): a job pushed between the last drain and the exit check may never be executed.
- The wrap-around of a 64-bit sum of buffer length and payload length: no Go slice is long enough to reach it.
- Reuse of memory by byte-buffer pools and the loop's packet buffer: slices are values. `sync.Pool` itself, and with it which recycled buffer `Get` returns.
- Rounding of the floating-point product in calibration: `Pools.MaxSum` is the integer 95% of the total; soundness and minimality are proved for every threshold.
- The early return of `TCPConn.Write` and `TCPConn.Close` on a closed connection: any thread may push a Write or Close job at any time, which allows more than the source does.
- What a handler does with the connection besides replying and posting jobs, such as reading more input inside OnPacket.
- TcpConns.TCPConn.UnPack: an unpacker is the default one or takes one frame found by a function; one that consumes bytes without reporting a packet, or keeps state of its own, is not covered.
- TcpConns.TCPConn.DropBuffers: only notes the release; what Put does with a buffer is the contract of Pools.Pool.Put.
- TcpConns.TCPConn.constructor: the timer it starts is in IdleTimer.
- EventLoops.EventLoop.HandleEvent: the handler table is constant and a handler is what it posts; changes of the table are in FdOwnership and in `Wire.listed`.
- EventLoops.EventLoop.PollOnce: executes without interference from other threads; interleavings are covered by WakeProtocol, whose actions its trace consists of.
- The stages of an interrupted BindHandler other than AddRead failing, and the removal of registrations that the kernel does on close: teardown has removed them before.
- Logging, option handling, address parsing, `WriteString`'s pointer cast, the timing wheel, the goroutine pool and the benchmarks' plotting.
