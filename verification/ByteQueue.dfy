/** What a ring buffer is for its users: a FIFO of bytes whose capacity only grows. */
module ByteQueue {
  import opened Bits

  newtype byte = b: int | 0 <= b < 256

  /** Allocation size of the first growth: 1 << 12. */
  const INIT_SIZE: nat := 4096

  /** `moved` counts the bytes that reallocations have copied so far. */
  datatype Queue = Queue(bytes: seq<byte>, cap: nat, moved: nat)

  ghost predicate ValidCap(cap: nat) {
    cap == 0 || (IsPow2(cap) && 2 <= cap <= MAXINT_HEAD_BIT)
  }

  ghost predicate ValidQueue(q: Queue) {
    ValidCap(q.cap) && |q.bytes| <= q.cap
  }

  /** The growth that writing p asks for is not so large that CeilToPowerOfTwo panics. */
  predicate Fits(q: Queue, p: seq<byte>) {
    |q.bytes| + |p| <= MAXINT_HEAD_BIT
  }

  function GrownCap(cap: nat, need: nat): nat {
    if need <= cap then cap
    else if cap == 0 && need <= INIT_SIZE then INIT_SIZE
    else CeilPow2(need)
  }

  function Append(q: Queue, p: seq<byte>): Queue {
    var need := |q.bytes| + |p|;
    Queue(q.bytes + p, GrownCap(q.cap, need), q.moved + if need <= q.cap then 0 else |q.bytes|)
  }

  /** How many of the stored bytes a request for n bytes gets. */
  function Available(q: Queue, n: int): nat {
    if n <= 0 then 0 else if n < |q.bytes| then n else |q.bytes|
  }

  function Front(q: Queue, n: int): seq<byte> {
    q.bytes[..Available(q, n)]
  }

  function Drop(q: Queue, n: int): Queue {
    q.(bytes := q.bytes[Available(q, n)..])
  }

  function Clear(q: Queue): Queue {
    q.(bytes := [])
  }

  function Empty(cap: nat): Queue {
    Queue([], cap, 0)
  }

  /** A request for n bytes gets the first n, or all there are, or none if n is not positive; the rest stays. */
  lemma FrontAndRest(q: Queue, n: int)
    ensures Front(q, n) + Drop(q, n).bytes == q.bytes
    ensures |Front(q, n)| == if n <= 0 then 0 else if n <= |q.bytes| then n else |q.bytes|
    ensures Drop(q, n).cap == q.cap && Drop(q, n).moved == q.moved
  {
  }

  lemma InitSizeIsPow2()
    ensures IsPow2(INIT_SIZE)
  {
    assert Pow2(6) == 64;
    Pow2Add(6, 6);
  }

  /** What malloc and New rely on: the rounded size is a capacity with enough room, or there is a panic. */
  lemma CeilFits(n: int)
    ensures CeilToPowerOfTwo(n) == if n > MAXINT_HEAD_BIT then None else Some(CeilPow2(n))
    ensures n <= MAXINT_HEAD_BIT ==> CeilPow2(n) >= n && CeilPow2(n) > 0 && ValidCap(CeilPow2(n))
  {
    CeilToPowerOfTwoCorrect(n);
    CeilPow2Least(n, 0);
  }

  /** Growing keeps the capacity a power of two with room for what is stored; it at least doubles a non-zero
      capacity, and lands on the least power of two that fits, or on INIT_SIZE for a first allocation. */
  lemma GrowthBound(q: Queue, p: seq<byte>, j: nat)
    requires ValidQueue(q) && Fits(q, p)
    ensures ValidQueue(Append(q, p))
    ensures Append(q, p).cap != q.cap && q.cap != 0 ==> Append(q, p).cap >= 2 * q.cap
    ensures Append(q, p).cap != q.cap && Pow2(j) >= |q.bytes| + |p| && j >= 1 ==>
              Append(q, p).cap <= Pow2(j) || (q.cap == 0 && Append(q, p).cap == 4096)
    ensures q.cap == 0 && p != [] ==> Append(q, p).cap >= 4096
    ensures Append(q, p).moved - q.moved == if Append(q, p).cap == q.cap then 0 else |q.bytes|
  {
    var need := |q.bytes| + |p|;
    if need > q.cap {
      Pow2Is62();
      if q.cap == 0 && need > INIT_SIZE { CeilPow2Least(need, 0); }
      CeilPow2Least(need, j);
      CeilPow2Least(need, 62);
      InitSizeIsPow2();
      if q.cap != 0 {
        var a: nat :| q.cap == Pow2(a);
        var b: nat :| CeilPow2(need) == Pow2(b);
        if b <= a { Pow2Monotone(b, a); }
        Pow2Monotone(a + 1, b);
      }
    }
  }

  // ---------- runs ----------

  datatype Op =
    | OpWrite(p: seq<byte>)
    | OpWriteByte(b: byte)
    | OpRead(n: nat)
    | OpReadByte
    | OpShift(k: int)
    | OpReset

  /** The bytes an operation puts in, and those it takes out or throws away. */
  function Input(op: Op): seq<byte> {
    match op
    case OpWrite(p) => p
    case OpWriteByte(b) => [b]
    case _ => []
  }

  function Output(q: Queue, op: Op): seq<byte> {
    match op
    case OpWrite(_) => []
    case OpWriteByte(_) => []
    case OpRead(n) => Front(q, n)
    case OpReadByte => Front(q, 1)
    case OpShift(k) => Front(q, k)
    case OpReset => q.bytes
  }

  function Apply(q: Queue, op: Op): Queue {
    match op
    case OpWrite(p) => Append(q, p)
    case OpWriteByte(b) => Append(q, [b])
    case OpRead(n) => Drop(q, n)
    case OpReadByte => Drop(q, 1)
    case OpShift(k) => Drop(q, k)
    case OpReset => Clear(q)
  }

  datatype History = History(last: Queue, put: seq<byte>, taken: seq<byte>, roomy: bool)

  function RunOps(q: Queue, ops: seq<Op>): History
    decreases |ops|
  {
    if ops == [] then History(q, [], [], true)
    else
      var op := ops[|ops| - 1];
      var h := RunOps(q, ops[..|ops| - 1]);
      History(Apply(h.last, op), h.put + Input(op), h.taken + Output(h.last, op),
              h.roomy && Fits(h.last, Input(op)))
  }

  lemma ApplyConserves(q: Queue, op: Op)
    ensures Output(q, op) + Apply(q, op).bytes == q.bytes + Input(op)
  {
  }

  lemma ConcatSplit(a: seq<byte>, b: seq<byte>, c: seq<byte>)
    ensures a + b + c == a + (b + c)
  {
  }

  /** First in, first out: over any run, what was taken out followed by what is left is what was there at first
      followed by what was put in. */
  lemma {:induction false} FifoConservation(q: Queue, ops: seq<Op>)
    ensures var h := RunOps(q, ops); h.taken + h.last.bytes == q.bytes + h.put
    decreases |ops|
  {
    if ops != [] {
      var h := RunOps(q, ops[..|ops| - 1]);
      var op := ops[|ops| - 1];
      FifoConservation(q, ops[..|ops| - 1]);
      ApplyConserves(h.last, op);
      ConcatSplit(h.taken, Output(h.last, op), Apply(h.last, op).bytes);
      ConcatSplit(h.taken, h.last.bytes, Input(op));
      ConcatSplit(q.bytes, h.put, Input(op));
    }
  }

  /** Amortised cost: over any run, the bytes copied by reallocation are paid for by the growth of the capacity. */
  lemma {:induction false} AmortisedGrowth(q: Queue, ops: seq<Op>)
    requires ValidQueue(q) && RunOps(q, ops).roomy
    ensures var h := RunOps(q, ops);
            ValidQueue(h.last) && h.last.cap >= q.cap && h.last.moved - q.moved <= h.last.cap - q.cap
    decreases |ops|
  {
    if ops != [] {
      var h := RunOps(q, ops[..|ops| - 1]);
      AmortisedGrowth(q, ops[..|ops| - 1]);
      GrowthBound(h.last, Input(ops[|ops| - 1]), 0);
    }
  }
}
