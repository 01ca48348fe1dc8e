/** When the packets an unpacking protocol finds do not depend on how TCP cut the stream into reads. */
module Framing {
  import opened Bits
  import opened ByteQueue
  import opened Connection

  /** All packets of a stream in order, and the incomplete rest. */
  datatype Parsed = Parsed(packets: seq<seq<byte>>, rest: seq<byte>)

  /** The reference: the stream is there all at once. */
  function Parse(u: Unpacker, p: seq<byte>): Parsed
    requires Terminating(u)
    decreases |p|
  {
    match FrameOf(u, p)
    case None => Parsed([], p)
    case Some(n) =>
      assert p != [];
      var k := EffectiveN(n, |p|);
      var next := Parse(u, p[k..]);
      Parsed([p[..k]] + next.packets, next.rest)
  }

  /** One read: the new bytes come after the rest of the reads before. */
  function ParseMore(u: Unpacker, before: Parsed, chunk: seq<byte>): Parsed
    requires Terminating(u)
  {
    var next := Parse(u, before.rest + chunk);
    Parsed(before.packets + next.packets, next.rest)
  }

  /** The stream comes in chunks. */
  function ParseChunks(u: Unpacker, chunks: seq<seq<byte>>): Parsed
    requires Terminating(u)
    decreases |chunks|
  {
    if chunks == [] then Parsed([], [])
    else ParseMore(u, ParseChunks(u, chunks[..|chunks| - 1]), chunks[|chunks| - 1])
  }

  function Concat(chunks: seq<seq<byte>>): seq<byte>
    decreases |chunks|
  {
    if chunks == [] then [] else Concat(chunks[..|chunks| - 1]) + chunks[|chunks| - 1]
  }

  /** Sizes that read(2) into the packet buffer can return. */
  ghost predicate LegalChunks(chunks: seq<seq<byte>>) {
    forall i :: 0 <= i < |chunks| ==> 1 <= |chunks[i]| <= PACKET_SIZE
  }

  /** A complete first packet stays the same packet when more bytes arrive. */
  ghost predicate PrefixStable(u: Unpacker) {
    forall p: seq<byte>, q: seq<byte> ::
      FrameOf(u, p).Some? ==> StableAt(u, p, q)
  }

  predicate StableAt(u: Unpacker, p: seq<byte>, q: seq<byte>)
    requires FrameOf(u, p).Some?
  {
    FrameOf(u, p + q).Some? &&
    EffectiveN(FrameOf(u, p + q).value, |p + q|) == EffectiveN(FrameOf(u, p).value, |p|)
  }

  ghost predicate ChunkingIndependent(u: Unpacker)
    requires Terminating(u)
  {
    forall chunks: seq<seq<byte>> :: LegalChunks(chunks) ==> ParseChunks(u, chunks) == Parse(u, Concat(chunks))
  }

  // ---------- stability suffices ----------

  /** Parsing a longer stream finds the packets of the shorter one first. */
  lemma {:induction false} ParseAppend(u: Unpacker, p: seq<byte>, q: seq<byte>)
    requires Terminating(u) && PrefixStable(u)
    ensures Parse(u, p + q) == ParseMore(u, Parse(u, p), q)
    decreases |p|
  {
    match FrameOf(u, p)
    case None =>
    case Some(n) =>
      assert p != [];
      assert StableAt(u, p, q);
      hide FrameOf, EffectiveN;
      var k := EffectiveN(n, |p|);
      assert (p + q)[..k] == p[..k];
      assert (p + q)[k..] == p[k..] + q;
      ParseAppend(u, p[k..], q);
      var next := Parse(u, p[k..]);
      var more := Parse(u, next.rest + q);
      assert [p[..k]] + (next.packets + more.packets) == [p[..k]] + next.packets + more.packets;
  }

  lemma {:induction false} StableIsIndependent(u: Unpacker, chunks: seq<seq<byte>>)
    requires Terminating(u) && PrefixStable(u)
    ensures ParseChunks(u, chunks) == Parse(u, Concat(chunks))
    decreases |chunks|
  {
    if chunks != [] {
      StableIsIndependent(u, chunks[..|chunks| - 1]);
      ParseAppend(u, Concat(chunks[..|chunks| - 1]), chunks[|chunks| - 1]);
    }
  }

  // ---------- stability is necessary ----------

  /** The stream one byte at a time. */
  function Bytewise(p: seq<byte>): (chunks: seq<seq<byte>>)
    ensures |chunks| == |p|
    ensures forall i :: 0 <= i < |p| ==> chunks[i] == [p[i]]
  {
    seq(|p|, i requires 0 <= i < |p| => [p[i]])
  }

  lemma {:induction false} BytewiseConcat(p: seq<byte>)
    ensures Concat(Bytewise(p)) == p && LegalChunks(Bytewise(p))
    decreases |p|
  {
    if p != [] {
      var init := p[..|p| - 1];
      BytewiseConcat(init);
      assert Bytewise(p)[..|p| - 1] == Bytewise(init);
      assert p == init + [p[|p| - 1]];
    }
  }

  /** Later chunks add packets; they do not change those already found. */
  lemma {:induction false} PacketsGrow(u: Unpacker, chunks: seq<seq<byte>>, n: nat)
    requires Terminating(u) && n <= |chunks|
    ensures ParseChunks(u, chunks[..n]).packets <= ParseChunks(u, chunks).packets
    decreases |chunks|
  {
    if n == |chunks| {
      assert chunks[..n] == chunks;
    } else {
      var init := chunks[..|chunks| - 1];
      PacketsGrow(u, init, n);
      assert init[..n] == chunks[..n];
    }
  }

  lemma IndependentIsStableAt(u: Unpacker, p: seq<byte>, q: seq<byte>)
    requires Terminating(u) && ChunkingIndependent(u) && FrameOf(u, p).Some?
    ensures StableAt(u, p, q)
  {
    assert p != [];
    BytewiseConcat(p);
    BytewiseConcat(p + q);
    var chunks := Bytewise(p + q);
    assert chunks[..|p|] == Bytewise(p);
    PacketsGrow(u, chunks, |p|);
    var short, long := Parse(u, p).packets, Parse(u, p + q).packets;
    assert ParseChunks(u, Bytewise(p)) == Parse(u, p);
    assert ParseChunks(u, chunks) == Parse(u, p + q);
    assert short[0] == long[0];
    assert |short[0]| == EffectiveN(FrameOf(u, p).value, |p|);
  }

  /** The packets delivered and the bytes left over are the same for every way of cutting every stream into reads
      if and only if the framing is prefix-stable. */
  lemma ChunkingIndependentIffStable(u: Unpacker)
    requires Terminating(u)
    ensures ChunkingIndependent(u) <==> PrefixStable(u)
  {
    if PrefixStable(u) {
      forall chunks: seq<seq<byte>> ensures ParseChunks(u, chunks) == Parse(u, Concat(chunks)) {
        StableIsIndependent(u, chunks);
      }
    }
    if ChunkingIndependent(u) {
      forall p: seq<byte>, q: seq<byte> | FrameOf(u, p).Some? ensures StableAt(u, p, q) {
        IndependentIsStableAt(u, p, q);
      }
    }
  }

  /** The default protocol is not: two bytes in two reads are two packets, in one read they are one. */
  lemma DefaultDependsOnChunking()
    ensures Terminating(Default) && !PrefixStable(Default)
    ensures ParseChunks(Default, [[1], [2]]).packets == [[1], [2]]
    ensures ParseChunks(Default, [[1, 2]]).packets == [[1, 2]]
  {
    assert !StableAt(Default, [1], [2]);
    var a, b, ab: seq<byte> := [1], [2], [1, 2];
    DefaultTakesAll(a);
    DefaultTakesAll(b);
    DefaultTakesAll(ab);
    var none := Parsed([], []);
    var none': seq<seq<byte>> := [];
    assert [a, b][..1] == [a] && [a][..0] == none' && [ab][..0] == none';
    assert none.rest + a == a && none.rest + ab == ab && [] + b == b;
    assert ParseChunks(Default, [a]) == ParseMore(Default, none, a) == Parsed([a], []);
    assert ParseChunks(Default, [a, b]) == ParseMore(Default, Parsed([a], []), b);
    assert [a] + [b] == [a, b];
  }

  /** The default protocol leaves nothing over. */
  lemma DefaultTakesAll(p: seq<byte>)
    ensures Parse(Default, p) == Parsed(if p == [] then [] else [p], [])
  {
    if p != [] {
      assert p[..|p|] == p && p[|p|..] == [];
      assert Parse(Default, []) == Parsed([], []);
    }
  }

  lemma {:induction false} ConcatAppend(a: seq<seq<byte>>, b: seq<seq<byte>>)
    ensures Concat(a + b) == Concat(a) + Concat(b)
    decreases |b|
  {
    if b == [] {
      assert a + b == a;
    } else {
      var init := b[..|b| - 1];
      ConcatAppend(a, init);
      assert (a + b)[..|a + b| - 1] == a + init;
    }
  }

  lemma ConcatOne(chunk: seq<byte>)
    ensures Concat([chunk]) == chunk
  {
    assert [chunk][..0] == [];
  }

  lemma {:induction false} ParseConserves(u: Unpacker, p: seq<byte>)
    requires Terminating(u)
    ensures Concat(Parse(u, p).packets) + Parse(u, p).rest == p
    decreases |p|
  {
    match FrameOf(u, p)
    case None =>
    case Some(n) =>
      assert p != [];
      var k := EffectiveN(n, |p|);
      var next := Parse(u, p[k..]);
      ParseConserves(u, p[k..]);
      ConcatAppend([p[..k]], next.packets);
      ConcatOne(p[..k]);
      ConcatSplit(p[..k], Concat(next.packets), next.rest);
      assert p == p[..k] + p[k..];
  }

  /** Parsing stops only where the protocol finds no further packet. */
  lemma {:induction false} ParseIsComplete(u: Unpacker, p: seq<byte>)
    requires Terminating(u)
    ensures FrameOf(u, Parse(u, p).rest) == None
    decreases |p|
  {
    match FrameOf(u, p)
    case None =>
    case Some(n) =>
      assert p != [];
      ParseIsComplete(u, p[EffectiveN(n, |p|)..]);
  }

  /** Whatever the protocol, no byte is lost or invented: the packets followed by the rest are the stream. */
  lemma {:induction false} ChunksConserve(u: Unpacker, chunks: seq<seq<byte>>)
    requires Terminating(u)
    ensures Concat(ParseChunks(u, chunks).packets) + ParseChunks(u, chunks).rest == Concat(chunks)
    decreases |chunks|
  {
    if chunks != [] {
      var init, last := chunks[..|chunks| - 1], chunks[|chunks| - 1];
      var before := ParseChunks(u, init);
      ChunksConserve(u, init);
      ParseConserves(u, before.rest + last);
      var next := Parse(u, before.rest + last);
      ConcatAppend(before.packets, next.packets);
      ConcatSplit(Concat(before.packets), Concat(next.packets), next.rest);
      ConcatSplit(Concat(before.packets), before.rest, last);
    }
  }
}
