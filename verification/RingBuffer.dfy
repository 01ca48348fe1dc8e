/** pkg/ringbuffer/ringbuffer.go: a growable circular buffer with a power-of-two capacity. */
module RingBuffers {
  import opened Bits
  import opened ByteQueue

  datatype Error = NoError | ErrIsEmpty

  /** The bytes from index r up to index w, going round; all of them when r == w. */
  function Span(a: seq<byte>, r: int, w: int): (s: seq<byte>)
    requires 0 <= r <= |a| && 0 <= w <= |a|
  {
    if r < w then a[r..w] else a[r..] + a[..w]
  }

  // ---------- circular index arithmetic ----------

  /** `x & mask` brings an index of the second lap back to the first. */
  lemma MaskWraps(x: int, size: int)
    requires IsPow2(size) && 0 <= x < 2 * size
    ensures BitAnd(x, size - 1) == if x < size then x else x - size
  {
    var k: nat :| size == Pow2(k);
    MaskIsRemainder(x, k);
    RemainderIs(x, size, if x < size then 0 else 1, if x < size then x else x - size);
  }

  lemma SpanTake(a: seq<byte>, r: int, w: int, n: int)
    requires 0 <= r < |a| && 0 <= w < |a| && 0 <= n <= |Span(a, r, w)|
    ensures Span(a, r, w)[..n] == if r + n <= |a| then a[r..r + n] else a[r..] + a[..r + n - |a|]
  {
  }

  lemma SpanDrop(a: seq<byte>, r: int, w: int, n: int)
    requires 0 <= r < |a| && 0 <= w < |a| && 0 < n <= |Span(a, r, w)|
    ensures var r' := if r + n < |a| then r + n else r + n - |a|;
            0 <= r' < |a| &&
            if n == |Span(a, r, w)| then r' == w else r' != w && Span(a, r', w) == Span(a, r, w)[n..]
  {
  }

  /** Writing between w and the end of the array. */
  lemma SpanWriteAhead(a: seq<byte>, a': seq<byte>, r: int, w: int, p: seq<byte>)
    requires 0 <= r <= w && w + |p| <= |a| && |p| > 0
    requires Copied(a, a', w, p)
    ensures Span(a', r, if w + |p| == |a| then 0 else w + |p|) == a[r..w] + p
  {
    assert a'[r..w + |p|] == a'[..w][r..] + a'[w..w + |p|];
    assert a[r..w] == a[..w][r..];
  }

  lemma WrittenToEnd(a: seq<byte>, m: seq<byte>, r: int, w: int, p: seq<byte>)
    requires 0 <= r <= w && w + |p| == |a| && Copied(a, m, w, p)
    ensures m[r..] == a[r..w] + p
  {
    assert m[r..] == m[..w][r..] + m[w..w + |p|];
    assert a[r..w] == a[..w][r..];
  }

  lemma WrittenAtStart(m: seq<byte>, a': seq<byte>, r: int, p: seq<byte>)
    requires |p| <= r <= |m| && Copied(m, a', 0, p)
    ensures a'[r..] == m[r..] && a'[..|p|] == p
  {
    assert a'[r..] == a'[|p|..][r - |p|..];
    assert m[r..] == m[|p|..][r - |p|..];
  }

  /** Writing up to the end and on from the start. */
  lemma SpanWriteAround(a: seq<byte>, m: seq<byte>, a': seq<byte>, r: int, w: int, p: seq<byte>, c1: int)
    requires 0 <= r <= w < |a| && c1 == |a| - w < |p| <= |a| - w + r
    requires Copied(a, m, w, p[..c1]) && Copied(m, a', 0, p[c1..])
    ensures Span(a', r, |p| - c1) == a[r..w] + p
  {
    WrittenToEnd(a, m, r, w, p[..c1]);
    WrittenAtStart(m, a', r, p[c1..]);
    assert p == p[..c1] + p[c1..];
  }

  /** Writing into the gap between w and r. */
  lemma SpanWriteGap(a: seq<byte>, a': seq<byte>, r: int, w: int, p: seq<byte>)
    requires 0 <= w && w + |p| <= r < |a|
    requires Copied(a, a', w, p)
    ensures Span(a', r, w + |p|) == a[r..] + a[..w] + p
  {
    assert a'[r..] == a'[w + |p|..][r - w - |p|..];
    assert a[r..] == a[w + |p|..][r - w - |p|..];
    assert a'[..w + |p|] == a'[..w] + a'[w..w + |p|];
  }

  /** a' is a with p written at index `at`. */
  ghost predicate Copied(a: seq<byte>, a': seq<byte>, at: nat, p: seq<byte>)
    requires at + |p| <= |a|
  {
    && |a'| == |a|
    && a'[at..at + |p|] == p
    && a'[..at] == a[..at]
    && a'[at + |p|..] == a[at + |p|..]
  }

  /** Go's `copy(a[at:], p)` where p fits. */
  method Copy(a: array<byte>, at: nat, p: seq<byte>)
    requires at + |p| <= a.Length
    modifies a
    ensures Copied(old(a[..]), a[..], at, p)
  {
    forall i | 0 <= i < |p| {
      a[at + i] := p[i];
    }
  }

  class RingBuffer {
    var buf: array<byte>
    var size: int
    var mask: int
    var r: int  // next position to read
    var w: int  // next position to write
    var isEmpty: bool

    ghost var Model: Queue

    ghost function Repr(): set<object>
      reads this
    {
      {this, buf}
    }

    /** The fields are in range and agree about the capacity. */
    ghost predicate Shape()
      reads this
    {
      && buf.Length == size == Model.cap
      && ValidCap(size)
      && mask == (if size == 0 then 0 else size - 1)
      && 0 <= r <= size && 0 <= w <= size
      && (size > 0 ==> r < size && w < size)
    }

    ghost predicate Valid()
      reads this, buf
    {
      && Shape()
      && (isEmpty ==> r == w)
      && (size == 0 ==> isEmpty)
      && Model.bytes == if isEmpty then [] else Span(buf[..], r, w)
    }

    /** What malloc leaves behind: everything stored is at the start of the new array, and isEmpty is stale. */
    ghost predicate Regrown()
      reads this, buf
    {
      && Shape()
      && r == 0 && w < size
      && Model.bytes == buf[..w]
    }

    constructor (size: int)
      requires size <= MAXINT_HEAD_BIT
      ensures Valid() && fresh(buf)
      ensures Model == Empty(if size == 0 then 0 else CeilPow2(size))
    {
      CeilFits(size);
      var cap := if size == 0 then 0 else CeilToPowerOfTwo(size).value;
      buf := new byte[cap];
      this.size := cap;
      mask := if cap == 0 then 0 else cap - 1;
      r, w, isEmpty := 0, 0, true;
      Model := Empty(cap);
    }

    /** New, which panics (null) on a size that cannot be rounded up. */
    static method New(size: int) returns (b: RingBuffer?)
      ensures b == null <==> size > MAXINT_HEAD_BIT
      ensures b != null ==> b.Valid() && fresh(b.Repr()) && b.Model == Empty(if size == 0 then 0 else CeilPow2(size))
    {
      if size != 0 {
        CeilFits(size);
        if CeilToPowerOfTwo(size) == None { return null; }
      }
      b := new RingBuffer(size);
    }

    // ---------- observers ----------

    method Length() returns (n: int)
      requires Valid()
      ensures n == |Model.bytes|
    {
      if r == w {
        if isEmpty { return 0; }
        return size;
      }
      if w > r { return w - r; }
      return size - r + w;
    }

    method Free() returns (n: int)
      requires Valid()
      ensures n + |Model.bytes| == Model.cap
    {
      if r == w {
        if isEmpty { return size; }
        return 0;
      }
      if w < r { return r - w; }
      return size - w + r;
    }

    method Len() returns (n: int)
      requires Valid()
      ensures n == Model.cap
    {
      n := buf.Length;
    }

    method Cap() returns (n: int)
      requires Valid()
      ensures n == Model.cap
    {
      n := size;
    }

    method IsFull() returns (b: bool)
      requires Valid()
      ensures b <==> |Model.bytes| == Model.cap > 0
    {
      b := r == w && !isEmpty;
    }

    method IsEmpty() returns (b: bool)
      requires Valid()
      ensures b <==> Model.bytes == []
    {
      b := isEmpty;
    }

    // ---------- views: nothing moves ----------

    method LazyRead(len: int) returns (head: seq<byte>, tail: seq<byte>)
      requires Valid()
      ensures head + tail == Front(Model, len)
      ensures Views(head, tail)
    {
      head, tail := [], [];
      if isEmpty || len <= 0 { return; }
      if w > r {
        var n := w - r;
        if n > len { n := len; }
        head := buf[r..r + n];
        return;
      }
      var n := size - r + w;
      if n > len { n := len; }
      if r + n <= size {
        head := buf[r..r + n];
      } else {
        var c1 := size - r;
        head := buf[r..];
        var c2 := n - c1;
        tail := buf[..c2];
      }
    }

    /** The tail is non-empty exactly when the stored bytes wrap past the end of the array. */
    method LazyReadAll() returns (head: seq<byte>, tail: seq<byte>)
      requires Valid()
      ensures head + tail == Model.bytes
      ensures Model.bytes != [] ==> head != []
      ensures |head| == HeadLength() && Views(head, tail)
    {
      head, tail := [], [];
      if isEmpty { return; }
      if w > r {
        head := buf[r..w];
        return;
      }
      head := buf[r..];
      if w != 0 { tail := buf[..w]; }
    }

    /** The views are stretches of the array: one from the read index, and if that ends with the array, one from the
        start. */
    ghost predicate Views(head: seq<byte>, tail: seq<byte>)
      requires Valid()
      reads this, buf
    {
      && r + |head| <= size && head == buf[r..r + |head|]
      && |tail| <= size && tail == buf[..|tail|]
      && (tail != [] ==> r + |head| == size)
    }

    /** How many of the stored bytes lie before the end of the array. */
    ghost function HeadLength(): (n: nat)
      reads this, buf
      requires Valid()
      ensures n <= |Model.bytes| && (Model.bytes != [] ==> n > 0)
    {
      if isEmpty then 0 else if w > r then w - r else size - r
    }

    method ByteBuffer() returns (bytes: seq<byte>)
      requires Valid()
      ensures bytes == Model.bytes
    {
      if isEmpty { return []; }
      if w == r { return buf[r..] + buf[..w]; }
      if w > r { return buf[r..w]; }
      bytes := buf[r..];
      if w != 0 { bytes := bytes + buf[..w]; }
    }

    method WithByteBuffer(b: seq<byte>) returns (bytes: seq<byte>)
      requires Valid()
      ensures bytes == Model.bytes + b
    {
      if isEmpty { return b; }
      if w == r { return buf[r..] + buf[..w] + b; }
      if w > r { return buf[r..w] + b; }
      bytes := buf[r..];
      if w != 0 { bytes := bytes + buf[..w]; }
      bytes := bytes + b;
    }

    // ---------- consuming ----------

    method Reset()
      requires Valid()
      modifies this`r, this`w, this`isEmpty, this`Model
      ensures Valid() && Model == Clear(old(Model))
    {
      r, w, isEmpty := 0, 0, true;
      Model := Clear(Model);
    }

    /** The masked step of the read index, shared by Shift and Read. */
    method Advance(n: int)
      requires Valid() && 0 < n <= |Model.bytes|
      modifies this`r, this`isEmpty, this`Model
      ensures Valid() && Model == old(Model).(bytes := old(Model).bytes[n..])
    {
      MaskWraps(r + n, size);
      SpanDrop(buf[..], r, w, n);
      r := BitAnd(r + n, mask);
      if r == w { isEmpty := true; }
      Model := Model.(bytes := Model.bytes[n..]);
    }

    method Shift(n: int)
      requires Valid()
      modifies this`r, this`w, this`isEmpty, this`Model
      ensures Valid() && Model == Drop(old(Model), n)
    {
      if n <= 0 { return; }
      var length := Length();
      if n < length {
        Advance(n);
      } else {
        Reset();
      }
    }

    /** The copying half of Read when the stored bytes go round. */
    method CopyOut(p: array<byte>, n: int)
      requires Valid() && p != buf && w <= r && !isEmpty && 0 < n <= |Model.bytes| && n <= p.Length
      modifies p
      ensures p[..n] == Model.bytes[..n] && p[n..] == old(p[n..])
    {
      SpanTake(buf[..], r, w, n);
      if r + n <= size {
        Copy(p, 0, buf[r..r + n]);
      } else {
        var c1 := size - r;
        Copy(p, 0, buf[r..]);
        ghost var between := p[..];
        var c2 := n - c1;
        Copy(p, c1, buf[..c2]);
        assert p[..n] == p[..c1] + p[c1..n];
        assert between[n..] == between[c1..][c2..];
      }
    }

    method Read(p: array<byte>) returns (n: int, err: Error)
      requires Valid() && p != buf
      modifies p, this`r, this`isEmpty, this`Model
      ensures Valid()
      ensures n == Available(old(Model), p.Length)
      ensures err == if p.Length > 0 && old(Model).bytes == [] then ErrIsEmpty else NoError
      ensures p[..n] == Front(old(Model), p.Length) && p[n..] == old(p[n..])
      ensures Model == Drop(old(Model), p.Length)
    {
      if p.Length == 0 { return 0, NoError; }
      if isEmpty { return 0, ErrIsEmpty; }
      err := NoError;
      if w > r {
        n := w - r;
        if n > p.Length { n := p.Length; }
        SpanTake(buf[..], r, w, n);
        SpanDrop(buf[..], r, w, n);
        Copy(p, 0, buf[r..r + n]);
        r := r + n;
        if r == w { isEmpty := true; }
        Model := Drop(Model, p.Length);
        return;
      }
      n := size - r + w;
      if n > p.Length { n := p.Length; }
      CopyOut(p, n);
      Advance(n);
    }

    method ReadByte() returns (b: byte, err: Error)
      requires Valid()
      modifies this`r, this`isEmpty, this`Model
      ensures Valid() && Model == Drop(old(Model), 1)
      ensures err == if old(Model).bytes == [] then ErrIsEmpty else NoError
      ensures err == NoError ==> b == old(Model).bytes[0]
    {
      if isEmpty { return 0, ErrIsEmpty; }
      b := buf[r];
      SpanTake(buf[..], r, w, 1);
      SpanDrop(buf[..], r, w, 1);
      r := r + 1;
      if r == size { r := 0; }
      if r == w { isEmpty := true; }
      err := NoError;
      Model := Drop(Model, 1);
    }

    // ---------- producing ----------

    /** There is room for n more bytes: true of a Valid buffer with n bytes free, and of a Regrown one. */
    ghost predicate Prepared(n: int)
      reads this, buf
    {
      && Shape()
      && 0 < n <= size - |Model.bytes|
      && Model.bytes == if r == w then [] else Span(buf[..], r, w)
    }

    /** The two copies of a write that goes round: c1 bytes up to the end of the array, the rest at its start. */
    method CopyAround(p: seq<byte>, c1: int)
      requires Shape() && r <= w < size && c1 == size - w < |p| <= c1 + r
      modifies buf
      ensures Span(buf[..], r, |p| - c1) == old(buf[r..w]) + p
    {
      ghost var before := buf[..];
      Copy(buf, w, p[..c1]);
      ghost var between := buf[..];
      Copy(buf, 0, p[c1..]);
      SpanWriteAround(before, between, buf[..], r, w, p, c1);
    }

    /** The copy of a write that fits between w and the end of the array. */
    method CopyAhead(p: seq<byte>)
      requires Shape() && r <= w < size && 0 < |p| <= size - w
      modifies buf
      ensures Span(buf[..], r, if w + |p| == size then 0 else w + |p|) == old(buf[r..w]) + p
    {
      ghost var before := buf[..];
      Copy(buf, w, p);
      SpanWriteAhead(before, buf[..], r, w, p);
    }

    /** The copy of a write that fits between w and r. */
    method CopyGap(p: seq<byte>)
      requires Shape() && w + |p| <= r < size
      modifies buf
      ensures Span(buf[..], r, w + |p|) == old(buf[r..] + buf[..w]) + p
    {
      ghost var before := buf[..];
      Copy(buf, w, p);
      SpanWriteGap(before, buf[..], r, w, p);
    }

    /** The copying half of Write, after room has been made. */
    method Fill(p: seq<byte>)
      requires Prepared(|p|)
      modifies buf, this`w, this`isEmpty, this`Model
      ensures Valid() && Model == old(Model).(bytes := old(Model).bytes + p)
    {
      var n := |p|;
      if w >= r {
        var c1 := size - w;
        if c1 >= n {
          CopyAhead(p);
          w := w + n;
        } else {
          var c2 := n - c1;
          CopyAround(p, c1);
          w := c2;
        }
      } else {
        CopyGap(p);
        w := w + n;
      }
      if w == size { w := 0; }
      isEmpty := false;
      Model := Model.(bytes := Model.bytes + p);
    }

    /** `ok` is false when the growth is so large that CeilToPowerOfTwo panics; nothing has changed then. */
    method Write(p: seq<byte>) returns (n: int, ok: bool)
      requires Valid()
      modifies this, buf
      ensures Valid() && (buf == old(buf) || fresh(buf))
      ensures ok == Fits(old(Model), p)
      ensures Model == if ok then Append(old(Model), p) else old(Model)
      ensures n == |p|
    {
      hide CeilPow2, IsPow2;
      n := |p|;
      ok := true;
      if n == 0 {
        assert Model.bytes + p == Model.bytes;
        return;
      }
      var free := Free();
      if n > free {
        ok := Malloc(n - free);
        if !ok { return; }
      }
      Fill(p);
    }

    method WriteByte(c: byte) returns (ok: bool)
      requires Valid()
      modifies this, buf
      ensures Valid() && (buf == old(buf) || fresh(buf))
      ensures ok == Fits(old(Model), [c])
      ensures Model == if ok then Append(old(Model), [c]) else old(Model)
    {
      var free := Free();
      ok := true;
      if free < 1 {
        ok := Malloc(1);
        if !ok { return; }
      }
      FillByte(c);
    }

    method FillByte(c: byte)
      requires Prepared(1)
      modifies buf, this`w, this`isEmpty, this`Model
      ensures Valid() && Model == old(Model).(bytes := old(Model).bytes + [c])
    {
      ghost var before := buf[..];
      buf[w] := c;
      if w >= r {
        SpanWriteAhead(before, buf[..], r, w, [c]);
      } else {
        SpanWriteGap(before, buf[..], r, w, [c]);
      }
      w := w + 1;
      if w == size { w := 0; }
      isEmpty := false;
      Model := Model.(bytes := Model.bytes + [c]);
    }

    /** The new capacity that malloc chooses, or the panic of CeilToPowerOfTwo. */
    method ChooseCap(extra: int) returns (newCap: Option<nat>)
      requires Valid() && extra > 0
      ensures newCap == if size + extra <= MAXINT_HEAD_BIT then Some(GrownCap(size, size + extra)) else None
      ensures newCap.Some? ==> newCap.value >= size + extra && newCap.value > 0 && ValidCap(newCap.value)
    {
      CeilFits(size + extra);
      if size == 0 && INIT_SIZE >= extra {
        newCap := Some(INIT_SIZE);
        InitSizeIsPow2();
      } else {
        newCap := CeilToPowerOfTwo(size + extra);
      }
    }

    /** Makes room for `extra` more bytes than the capacity. The result is Regrown, not Valid: Read has set isEmpty,
        and the caller has to write and clear it. */
    method Malloc(extra: int) returns (ok: bool)
      requires Valid() && extra > 0
      modifies this
      ensures ok == (old(size) + extra <= MAXINT_HEAD_BIT)
      ensures !ok ==> Valid() && Model == old(Model) && buf == old(buf)
      ensures ok ==> Regrown() && fresh(buf) && size >= old(size) + extra
      ensures ok ==> Model == Queue(old(Model).bytes, GrownCap(old(Model).cap, old(size) + extra),
                                    old(Model).moved + |old(Model).bytes|)
    {
      assert Shape() && |Model.bytes| <= size;
      assert buf.Length == size == Model.cap;
      hide RingBuffer.Valid, RingBuffer.Shape, GrownCap, CeilPow2, Span, ValidCap, RingBuffer.Regrown;
      var newCap := ChooseCap(extra);
      if newCap == None { return false; }
      ghost var q := Model;
      var newBuf := new byte[newCap.value];
      var oldLen := MoveTo(newBuf);
      Adopt(newBuf, oldLen, q);
      ok := true;
    }

    /** The new array, with the stored bytes at its start, takes the place of the old one. */
    method Adopt(newBuf: array<byte>, oldLen: int, ghost q: Queue)
      requires 0 <= oldLen < newBuf.Length && ValidCap(newBuf.Length) && newBuf[..oldLen] == q.bytes
      modifies this
      ensures Regrown() && buf == newBuf && size == newBuf.Length
      ensures Model == Queue(q.bytes, newBuf.Length, q.moved + |q.bytes|)
    {
      r := 0;
      w := oldLen;
      size := newBuf.Length;
      mask := newBuf.Length - 1;
      buf := newBuf;
      Model := Queue(q.bytes, newBuf.Length, q.moved + |q.bytes|);
    }

    /** Reads everything into a larger array, which leaves this buffer empty. */
    method MoveTo(newBuf: array<byte>) returns (oldLen: int)
      requires Valid() && newBuf != buf && newBuf.Length > |Model.bytes|
      modifies newBuf, this`r, this`isEmpty, this`Model
      ensures oldLen == |old(Model).bytes| && newBuf[..oldLen] == old(Model).bytes
    {
      oldLen := Length();
      var _, _ := Read(newBuf);
    }
  }
}
