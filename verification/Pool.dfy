/** pkg/ringbuffer/pool.go: size classes, and the calibration of the sizes the pool allocates and keeps. */
module Pools {
  import opened Bits
  import opened ByteQueue
  import RingBuffers

  const STEPS: nat := 20
  const MIN_SIZE: nat := 64
  const CALIBRATE_CALLS_THRESHOLD: nat := 42000

  function SizeOf(class_: nat): nat {
    MIN_SIZE * Pow2(class_)
  }

  /** Class 0 holds up to 64 bytes, each class twice as much as the one before, and there are 20 of them. */
  lemma ClassSizes(class_: nat)
    ensures SizeOf(0) == 64 && SizeOf(class_ + 1) == 2 * SizeOf(class_) && SizeOf(STEPS - 1) == 0x200_0000
  {
    assert Pow2(0) == 1 && Pow2(class_ + 1) == 2 * Pow2(class_);
    Pow2Add(9, 10);
    assert Pow2(9) == 512 && Pow2(10) == 1024;
  }

  // ---------- size classes ----------

  lemma {:induction false} ShrBounds(x: nat, s: nat)
    ensures Shr(x, s) == 0 <==> x < Pow2(s)
  {
    if s > 0 { ShrBounds(x / 2, s - 1); }
  }

  lemma {:induction false} ShrSnoc(x: nat, s: nat)
    ensures Shr(x, s + 1) == Shr(x, s) / 2
  {
    if s > 0 { ShrSnoc(x / 2, s - 1); }
  }

  /** idx is the least class that holds n bytes, or the last class if none does. */
  ghost predicate IsClassOf(idx: nat, n: int) {
    && idx < STEPS
    && (n <= SizeOf(idx) || idx == STEPS - 1)
    && forall i: nat :: i < idx ==> n > SizeOf(i)
  }

  method Index(n: int) returns (idx: nat)
    ensures IsClassOf(idx, n)
  {
    var m := (n - 1) / MIN_SIZE;
    ghost var m0 := m;
    idx := 0;
    while m > 0
      invariant m0 < 0 ==> m == m0 && idx == 0
      invariant m0 >= 0 ==> m >= 0 && m == Shr(m0, idx)
      invariant idx > 0 ==> m0 >= Pow2(idx - 1)
      decreases m
    {
      ShrSnoc(m0, idx);
      ShrBounds(m0, idx);
      m := m / 2;
      idx := idx + 1;
    }
    if m0 >= 0 { ShrBounds(m0, idx); }
    ghost var least := idx;
    if idx >= STEPS { idx := STEPS - 1; }
    forall i: nat | i < idx ensures n > SizeOf(i) {
      Pow2Monotone(i, least - 1);
    }
  }

  // ---------- histograms ----------

  datatype CallSize = CallSize(calls: nat, size: nat)

  function Histogram(calls: seq<nat>): (h: seq<CallSize>)
    ensures |h| == |calls|
    ensures forall i :: 0 <= i < |h| ==> h[i] == CallSize(calls[i], SizeOf(i))
  {
    seq(|calls|, i requires 0 <= i < |calls| => CallSize(calls[i], SizeOf(i)))
  }

  /** The calls of the classes whose size is in `sizes`, and how many such classes there are. */
  function Weight(h: seq<CallSize>, sizes: set<nat>): nat
    decreases |h|
  {
    if h == [] then 0
    else Weight(h[..|h| - 1], sizes) + if h[|h| - 1].size in sizes then h[|h| - 1].calls else 0
  }

  function Count(h: seq<CallSize>, sizes: set<nat>): nat
    decreases |h|
  {
    if h == [] then 0
    else Count(h[..|h| - 1], sizes) + if h[|h| - 1].size in sizes then 1 else 0
  }

  function Total(h: seq<CallSize>): nat
    decreases |h|
  {
    if h == [] then 0 else Total(h[..|h| - 1]) + h[|h| - 1].calls
  }

  lemma TotalSnoc(h: seq<CallSize>, c: CallSize)
    ensures Total(h + [c]) == Total(h) + c.calls
  {
    assert (h + [c])[..|h|] == h;
  }

  function Sizes(h: seq<CallSize>): set<nat>
    decreases |h|
  {
    if h == [] then {} else Sizes(h[..|h| - 1]) + {h[|h| - 1].size}
  }

  function SizesUpTo(h: seq<CallSize>, maxSize: nat): set<nat>
    decreases |h|
  {
    if h == [] then {}
    else
      var before, last := SizesUpTo(h[..|h| - 1], maxSize), h[|h| - 1].size;
      if last <= maxSize then before + {last} else before
  }

  lemma {:induction false} InSizes(h: seq<CallSize>, x: nat)
    ensures x in Sizes(h) <==> exists i :: 0 <= i < |h| && h[i].size == x
    decreases |h|
  {
    if h != [] {
      InSizes(h[..|h| - 1], x);
      assert h[|h| - 1].size in Sizes(h);
    }
  }

  lemma {:induction false} InSizesUpTo(h: seq<CallSize>, maxSize: nat, x: nat)
    ensures x in SizesUpTo(h, maxSize) <==> x in Sizes(h) && x <= maxSize
    decreases |h|
  {
    if h != [] { InSizesUpTo(h[..|h| - 1], maxSize, x); }
  }

  ghost predicate Distinct(h: seq<CallSize>) {
    forall i, j :: 0 <= i < j < |h| ==> h[i].size != h[j].size
  }

  ghost predicate Descending(h: seq<CallSize>) {
    forall i, j :: 0 <= i < j < |h| ==> h[i].calls >= h[j].calls
  }

  /** What calibration promises. The taken classes are no larger than maxSize; they cover more than maxSum calls, or
      are all classes there are; and no set of fewer classes covers more than maxSum. The default is a most-used
      class. */
  ghost predicate Calibrated(h: seq<CallSize>, maxSum: nat, defaultSize: nat, maxSize: nat) {
    && (exists i :: 0 <= i < |h| && h[i].size == defaultSize && forall j :: 0 <= j < |h| ==> h[j].calls <= h[i].calls)
    && defaultSize <= maxSize
    && exists taken: set<nat> ::
         && GreedyChoice(h, maxSum, taken)
         && maxSize in taken && NoneAbove(taken, maxSize)
  }

  ghost predicate NoneAbove(sizes: set<nat>, maxSize: nat) {
    forall x :: x in sizes ==> x <= maxSize
  }

  ghost predicate GreedyChoice(h: seq<CallSize>, maxSum: nat, taken: set<nat>) {
    && taken <= Sizes(h)
    && (Weight(h, taken) > maxSum || taken == Sizes(h))
    && forall fewer: set<nat> :: |fewer| < |taken| ==> Weight(h, fewer) <= maxSum
  }

  // ---------- sorting does not matter for weights ----------

  lemma {:induction false} WeightAppend(a: seq<CallSize>, b: seq<CallSize>, sizes: set<nat>)
    ensures Weight(a + b, sizes) == Weight(a, sizes) + Weight(b, sizes)
    decreases |b|
  {
    if b == [] {
      assert a + b == a;
    } else {
      var init := b[..|b| - 1];
      assert (a + b)[..|a + b| - 1] == a + init;
      WeightAppend(a, init, sizes);
    }
  }

  lemma WeightOne(c: CallSize, sizes: set<nat>)
    ensures Weight([c], sizes) == if c.size in sizes then c.calls else 0
  {
    assert [c][..0] == [];
  }

  function Without(b: seq<CallSize>, i: nat): seq<CallSize>
    requires i < |b|
  {
    b[..i] + b[i + 1..]
  }

  lemma WithoutMultiset(b: seq<CallSize>, i: nat)
    requires i < |b|
    ensures multiset(Without(b, i)) == multiset(b) - multiset{b[i]}
  {
    assert b == b[..i] + [b[i]] + b[i + 1..];
  }

  lemma WithoutWeight(b: seq<CallSize>, i: nat, sizes: set<nat>)
    requires i < |b|
    ensures Weight(b, sizes) == Weight(Without(b, i), sizes) + if b[i].size in sizes then b[i].calls else 0
  {
    assert b == b[..i] + [b[i]] + b[i + 1..];
    WeightAppend(b[..i] + [b[i]], b[i + 1..], sizes);
    WeightAppend(b[..i], [b[i]], sizes);
    WeightAppend(b[..i], b[i + 1..], sizes);
    WeightOne(b[i], sizes);
  }

  lemma {:induction false} WeightPermuted(a: seq<CallSize>, b: seq<CallSize>, sizes: set<nat>)
    requires multiset(a) == multiset(b)
    ensures Weight(a, sizes) == Weight(b, sizes)
    decreases |a|
  {
    if a == [] {
      assert |b| == |multiset(b)| == 0;
    } else {
      var last := |a| - 1;
      assert a[last] in multiset(b);
      var i :| 0 <= i < |b| && b[i] == a[last];
      WithoutMultiset(a, last);
      WithoutMultiset(b, i);
      assert Without(a, last) == a[..last];
      WeightPermuted(a[..last], Without(b, i), sizes);
      WithoutWeight(b, i, sizes);
    }
  }

  function InsertedAt(s: seq<CallSize>, i: nat, c: CallSize): (s': seq<CallSize>)
    requires i <= |s|
    ensures |s'| == |s| + 1
    ensures forall p :: 0 <= p <= |s| ==> s'[p] == if p < i then s[p] else if p == i then c else s[p - 1]
  {
    s[..i] + [c] + s[i..]
  }

  lemma InsertedMultiset(s: seq<CallSize>, i: nat, c: CallSize)
    requires i <= |s|
    ensures multiset(InsertedAt(s, i, c)) == multiset(s) + multiset{c}
  {
    assert s == s[..i] + s[i..];
  }

  lemma InsertedDescending(s: seq<CallSize>, i: nat, c: CallSize)
    requires i <= |s| && Descending(s)
    requires forall j :: 0 <= j < i ==> s[j].calls >= c.calls
    requires i < |s| ==> s[i].calls < c.calls
    ensures Descending(InsertedAt(s, i, c))
  {
    var s' := InsertedAt(s, i, c);
    forall p, q | 0 <= p < q < |s'| ensures s'[p].calls >= s'[q].calls {
      if p == i { assert s[i].calls >= s[q - 1].calls; }
    }
  }

  method Insert(s: seq<CallSize>, c: CallSize) returns (s': seq<CallSize>)
    requires Descending(s)
    ensures multiset(s') == multiset(s) + multiset{c} && |s'| == |s| + 1 && Descending(s')
  {
    var i := 0;
    while i < |s| && s[i].calls >= c.calls
      invariant 0 <= i <= |s|
      invariant forall j :: 0 <= j < i ==> s[j].calls >= c.calls
    {
      i := i + 1;
    }
    s' := InsertedAt(s, i, c);
    InsertedMultiset(s, i, c);
    InsertedDescending(s, i, c);
  }

  /** The order sort.Sort puts the classes in: most calls first. An insertion sort stands for the library's. */
  method SortByCalls(a: seq<CallSize>) returns (s: seq<CallSize>)
    ensures multiset(s) == multiset(a) && |s| == |a| && Descending(s)
  {
    s := [];
    for n := 0 to |a|
      invariant multiset(s) == multiset(a[..n]) && |s| == n && Descending(s)
    {
      assert a[..n + 1] == a[..n] + [a[n]];
      s := Insert(s, a[n]);
    }
    assert a[..|a|] == a;
  }

  // ---------- the greedy choice ----------

  /** k classes cannot have more calls than the k most used ones. */
  lemma {:induction false} TopIsHeaviest(h: seq<CallSize>, sizes: set<nat>)
    requires Descending(h)
    ensures Count(h, sizes) <= |h| && Weight(h, sizes) <= Total(h[..Count(h, sizes)])
    decreases |h|
  {
    if h != [] {
      var init, last := h[..|h| - 1], h[|h| - 1];
      TopIsHeaviest(init, sizes);
      var k := Count(init, sizes);
      assert init[..k] == h[..k];
      if last.size in sizes {
        assert h[..k + 1][..k] == h[..k];
        assert h[k].calls >= last.calls;
      }
    }
  }

  lemma {:induction false} CountAtMost(h: seq<CallSize>, sizes: set<nat>)
    requires Distinct(h)
    ensures Count(h, sizes) <= |sizes|
    decreases |h|
  {
    if h != [] {
      var init, x := h[..|h| - 1], h[|h| - 1].size;
      if x in sizes {
        CountAtMost(init, sizes - {x});
        CountWithout(init, sizes, x);
      } else {
        CountAtMost(init, sizes);
      }
    }
  }

  lemma {:induction false} CountWithout(h: seq<CallSize>, sizes: set<nat>, x: nat)
    requires forall i :: 0 <= i < |h| ==> h[i].size != x
    ensures Count(h, sizes - {x}) == Count(h, sizes)
    decreases |h|
  {
    if h != [] { CountWithout(h[..|h| - 1], sizes, x); }
  }

  lemma {:induction false} TotalMonotone(h: seq<CallSize>, i: nat, j: nat)
    requires i <= j <= |h|
    ensures Total(h[..i]) <= Total(h[..j])
    decreases j
  {
    if i < j {
      TotalMonotone(h, i, j - 1);
      assert h[..j][..j - 1] == h[..j - 1];
    }
  }

  /** The sizes of a prefix weigh exactly the prefix. */
  lemma {:induction false} PrefixWeight(h: seq<CallSize>, k: nat, n: nat)
    requires k <= n <= |h| && Distinct(h)
    ensures Weight(h[..n], Sizes(h[..k])) == Total(h[..k])
    decreases n
  {
    if n > 0 {
      assert h[..n][..n - 1] == h[..n - 1];
      var last := h[n - 1].size;
      if k < n {
        InSizes(h[..k], last);
        PrefixWeight(h, k, n - 1);
      } else {
        WeightWithout(h[..n - 1], Sizes(h[..n - 1]), last);
        PrefixWeight(h, n - 1, n - 1);
      }
    }
  }

  lemma {:induction false} WeightWithout(h: seq<CallSize>, sizes: set<nat>, x: nat)
    requires forall i :: 0 <= i < |h| ==> h[i].size != x
    ensures Weight(h, sizes + {x}) == Weight(h, sizes)
    decreases |h|
  {
    if h != [] { WeightWithout(h[..|h| - 1], sizes, x); }
  }

  lemma {:induction false} PrefixCardinality(h: seq<CallSize>, k: nat)
    requires k <= |h| && Distinct(h)
    ensures |Sizes(h[..k])| == k
  {
    if k > 0 {
      PrefixCardinality(h, k - 1);
      assert h[..k][..k - 1] == h[..k - 1];
      InSizes(h[..k - 1], h[k - 1].size);
    }
  }

  lemma SizesPermuted(h: seq<CallSize>, a: seq<CallSize>)
    requires multiset(h) == multiset(a)
    ensures Sizes(h) <= Sizes(a)
  {
    forall x | x in Sizes(h) ensures x in Sizes(a) {
      InSizes(h, x);
      InSizes(a, x);
      var i :| 0 <= i < |h| && h[i].size == x;
      assert h[i] in multiset(a);
      var j :| 0 <= j < |a| && a[j] == h[i];
    }
  }

  /** The first k classes exceed maxSum, or are all; one less does not. */
  predicate StopsAt(a: seq<CallSize>, maxSum: nat, k: nat) {
    1 <= k <= |a| && Total(a[..k - 1]) <= maxSum && (Total(a[..k]) > maxSum || k == |a|)
  }

  predicate LargestOf(a: seq<CallSize>, k: nat, max: nat)
    requires k <= |a|
  {
    max in Sizes(a[..k]) && forall i :: 0 <= i < k ==> a[i].size <= max
  }

  lemma SizesOfPrefix(a: seq<CallSize>, k: nat)
    requires k <= |a|
    ensures Sizes(a[..k]) <= Sizes(a)
  {
    forall x | x in Sizes(a[..k]) ensures x in Sizes(a) {
      InSizes(a[..k], x);
      InSizes(a, x);
    }
  }

  /** Taking the most used classes until their calls exceed maxSum is a greedy choice. */
  lemma PrefixIsGreedy(h: seq<CallSize>, a: seq<CallSize>, maxSum: nat, k: nat)
    requires multiset(h) == multiset(a) && Descending(a) && Distinct(a) && StopsAt(a, maxSum, k)
    ensures GreedyChoice(h, maxSum, Sizes(a[..k]))
  {
    var taken := Sizes(a[..k]);
    assert a[..|a|] == a;
    PrefixWeight(a, k, |a|);
    WeightPermuted(h, a, taken);
    PrefixCardinality(a, k);
    SizesPermuted(h, a);
    SizesPermuted(a, h);
    SizesOfPrefix(a, k);
    forall fewer: set<nat> | |fewer| < |taken| ensures Weight(h, fewer) <= maxSum {
      WeightPermuted(h, a, fewer);
      CountAtMost(a, fewer);
      TopIsHeaviest(a, fewer);
      TotalMonotone(a, Count(a, fewer), k - 1);
    }
  }

  /** What a greedy choice is for: keeping buffers up to maxSize serves more than maxSum of the calls, or
      all of them. */
  lemma KeptSizesCover(h: seq<CallSize>, maxSum: nat, defaultSize: nat, maxSize: nat)
    requires Calibrated(h, maxSum, defaultSize, maxSize)
    ensures Weight(h, SizesUpTo(h, maxSize)) > maxSum || SizesUpTo(h, maxSize) == Sizes(h)
  {
    var taken: set<nat> :| GreedyChoice(h, maxSum, taken) && maxSize in taken && NoneAbove(taken, maxSize);
    forall x | x in Sizes(h) ensures x in SizesUpTo(h, maxSize) <==> x <= maxSize {
      InSizesUpTo(h, maxSize, x);
    }
    forall x | x in SizesUpTo(h, maxSize) ensures x in Sizes(h) {
      InSizesUpTo(h, maxSize, x);
    }
    WeightMonotone(h, taken, SizesUpTo(h, maxSize));
  }

  lemma {:induction false} WeightMonotone(h: seq<CallSize>, a: set<nat>, b: set<nat>)
    requires a <= b
    ensures Weight(h, a) <= Weight(h, b)
    decreases |h|
  {
    if h != [] { WeightMonotone(h[..|h| - 1], a, b); }
  }

  /** `uint64(float64(callsSum) * maxPercentile)`, in integers. */
  function MaxSum(callsSum: nat): nat {
    callsSum * 95 / 100
  }

  /** The threshold is the largest whole number of calls that is at most 95% of all. */
  lemma MaxSumIs95Percent(callsSum: nat, m: nat)
    ensures m <= MaxSum(callsSum) <==> 100 * m <= 95 * callsSum
  {
  }

  lemma SizesIncrease(i: nat, j: nat)
    requires i < j
    ensures SizeOf(i) < SizeOf(j)
  {
    Pow2Monotone(i + 1, j);
  }

  lemma LargestSize(h: seq<CallSize>, size: nat)
    requires |h| == STEPS && forall i :: 0 <= i < STEPS ==> h[i].size == SizeOf(i)
    requires exists i :: 0 <= i < |h| && h[i].size == size
    ensures size <= SizeOf(STEPS - 1)
  {
    var i :| 0 <= i < |h| && h[i].size == size;
    if i < STEPS - 1 { SizesIncrease(i, STEPS - 1); }
  }

  /** The first class of the sorted ones, and the largest of those up to where maxSum is exceeded, are what calibration
      promises. */
  lemma ChoiceIsCalibrated(h: seq<CallSize>, a: seq<CallSize>, maxSum: nat, k: nat, max: nat)
    requires |h| == STEPS && forall i :: 0 <= i < STEPS ==> h[i].size == SizeOf(i)
    requires multiset(h) == multiset(a) && Descending(a) && StopsAt(a, maxSum, k) && LargestOf(a, k, max)
    ensures Calibrated(h, maxSum, a[0].size, max) && a[0].size <= SizeOf(STEPS - 1)
  {
    forall p, q | 0 <= p < q < |h| ensures h[p].size != h[q].size { SizesIncrease(p, q); }
    DistinctSorted(h, a);
    PrefixIsGreedy(h, a, maxSum, k);
    var taken := Sizes(a[..k]);
    DefaultIsMostUsed(h, a, a[0].size);
    LargestSize(h, a[0].size);
    forall x | x in taken ensures x <= max { InSizes(a[..k], x); }
    InSizes(a[..k], a[0].size);
    assert a[..k][0].size == a[0].size;
    assert NoneAbove(taken, max);
  }

  class Pool {
    const calls: array<nat>
    var calibrating: bool
    var defaultSize: nat
    var maxSize: nat

    ghost predicate Valid()
      reads this
    {
      calls.Length == STEPS && defaultSize <= SizeOf(STEPS - 1)
    }

    constructor ()
      ensures Valid() && fresh(calls) && calls[..] == seq(STEPS, _ => 0) && defaultSize == maxSize == 0 && !calibrating
    {
      calls := new nat[STEPS](_ => 0);
      calibrating, defaultSize, maxSize := false, 0, 0;
    }

    /** Takes the counters, all back to zero afterwards. */
    method TakeCalls() returns (a: seq<CallSize>, callsSum: nat)
      requires calls.Length == STEPS
      modifies calls
      ensures a == Histogram(old(calls[..])) && callsSum == Total(a)
      ensures forall i :: 0 <= i < STEPS ==> calls[i] == 0
    {
      hide Histogram, SizeOf;
      a, callsSum := [], 0;
      ghost var h := Histogram(calls[..]);
      for i := 0 to STEPS
        invariant |a| == i && a == h[..i] && callsSum == Total(a)
        invariant forall j :: 0 <= j < i ==> calls[j] == 0
        invariant forall j :: i <= j < STEPS ==> calls[j] == old(calls[j])
      {
        var c := calls[i];
        calls[i] := 0;
        callsSum := callsSum + c;
        assert h[..i + 1] == h[..i] + [h[i]];
        TotalSnoc(a, h[i]);
        a := a + [CallSize(c, SizeOf(i))];
      }
      assert h[..STEPS] == h;
    }

    /** Goes down the sorted classes until their calls exceed maxSum. */
    method ChooseMax(a: seq<CallSize>, maxSum: nat) returns (max: nat)
      requires |a| > 0
      ensures exists k :: StopsAt(a, maxSum, k) && LargestOf(a, k, max)
    {
      max := a[0].size;
      var callsSum := 0;
      var i := 0;
      while i < |a| && callsSum <= maxSum
        invariant 0 <= i <= |a| && callsSum == Total(a[..i])
        invariant i > 0 ==> Total(a[..i - 1]) <= maxSum
        invariant i > 0 ==> max in Sizes(a[..i])
        invariant i == 0 ==> max == a[0].size
        invariant forall j :: 0 <= j < i ==> a[j].size <= max
      {
        assert a[..i + 1][..i] == a[..i];
        callsSum := callsSum + a[i].calls;
        var size := a[i].size;
        if size > max { max := size; }
        i := i + 1;
      }
      assert StopsAt(a, maxSum, i) && LargestOf(a, i, max);
    }

    /** Does nothing while another calibration is under way. */
    method Calibrate()
      requires Valid()
      modifies this, calls
      ensures Valid() && calibrating == old(calibrating)
      ensures old(calibrating) ==>
                calls[..] == old(calls[..]) && defaultSize == old(defaultSize) && maxSize == old(maxSize)
      ensures !old(calibrating) ==> Recalibrated(old(calls[..]))
    {
      if calibrating { return; }
      calibrating := true;
      var h, callsSum := TakeCalls();
      var a := SortByCalls(h);
      var newDefault := a[0].size;
      var maxSum := MaxSum(callsSum);
      var max := ChooseMax(a, maxSum);
      ghost var k: nat :| StopsAt(a, maxSum, k) && LargestOf(a, k, max);
      ChoiceIsCalibrated(h, a, maxSum, k, max);
      defaultSize := newDefault;
      maxSize := max;
      calibrating := false;
    }

    /** The sizes fit the calls counted so far, and counting starts again. */
    ghost predicate Recalibrated(counted: seq<nat>)
      requires Valid()
      reads this, calls
    {
      var h := Histogram(counted);
      && Calibrated(h, MaxSum(Total(h)), defaultSize, maxSize)
      && forall i :: 0 <= i < STEPS ==> calls[i] == 0
    }

    /** Counts the buffer's class, calibrates now and then, and keeps the buffer, emptied, unless it is too large. */
    method Put(b: RingBuffers.RingBuffer) returns (kept: bool, ghost idx: nat)
      requires Valid() && b.Valid() && b.buf as object != calls && b as object != this
      modifies this, calls, b
      ensures Valid() && b.Valid()
      ensures kept <==> maxSize == 0 || b.Model.cap <= maxSize
      ensures b.Model == if kept then Clear(old(b.Model)) else old(b.Model)
      ensures IsClassOf(idx, old(b.Model).cap)
      ensures var counted := old(calls[..])[idx := old(calls[idx]) + 1];
              if counted[idx] > 42000 && !old(calibrating) then Recalibrated(counted)
              else calls[..] == counted && defaultSize == old(defaultSize) && maxSize == old(maxSize)
    {
      hide RingBuffers.RingBuffer.Valid;
      var length := b.Len();
      var class_ := Index(length);
      idx := class_;
      calls[class_] := calls[class_] + 1;
      assert calls[..] == old(calls[..])[idx := old(calls[idx]) + 1];
      if calls[class_] > CALIBRATE_CALLS_THRESHOLD { Calibrate(); }
      var cap := b.Cap();
      kept := maxSize == 0 || cap <= maxSize;
      if kept { b.Reset(); }
    }

    /** A new buffer when the pool has none: empty, with the calibrated default capacity. */
    method Allocate() returns (b: RingBuffers.RingBuffer)
      requires Valid()
      ensures fresh(b) && fresh(b.buf) && b.Valid()
      ensures b.Model == Empty(if defaultSize == 0 then 0 else CeilPow2(defaultSize))
    {
      Pow2Add(6, STEPS - 1);
      assert Pow2(6) == 64;
      Pow2Is62();
      Pow2Monotone(6 + (STEPS - 1), 62);
      b := new RingBuffers.RingBuffer(defaultSize);
    }
  }

  /** A permutation of a histogram still has each size once. */
  lemma DistinctSorted(h: seq<CallSize>, a: seq<CallSize>)
    requires multiset(h) == multiset(a)
    requires forall p, q :: 0 <= p < q < |h| ==> h[p].size != h[q].size
    ensures Distinct(a)
  {
    forall i, j | 0 <= i < j < |a| ensures a[i].size != a[j].size {
      assert a[i] in multiset(h) && a[j] in multiset(h);
      var p :| 0 <= p < |h| && h[p] == a[i];
      var q :| 0 <= q < |h| && h[q] == a[j];
      if a[i].size == a[j].size {
        assert p == q;
        OccursOnce(h, p);
        OccursTwice(a, i, j);
        assert false;
      }
    }
  }

  lemma OccursOnce(h: seq<CallSize>, p: nat)
    requires p < |h| && forall q :: 0 <= q < |h| && q != p ==> h[q] != h[p]
    ensures multiset(h)[h[p]] == 1
  {
    assert h == h[..p] + [h[p]] + h[p + 1..];
    assert h[p] !in multiset(h[..p]) && h[p] !in multiset(h[p + 1..]);
  }

  lemma OccursTwice(a: seq<CallSize>, i: nat, j: nat)
    requires i < j < |a| && a[i] == a[j]
    ensures multiset(a)[a[i]] >= 2
  {
    assert a == a[..i] + [a[i]] + a[i + 1..j] + [a[j]] + a[j + 1..];
  }

  lemma DefaultIsMostUsed(h: seq<CallSize>, a: seq<CallSize>, size: nat)
    requires multiset(h) == multiset(a) && Descending(a) && |a| > 0 && size == a[0].size
    ensures exists i :: 0 <= i < |h| && h[i].size == size && forall j :: 0 <= j < |h| ==> h[j].calls <= h[i].calls
  {
    assert a[0] in multiset(h);
    var i :| 0 <= i < |h| && h[i] == a[0];
    forall j | 0 <= j < |h| ensures h[j].calls <= h[i].calls {
      assert h[j] in multiset(a);
      var k :| 0 <= k < |a| && a[k] == h[j];
    }
  }
}
