/** Powers of two and the bit arithmetic of pkg/ringbuffer, on non-negative Go integers.

    The bit operators are written out on `nat`, so that what the source computes with `|`, `&` and `>>`
    can be compared with what it is meant to be: rounding up to a power of two, and a remainder. */
module Bits {

  datatype Option<+T> = None | Some(value: T)

  function Pow2(k: nat): (p: nat)
    ensures p >= 1
  {
    if k == 0 then 1 else 2 * Pow2(k - 1)
  }

  ghost predicate IsPow2(n: int) {
    exists k: nat :: n == Pow2(k)
  }

  /** The bitwise `a | b`. */
  function BitOr(a: nat, b: nat): nat
    decreases a + b
  {
    if a == 0 then b
    else if b == 0 then a
    else 2 * BitOr(a / 2, b / 2) + (if a % 2 == 1 || b % 2 == 1 then 1 else 0)
  }

  /** The bitwise `a & b`. */
  function BitAnd(a: nat, b: nat): nat
    decreases a
  {
    if a == 0 || b == 0 then 0
    else 2 * BitAnd(a / 2, b / 2) + (if a % 2 == 1 && b % 2 == 1 then 1 else 0)
  }

  /** `a >> s` for a non-negative `a`: halved s times. */
  function Shr(a: nat, s: nat): nat {
    if s == 0 then a else Shr(a / 2, s - 1)
  }

  // ---------- fillBits and CeilToPowerOfTwo, as written ----------

  function OrShr(n: nat, s: nat): nat {
    BitOr(n, Shr(n, s))
  }

  function FillBits(n: nat): nat {
    OrShr(OrShr(OrShr(OrShr(OrShr(OrShr(n, 1), 2), 4), 8), 16), 32)
  }

  /** maxintHeadBit on a 64-bit machine: 2^62. */
  const MAXINT_HEAD_BIT: nat := 0x4000_0000_0000_0000

  /** `None` is the panic "argument is too large". */
  function CeilToPowerOfTwo(n: int): Option<nat> {
    if n > MAXINT_HEAD_BIT then None
    else if n <= 2 then Some(2)
    else Some(FillBits(n - 1) + 1)
  }

  // ---------- what rounding up means ----------

  /** The first of p, 2p, 4p, ... that is at least n. */
  function DoubleUntil(p: nat, n: int): nat
    requires p >= 1
    decreases n - p
  {
    if p >= n then p else DoubleUntil(2 * p, n)
  }

  /** The least power of two that is at least 2 and at least n. */
  function CeilPow2(n: int): nat {
    DoubleUntil(2, n)
  }

  lemma Pow2Monotone(i: nat, j: nat)
    requires i <= j
    ensures Pow2(i) <= Pow2(j)
  {
  }

  lemma {:induction false} Pow2Add(i: nat, j: nat)
    ensures Pow2(i + j) == Pow2(i) * Pow2(j)
  {
    if i > 0 {
      Pow2Add(i - 1, j);
      assert Pow2(i) * Pow2(j) == 2 * (Pow2(i - 1) * Pow2(j));
    }
  }

  lemma DoubleUntilLeast(i: nat, n: int, j: nat)
    requires i == 0 || Pow2(i) < 2 * n
    ensures exists k: nat :: k >= i && DoubleUntil(Pow2(i), n) == Pow2(k)
    ensures DoubleUntil(Pow2(i), n) >= n
    ensures DoubleUntil(Pow2(i), n) > Pow2(i) ==> DoubleUntil(Pow2(i), n) < 2 * n
    ensures j >= i && Pow2(j) >= n ==> DoubleUntil(Pow2(i), n) <= Pow2(j)
    decreases n - Pow2(i)
  {
    if Pow2(i) >= n {
      if j >= i { Pow2Monotone(i, j); }
      assert DoubleUntil(Pow2(i), n) == Pow2(i);
    } else {
      assert Pow2(i + 1) == 2 * Pow2(i);
      DoubleUntilLeast(i + 1, n, j);
    }
  }

  /** CeilPow2 is what its name says. */
  lemma CeilPow2Least(n: int, j: nat)
    ensures IsPow2(CeilPow2(n)) && CeilPow2(n) >= 2 && CeilPow2(n) >= n
    ensures CeilPow2(n) > 2 ==> CeilPow2(n) < 2 * n
    ensures j >= 1 && Pow2(j) >= n ==> CeilPow2(n) <= Pow2(j)
  {
    assert Pow2(1) == 2 * Pow2(0) == 2;
    if n <= 2 {
      assert CeilPow2(n) == Pow2(1);
      if j >= 1 { Pow2Monotone(1, j); }
    } else {
      DoubleUntilLeast(1, n, j);
      DoubleUntilLeast(1, n, 0);
    }
  }

  /** The rounding is the least power of two that is at least n, as documented, if and only if n is at least 2. */
  lemma CeilAsDocumentedIff(n: int)
    ensures (forall j: nat :: Pow2(j) >= n ==> CeilPow2(n) <= Pow2(j)) <==> n >= 2
  {
    if n >= 2 {
      forall j: nat | Pow2(j) >= n ensures CeilPow2(n) <= Pow2(j) { CeilPow2Least(n, j); }
    } else {
      assert Pow2(0) == 1 && CeilPow2(n) == 2;
      assert !(Pow2(0) >= n ==> CeilPow2(n) <= Pow2(0));
    }
  }

  /** A power of two between n and 2n is the one CeilPow2 finds. */
  lemma CeilPow2Unique(k: nat, n: int)
    requires k >= 1 && n <= Pow2(k) < 2 * n
    ensures CeilPow2(n) == Pow2(k)
  {
    CeilPow2Least(n, k);
    var c: nat :| CeilPow2(n) == Pow2(c);
    if c < k {
      Pow2Monotone(c + 1, k);
      assert false;
    }
    Pow2Monotone(k, c);
  }

  // ---------- fillBits sets every bit below the top one ----------

  lemma {:induction false} ShrShr(x: nat, a: nat, b: nat)
    ensures Shr(Shr(x, a), b) == Shr(x, a + b)
  {
    if a > 0 { ShrShr(x / 2, a - 1, b); }
  }

  lemma {:induction false} ShrBelow(x: nat, s: nat)
    requires x < Pow2(s)
    ensures Shr(x, s) == 0
  {
    if s > 0 { ShrBelow(x / 2, s - 1); }
  }

  lemma {:induction false} ShrOnes(m: nat, s: nat)
    requires s <= m
    ensures Shr(Pow2(m) - 1, s) == Pow2(m - s) - 1
  {
    if s > 0 {
      assert (Pow2(m) - 1) / 2 == Pow2(m - 1) - 1;
      ShrOnes(m - 1, s - 1);
    }
  }

  lemma {:induction false} OrShrDistributes(a: nat, b: nat, j: nat)
    ensures Shr(BitOr(a, b), j) == BitOr(Shr(a, j), Shr(b, j))
  {
    if j > 0 {
      assert BitOr(a, b) / 2 == BitOr(a / 2, b / 2);
      OrShrDistributes(a / 2, b / 2, j - 1);
    }
  }

  lemma {:induction false} OrOnes(x: nat, t: nat, m: nat)
    requires Shr(x, t) == Pow2(m) - 1
    ensures BitOr(x, Pow2(t) - 1) == Pow2(t + m) - 1
  {
    if t > 0 {
      OrOnes(x / 2, t - 1, m);
      assert (Pow2(t) - 1) / 2 == Pow2(t - 1) - 1;
      assert (Pow2(t) - 1) % 2 == 1;
    }
  }

  /** The m highest of the k+1 bits of x are ones. */
  ghost predicate TopOnes(x: nat, k: nat, m: nat)
    requires m <= k + 1
  {
    Shr(x, k + 1 - m) == Pow2(m) - 1
  }

  /** One `n |= n >> m` doubles the run of ones at the top. */
  lemma FillStep(x: nat, k: nat, m: nat)
    requires 1 <= m <= k + 1 && TopOnes(x, k, m)
    ensures var m' := if 2 * m <= k + 1 then 2 * m else k + 1; TopOnes(OrShr(x, m), k, m')
  {
    var t := k + 1 - m;
    if m <= t {
      var j := t - m;
      OrShrDistributes(x, Shr(x, m), j);
      ShrShr(x, j, m);
      ShrShr(x, m, j);
      OrOnes(Shr(x, j), m, m);
    } else {
      ShrShr(x, t, m - t);
      ShrOnes(m, m - t);
      OrOnes(x, t, m);
    }
  }

  /** When the shift is past the top bit there is nothing left to fill. */
  lemma FillDone(x: nat, k: nat, s: nat)
    requires s >= k + 1 && TopOnes(x, k, k + 1)
    ensures OrShr(x, s) == x
  {
    Pow2Monotone(k + 1, s);
    ShrBelow(x, s);
  }

  lemma FillShift(x: nat, k: nat, s: nat)
    requires s >= 1
    requires TopOnes(x, k, if s <= k + 1 then s else k + 1)
    ensures TopOnes(OrShr(x, s), k, if 2 * s <= k + 1 then 2 * s else k + 1)
  {
    if s <= k + 1 { FillStep(x, k, s); } else { FillDone(x, k, s); }
  }

  /** fillBits turns a number whose top bit is k into 2^(k+1) - 1. */
  lemma FillBitsAllOnes(n: nat, k: nat)
    requires k < 64 && Shr(n, k) == 1
    ensures FillBits(n) == Pow2(k + 1) - 1
  {
    assert Pow2(1) == 2 * Pow2(0);
    assert TopOnes(n, k, 1);
    var n1 := OrShr(n, 1);
    FillShift(n, k, 1);
    var n2 := OrShr(n1, 2);
    FillShift(n1, k, 2);
    var n4 := OrShr(n2, 4);
    FillShift(n2, k, 4);
    var n8 := OrShr(n4, 8);
    FillShift(n4, k, 8);
    var n16 := OrShr(n8, 16);
    FillShift(n8, k, 16);
    FillShift(n16, k, 32);
    assert Pow2(0) == 1;
  }

  lemma {:induction false} TopBit(n: nat) returns (k: nat)
    requires n >= 1
    ensures Shr(n, k) == 1 && Pow2(k) <= n < Pow2(k + 1)
  {
    if n == 1 {
      k := 0;
      assert Pow2(1) == 2 * Pow2(0);
    } else {
      var h := TopBit(n / 2);
      k := h + 1;
    }
  }

  lemma Pow2Is62()
    ensures Pow2(62) == MAXINT_HEAD_BIT
  {
    assert Pow2(2) == 4;
    assert Pow2(5) == 32;
    Pow2Add(5, 5);
    Pow2Add(10, 10);
    Pow2Add(20, 10);
    Pow2Add(30, 30);
    Pow2Add(60, 2);
  }

  /** The bit tricks of the source round up to the least power of two, for every argument they accept. */
  lemma CeilToPowerOfTwoCorrect(n: int)
    ensures CeilToPowerOfTwo(n) == if n > MAXINT_HEAD_BIT then None else Some(CeilPow2(n))
    ensures n <= MAXINT_HEAD_BIT ==> CeilPow2(n) <= MAXINT_HEAD_BIT
  {
    Pow2Is62();
    if 2 < n <= MAXINT_HEAD_BIT {
      var k := TopBit(n - 1);
      if k >= 62 { Pow2Monotone(62, k); }
      FillBitsAllOnes(n - 1, k);
      CeilPow2Unique(k + 1, n);
      Pow2Monotone(k + 1, 62);
    }
  }

  // ---------- masking ----------

  /** `a << s`: doubled s times. */
  function Shl(a: nat, s: nat): nat {
    if s == 0 then a else 2 * Shl(a, s - 1)
  }

  lemma {:induction false} ShlTimes(a: nat, s: nat)
    ensures Shl(a, s) == a * Pow2(s)
  {
    if s > 0 {
      ShlTimes(a, s - 1);
      assert a * (2 * Pow2(s - 1)) == 2 * (a * Pow2(s - 1));
    }
  }

  lemma {:induction false} MaskSplits(x: nat, k: nat)
    ensures x == Shl(Shr(x, k), k) + BitAnd(x, Pow2(k) - 1)
    ensures BitAnd(x, Pow2(k) - 1) < Pow2(k)
  {
    if k > 0 {
      MaskSplits(x / 2, k - 1);
      assert (Pow2(k) - 1) / 2 == Pow2(k - 1) - 1;
      assert (Pow2(k) - 1) % 2 == 1;
    }
  }

  lemma {:induction false} TimesAtLeast(a: nat, d: nat)
    requires a >= 1
    ensures a * d >= d
  {
    if a > 1 {
      TimesAtLeast(a - 1, d);
      assert a * d == (a - 1) * d + d;
    }
  }

  lemma EuclidOrdered(q: int, y: int, q': int, y': int, d: int)
    requires 0 <= y < d && 0 <= y' < d && q * d + y == q' * d + y'
    ensures !(q < q')
  {
    if q < q' {
      TimesAtLeast(q' - q, d);
      assert false;
    }
  }

  lemma EuclidUnique(q: int, y: int, q': int, y': int, d: int)
    requires 0 <= y < d && 0 <= y' < d && q * d + y == q' * d + y'
    ensures q == q' && y == y'
  {
    EuclidOrdered(q, y, q', y', d);
    EuclidOrdered(q', y', q, y, d);
  }

  lemma RemainderIs(x: nat, d: nat, q: nat, y: nat)
    requires y < d && x == q * d + y
    ensures x % d == y
  {
    var q', y' := x / d, x % d;
    assert x == q' * d + y';
    EuclidUnique(q, y, q', y', d);
  }

  /** `x & (2^k - 1)` is the remainder of x by 2^k. */
  lemma MaskIsRemainder(x: nat, k: nat)
    ensures BitAnd(x, Pow2(k) - 1) == x % Pow2(k)
  {
    MaskSplits(x, k);
    ShlTimes(Shr(x, k), k);
    RemainderIs(x, Pow2(k), Shr(x, k), BitAnd(x, Pow2(k) - 1));
  }
}
