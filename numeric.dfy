/**
 * Exact-arithmetic counterparts of the numeric library calls the application relies on:
 * sums and first moments of real sequences (the building blocks of an intensity-weighted
 * centroid), NumPy's round-half-to-even, and Python's truncating `int(x)`.
 */
module Numeric {

  /** Sum of the first n elements. */
  function SumTo(s: seq<real>, n: nat): real
    requires n <= |s|
  {
    if n == 0 then 0.0 else SumTo(s, n - 1) + s[n - 1]
  }

  /** First moment of the first n elements: the sum of i * s[i] for i < n. */
  function MomentTo(s: seq<real>, n: nat): real
    requires n <= |s|
  {
    if n == 0 then 0.0 else MomentTo(s, n - 1) + (n - 1) as real * s[n - 1]
  }

  /** Sum of the elements. */
  function Sum(s: seq<real>): real
  {
    SumTo(s, |s|)
  }

  /** First moment: the sum of i * s[i]. */
  function Moment(s: seq<real>): real
  {
    MomentTo(s, |s|)
  }

  predicate AllZero(s: seq<real>)
  {
    forall i :: 0 <= i < |s| ==> s[i] == 0.0
  }

  /** n copies of v. */
  function Repeat(n: nat, v: real): (s: seq<real>)
    ensures |s| == n && forall i :: 0 <= i < n ==> s[i] == v
  {
    seq(n, _ => v)
  }

  /** A sequence of n zeros. */
  function Zeros(n: nat): (z: seq<real>)
    ensures |z| == n && AllZero(z)
  {
    Repeat(n, 0.0)
  }

  /** Sequences that agree on their first n elements have the same partial sums there. */
  lemma {:induction false} AgreeSums(a: seq<real>, b: seq<real>, n: nat)
    requires n <= |a| && n <= |b|
    requires forall i :: 0 <= i < n ==> a[i] == b[i]
    ensures SumTo(a, n) == SumTo(b, n) && MomentTo(a, n) == MomentTo(b, n)
  {
    if n > 0 {
      AgreeSums(a, b, n - 1);
    }
  }

  /** Zeros from index m to index n add nothing to the partial sums. */
  lemma {:induction false} ZeroStretch(s: seq<real>, m: nat, n: nat)
    requires m <= n <= |s|
    requires forall i :: m <= i < n ==> s[i] == 0.0
    ensures SumTo(s, n) == SumTo(s, m) && MomentTo(s, n) == MomentTo(s, m)
  {
    if n > m {
      ZeroStretch(s, m, n - 1);
    }
  }

  /** An all-zero sequence has no mass and no moment. */
  lemma AllZeroSums(s: seq<real>)
    requires AllZero(s)
    ensures Sum(s) == 0.0 && Moment(s) == 0.0
  {
    ZeroStretch(s, 0, |s|);
  }

  /** A constant sequence of length n has sum n*v and moment v*n*(n-1)/2. */
  lemma ConstantSums(n: nat, v: real)
    ensures Sum(Repeat(n, v)) == n as real * v
    ensures Moment(Repeat(n, v)) == v * (n as real) * (n as real - 1.0) / 2.0
  {
    ConstantPrefix(Repeat(n, v), n, v);
  }

  lemma {:induction false} ConstantPrefix(s: seq<real>, n: nat, v: real)
    requires n <= |s| && forall i :: 0 <= i < n ==> s[i] == v
    ensures SumTo(s, n) == n as real * v
    ensures MomentTo(s, n) == v * (n as real) * (n as real - 1.0) / 2.0
  {
    if n > 0 {
      ConstantPrefix(s, n - 1, v);
    }
  }

  /** Element-wise a[i] + k * b[i]. */
  function AddScaled(a: seq<real>, b: seq<real>, k: real): (c: seq<real>)
    requires |a| == |b|
    ensures |c| == |a|
    ensures forall i :: 0 <= i < |a| ==> c[i] == a[i] + k * b[i]
  {
    seq(|a|, i requires 0 <= i < |a| => a[i] + k * b[i])
  }

  /** Element-wise division by t. */
  function DivideAll(s: seq<real>, t: real): (d: seq<real>)
    requires t != 0.0
    ensures |d| == |s|
    ensures forall i :: 0 <= i < |s| ==> d[i] == s[i] / t
  {
    seq(|s|, i requires 0 <= i < |s| => s[i] / t)
  }

  /** Sums are linear: Sum(a + k*b) == Sum(a) + k*Sum(b), element by element. */
  lemma SumLinear(a: seq<real>, b: seq<real>, k: real)
    requires |a| == |b|
    ensures Sum(AddScaled(a, b, k)) == Sum(a) + k * Sum(b)
  {
    LinearPrefix(a, b, AddScaled(a, b, k), k, |a|);
  }

  lemma {:induction false} LinearPrefix(a: seq<real>, b: seq<real>, c: seq<real>, k: real, n: nat)
    requires n <= |a| && n <= |b| && n <= |c|
    requires forall i :: 0 <= i < n ==> c[i] == a[i] + k * b[i]
    ensures SumTo(c, n) == SumTo(a, n) + k * SumTo(b, n)
  {
    if n > 0 {
      LinearPrefix(a, b, c, k, n - 1);
      var sb, lb := SumTo(b, n - 1), b[n - 1];
      assert k * (sb + lb) == k * sb + k * lb;
    }
  }

  /** Dividing every element by t divides the sum by t. */
  lemma SumDivide(s: seq<real>, t: real)
    requires t != 0.0
    ensures Sum(DivideAll(s, t)) == Sum(s) / t
  {
    DividePrefix(s, DivideAll(s, t), t, |s|);
  }

  lemma {:induction false} DividePrefix(s: seq<real>, d: seq<real>, t: real, n: nat)
    requires t != 0.0 && n <= |s| && n <= |d|
    requires forall i :: 0 <= i < n ==> d[i] == s[i] / t
    ensures SumTo(d, n) == SumTo(s, n) / t
  {
    if n > 0 {
      DividePrefix(s, d, t, n - 1);
      var a, x := SumTo(s, n - 1), s[n - 1];
      assert (a + x) / t == a / t + x / t;
    }
  }

  /** Partial sums of a non-negative sequence grow with n and bound every element before n. */
  lemma {:induction false} NonNegativePrefix(s: seq<real>, n: nat)
    requires n <= |s| && forall i :: 0 <= i < |s| ==> s[i] >= 0.0
    ensures SumTo(s, n) >= 0.0
    ensures forall i :: 0 <= i < n ==> s[i] <= SumTo(s, n)
  {
    if n > 0 {
      NonNegativePrefix(s, n - 1);
    }
  }

  /** Every element of a non-negative sequence is at most its sum. */
  lemma ElementAtMostSum(s: seq<real>, k: nat)
    requires forall i :: 0 <= i < |s| ==> s[i] >= 0.0
    requires k < |s|
    ensures 0.0 <= s[k] <= Sum(s)
    ensures Sum(s) >= 0.0
  {
    NonNegativePrefix(s, |s|);
  }

  /** NumPy's `np.round` (and Python's `round`): to the nearest integer, ties to even. */
  function RoundHalfEven(x: real): (n: int)
    ensures -0.5 <= n as real - x <= 0.5
    ensures (n as real - x == 0.5 || x - n as real == 0.5) ==> n % 2 == 0
  {
    var f := x.Floor;
    var d := x - f as real;
    if d < 0.5 then f
    else if d > 0.5 then f + 1
    else if f % 2 == 0 then f
    else f + 1
  }

  /** The two properties above single out one integer: they are the definition of the rounding. */
  lemma RoundHalfEvenUnique(x: real, m: int)
    requires -0.5 <= m as real - x <= 0.5
    requires (m as real - x == 0.5 || x - m as real == 0.5) ==> m % 2 == 0
    ensures m == RoundHalfEven(x)
  {
  }

  /** A value within half a unit of zero rounds to zero, the two ties included. */
  lemma RoundNearZero(x: real)
    requires -0.5 <= x <= 0.5
    ensures RoundHalfEven(x) == 0
  {
    RoundHalfEvenUnique(x, 0);
  }

  /** Python's `int(x)` on a finite float: truncation toward zero. */
  function TruncToZero(x: real): (n: int)
    ensures x >= 0.0 ==> 0 <= n && n as real <= x < n as real + 1.0
    ensures x < 0.0 ==> n <= 0 && n as real - 1.0 < x <= n as real
  {
    if x >= 0.0 then x.Floor else -((-x).Floor)
  }
}
