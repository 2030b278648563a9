/**
 * What the application does with the classifier's output: the inference worker's
 * normalisation (`InferenceWorker.run`), the digit, confidence, top-3 alternatives and bar
 * target of `_on_prediction`, and the bar colour classes and second-best digit of the
 * probability dialog. Probabilities are exact reals.
 */
module Prediction {
  import opened Wrappers
  import opened Numeric

  // ---------------------------------------------------------------------------
  // The inference worker
  // ---------------------------------------------------------------------------

  /** The first output tensor of the network: one score vector, or a batch of them (ndim > 1). */
  datatype RawOutput = Vector(scores: seq<real>) | Batch(rows: seq<seq<real>>)

  /** `out[0]` of an empty batch raises, and the worker reports the exception. */
  datatype InferenceError = EmptyBatch

  predicate NonNegativeScores(p: seq<real>)
  {
    forall i :: 0 <= i < |p| ==> p[i] >= 0.0
  }

  /** A probability distribution: non-negative entries summing to 1. */
  predicate IsDistribution(p: seq<real>)
  {
    NonNegativeScores(p) && Sum(p) == 1.0
  }

  /**
   * `out / out.sum()` when the sum is positive; otherwise the scores are kept as they are.
   * A positive-sum output becomes proportional scores that sum to 1.
   */
  function Normalise(p: seq<real>): (q: seq<real>)
    ensures |q| == |p|
    ensures Sum(p) > 0.0 ==> Sum(q) == 1.0
    ensures Sum(p) > 0.0 ==> forall i :: 0 <= i < |p| ==> q[i] * Sum(p) == p[i]
    ensures Sum(p) <= 0.0 ==> q == p
  {
    var total := Sum(p);
    if total > 0.0 then
      SumDivide(p, total);
      assert total / total == 1.0;
      DivideAll(p, total)
    else
      p
  }

  /** Normalising a second time, as `_on_prediction` does with the worker's result, changes nothing. */
  lemma NormaliseIdempotent(p: seq<real>)
    ensures Normalise(Normalise(p)) == Normalise(p)
  {
    var q := Normalise(p);
    if Sum(p) > 0.0 {
      var q2 := Normalise(q);
      assert |q2| == |q|;
      forall i | 0 <= i < |q| ensures q2[i] == q[i] {
        assert q2[i] * 1.0 == q[i];
      }
    }
  }

  /** Non-negative scores with a positive sum normalise to a distribution with entries in [0, 1]. */
  lemma NormaliseGivesDistribution(p: seq<real>)
    requires NonNegativeScores(p) && Sum(p) > 0.0
    ensures IsDistribution(Normalise(p))
    ensures forall i :: 0 <= i < |p| ==> 0.0 <= Normalise(p)[i] <= 1.0
  {
    var q, s := Normalise(p), Sum(p);
    forall i | 0 <= i < |p| ensures 0.0 <= q[i] <= 1.0 {
      ElementAtMostSum(p, i);
      UnitQuotient(p[i], s, q[i]);
    }
  }

  lemma UnitQuotient(x: real, s: real, y: real)
    requires 0.0 <= x <= s && s > 0.0 && y * s == x
    ensures 0.0 <= y <= 1.0
  {
  }

  /** The row the worker keeps: the vector itself, or row 0 of a batch. */
  function FirstRow(out: RawOutput): (row: Option<seq<real>>)
    ensures row.None? <==> out.Batch? && out.rows == []
    ensures out.Vector? ==> row == Some(out.scores)
    ensures out.Batch? && out.rows != [] ==> row == Some(out.rows[0])
  {
    match out
    case Vector(s) => Some(s)
    case Batch(rows) => if rows == [] then None else Some(rows[0])
  }

  /**
   * `InferenceWorker.run` after the session call: the kept row, normalised. The only failure
   * is an empty batch.
   */
  function WorkerRun(out: RawOutput): (r: Result<seq<real>, InferenceError>)
    ensures r.Err? <==> FirstRow(out).None?
    ensures r.Ok? ==> |r.value| == |FirstRow(out).value|
    ensures r.Ok? && NonNegativeScores(FirstRow(out).value) && Sum(FirstRow(out).value) > 0.0 ==>
              IsDistribution(r.value)
    ensures r.Ok? && Sum(FirstRow(out).value) <= 0.0 ==> r.value == FirstRow(out).value
  {
    match FirstRow(out)
    case None => Err(EmptyBatch)
    case Some(row) =>
      assert NonNegativeScores(row) && Sum(row) > 0.0 ==> IsDistribution(Normalise(row)) by {
        if NonNegativeScores(row) && Sum(row) > 0.0 {
          NormaliseGivesDistribution(row);
        }
      }
      Ok(Normalise(row))
  }

  // ---------------------------------------------------------------------------
  // Digit and confidence
  // ---------------------------------------------------------------------------

  /** The first index of the maximum among the first n entries. */
  function ArgMaxTo(p: seq<real>, n: nat): (i: nat)
    requires 0 < n <= |p|
    ensures i < n
    ensures forall j :: 0 <= j < n ==> p[j] <= p[i]
    ensures forall j :: 0 <= j < i ==> p[j] < p[i]
  {
    if n == 1 then 0
    else
      var k := ArgMaxTo(p, n - 1);
      if p[n - 1] > p[k] then n - 1 else k
  }

  /** `np.argmax`: the first index holding the maximum. */
  function ArgMax(p: seq<real>): (i: nat)
    requires |p| > 0
    ensures i < |p|
    ensures forall j :: 0 <= j < |p| ==> p[j] <= p[i]
    ensures forall j :: 0 <= j < i ==> p[j] < p[i]
  {
    ArgMaxTo(p, |p|)
  }

  /** Being a maximum and preceded only by smaller entries singles out ArgMax. */
  lemma ArgMaxUnique(p: seq<real>, i: nat)
    requires i < |p|
    requires forall j :: 0 <= j < |p| ==> p[j] <= p[i]
    requires forall j :: 0 <= j < i ==> p[j] < p[i]
    ensures i == ArgMax(p)
  {
  }

  /** `np.max`: the largest entry. */
  function MaxProb(p: seq<real>): (m: real)
    requires |p| > 0
    ensures forall j :: 0 <= j < |p| ==> p[j] <= m
    ensures m in p
  {
    p[ArgMax(p)]
  }

  /** `int(confidence * 100)`, the value the confidence bar animates to. */
  function BarTarget(confidence: real): (b: int)
    ensures confidence >= 0.0 ==> b as real <= confidence * 100.0 < b as real + 1.0
    ensures confidence < 0.0 ==> b <= 0 && b as real - 1.0 < confidence * 100.0 <= b as real
    ensures 0.0 <= confidence <= 1.0 ==> 0 <= b <= 100
  {
    TruncToZero(confidence * 100.0)
  }

  // ---------------------------------------------------------------------------
  // The descending argsort
  // ---------------------------------------------------------------------------

  /**
   * Index i comes before index j in `np.argsort(p)[::-1]`: the larger probability first,
   * equal probabilities by the larger index first (a stable ascending sort, reversed).
   */
  predicate Precedes(p: seq<real>, i: nat, j: nat)
    requires i < |p| && j < |p|
  {
    p[i] > p[j] || (p[i] == p[j] && i > j)
  }

  predicate Indices(p: seq<real>, r: seq<nat>)
  {
    forall k :: 0 <= k < |r| ==> r[k] < |p|
  }

  /** Index x comes before every index of r. */
  predicate PrecedesAll(p: seq<real>, x: nat, r: seq<nat>)
    requires x < |p| && Indices(p, r)
  {
    forall k :: 0 <= k < |r| ==> Precedes(p, x, r[k])
  }

  /** r lists indices in argsort-descending order (and so without repetition). */
  predicate Descending(p: seq<real>, r: seq<nat>)
    requires Indices(p, r)
  {
    forall a, b :: 0 <= a < b < |r| ==> Precedes(p, r[a], r[b])
  }

  /** Inserts index i into the descending list r at its place. */
  function Insert(p: seq<real>, r: seq<nat>, i: nat): (s: seq<nat>)
    requires Indices(p, r) && i < |p|
    ensures |s| == |r| + 1 && Indices(p, s)
    ensures forall x :: x in s <==> x in r || x == i
    ensures forall x: nat :: x < |p| && PrecedesAll(p, x, r) && Precedes(p, x, i) ==> PrecedesAll(p, x, s)
    ensures Descending(p, r) && i !in r ==> Descending(p, s)
  {
    if r == [] then [i]
    else if Precedes(p, i, r[0]) then [i] + r
    else
      var t := Insert(p, r[1..], i);
      assert forall x :: x in r <==> x == r[0] || x in r[1..];
      assert Descending(p, r) && i !in r ==> PrecedesAll(p, r[0], r[1..]) && Precedes(p, r[0], i);
      [r[0]] + t
  }

  /** The descending argsort of the first n indices. */
  function ArgSortDescTo(p: seq<real>, n: nat): (s: seq<nat>)
    requires n <= |p|
    ensures |s| == n && Indices(p, s) && Descending(p, s)
    ensures forall x: nat :: x in s <==> x < n
  {
    if n == 0 then []
    else
      var r := ArgSortDescTo(p, n - 1);
      assert n - 1 !in r;
      Insert(p, r, n - 1)
  }

  /**
   * `np.argsort(p)[::-1]`: every index exactly once, ordered by descending probability.
   */
  function ArgSortDesc(p: seq<real>): (s: seq<nat>)
    ensures |s| == |p| && Indices(p, s) && Descending(p, s)
    ensures forall x: nat :: x in s <==> x < |p|
  {
    ArgSortDescTo(p, |p|)
  }

  /** An index further down the descending order has a probability no larger. */
  lemma DescendingIsMonotone(p: seq<real>, s: seq<nat>, a: nat, b: nat)
    requires Indices(p, s) && Descending(p, s) && a <= b < |s|
    ensures p[s[b]] <= p[s[a]]
  {
    if a < b {
      assert Precedes(p, s[a], s[b]);
    }
  }

  /** The first index of the descending order holds the maximum probability. */
  lemma SortedFirstIsMax(p: seq<real>)
    requires |p| > 0
    ensures p[ArgSortDesc(p)[0]] == MaxProb(p)
  {
    var s, m := ArgSortDesc(p), ArgMax(p);
    assert m in s;
    var b :| 0 <= b < |s| && s[b] == m;
    DescendingIsMonotone(p, s, 0, b);
  }

  /** When the maximum is attained only once, argmax and the head of the argsort agree. */
  lemma UniqueMaxHeadsSort(p: seq<real>)
    requires |p| > 0
    requires forall j :: 0 <= j < |p| && j != ArgMax(p) ==> p[j] < p[ArgMax(p)]
    ensures ArgSortDesc(p)[0] == ArgMax(p)
  {
    SortedFirstIsMax(p);
  }

  /** `sorted_idx[:3]`: the (up to) three most probable indices, most probable first. */
  function Top3(p: seq<real>): (t: seq<nat>)
    ensures |t| == if |p| < 3 then |p| else 3
    ensures Indices(p, t) && Descending(p, t)
    ensures forall a, j :: 0 <= a < |t| && 0 <= j < |p| && j !in t ==> p[j] <= p[t[a]]
  {
    var s := ArgSortDesc(p);
    var n := if |p| < 3 then |p| else 3;
    var t := s[..n];
    forall a, j | 0 <= a < n && 0 <= j < |p| && j !in t ensures p[j] <= p[t[a]] {
      assert j in s;
      var b :| 0 <= b < |s| && s[b] == j;
      assert b >= n;
      DescendingIsMonotone(p, s, a, b);
    }
    t
  }

  // ---------------------------------------------------------------------------
  // The alternatives of `_on_prediction`
  // ---------------------------------------------------------------------------

  /** Probabilities at or below this are not listed as alternatives. */
  const AlternativeFloor: real := 0.005

  /** The entries of `top`, in order, other than `pred` and with probability above the floor. */
  function KeptAlternatives(p: seq<real>, pred: nat, top: seq<nat>): (a: seq<nat>)
    requires Indices(p, top)
    ensures |a| <= |top| && Indices(p, a)
  {
    if top == [] then []
    else
      var last := top[|top| - 1];
      KeptAlternatives(p, pred, top[..|top| - 1]) +
        (if last != pred && p[last] > AlternativeFloor then [last] else [])
  }

  /** An index is kept exactly when it is in the list, is not `pred`, and is above the floor. */
  lemma {:induction false} KeptMembers(p: seq<real>, pred: nat, top: seq<nat>)
    requires Indices(p, top)
    ensures forall x :: x in KeptAlternatives(p, pred, top) <==>
                        x in top && x != pred && p[x] > AlternativeFloor
  {
    if top != [] {
      var last, init := top[|top| - 1], top[..|top| - 1];
      KeptMembers(p, pred, init);
      assert top == init + [last];
    }
  }

  /** The loop of `_on_prediction` that builds the alternatives list from the top 3. */
  method Alternatives(p: seq<real>, pred: nat, top: seq<nat>) returns (alts: seq<nat>)
    requires Indices(p, top)
    ensures alts == KeptAlternatives(p, pred, top)
  {
    alts := [];
    var i := 0;
    while i < |top|
      invariant 0 <= i <= |top|
      invariant alts == KeptAlternatives(p, pred, top[..i])
    {
      var idx := top[i];
      assert top[..i + 1][..i] == top[..i];
      if idx != pred && p[idx] > AlternativeFloor {
        alts := alts + [idx];
      }
      i := i + 1;
    }
    assert top[..|top|] == top;
  }

  /** Dropping an index present in the list leaves fewer alternatives than entries. */
  lemma {:induction false} AlternativesShorter(p: seq<real>, pred: nat, top: seq<nat>)
    requires Indices(p, top) && pred in top
    ensures |KeptAlternatives(p, pred, top)| < |top|
  {
    var last, init := top[|top| - 1], top[..|top| - 1];
    assert top == init + [last];
    if last != pred {
      assert pred in init;
      AlternativesShorter(p, pred, init);
    }
  }

  /** When every entry of the list qualifies, every entry is kept. */
  lemma {:induction false} AllKept(p: seq<real>, pred: nat, top: seq<nat>)
    requires Indices(p, top)
    requires forall k :: 0 <= k < |top| ==> top[k] != pred && p[top[k]] > AlternativeFloor
    ensures KeptAlternatives(p, pred, top) == top
  {
    if top != [] {
      AllKept(p, pred, top[..|top| - 1]);
      assert top == top[..|top| - 1] + [top[|top| - 1]];
    }
  }

  /** When one digit is strictly most probable it heads the top 3, so at most two alternatives remain. */
  lemma AtMostTwoAlternatives(p: seq<real>)
    requires |p| > 0
    requires forall j :: 0 <= j < |p| && j != ArgMax(p) ==> p[j] < p[ArgMax(p)]
    ensures |KeptAlternatives(p, ArgMax(p), Top3(p))| <= 2
  {
    UniqueMaxHeadsSort(p);
    var t := Top3(p);
    assert t[0] == ArgSortDesc(p)[0];
    AlternativesShorter(p, ArgMax(p), t);
  }

  /** With every probability equal, the descending argsort lists the indices from the last down. */
  lemma {:induction false} TiedSortReversed(p: seq<real>, n: nat)
    requires n <= |p| && forall i :: 0 <= i < |p| ==> p[i] == p[0]
    ensures forall k :: 0 <= k < n ==> ArgSortDescTo(p, n)[k] == n - 1 - k
  {
    if n > 0 {
      TiedSortReversed(p, n - 1);
      var r := ArgSortDescTo(p, n - 1);
      if r != [] {
        assert Precedes(p, n - 1, r[0]);
      }
    }
  }

  /**
   * With four or more digits tied for the maximum (a uniform output, say), argmax picks
   * digit 0 while the top 3 of the reversed argsort are the three last digits: three
   * alternatives are listed, each as probable as the prediction.
   */
  lemma UniformListsThree(p: seq<real>)
    requires |p| >= 4 && forall i :: 0 <= i < |p| ==> p[i] == p[0]
    requires p[0] > AlternativeFloor
    ensures ArgMax(p) == 0
    ensures var n := |p|; Top3(p) == [n - 1, n - 2, n - 3]
    ensures KeptAlternatives(p, ArgMax(p), Top3(p)) == Top3(p)
  {
    var n := |p|;
    ArgMaxUnique(p, 0);
    TiedTop3(p);
    AllKept(p, 0, [n - 1, n - 2, n - 3]);
  }

  /** With every probability equal, the top 3 are the three last indices. */
  lemma TiedTop3(p: seq<real>)
    requires |p| >= 3 && forall i :: 0 <= i < |p| ==> p[i] == p[0]
    ensures var n := |p|; Top3(p) == [n - 1, n - 2, n - 3]
  {
    var n := |p|;
    TiedSortReversed(p, n);
    var s := ArgSortDesc(p);
    assert s[0] == n - 1 && s[1] == n - 2 && s[2] == n - 3;
    assert Top3(p) == s[..3];
  }

  // ---------------------------------------------------------------------------
  // The probability dialog
  // ---------------------------------------------------------------------------

  /** The four colour schemes of a bar: green, blue, orange, grey. */
  datatype BarClass = MaxBar | HighBar | MediumBar | LowBar

  const HighThreshold: real := 0.3
  const MediumThreshold: real := 0.1

  /** The class of bar i, given the index of the maximum. */
  function BarClassOf(p: seq<real>, maxIdx: nat, i: nat): (c: BarClass)
    requires i < |p|
    ensures c == MaxBar <==> i == maxIdx
    ensures c == HighBar <==> i != maxIdx && p[i] > HighThreshold
    ensures c == MediumBar <==> i != maxIdx && MediumThreshold < p[i] <= HighThreshold
    ensures c == LowBar <==> i != maxIdx && p[i] <= MediumThreshold
  {
    if i == maxIdx then MaxBar
    else if p[i] > HighThreshold then HighBar
    else if p[i] > MediumThreshold then MediumBar
    else LowBar
  }

  /** The dialog's loop over the bars: the argmax bar is green, the others by threshold. */
  method ClassifyBars(p: seq<real>) returns (classes: seq<BarClass>)
    requires |p| > 0
    ensures |classes| == |p|
    ensures forall i :: 0 <= i < |p| ==> classes[i] == BarClassOf(p, ArgMax(p), i)
  {
    var maxIdx := ArgMax(p);
    classes := [];
    var i := 0;
    while i < |p|
      invariant 0 <= i <= |p|
      invariant |classes| == i
      invariant forall k :: 0 <= k < i ==> classes[k] == BarClassOf(p, maxIdx, k)
    {
      var c: BarClass;
      if i == maxIdx {
        c := MaxBar;
      } else if p[i] > HighThreshold {
        c := HighBar;
      } else if p[i] > MediumThreshold {
        c := MediumBar;
      } else {
        c := LowBar;
      }
      classes := classes + [c];
      i := i + 1;
    }
  }

  /** The number of entries among the first n above t. */
  function CountAbove(p: seq<real>, t: real, n: nat): nat
    requires n <= |p|
  {
    if n == 0 then 0 else CountAbove(p, t, n - 1) + (if p[n - 1] > t then 1 else 0)
  }

  /** The number of blue (high) bars among the first n. */
  function HighBars(p: seq<real>, maxIdx: nat, n: nat): nat
    requires n <= |p|
  {
    if n == 0 then 0
    else HighBars(p, maxIdx, n - 1) + (if BarClassOf(p, maxIdx, n - 1) == HighBar then 1 else 0)
  }

  /** Every entry above t weighs more than t: together they weigh at least their count times t. */
  lemma {:induction false} CountAboveBound(p: seq<real>, t: real, n: nat)
    requires n <= |p| && NonNegativeScores(p) && t >= 0.0
    ensures CountAbove(p, t, n) as real * t <= SumTo(p, n)
  {
    if n > 0 {
      CountAboveBound(p, t, n - 1);
      var c := CountAbove(p, t, n - 1) as real;
      assert (c + 1.0) * t == c * t + t;
    }
  }

  /** No entry lies above t when the maximum does not. */
  lemma {:induction false} NoneAbove(p: seq<real>, t: real, n: nat)
    requires n <= |p| && forall i :: 0 <= i < |p| ==> p[i] <= t
    ensures CountAbove(p, t, n) == 0
  {
    if n > 0 {
      NoneAbove(p, t, n - 1);
    }
  }

  /** The high bars are the entries above the threshold, less the argmax bar when it is one. */
  lemma {:induction false} HighBarsSplit(p: seq<real>, maxIdx: nat, n: nat)
    requires n <= |p|
    ensures HighBars(p, maxIdx, n) + (if maxIdx < n && p[maxIdx] > HighThreshold then 1 else 0)
            == CountAbove(p, HighThreshold, n)
  {
    if n > 0 {
      HighBarsSplit(p, maxIdx, n - 1);
    }
  }

  /** A distribution has at most two blue bars: with the green one, at most three exceed 0.3. */
  lemma AtMostTwoHighBars(p: seq<real>)
    requires |p| > 0 && IsDistribution(p)
    ensures HighBars(p, ArgMax(p), |p|) <= 2
  {
    var m := ArgMax(p);
    HighBarsSplit(p, m, |p|);
    if p[m] > HighThreshold {
      CountAboveBound(p, HighThreshold, |p|);
    } else {
      NoneAbove(p, HighThreshold, |p|);
    }
  }

  /** `sorted_indices[1]` when there are at least two entries: the best after the head of the order. */
  function SecondBest(p: seq<real>): (s: Option<nat>)
    ensures s.None? <==> |p| < 2
    ensures s.Some? ==> s.value < |p| && s.value != ArgSortDesc(p)[0]
    ensures s.Some? ==> forall j :: 0 <= j < |p| && j != ArgSortDesc(p)[0] ==> p[j] <= p[s.value]
  {
    var r := ArgSortDesc(p);
    if |r| > 1 then
      forall j | 0 <= j < |p| && j != r[0] ensures p[j] <= p[r[1]] {
        assert j in r;
        var b :| 0 <= b < |r| && r[b] == j;
        DescendingIsMonotone(p, r, 1, b);
      }
      Some(r[1])
    else
      None
  }

  /**
   * The second-best line is shown only for a probability above 1%: exactly when some digit
   * other than the head of the order is above 1%.
   */
  function ShowsSecond(p: seq<real>): (b: bool)
    ensures b <==> |p| >= 2 && exists j :: 0 <= j < |p| && j != ArgSortDesc(p)[0] && p[j] > 0.01
  {
    var s := SecondBest(p);
    s.Some? && p[s.value] > 0.01
  }

  /** A strictly most probable digit is never repeated as the second best. */
  lemma SecondBestDiffersFromUniqueMax(p: seq<real>)
    requires |p| > 1
    requires forall j :: 0 <= j < |p| && j != ArgMax(p) ==> p[j] < p[ArgMax(p)]
    ensures SecondBest(p).value != ArgMax(p)
  {
    UniqueMaxHeadsSort(p);
  }

  /** With two digits tied, the dialog names digit 0 both as most probable and as second best. */
  lemma TiedPairRepeatsDigit()
    ensures var p := [0.5, 0.5];
            ArgMax(p) == 0 && SecondBest(p) == Some(0) && ShowsSecond(p)
  {
    var p := [0.5, 0.5];
    ArgMaxUnique(p, 0);
    TiedSortReversed(p, 2);
  }
}
