/**
 * What the integer translation of `shift` does to the intensity-weighted centroid that
 * `get_best_shift` computes: a translation that loses no ink keeps the mass and moves the
 * centroid by exactly the translation, so the best shift brings the centroid to within half
 * a pixel of the frame centre, and asking for the best shift again gives (0, 0).
 */
module Centering {
  import opened Wrappers
  import opened Numeric
  import opened Raster
  import opened Preprocess

  // ---------------------------------------------------------------------------
  // One dimension
  // ---------------------------------------------------------------------------

  /** s moved k places towards the end (towards the start when k < 0), zeros entering at the
      vacated places. */
  function ShiftSeq(s: seq<real>, k: int): (t: seq<real>)
    ensures |t| == |s|
    ensures forall i :: 0 <= i < |s| ==> t[i] == if 0 <= i - k < |s| then s[i - k] else 0.0
  {
    seq(|s|, i requires 0 <= i < |s| => if 0 <= i - k < |s| then s[i - k] else 0.0)
  }

  /** Moving s by k pushes none of its non-zero elements off either end. */
  predicate KeepsSeq(s: seq<real>, k: int)
  {
    forall j :: 0 <= j < |s| && s[j] != 0.0 ==> 0 <= j + k < |s|
  }

  /** A move that loses nothing keeps the sum and adds k times the sum to the moment. */
  lemma ShiftSeqMoments(s: seq<real>, k: int)
    requires KeepsSeq(s, k)
    ensures Sum(ShiftSeq(s, k)) == Sum(s)
    ensures Moment(ShiftSeq(s, k)) == Moment(s) + k as real * Sum(s)
  {
    var n := |s|;
    if k >= n || k <= -n {
      ShiftOut(s, k);
    } else if k >= 0 {
      ShiftTowardsEnd(s, k);
    } else {
      ShiftTowardsStart(s, k);
    }
  }

  /** A move by the whole length or more loses nothing only from an all-zero sequence. */
  lemma ShiftOut(s: seq<real>, k: int)
    requires KeepsSeq(s, k) && (k >= |s| || k <= -|s|)
    ensures Sum(ShiftSeq(s, k)) == Sum(s) == 0.0
    ensures Moment(ShiftSeq(s, k)) == Moment(s) == 0.0
  {
    assert AllZero(s);
    AllZeroSums(s);
    assert AllZero(ShiftSeq(s, k));
    AllZeroSums(ShiftSeq(s, k));
  }

  lemma ShiftTowardsEnd(s: seq<real>, k: nat)
    requires KeepsSeq(s, k) && k < |s|
    ensures Sum(ShiftSeq(s, k)) == Sum(s)
    ensures Moment(ShiftSeq(s, k)) == Moment(s) + k as real * Sum(s)
  {
    ShiftedUp(s, ShiftSeq(s, k), k, |s|);
    ZeroStretch(s, |s| - k, |s|);
  }

  lemma ShiftTowardsStart(s: seq<real>, k: int)
    requires KeepsSeq(s, k) && -|s| < k < 0
    ensures Sum(ShiftSeq(s, k)) == Sum(s)
    ensures Moment(ShiftSeq(s, k)) == Moment(s) + k as real * Sum(s)
  {
    var n, t, j: nat := |s|, ShiftSeq(s, k), -k;
    ZeroStretch(s, 0, j);
    ShiftedDown(s, t, j, n - j);
    ZeroStretch(t, n - j, n);
    Unshift(s, t, j, k);
  }

  /**
   * t is s moved k >= 0 places towards the end: its first n elements hold s's first n - k,
   * each k places further on.
   */
  lemma {:induction false} ShiftedUp(s: seq<real>, t: seq<real>, k: nat, n: nat)
    requires |t| == |s| && k <= n <= |s|
    requires forall i :: 0 <= i < |s| ==> t[i] == if 0 <= i - k < |s| then s[i - k] else 0.0
    ensures SumTo(t, n) == SumTo(s, n - k)
    ensures MomentTo(t, n) == MomentTo(s, n - k) + k as real * SumTo(s, n - k)
  {
    if n == k {
      ZeroStretch(t, 0, k);
    } else {
      ShiftedUp(s, t, k, n - 1);
      var m := n - k;
      StepUp(MomentTo(s, m - 1), SumTo(s, m - 1), s[m - 1], m, k);
    }
  }

  /** One step of ShiftedUp: the element at m - 1 of s, weighted by its new index m - 1 + k. */
  lemma StepUp(ms: real, ss: real, x: real, m: nat, k: nat)
    requires m > 0
    ensures ms + k as real * ss + (m - 1 + k) as real * x ==
            (ms + (m - 1) as real * x) + k as real * (ss + x)
  {
  }

  /**
   * t is s moved j > 0 places towards the start, s starting with j zeros: t's first m
   * elements hold s's first m + j, each j places earlier.
   */
  lemma {:induction false} ShiftedDown(s: seq<real>, t: seq<real>, j: nat, m: nat)
    requires |t| == |s| && m + j <= |s|
    requires forall i :: 0 <= i < |s| ==> t[i] == if 0 <= i + j < |s| then s[i + j] else 0.0
    requires SumTo(s, j) == 0.0 && MomentTo(s, j) == 0.0
    ensures SumTo(t, m) == SumTo(s, m + j)
    ensures MomentTo(t, m) + j as real * SumTo(s, m + j) == MomentTo(s, m + j)
  {
    if m > 0 {
      ShiftedDown(s, t, j, m - 1);
      StepDown(MomentTo(t, m - 1), SumTo(s, m - 1 + j), s[m - 1 + j], m, j);
    }
  }

  /** One step of ShiftedDown: the element at m - 1 + j of s, weighted by its new index m - 1. */
  lemma StepDown(mt: real, ss: real, x: real, m: nat, j: nat)
    requires m > 0
    ensures (mt + (m - 1) as real * x) + j as real * (ss + x) ==
            (mt + j as real * ss) + (m - 1 + j) as real * x
  {
  }

  /** Moment(t) + j * Sum(s) == Moment(s) with j == -k is Moment(t) == Moment(s) + k * Sum(s). */
  lemma Unshift(s: seq<real>, t: seq<real>, j: nat, k: int)
    requires j == -k && Moment(t) + j as real * Sum(s) == Moment(s)
    ensures Moment(t) == Moment(s) + k as real * Sum(s)
  {
    NegatedFactor(j, k, Sum(s));
  }

  lemma NegatedFactor(j: nat, k: int, x: real)
    requires j == -k
    ensures k as real * x == -(j as real * x)
  {
  }

  /** A non-zero sum has a non-zero element. */
  lemma NonZeroSumHasNonZero(s: seq<real>) returns (j: nat)
    requires Sum(s) != 0.0
    ensures j < |s| && s[j] != 0.0
  {
    if AllZero(s) {
      AllZeroSums(s);
      assert false;
    }
    j :| 0 <= j < |s| && s[j] != 0.0;
  }

  // ---------------------------------------------------------------------------
  // Two dimensions
  // ---------------------------------------------------------------------------

  /** Translating g by (sx, sy) pushes none of its non-zero pixels out of the frame. */
  predicate KeepsInk(g: RealGrid, rows: nat, cols: nat, sx: int, sy: int)
    requires IsShape(g, rows, cols)
  {
    forall r, c :: 0 <= r < rows && 0 <= c < cols && g[r][c] != 0.0 ==>
      0 <= r + sy < rows && 0 <= c + sx < cols
  }

  /** Each row of a translated grid is a source row moved by sx, or a row of zeros. */
  lemma ShiftRows(g: RealGrid, rows: nat, cols: nat, sx: int, sy: int, r: nat)
    requires IsShape(g, rows, cols) && r < rows
    ensures Shift(g, rows, cols, sx, sy)[r] ==
              if 0 <= r - sy < rows then ShiftSeq(g[r - sy], sx) else Zeros(cols)
  {
  }

  /** The row masses of the translated grid are the row masses moved by sy. */
  lemma ShiftRowSums(g: RealGrid, rows: nat, cols: nat, sx: int, sy: int)
    requires IsShape(g, rows, cols) && KeepsInk(g, rows, cols, sx, sy)
    ensures RowSums(Shift(g, rows, cols, sx, sy)) == ShiftSeq(RowSums(g), sy)
    ensures KeepsSeq(RowSums(g), sy)
  {
    var h := Shift(g, rows, cols, sx, sy);
    forall r | 0 <= r < rows ensures RowSums(h)[r] == ShiftSeq(RowSums(g), sy)[r] {
      ShiftRows(g, rows, cols, sx, sy, r);
      if 0 <= r - sy < rows {
        RowKeeps(g, rows, cols, sx, sy, r - sy);
        ShiftSeqMoments(g[r - sy], sx);
      } else {
        AllZeroSums(Zeros(cols));
      }
    }
    forall j | 0 <= j < rows && RowSums(g)[j] != 0.0 ensures 0 <= j + sy < rows {
      var c := NonZeroSumHasNonZero(g[j]);
    }
  }

  /** The column moments of the translated grid are the row moments, each increased by sx
      times the row's mass, moved by sy. */
  lemma ShiftRowMoments(g: RealGrid, rows: nat, cols: nat, sx: int, sy: int)
    requires IsShape(g, rows, cols) && KeepsInk(g, rows, cols, sx, sy)
    ensures RowMoments(Shift(g, rows, cols, sx, sy)) ==
              ShiftSeq(AddScaled(RowMoments(g), RowSums(g), sx as real), sy)
    ensures KeepsSeq(AddScaled(RowMoments(g), RowSums(g), sx as real), sy)
  {
    var h := Shift(g, rows, cols, sx, sy);
    var w := AddScaled(RowMoments(g), RowSums(g), sx as real);
    forall r | 0 <= r < rows ensures RowMoments(h)[r] == ShiftSeq(w, sy)[r] {
      if 0 <= r - sy < rows {
        ShiftedRowMoment(g, rows, cols, sx, sy, r);
      } else {
        ShiftRows(g, rows, cols, sx, sy, r);
        AllZeroSums(Zeros(cols));
      }
    }
    forall j | 0 <= j < rows && w[j] != 0.0 ensures 0 <= j + sy < rows {
      if AllZero(g[j]) {
        AllZeroSums(g[j]);
        assert false;
      }
      var c :| 0 <= c < cols && g[j][c] != 0.0;
    }
  }

  /** A row of the translated grid that comes from row r - sy has that row's moment plus sx
      times its mass. */
  lemma ShiftedRowMoment(g: RealGrid, rows: nat, cols: nat, sx: int, sy: int, r: nat)
    requires IsShape(g, rows, cols) && KeepsInk(g, rows, cols, sx, sy)
    requires r < rows && 0 <= r - sy < rows
    ensures RowMoments(Shift(g, rows, cols, sx, sy))[r] ==
              RowMoments(g)[r - sy] + sx as real * RowSums(g)[r - sy]
  {
    ShiftedRow(g, rows, cols, sx, sy, r);
  }

  /** The same, row by row. */
  lemma ShiftedRow(g: RealGrid, rows: nat, cols: nat, sx: int, sy: int, r: nat)
    requires IsShape(g, rows, cols) && KeepsInk(g, rows, cols, sx, sy)
    requires r < rows && 0 <= r - sy < rows
    ensures Sum(Shift(g, rows, cols, sx, sy)[r]) == Sum(g[r - sy])
    ensures Moment(Shift(g, rows, cols, sx, sy)[r]) == Moment(g[r - sy]) + sx as real * Sum(g[r - sy])
  {
    ShiftRows(g, rows, cols, sx, sy, r);
    RowKeeps(g, rows, cols, sx, sy, r - sy);
    MovedRow(Shift(g, rows, cols, sx, sy)[r], g[r - sy], sx);
  }

  /** ShiftSeqMoments for a row t known to be s moved by k. */
  lemma MovedRow(t: seq<real>, s: seq<real>, k: int)
    requires t == ShiftSeq(s, k) && KeepsSeq(s, k)
    ensures Sum(t) == Sum(s) && Moment(t) == Moment(s) + k as real * Sum(s)
  {
    ShiftSeqMoments(s, k);
  }

  /** A row of a grid translated without loss loses nothing when moved by sx. */
  lemma RowKeeps(g: RealGrid, rows: nat, cols: nat, sx: int, sy: int, r: nat)
    requires IsShape(g, rows, cols) && KeepsInk(g, rows, cols, sx, sy) && r < rows
    ensures KeepsSeq(g[r], sx)
  {
  }

  /**
   * A translation by (sx, sy) that loses no ink keeps the mass and moves the row moment by
   * sy times the mass and the column moment by sx times the mass.
   */
  lemma ShiftMoments(g: RealGrid, rows: nat, cols: nat, sx: int, sy: int)
    requires IsShape(g, rows, cols) && KeepsInk(g, rows, cols, sx, sy)
    ensures Mass(Shift(g, rows, cols, sx, sy)) == Mass(g)
    ensures RowMoment(Shift(g, rows, cols, sx, sy)) == RowMoment(g) + sy as real * Mass(g)
    ensures ColMoment(Shift(g, rows, cols, sx, sy)) == ColMoment(g) + sx as real * Mass(g)
  {
    ShiftRowAxis(g, rows, cols, sx, sy);
    ShiftColAxis(g, rows, cols, sx, sy);
  }

  lemma ShiftRowAxis(g: RealGrid, rows: nat, cols: nat, sx: int, sy: int)
    requires IsShape(g, rows, cols) && KeepsInk(g, rows, cols, sx, sy)
    ensures Mass(Shift(g, rows, cols, sx, sy)) == Mass(g)
    ensures RowMoment(Shift(g, rows, cols, sx, sy)) == RowMoment(g) + sy as real * Mass(g)
  {
    ShiftRowSums(g, rows, cols, sx, sy);
    ShiftSeqMoments(RowSums(g), sy);
  }

  lemma ShiftColAxis(g: RealGrid, rows: nat, cols: nat, sx: int, sy: int)
    requires IsShape(g, rows, cols) && KeepsInk(g, rows, cols, sx, sy)
    ensures ColMoment(Shift(g, rows, cols, sx, sy)) == ColMoment(g) + sx as real * Mass(g)
  {
    ColMomentMoved(g, rows, cols, sx, sy);
    SumLinear(RowMoments(g), RowSums(g), sx as real);
  }

  /** The column moment of the translated grid sums the row moments raised by sx times the
      row masses. */
  lemma ColMomentMoved(g: RealGrid, rows: nat, cols: nat, sx: int, sy: int)
    requires IsShape(g, rows, cols) && KeepsInk(g, rows, cols, sx, sy)
    ensures ColMoment(Shift(g, rows, cols, sx, sy)) ==
              Sum(AddScaled(RowMoments(g), RowSums(g), sx as real))
  {
    ShiftRowMoments(g, rows, cols, sx, sy);
    ShiftSeqMoments(AddScaled(RowMoments(g), RowSums(g), sx as real), sy);
  }

  /** With mass, a lossless translation moves the centroid by exactly (sy, sx). */
  lemma ShiftMovesCentroid(g: RealGrid, rows: nat, cols: nat, sx: int, sy: int)
    requires IsShape(g, rows, cols) && KeepsInk(g, rows, cols, sx, sy) && Mass(g) != 0.0
    ensures Mass(Shift(g, rows, cols, sx, sy)) != 0.0
    ensures CenterOfMass(Shift(g, rows, cols, sx, sy)) ==
              (CenterOfMass(g).0 + sy as real, CenterOfMass(g).1 + sx as real)
  {
    var h := Shift(g, rows, cols, sx, sy);
    ShiftMoments(g, rows, cols, sx, sy);
    var m := Mass(g);
    var cm := CenterOfMass(g);
    var cm' := CenterOfMass(h);
    assert cm'.0 * m == (cm.0 + sy as real) * m;
    assert cm'.1 * m == (cm.1 + sx as real) * m;
    CancelFactor(cm'.0, cm.0 + sy as real, m);
    CancelFactor(cm'.1, cm.1 + sx as real, m);
  }

  lemma CancelFactor(x: real, y: real, m: real)
    requires m != 0.0 && x * m == y * m
    ensures x == y
  {
    assert (x - y) * m == 0.0;
  }

  /**
   * `get_best_shift` then `shift`, when no ink is lost: the new centroid is within half a
   * pixel of the frame centre (cols / 2, rows / 2) on both axes, and `get_best_shift` of the
   * result is (0, 0): centring an already centred image does not move it.
   */
  lemma BestShiftCentres(g: RealGrid, rows: nat, cols: nat)
    requires IsShape(g, rows, cols) && BestShift(g, rows, cols).Ok?
    requires var (sx, sy) := BestShift(g, rows, cols).value;
             KeepsInk(g, rows, cols, sx, sy)
    ensures var (sx, sy) := BestShift(g, rows, cols).value;
            var h := Shift(g, rows, cols, sx, sy);
            && Mass(h) != 0.0
            && -0.5 <= CenterOfMass(h).0 - rows as real / 2.0 <= 0.5
            && -0.5 <= CenterOfMass(h).1 - cols as real / 2.0 <= 0.5
            && BestShift(h, rows, cols) == Ok((0, 0))
  {
    var (sx, sy) := BestShift(g, rows, cols).value;
    var h := Shift(g, rows, cols, sx, sy);
    ShiftMovesCentroid(g, rows, cols, sx, sy);
    var cm := CenterOfMass(h);
    RoundNearZero(cols as real / 2.0 - cm.1);
    RoundNearZero(rows as real / 2.0 - cm.0);
  }

  /**
   * The tensor `preprocess_image` returns holds the framed image translated by its best
   * shift; when that translation loses no ink, its centroid is within half a pixel of
   * (14, 14) and a second centring would not move it.
   */
  lemma PreprocessCentres(canvas: Grid, f: Filters)
    requires BestShift(Framed(canvas, f), Side, Side).Ok?
    requires var (sx, sy) := BestShift(Framed(canvas, f), Side, Side).value;
             KeepsInk(Framed(canvas, f), Side, Side, sx, sy)
    ensures var a := Framed(canvas, f);
            var (sx, sy) := BestShift(a, Side, Side).value;
            var h := Shift(a, Side, Side, sx, sy);
            && PreprocessImage(canvas, f) == Ok(Reshape(h))
            && Mass(h) != 0.0
            && -0.5 <= CenterOfMass(h).0 - 14.0 <= 0.5
            && -0.5 <= CenterOfMass(h).1 - 14.0 <= 0.5
            && BestShift(h, Side, Side) == Ok((0, 0))
  {
    BestShiftCentres(Framed(canvas, f), Side, Side);
  }
}
