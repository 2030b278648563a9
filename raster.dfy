/**
 * Eight-bit grey images as row-major grids, and the Pillow operations the preprocessing
 * applies to them: `ImageOps.invert`, `Image.getbbox`, `Image.crop`, and the reading of a
 * resampler's output as an image of the requested size.
 */
module Raster {
  import opened Wrappers

  /** An 8-bit single-channel image, row-major: g[row][column]. */
  type Grid = seq<seq<int>>

  /** The same image after `np.array(...) / 255.0`, or any other real-valued grid. */
  type RealGrid = seq<seq<real>>

  /** A resampling filter (Lanczos, bicubic): source image, target width, target height. */
  type Resampler = (Grid, nat, nat) -> Grid

  /** `rows` rows, each `cols` long. */
  predicate IsShape<T>(g: seq<seq<T>>, rows: nat, cols: nat)
  {
    |g| == rows && forall r :: 0 <= r < rows ==> |g[r]| == cols
  }

  predicate IsPixel(p: int)
  {
    0 <= p <= 255
  }

  /** A rows x cols image whose every pixel is an 8-bit value. */
  predicate IsImage(g: Grid, rows: nat, cols: nat)
  {
    IsShape(g, rows, cols) &&
    forall r, c :: 0 <= r < rows && 0 <= c < cols ==> IsPixel(g[r][c])
  }

  /** Every pixel of the rows x cols image equals v. */
  predicate IsFilled(g: Grid, rows: nat, cols: nat, v: int)
  {
    IsShape(g, rows, cols) &&
    forall r, c :: 0 <= r < rows && 0 <= c < cols ==> g[r][c] == v
  }

  /** A rows x cols image filled with v (`Image.new(mode, size, v)`, `QImage.fill(v)`). */
  function Filled(rows: nat, cols: nat, v: int): (g: Grid)
    ensures IsFilled(g, rows, cols, v)
  {
    seq(rows, _ => seq(cols, _ => v))
  }

  /** Photometric inversion, `255 - p` on every pixel (`ImageOps.invert`, and NumPy's `255 - a`). */
  function Invert(g: Grid): (n: Grid)
    ensures |n| == |g| && forall r :: 0 <= r < |g| ==> |n[r]| == |g[r]|
    ensures forall r, c :: 0 <= r < |g| && 0 <= c < |g[r]| ==> n[r][c] == 255 - g[r][c]
  {
    seq(|g|, r requires 0 <= r < |g| => seq(|g[r]|, c requires 0 <= c < |g[r]| => 255 - g[r][c]))
  }

  /** Inversion maps 8-bit images to 8-bit images of the same shape. */
  lemma InvertKeepsImage(g: Grid, rows: nat, cols: nat)
    requires IsImage(g, rows, cols)
    ensures IsImage(Invert(g), rows, cols)
  {
  }

  /** Inverting twice gives back the original image. */
  lemma InvertInvolution(g: Grid)
    ensures Invert(Invert(g)) == g
  {
    var n := Invert(Invert(g));
    assert |n| == |g|;
    forall r | 0 <= r < |g| ensures n[r] == g[r] {
      assert |n[r]| == |g[r]|;
    }
  }

  /** Clipping to 0..255, as Pillow stores a filter's output in an 8-bit image. */
  function Clamp(p: int): (q: int)
    ensures IsPixel(q)
    ensures IsPixel(p) ==> q == p
    ensures p < 0 ==> q == 0
    ensures p > 255 ==> q == 255
  {
    if p < 0 then 0 else if p > 255 then 255 else p
  }

  /**
   * A filter's output read as the rows x cols 8-bit image that `Image.resize` always
   * returns: values clipped to 0..255, positions the filter did not supply read as 0.
   */
  function Fit(g: Grid, rows: nat, cols: nat): (f: Grid)
    ensures IsImage(f, rows, cols)
    ensures IsImage(g, rows, cols) ==> f == g
  {
    var f := seq(rows, r requires 0 <= r < rows =>
               seq(cols, c requires 0 <= c < cols =>
                 if r < |g| && c < |g[r]| then Clamp(g[r][c]) else 0));
    assert IsImage(g, rows, cols) ==> forall r | 0 <= r < rows :: f[r] == g[r];
    f
  }

  /** A box in Pillow's convention: columns left..right-1, rows upper..lower-1. */
  datatype Box = Box(left: nat, upper: nat, right: nat, lower: nat)

  /** Row r of the image holds a non-zero pixel. */
  predicate RowHasInk(g: Grid, rows: nat, cols: nat, r: nat)
    requires IsShape(g, rows, cols) && r < rows
  {
    exists c :: 0 <= c < cols && g[r][c] != 0
  }

  /** Column c of the image holds a non-zero pixel. */
  predicate ColHasInk(g: Grid, rows: nat, cols: nat, c: nat)
    requires IsShape(g, rows, cols) && c < cols
  {
    exists r :: 0 <= r < rows && g[r][c] != 0
  }

  function RowFlags(g: Grid, rows: nat, cols: nat): (f: seq<bool>)
    requires IsShape(g, rows, cols)
    ensures |f| == rows && forall r :: 0 <= r < rows ==> f[r] == RowHasInk(g, rows, cols, r)
  {
    seq(rows, r requires 0 <= r < rows => RowHasInk(g, rows, cols, r))
  }

  function ColFlags(g: Grid, rows: nat, cols: nat): (f: seq<bool>)
    requires IsShape(g, rows, cols)
    ensures |f| == cols && forall c :: 0 <= c < cols ==> f[c] == ColHasInk(g, rows, cols, c)
  {
    seq(cols, c requires 0 <= c < cols => ColHasInk(g, rows, cols, c))
  }

  /** b is the smallest box holding every non-zero pixel of the rows x cols image g. */
  predicate IsTightBox(g: Grid, rows: nat, cols: nat, b: Box)
    requires IsShape(g, rows, cols)
  {
    && b.upper < b.lower <= rows && b.left < b.right <= cols
    && (forall r, c :: 0 <= r < rows && 0 <= c < cols && g[r][c] != 0 ==>
          b.upper <= r < b.lower && b.left <= c < b.right)
    && RowHasInk(g, rows, cols, b.upper) && RowHasInk(g, rows, cols, b.lower - 1)
    && ColHasInk(g, rows, cols, b.left) && ColHasInk(g, rows, cols, b.right - 1)
  }

  /** Index of the first true flag, if any. */
  function First(flags: seq<bool>): (i: Option<nat>)
    ensures i.None? <==> forall j :: 0 <= j < |flags| ==> !flags[j]
    ensures i.Some? ==> i.value < |flags| && flags[i.value] &&
                        forall j :: 0 <= j < i.value ==> !flags[j]
  {
    if flags == [] then None
    else if flags[0] then Some(0)
    else match First(flags[1..])
      case None => None
      case Some(k) => Some(k + 1)
  }

  /** Index of the last true flag, if any. */
  function Last(flags: seq<bool>): (i: Option<nat>)
    ensures i.None? <==> forall j :: 0 <= j < |flags| ==> !flags[j]
    ensures i.Some? ==> i.value < |flags| && flags[i.value] &&
                        forall j :: i.value < j < |flags| ==> !flags[j]
  {
    if flags == [] then None
    else if flags[|flags| - 1] then Some(|flags| - 1)
    else Last(flags[..|flags| - 1])
  }

  /**
   * `Image.getbbox()`: the bounding box of the non-zero pixels, or None when every pixel is 0.
   */
  function GetBBox(g: Grid, rows: nat, cols: nat): (b: Option<Box>)
    requires IsShape(g, rows, cols)
    ensures b.None? <==> forall r, c :: 0 <= r < rows && 0 <= c < cols ==> g[r][c] == 0
    ensures b.Some? ==> IsTightBox(g, rows, cols, b.value)
  {
    var rowInk := RowFlags(g, rows, cols);
    var colInk := ColFlags(g, rows, cols);
    FlagsLocateInk(g, rows, cols);
    var top, bottom := First(rowInk), Last(rowInk);
    var left, right := First(colInk), Last(colInk);
    if top.Some? && bottom.Some? && left.Some? && right.Some? then
      Some(Box(left.value, top.value, right.value + 1, bottom.value + 1))
    else
      None
  }

  /** Every non-zero pixel lies between the first and last flagged row and column. */
  lemma FlagsLocateInk(g: Grid, rows: nat, cols: nat)
    requires IsShape(g, rows, cols)
    ensures var top, bottom := First(RowFlags(g, rows, cols)), Last(RowFlags(g, rows, cols));
            var left, right := First(ColFlags(g, rows, cols)), Last(ColFlags(g, rows, cols));
            forall r, c :: 0 <= r < rows && 0 <= c < cols && g[r][c] != 0 ==>
              && top.Some? && bottom.Some? && left.Some? && right.Some?
              && top.value <= r <= bottom.value && left.value <= c <= right.value
  {
    var fr, fc := RowFlags(g, rows, cols), ColFlags(g, rows, cols);
    var top, bottom, left, right := First(fr), Last(fr), First(fc), Last(fc);
    forall r, c | 0 <= r < rows && 0 <= c < cols && g[r][c] != 0
      ensures && top.Some? && bottom.Some? && left.Some? && right.Some?
              && top.value <= r <= bottom.value && left.value <= c <= right.value
    {
      assert RowHasInk(g, rows, cols, r);
      assert ColHasInk(g, rows, cols, c);
      assert fr[r] && fc[c];
    }
  }

  /** There is only one tight box: GetBBox's answer is the bounding box. */
  lemma TightBoxUnique(g: Grid, rows: nat, cols: nat, b1: Box, b2: Box)
    requires IsShape(g, rows, cols)
    requires IsTightBox(g, rows, cols, b1) && IsTightBox(g, rows, cols, b2)
    ensures b1 == b2
  {
    var c1 :| 0 <= c1 < cols && g[b1.upper][c1] != 0;
    var c2 :| 0 <= c2 < cols && g[b2.upper][c2] != 0;
    var c3 :| 0 <= c3 < cols && g[b1.lower - 1][c3] != 0;
    var c4 :| 0 <= c4 < cols && g[b2.lower - 1][c4] != 0;
    var r1 :| 0 <= r1 < rows && g[r1][b1.left] != 0;
    var r2 :| 0 <= r2 < rows && g[r2][b2.left] != 0;
    var r3 :| 0 <= r3 < rows && g[r3][b1.right - 1] != 0;
    var r4 :| 0 <= r4 < rows && g[r4][b2.right - 1] != 0;
  }

  /** `Image.crop(b)`: the rows upper..lower-1 and columns left..right-1 of g. */
  function Crop(g: Grid, rows: nat, cols: nat, b: Box): (k: Grid)
    requires IsShape(g, rows, cols)
    requires b.upper <= b.lower <= rows && b.left <= b.right <= cols
    ensures IsShape(k, b.lower - b.upper, b.right - b.left)
    ensures forall r, c :: 0 <= r < b.lower - b.upper && 0 <= c < b.right - b.left ==>
              k[r][c] == g[b.upper + r][b.left + c]
  {
    seq(b.lower - b.upper, r requires 0 <= r < b.lower - b.upper => g[b.upper + r][b.left .. b.right])
  }

  /** Cropping keeps an 8-bit image 8-bit. */
  lemma CropKeepsImage(g: Grid, rows: nat, cols: nat, b: Box)
    requires IsImage(g, rows, cols)
    requires b.upper <= b.lower <= rows && b.left <= b.right <= cols
    ensures IsImage(Crop(g, rows, cols, b), b.lower - b.upper, b.right - b.left)
  {
  }
}
