/**
 * The canvas-to-tensor preprocessing of the main window (`preprocess_image`,
 * `get_best_shift`, `shift`): resize to 28 x 28, invert, crop to a bounding box and
 * letterbox back to 28 x 28, move the intensity-weighted centroid to the middle by an
 * integer translation, and present the result as a (1, 28, 28, 1) tensor.
 */
module Preprocess {
  import opened Wrappers
  import opened Numeric
  import opened Raster

  /** The classifier's input side length. */
  const Side: nat := 28

  /** The two resampling filters Pillow applies: `Image.LANCZOS` for the first resize, and
      the bicubic default of `ImageOps.pad`. Both are parameters of the model. */
  datatype Filters = Filters(lanczos: Resampler, bicubic: Resampler)

  /** The centroid of a massless image is NaN, and `int(np.round(NaN))` raises. */
  datatype PreprocessError = ZeroMass

  /** The (1, rows, cols, 1) array the classifier is fed. */
  type Tensor = seq<seq<seq<seq<real>>>>

  // ---------------------------------------------------------------------------
  // Letterbox padding (`ImageOps.pad(img, (28, 28), color=0)`)
  // ---------------------------------------------------------------------------

  /** Where the resized content goes: its size and its top-left corner in the frame. */
  datatype Layout = Layout(width: nat, height: nat, x: nat, y: nat)

  /** Non-negative reals round to non-negative integers. */
  function RoundNat(x: real): (n: nat)
    requires x >= 0.0
    ensures n == RoundHalfEven(x)
  {
    RoundHalfEven(x)
  }

  /**
   * Pillow's `contain` followed by the paste position of `pad`, for a w x h image and a
   * square size x size frame. The longer side is scaled to the frame; the other side is
   * `round(short / long * size)`; the content is placed at `round((size - extent) * 0.5)`
   * along the axis that is not filled. Python's `round` sends ties to even.
   */
  function PadLayout(w: nat, h: nat, size: nat): (l: Layout)
    requires 0 < w && 0 < h
    ensures l.width <= size && l.height <= size
    ensures w <= size && h <= size ==> 0 < l.width && 0 < l.height
    ensures l.x + l.width <= size && l.y + l.height <= size
    ensures w >= h ==> l.width == size
    ensures h >= w ==> l.height == size
    ensures w > h ==> -0.5 <= l.height as real - (h * size) as real / w as real <= 0.5
    ensures h > w ==> -0.5 <= l.width as real - (w * size) as real / h as real <= 0.5
    ensures l.x == 0 || l.y == 0
    ensures -1 <= 2 * l.x - (size - l.width) <= 1
    ensures -1 <= 2 * l.y - (size - l.height) <= 1
  {
    if w == h then Layout(size, size, 0, 0)
    else if w > h then
      var nh := ScaledSide(h, w, size);
      if nh == size then Layout(size, size, 0, 0)
      else CentredOffset(size, nh); Layout(size, nh, 0, RoundNat((size - nh) as real * 0.5))
    else
      var nw := ScaledSide(w, h, size);
      if nw == size then Layout(size, size, 0, 0)
      else CentredOffset(size, nw); Layout(nw, size, RoundNat((size - nw) as real * 0.5), 0)
  }

  /**
   * Where the layout lies exactly halfway between two integers, the rounding went to the even
   * one: for the scaled short side and for the paste offset alike.
   */
  lemma PadLayoutTies(w: nat, h: nat, size: nat)
    requires 0 < w && 0 < h
    ensures var l := PadLayout(w, h, size);
            w > h ==>
              (l.height as real - (h * size) as real / w as real == 0.5 ||
               (h * size) as real / w as real - l.height as real == 0.5) ==> l.height % 2 == 0
    ensures var l := PadLayout(w, h, size);
            h > w ==>
              (l.width as real - (w * size) as real / h as real == 0.5 ||
               (w * size) as real / h as real - l.width as real == 0.5) ==> l.width % 2 == 0
    ensures var l := PadLayout(w, h, size);
            (2 * l.x - (size - l.width) == 1 || 2 * l.x - (size - l.width) == -1) ==> l.x % 2 == 0
    ensures var l := PadLayout(w, h, size);
            (2 * l.y - (size - l.height) == 1 || 2 * l.y - (size - l.height) == -1) ==> l.y % 2 == 0
  {
    if w > h {
      var nh := ScaledSide(h, w, size);
      if nh < size {
        CentredOffset(size, nh);
      }
    } else if h > w {
      var nw := ScaledSide(w, h, size);
      if nw < size {
        CentredOffset(size, nw);
      }
    }
  }

  /**
   * Content no larger than the frame keeps its own size, so that `Image.resize` returns a
   * copy, exactly when one of its sides already equals the frame's.
   */
  lemma PadLayoutKeepsSize(w: nat, h: nat, size: nat)
    requires 0 < w <= size && 0 < h <= size
    ensures var l := PadLayout(w, h, size);
            (l.width == w && l.height == h) <==> (w == size || h == size)
  {
    if w > h && w == size {
      SameScale(h, size);
    } else if h > w && h == size {
      SameScale(w, size);
    }
  }

  /** Scaling by size / size keeps a side: `round(n / size * size) == n`. */
  lemma SameScale(n: nat, size: nat)
    requires 0 < size
    ensures RoundHalfEven((n * size) as real / size as real) == n
  {
    assert (n * size) as real == n as real * size as real;
    assert (n * size) as real / size as real == n as real;
    RoundHalfEvenUnique(n as real, n);
  }

  /** `round(short / long * size)`: the short side of content scaled so its long side fills size. */
  function ScaledSide(short: nat, long: nat, size: nat): (n: nat)
    requires 0 < short < long
    ensures n <= size
    ensures long <= size ==> n >= 1
    ensures -0.5 <= n as real - (short * size) as real / long as real <= 0.5
    ensures (n as real - (short * size) as real / long as real == 0.5 ||
             (short * size) as real / long as real - n as real == 0.5) ==> n % 2 == 0
  {
    ScaledSideBounds(long, short, size);
    RoundNat((short * size) as real / long as real)
  }

  /** The paste offset of content of extent e < size centres it and keeps it in the frame. */
  lemma CentredOffset(size: nat, e: nat)
    requires e < size
    ensures var o := RoundHalfEven((size - e) as real * 0.5);
            && 0 <= o && o + e <= size && -1 <= 2 * o - (size - e) <= 1
            && ((2 * o - (size - e) == 1 || 2 * o - (size - e) == -1) ==> o % 2 == 0)
  {
    var o := RoundHalfEven((size - e) as real * 0.5);
    assert (size - e) as real * 0.5 >= 0.5;
    assert o as real <= (size - e) as real * 0.5 + 0.5;
    assert o as real >= (size - e) as real * 0.5 - 0.5;
  }

  /** The scaled short side stays within the frame and, for content no larger than the frame,
      is at least one pixel. */
  lemma ScaledSideBounds(long: nat, short: nat, size: nat)
    requires 0 < short < long
    ensures RoundHalfEven((short * size) as real / long as real) <= size
    ensures long <= size ==> RoundHalfEven((short * size) as real / long as real) >= 1
  {
    ProductBounds(short, long, size);
    QuotientBounds(short * size, long, size);
  }

  lemma ProductBounds(short: nat, long: nat, size: nat)
    requires 0 < short < long
    ensures short * size <= long * size
    ensures long <= size ==> short * size >= long
  {
  }

  /** p / long rounded: at most size when p <= long * size, at least 1 when p >= long. */
  lemma QuotientBounds(p: nat, long: nat, size: nat)
    requires 0 < long && p <= long * size
    ensures RoundHalfEven(p as real / long as real) <= size
    ensures p >= long ==> RoundHalfEven(p as real / long as real) >= 1
  {
    var x := p as real / long as real;
    assert (long * size) as real == size as real * long as real;
    DivideBounds(p as real, long as real, size as real);
    DivideBounds(p as real, long as real, 1.0);
    RoundWithin(x, 1, size);
  }

  /** Rounding keeps a value that lies between two integers between them. */
  lemma RoundWithin(x: real, lo: int, hi: int)
    ensures x <= hi as real ==> RoundHalfEven(x) <= hi
    ensures x >= lo as real ==> RoundHalfEven(x) >= lo
  {
  }

  lemma DivideBounds(a: real, b: real, c: real)
    requires b > 0.0
    ensures a <= c * b ==> a / b <= c
    ensures a >= c * b ==> a / b >= c
  {
  }

  /**
   * The content `pad` pastes: `contain`'s `img.resize((width, height), BICUBIC)`, which is a
   * copy of `img` when the size does not change and the bicubic resample otherwise.
   */
  function PadContent(img: Grid, w: nat, h: nat, bicubic: Resampler): (content: Grid)
    requires IsImage(img, h, w) && 0 < w <= Side && 0 < h <= Side
    ensures var l := PadLayout(w, h, Side);
            && IsImage(content, l.height, l.width)
            && (w == Side || h == Side ==> content == img)
            && (w < Side && h < Side ==> content == Fit(bicubic(img, l.width, l.height), l.height, l.width))
  {
    var l := PadLayout(w, h, Side);
    PadLayoutKeepsSize(w, h, Side);
    if l.width == w && l.height == h then img
    else Fit(bicubic(img, l.width, l.height), l.height, l.width)
  }

  /** `Image.new(mode, (Side, Side), 0)` with `content` pasted at (l.x, l.y). */
  function Paste(content: Grid, l: Layout): (out: Grid)
    requires IsImage(content, l.height, l.width)
    requires l.x + l.width <= Side && l.y + l.height <= Side
    ensures IsImage(out, Side, Side)
    ensures forall r, c :: 0 <= r < Side && 0 <= c < Side ==>
              out[r][c] == if l.y <= r < l.y + l.height && l.x <= c < l.x + l.width
                           then content[r - l.y][c - l.x] else 0
  {
    seq(Side, r requires 0 <= r < Side => seq(Side, c requires 0 <= c < Side =>
      if l.y <= r < l.y + l.height && l.x <= c < l.x + l.width then content[r - l.y][c - l.x] else 0))
  }

  /**
   * `ImageOps.pad(img, (Side, Side), color=0)` on a w x h image: the content at its layout
   * position on a Side x Side frame filled with 0, or the content itself when it already
   * fills the frame.
   */
  function Pad(img: Grid, w: nat, h: nat, bicubic: Resampler): (out: Grid)
    requires IsImage(img, h, w) && 0 < w <= Side && 0 < h <= Side
    ensures IsImage(out, Side, Side)
    ensures var l := PadLayout(w, h, Side);
            var content := PadContent(img, w, h, bicubic);
            forall r, c :: 0 <= r < Side && 0 <= c < Side ==>
              out[r][c] == if l.y <= r < l.y + l.height && l.x <= c < l.x + l.width
                           then content[r - l.y][c - l.x] else 0
  {
    var l := PadLayout(w, h, Side);
    var content := PadContent(img, w, h, bicubic);
    if l.width == Side && l.height == Side then
      assert content == Paste(content, l) by {
        assert forall r | 0 <= r < Side :: content[r] == Paste(content, l)[r];
      }
      content
    else
      Paste(content, l)
  }

  /**
   * The letterbox border is 0. A crop with a full-length side is pasted unchanged at its
   * offset, and a full-frame crop is its own pad; a smaller square crop is resampled onto the
   * whole frame.
   */
  lemma PadBorderIsZero(img: Grid, w: nat, h: nat, bicubic: Resampler)
    requires IsImage(img, h, w) && 0 < w <= Side && 0 < h <= Side
    ensures var out := Pad(img, w, h, bicubic);
            var l := PadLayout(w, h, Side);
            forall r, c :: 0 <= r < Side && 0 <= c < Side &&
              !(l.y <= r < l.y + l.height && l.x <= c < l.x + l.width)
              ==> out[r][c] == 0
    ensures var out := Pad(img, w, h, bicubic);
            var l := PadLayout(w, h, Side);
            (w == Side || h == Side) ==>
              forall r, c :: l.y <= r < l.y + h && l.x <= c < l.x + w ==> out[r][c] == img[r - l.y][c - l.x]
    ensures w == Side && h == Side ==> Pad(img, w, h, bicubic) == img
    ensures w == h && h < Side ==> Pad(img, w, h, bicubic) == Fit(bicubic(img, Side, Side), Side, Side)
  {
    PadLayoutKeepsSize(w, h, Side);
    var out := Pad(img, w, h, bicubic);
    if w == h {
      var content := PadContent(img, w, h, bicubic);
      assert forall r | 0 <= r < Side :: out[r] == content[r];
    }
  }

  // ---------------------------------------------------------------------------
  // Centre of mass (`ndimage.center_of_mass`) and the best shift
  // ---------------------------------------------------------------------------

  /** Mass of every row. */
  function RowSums(g: RealGrid): (s: seq<real>)
    ensures |s| == |g| && forall r :: 0 <= r < |g| ==> s[r] == Sum(g[r])
  {
    seq(|g|, r requires 0 <= r < |g| => Sum(g[r]))
  }

  /** Column moment of every row: the sum of c * g[r][c]. */
  function RowMoments(g: RealGrid): (s: seq<real>)
    ensures |s| == |g| && forall r :: 0 <= r < |g| ==> s[r] == Moment(g[r])
  {
    seq(|g|, r requires 0 <= r < |g| => Moment(g[r]))
  }

  /** Total intensity. */
  function Mass(g: RealGrid): real
  {
    Sum(RowSums(g))
  }

  /** Sum of r * g[r][c]. */
  function RowMoment(g: RealGrid): real
  {
    Moment(RowSums(g))
  }

  /** Sum of c * g[r][c]. */
  function ColMoment(g: RealGrid): real
  {
    Sum(RowMoments(g))
  }

  /**
   * The intensity-weighted centroid, in SciPy's axis order: (row, column) = (cy, cx).
   * Defined when the mass is not zero.
   */
  function CenterOfMass(g: RealGrid): (cm: (real, real))
    requires Mass(g) != 0.0
    ensures cm.0 * Mass(g) == RowMoment(g) && cm.1 * Mass(g) == ColMoment(g)
  {
    (RowMoment(g) / Mass(g), ColMoment(g) / Mass(g))
  }

  predicate NonNegative(g: RealGrid)
  {
    forall r, c :: 0 <= r < |g| && 0 <= c < |g[r]| ==> g[r][c] >= 0.0
  }

  /** A non-negative sequence's moment lies between 0 and (n - 1) times its sum. */
  lemma MomentBounds(s: seq<real>)
    requires forall i :: 0 <= i < |s| ==> s[i] >= 0.0
    ensures 0.0 <= Moment(s) <= (|s| as real - 1.0) * Sum(s)
    ensures Sum(s) >= 0.0
  {
    if |s| > 0 {
      MomentPrefixBounds(s, |s|);
    }
  }

  lemma {:induction false} MomentPrefixBounds(s: seq<real>, n: nat)
    requires 0 < n <= |s| && forall i :: 0 <= i < |s| ==> s[i] >= 0.0
    ensures SumTo(s, n) >= 0.0
    ensures 0.0 <= MomentTo(s, n) <= (n as real - 1.0) * SumTo(s, n)
  {
    if n > 1 {
      MomentPrefixBounds(s, n - 1);
      var a, last := SumTo(s, n - 1), s[n - 1];
      assert (n as real - 2.0) * a <= (n as real - 1.0) * a;
      assert (n as real - 1.0) * (a + last) == (n as real - 1.0) * a + (n - 1) as real * last;
    }
  }

  /** Every entry of a non-negative grid's row-mass sequence is non-negative. */
  lemma RowSumsNonNegative(g: RealGrid)
    requires NonNegative(g)
    ensures forall r :: 0 <= r < |g| ==> RowSums(g)[r] >= 0.0
  {
    forall r | 0 <= r < |g| ensures RowSums(g)[r] >= 0.0 {
      MomentBounds(g[r]);
    }
  }

  /** For a non-negative rows x cols image with mass, the centroid lies inside the frame. */
  lemma CentroidInsideFrame(g: RealGrid, rows: nat, cols: nat)
    requires IsShape(g, rows, cols) && NonNegative(g) && Mass(g) != 0.0
    ensures 0.0 <= CenterOfMass(g).0 <= rows as real - 1.0
    ensures 0.0 <= CenterOfMass(g).1 <= cols as real - 1.0
  {
    var cm := CenterOfMass(g);
    RowAxisBounds(g, rows, cols);
    ColAxisBounds(g, rows, cols);
    ScaleBounds(cm.0, Mass(g), rows as real - 1.0);
    ScaleBounds(cm.1, Mass(g), cols as real - 1.0);
  }

  /** x * m between 0 and c * m, for m > 0, puts x between 0 and c. */
  lemma ScaleBounds(x: real, m: real, c: real)
    requires m > 0.0 && 0.0 <= x * m <= c * m
    ensures 0.0 <= x <= c
  {
  }

  /** Row axis: the mass is positive and the row moment lies between 0 and (rows - 1) * mass. */
  lemma RowAxisBounds(g: RealGrid, rows: nat, cols: nat)
    requires IsShape(g, rows, cols) && NonNegative(g) && Mass(g) != 0.0
    ensures Mass(g) > 0.0
    ensures 0.0 <= RowMoment(g) <= (rows as real - 1.0) * Mass(g)
  {
    RowSumsNonNegative(g);
    MomentBounds(RowSums(g));
  }

  /** Column axis: the column moment lies between 0 and (cols - 1) * mass. */
  lemma ColAxisBounds(g: RealGrid, rows: nat, cols: nat)
    requires IsShape(g, rows, cols) && NonNegative(g)
    ensures 0.0 <= ColMoment(g) <= (cols as real - 1.0) * Mass(g)
  {
    var k := cols as real - 1.0;
    var bound := AddScaled(Zeros(rows), RowSums(g), k);
    forall r | 0 <= r < rows ensures 0.0 <= RowMoments(g)[r] <= bound[r] {
      MomentBounds(g[r]);
    }
    SumMonotone(RowMoments(g), bound);
    SumNonNegative(RowMoments(g));
    SumLinear(Zeros(rows), RowSums(g), k);
    AllZeroSums(Zeros(rows));
  }

  lemma SumMonotone(a: seq<real>, b: seq<real>)
    requires |a| == |b| && forall i :: 0 <= i < |a| ==> a[i] <= b[i]
    ensures Sum(a) <= Sum(b)
  {
    MonotonePrefix(a, b, |a|);
  }

  lemma {:induction false} MonotonePrefix(a: seq<real>, b: seq<real>, n: nat)
    requires n <= |a| == |b| && forall i :: 0 <= i < |a| ==> a[i] <= b[i]
    ensures SumTo(a, n) <= SumTo(b, n)
  {
    if n > 0 {
      MonotonePrefix(a, b, n - 1);
    }
  }

  lemma SumNonNegative(a: seq<real>)
    requires forall i :: 0 <= i < |a| ==> a[i] >= 0.0
    ensures Sum(a) >= 0.0
  {
    NonNegativePrefix(a, |a|);
  }

  /**
   * `get_best_shift`: the integer translation (shiftx, shifty), in that order, that brings
   * the centroid nearest the frame centre (cols / 2, rows / 2), each component rounded half
   * to even. A massless image has no centroid and the call fails.
   */
  function BestShift(g: RealGrid, rows: nat, cols: nat): (s: Result<(int, int), PreprocessError>)
    requires IsShape(g, rows, cols)
    ensures s.Err? <==> Mass(g) == 0.0
    ensures s.Ok? ==>
      var (cy, cx) := CenterOfMass(g);
      var (dx, dy) := (cols as real / 2.0 - cx, rows as real / 2.0 - cy);
      && -0.5 <= s.value.0 as real - dx <= 0.5
      && -0.5 <= s.value.1 as real - dy <= 0.5
      && ((s.value.0 as real - dx == 0.5 || dx - s.value.0 as real == 0.5) ==> s.value.0 % 2 == 0)
      && ((s.value.1 as real - dy == 0.5 || dy - s.value.1 as real == 0.5) ==> s.value.1 % 2 == 0)
  {
    if Mass(g) == 0.0 then Err(ZeroMass)
    else
      var (cy, cx) := CenterOfMass(g);
      var shiftx := RoundHalfEven(cols as real / 2.0 - cx);
      var shifty := RoundHalfEven(rows as real / 2.0 - cy);
      Ok((shiftx, shifty))
  }

  // ---------------------------------------------------------------------------
  // Integer translation (`cv2.warpAffine` with [[1, 0, sx], [0, 1, sy]])
  // ---------------------------------------------------------------------------

  /**
   * `shift`: out[r][c] = g[r - sy][c - sx] where that pixel exists, 0 elsewhere (OpenCV's
   * constant border). The frame keeps its shape.
   */
  function Shift(g: RealGrid, rows: nat, cols: nat, sx: int, sy: int): (h: RealGrid)
    requires IsShape(g, rows, cols)
    ensures IsShape(h, rows, cols)
    ensures forall r, c :: 0 <= r < rows && 0 <= c < cols ==>
              h[r][c] == if 0 <= r - sy < rows && 0 <= c - sx < cols then g[r - sy][c - sx] else 0.0
  {
    seq(rows, r requires 0 <= r < rows => seq(cols, c requires 0 <= c < cols =>
      if 0 <= r - sy < rows && 0 <= c - sx < cols then g[r - sy][c - sx] else 0.0))
  }

  /** A (0, 0) shift is the identity. */
  lemma ShiftZeroIsIdentity(g: RealGrid, rows: nat, cols: nat)
    requires IsShape(g, rows, cols)
    ensures Shift(g, rows, cols, 0, 0) == g
  {
    var h := Shift(g, rows, cols, 0, 0);
    assert forall r | 0 <= r < rows :: h[r] == g[r];
  }

  /** Shifting back undoes a shift that pushed no non-zero pixel out of the frame. */
  lemma ShiftUndo(g: RealGrid, rows: nat, cols: nat, sx: int, sy: int)
    requires IsShape(g, rows, cols)
    requires forall r, c :: 0 <= r < rows && 0 <= c < cols && g[r][c] != 0.0 ==>
               0 <= r + sy < rows && 0 <= c + sx < cols
    ensures Shift(Shift(g, rows, cols, sx, sy), rows, cols, -sx, -sy) == g
  {
    var h := Shift(Shift(g, rows, cols, sx, sy), rows, cols, -sx, -sy);
    forall r | 0 <= r < rows ensures h[r] == g[r] {
      forall c | 0 <= c < cols ensures h[r][c] == g[r][c] {
      }
    }
  }

  /** Shifting keeps values in [0, 1]. */
  lemma ShiftKeepsUnitRange(g: RealGrid, rows: nat, cols: nat, sx: int, sy: int)
    requires IsShape(g, rows, cols) && InUnitRange(g)
    ensures InUnitRange(Shift(g, rows, cols, sx, sy))
  {
  }

  // ---------------------------------------------------------------------------
  // The pipeline
  // ---------------------------------------------------------------------------

  predicate InUnitRange(g: RealGrid)
  {
    forall r, c :: 0 <= r < |g| && 0 <= c < |g[r]| ==> 0.0 <= g[r][c] <= 1.0
  }

  /** `np.array(img) / 255.0`. */
  function ToUnit(g: Grid): (u: RealGrid)
    ensures |u| == |g| && forall r :: 0 <= r < |g| ==> |u[r]| == |g[r]|
    ensures forall r, c :: 0 <= r < |g| && 0 <= c < |g[r]| ==> u[r][c] == g[r][c] as real / 255.0
  {
    seq(|g|, r requires 0 <= r < |g| =>
      seq(|g[r]|, c requires 0 <= c < |g[r]| => g[r][c] as real / 255.0))
  }

  lemma ToUnitRange(g: Grid, rows: nat, cols: nat)
    requires IsImage(g, rows, cols)
    ensures IsShape(ToUnit(g), rows, cols) && InUnitRange(ToUnit(g)) && NonNegative(ToUnit(g))
  {
  }

  /** `pil.resize((28, 28), Image.LANCZOS)`, read as an 8-bit 28 x 28 image. */
  function Resize28(canvas: Grid, f: Filters): (g: Grid)
    ensures IsImage(g, Side, Side)
  {
    Fit(f.lanczos(canvas, Side, Side), Side, Side)
  }

  /** `img_pil`: the resized canvas inverted, ink high. */
  function Inverted(canvas: Grid, f: Filters): (g: Grid)
    ensures IsImage(g, Side, Side)
  {
    var g := Invert(Resize28(canvas, f));
    InvertKeepsImage(Resize28(canvas, f), Side, Side);
    g
  }

  /**
   * The box the crop uses: the bounding box of `ImageOps.invert(img_pil)`. Inverting twice
   * restores the resized canvas, so it is the box of that canvas's non-zero pixels, the pixels
   * that are not fully inked (the canvas draws black ink on white).
   */
  function CropBox(canvas: Grid, f: Filters): (b: Option<Box>)
    ensures b == GetBBox(Resize28(canvas, f), Side, Side)
  {
    InvertKeepsImage(Inverted(canvas, f), Side, Side);
    InvertInvolution(Resize28(canvas, f));
    GetBBox(Invert(Inverted(canvas, f)), Side, Side)
  }

  /** `ImageOps.pad(img_pil.crop(b), (28, 28), color=0)`. */
  function PadCrop(img: Grid, b: Box, bicubic: Resampler): (g: Grid)
    requires IsImage(img, Side, Side)
    requires b.upper < b.lower <= Side && b.left < b.right <= Side
    ensures IsImage(g, Side, Side)
    ensures b == Box(0, 0, Side, Side) ==> g == img
  {
    CropKeepsImage(img, Side, Side, b);
    var cropped := Crop(img, Side, Side, b);
    var g := Pad(cropped, b.right - b.left, b.lower - b.upper, bicubic);
    assert b == Box(0, 0, Side, Side) ==> g == img by {
      if b == Box(0, 0, Side, Side) {
        assert cropped == img by {
          assert forall r | 0 <= r < Side :: cropped[r] == img[r];
        }
        PadBorderIsZero(cropped, Side, Side, bicubic);
      }
    }
    g
  }

  /** `img_pil` after the crop and pad, or unchanged when there is no box. */
  function FramedImage(canvas: Grid, f: Filters): (g: Grid)
    ensures IsImage(g, Side, Side)
  {
    var img := Inverted(canvas, f);
    match CropBox(canvas, f)
    case None => img
    case Some(b) => PadCrop(img, b, f.bicubic)
  }

  /**
   * The array passed to `get_best_shift`: the inverted frame scaled to [0, 1], cropped to
   * the box and padded back to 28 x 28 first when there is a box.
   */
  function Framed(canvas: Grid, f: Filters): (a: RealGrid)
    ensures IsShape(a, Side, Side) && InUnitRange(a) && NonNegative(a)
  {
    ToUnitRange(FramedImage(canvas, f), Side, Side);
    ToUnit(FramedImage(canvas, f))
  }

  /** `img_array.reshape(1, 28, 28, 1)`. */
  function Reshape(g: RealGrid): (t: Tensor)
    requires IsShape(g, Side, Side)
    ensures IsTensorShape(t)
    ensures forall r, c :: 0 <= r < Side && 0 <= c < Side ==> t[0][r][c][0] == g[r][c]
  {
    [seq(Side, r requires 0 <= r < Side => seq(Side, c requires 0 <= c < Side => [g[r][c]]))]
  }

  predicate IsTensorShape(t: Tensor)
  {
    && |t| == 1 && |t[0]| == Side
    && (forall r :: 0 <= r < Side ==> |t[0][r]| == Side)
    && (forall r, c :: 0 <= r < Side && 0 <= c < Side ==> |t[0][r][c]| == 1)
  }

  predicate TensorInUnitRange(t: Tensor)
    requires IsTensorShape(t)
  {
    forall r, c :: 0 <= r < Side && 0 <= c < Side ==> 0.0 <= t[0][r][c][0] <= 1.0
  }

  /**
   * `preprocess_image`: the shifted frame as a (1, 28, 28, 1) tensor with values in [0, 1],
   * or the failure of the centroid when the framed image has no mass.
   */
  function PreprocessImage(canvas: Grid, f: Filters): (t: Result<Tensor, PreprocessError>)
    ensures t.Err? <==> Mass(Framed(canvas, f)) == 0.0
    ensures t.Ok? ==> IsTensorShape(t.value) && TensorInUnitRange(t.value)
  {
    var a := Framed(canvas, f);
    match BestShift(a, Side, Side)
    case Err(e) => Err(e)
    case Ok((sx, sy)) => Ok(Reshape(Shift(a, Side, Side, sx, sy)))
  }

  // ---------------------------------------------------------------------------
  // What the pipeline does with particular canvases
  // ---------------------------------------------------------------------------

  /** There is no crop exactly when every resized pixel is fully inked (0). */
  lemma NoCropIffAllInk(canvas: Grid, f: Filters)
    ensures CropBox(canvas, f).None? <==> IsFilled(Resize28(canvas, f), Side, Side, 0)
  {
  }

  /** A frame with a non-zero pixel on each of its four borders has the whole frame as its box. */
  lemma BordersGiveFullBox(g: Grid)
    requires IsShape(g, Side, Side)
    requires && RowHasInk(g, Side, Side, 0) && RowHasInk(g, Side, Side, Side - 1)
             && ColHasInk(g, Side, Side, 0) && ColHasInk(g, Side, Side, Side - 1)
    ensures GetBBox(g, Side, Side) == Some(Box(0, 0, Side, Side))
  {
    var b := GetBBox(g, Side, Side);
    assert b.Some?;
    TightBoxUnique(g, Side, Side, b.value, Box(0, 0, Side, Side));
  }

  /** A resized canvas with a non-inked pixel on each of its four borders is cropped to the
      whole frame, and the framed image is the inverted frame itself: the pad copies it. */
  lemma BordersGiveFullFrame(canvas: Grid, f: Filters)
    requires var g := Resize28(canvas, f);
             && RowHasInk(g, Side, Side, 0) && RowHasInk(g, Side, Side, Side - 1)
             && ColHasInk(g, Side, Side, 0) && ColHasInk(g, Side, Side, Side - 1)
    ensures CropBox(canvas, f) == Some(Box(0, 0, Side, Side))
    ensures FramedImage(canvas, f) == Inverted(canvas, f)
    ensures Framed(canvas, f) == ToUnit(Inverted(canvas, f))
  {
    BordersGiveFullBox(Resize28(canvas, f));
  }

  /** Every entry of the rows x cols grid equals v. */
  predicate IsConstant(g: RealGrid, rows: nat, cols: nat, v: real)
  {
    IsShape(g, rows, cols) && forall r, c :: 0 <= r < rows && 0 <= c < cols ==> g[r][c] == v
  }

  /** The mass and moments of a constant grid. */
  lemma ConstantGridMoments(g: RealGrid, rows: nat, cols: nat, v: real)
    requires IsConstant(g, rows, cols, v)
    ensures Mass(g) == rows as real * (cols as real * v)
    ensures RowMoment(g) == (cols as real * v) * (rows as real) * (rows as real - 1.0) / 2.0
    ensures ColMoment(g) == rows as real * (v * (cols as real) * (cols as real - 1.0) / 2.0)
  {
    ConstantGridRows(g, rows, cols, v);
    RepeatedRowsMoments(g, rows, cols as real * v, v * (cols as real) * (cols as real - 1.0) / 2.0);
  }

  /** A grid whose rows all have mass a and column moment m. */
  lemma RepeatedRowsMoments(g: RealGrid, rows: nat, a: real, m: real)
    requires RowSums(g) == Repeat(rows, a) && RowMoments(g) == Repeat(rows, m)
    ensures Mass(g) == rows as real * a
    ensures RowMoment(g) == a * (rows as real) * (rows as real - 1.0) / 2.0
    ensures ColMoment(g) == rows as real * m
  {
    ConstantSums(rows, a);
    ConstantSums(rows, m);
  }

  /** Every row of a constant grid has the same mass and the same column moment. */
  lemma ConstantGridRows(g: RealGrid, rows: nat, cols: nat, v: real)
    requires IsConstant(g, rows, cols, v)
    ensures RowSums(g) == Repeat(rows, cols as real * v)
    ensures RowMoments(g) == Repeat(rows, v * (cols as real) * (cols as real - 1.0) / 2.0)
  {
    forall r | 0 <= r < rows
      ensures Sum(g[r]) == cols as real * v
      ensures Moment(g[r]) == v * (cols as real) * (cols as real - 1.0) / 2.0
    {
      assert g[r] == Repeat(cols, v);
      ConstantSums(cols, v);
    }
  }

  /**
   * A canvas whose resized frame is fully inked is not cropped; its centroid is (13.5, 13.5),
   * both shifts are `round(0.5) == 0` (ties go to even), and the tensor is all ones.
   */
  lemma FullInkCanvas(canvas: Grid, f: Filters)
    requires IsFilled(Resize28(canvas, f), Side, Side, 0)
    ensures PreprocessImage(canvas, f).Ok?
    ensures var t := PreprocessImage(canvas, f).value;
            forall r, c :: 0 <= r < Side && 0 <= c < Side ==> t[0][r][c][0] == 1.0
  {
    NoCropIffAllInk(canvas, f);
    var a := Framed(canvas, f);
    assert IsConstant(a, Side, Side, 1.0);
    ConstantGridMoments(a, Side, Side, 1.0);
    assert CenterOfMass(a) == (13.5, 13.5);
    assert RoundHalfEven(0.5) == 0;
    assert BestShift(a, Side, Side) == Ok((0, 0));
    ShiftZeroIsIdentity(a, Side, Side);
  }

  /**
   * A blank canvas (the resized frame is all background, 255) is cropped to the whole frame,
   * whose inverse is all zero and is padded unchanged: the framed image has no mass and
   * preprocessing fails.
   */
  lemma BlankCanvasFails(canvas: Grid, f: Filters)
    requires IsFilled(Resize28(canvas, f), Side, Side, 255)
    ensures PreprocessImage(canvas, f) == Err(ZeroMass)
  {
    BlankCanvasFullFrame(canvas, f);
    ZeroImageToUnit(Filled(Side, Side, 0));
    MasslessFails(canvas, f);
  }

  /** The zero image scales to the zero real grid. */
  lemma ZeroImageToUnit(g: Grid)
    requires IsFilled(g, Side, Side, 0)
    ensures IsConstant(ToUnit(g), Side, Side, 0.0)
  {
  }

  /** A framed image that is all zero has no mass, and preprocessing fails. */
  lemma MasslessFails(canvas: Grid, f: Filters)
    requires IsConstant(Framed(canvas, f), Side, Side, 0.0)
    ensures PreprocessImage(canvas, f) == Err(ZeroMass)
  {
    ZeroGridMassless(Framed(canvas, f));
  }

  lemma ZeroGridMassless(a: RealGrid)
    requires IsConstant(a, Side, Side, 0.0)
    ensures Mass(a) == 0.0
  {
    ConstantGridMoments(a, Side, Side, 0.0);
  }

  /** The blank canvas's crop is the whole frame, and the framed image is the zero frame. */
  lemma BlankCanvasFullFrame(canvas: Grid, f: Filters)
    requires IsFilled(Resize28(canvas, f), Side, Side, 255)
    ensures CropBox(canvas, f) == Some(Box(0, 0, Side, Side))
    ensures FramedImage(canvas, f) == Filled(Side, Side, 0)
    ensures Framed(canvas, f) == ToUnit(Filled(Side, Side, 0))
  {
    BackgroundOnBorders(Resize28(canvas, f));
    BordersGiveFullFrame(canvas, f);
    BlankInvertsToZero(canvas, f);
  }

  lemma BackgroundOnBorders(g: Grid)
    requires IsFilled(g, Side, Side, 255)
    ensures RowHasInk(g, Side, Side, 0) && RowHasInk(g, Side, Side, Side - 1)
    ensures ColHasInk(g, Side, Side, 0) && ColHasInk(g, Side, Side, Side - 1)
  {
    assert g[0][0] != 0 && g[Side - 1][Side - 1] != 0;
  }

  lemma BlankInvertsToZero(canvas: Grid, f: Filters)
    requires IsFilled(Resize28(canvas, f), Side, Side, 255)
    ensures Inverted(canvas, f) == Filled(Side, Side, 0)
  {
    var img := Inverted(canvas, f);
    forall r | 0 <= r < Side ensures img[r] == Filled(Side, Side, 0)[r] { }
  }
}
