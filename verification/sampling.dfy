/**
 * Colour sampling of src/utils/imageProcessor.ts: the seven fixed checker
 * sample points of `sampleCheckerColors` and the border sampling and
 * rounded average of `detectBackgroundColor`. A raster is an `array2` of
 * colours indexed `[y, x]`: `Length0` is `src.rows`, `Length1` is `src.cols`.
 */
module Sampling {
  import opened Colors
  import opened Clustering

  predicate InBounds(p: Point, rows: int, cols: int)
  {
    0 <= p.x < cols && 0 <= p.y < rows
  }

  /** The pixels of `src` at the points `ps`, in order. */
  ghost function PixelsAt(src: array2<Color>, ps: seq<Point>): (px: seq<Color>)
    requires forall k :: 0 <= k < |ps| ==> InBounds(ps[k], src.Length0, src.Length1)
    reads src
    ensures |px| == |ps|
  {
    if ps == [] then []
    else
      var last := ps[|ps| - 1];
      assert InBounds(last, src.Length0, src.Length1);
      PixelsAt(src, ps[..|ps| - 1]) + [src[last.y, last.x]]
  }

  lemma {:induction false} PixelsAtIndex(src: array2<Color>, ps: seq<Point>)
    requires forall k :: 0 <= k < |ps| ==> InBounds(ps[k], src.Length0, src.Length1)
    ensures forall k :: 0 <= k < |ps| ==> InBounds(ps[k], src.Length0, src.Length1) && PixelsAt(src, ps)[k] == src[ps[k].y, ps[k].x]
  {
    if ps != [] {
      PixelsAtIndex(src, ps[..|ps| - 1]);
    }
  }

  lemma PixelsAtAppend(src: array2<Color>, a: seq<Point>, b: seq<Point>)
    requires forall k :: 0 <= k < |a| ==> InBounds(a[k], src.Length0, src.Length1)
    requires forall k :: 0 <= k < |b| ==> InBounds(b[k], src.Length0, src.Length1)
    ensures forall k :: 0 <= k < |a + b| ==> InBounds((a + b)[k], src.Length0, src.Length1)
    ensures PixelsAt(src, a + b) == PixelsAt(src, a) + PixelsAt(src, b)
  {
    PixelsAtIndex(src, a);
    PixelsAtIndex(src, b);
    assert forall k :: 0 <= k < |a + b| ==> InBounds((a + b)[k], src.Length0, src.Length1) by {
      forall k | 0 <= k < |a + b| ensures InBounds((a + b)[k], src.Length0, src.Length1) {
        if k >= |a| { assert (a + b)[k] == b[k - |a|]; }
      }
    }
    PixelsAtIndex(src, a + b);
  }

  // ---------------------------------------------------------------------
  // sampleCheckerColors

  /** The seven fixed sample points, in the order the source lists them. */
  function CheckerSamplePoints(rows: int, cols: int): seq<Point>
  {
    [Point(0, 0), Point(10, 10), Point(20, 20), Point(cols - 1, 0),
     Point(cols - 11, 10), Point(0, rows - 1), Point(10, rows - 11)]
  }

  /** The points of `ps` that lie inside the raster, in order; the others are dropped. */
  function KeepInBounds(ps: seq<Point>, rows: int, cols: int): (kept: seq<Point>)
    ensures |kept| <= |ps|
    ensures forall k :: 0 <= k < |kept| ==> InBounds(kept[k], rows, cols)
  {
    if ps == [] then []
    else
      var init := KeepInBounds(ps[..|ps| - 1], rows, cols);
      var last := ps[|ps| - 1];
      if InBounds(last, rows, cols) then init + [last] else init
  }

  /** Exactly the in-bounds points survive, in their original order. */
  lemma {:induction false} KeepInBoundsFilters(ps: seq<Point>, rows: int, cols: int)
    ensures forall p :: p in KeepInBounds(ps, rows, cols) <==> p in ps && InBounds(p, rows, cols)
    ensures IsSubsequence(KeepInBounds(ps, rows, cols), ps)
  {
    if ps != [] {
      var init := ps[..|ps| - 1];
      var last := ps[|ps| - 1];
      KeepInBoundsFilters(init, rows, cols);
      assert ps == init + [last];
      var kept := KeepInBounds(ps, rows, cols);
      if InBounds(last, rows, cols) {
        assert kept[..|kept| - 1] == KeepInBounds(init, rows, cols);
      }
    }
  }

  /** The colours `sampleCheckerColors` collects before clustering. */
  ghost function CheckerSamples(src: array2<Color>): seq<Color>
    reads src
  {
    PixelsAt(src, KeepInBounds(CheckerSamplePoints(src.Length0, src.Length1), src.Length0, src.Length1))
  }

  /** What `sampleCheckerColors` returns: the samples clustered at threshold 15. */
  ghost function CheckerColors(src: array2<Color>): seq<Color>
    reads src
  {
    Cluster(CheckerSamples(src), 15)
  }

  /** The sample loop: reads at most seven pixels, only at listed points inside the raster. */
  method CollectCheckerSamples(src: array2<Color>) returns (samples: seq<Color>)
    ensures samples == CheckerSamples(src)
    ensures |samples| <= 7
  {
    var points := CheckerSamplePoints(src.Length0, src.Length1);
    samples := [];
    for i := 0 to |points|
      invariant samples == PixelsAt(src, KeepInBounds(points[..i], src.Length0, src.Length1))
    {
      var p := points[i];
      assert points[..i + 1][..i] == points[..i];
      if 0 <= p.x < src.Length1 && 0 <= p.y < src.Length0 {
        samples := samples + [src[p.y, p.x]];
      }
    }
    assert points[..|points|] == points;
  }

  method SampleCheckerColors(src: array2<Color>) returns (colors: seq<Color>)
    ensures colors == CheckerColors(src)
    ensures |colors| <= 7
  {
    var samples := CollectCheckerSamples(src);
    colors := ClusterColors(samples, 15);
    ClusterIsSubsequence(samples, 15);
  }

  /**
   * Out-of-range points are dropped, never clamped: on a 1x1 raster only the
   * three points that land on (0, 0) are read, so clamping (which would give
   * seven samples) is ruled out.
   */
  lemma CheckerSamplesOfSinglePixel(src: array2<Color>)
    requires src.Length0 == 1 && src.Length1 == 1
    ensures CheckerSamples(src) == [src[0, 0], src[0, 0], src[0, 0]]
  {
    var ps := CheckerSamplePoints(1, 1);
    assert ps[..1] == [Point(0, 0)];
    assert ps[..2][..1] == ps[..1];
    assert ps[..3][..2] == ps[..2];
    assert ps[..4][..3] == ps[..3];
    assert ps[..5][..4] == ps[..4];
    assert ps[..6][..5] == ps[..5];
    assert ps[..7][..6] == ps[..6];
    assert ps[..7] == ps;
    var o := Point(0, 0);
    assert KeepInBounds(ps[..1], 1, 1) == [o];
    assert KeepInBounds(ps[..2], 1, 1) == [o];
    assert KeepInBounds(ps[..3], 1, 1) == [o];
    assert KeepInBounds(ps[..4], 1, 1) == [o, o];
    assert KeepInBounds(ps[..5], 1, 1) == [o, o];
    assert KeepInBounds(ps[..6], 1, 1) == [o, o, o];
    assert KeepInBounds(ps, 1, 1) == [o, o, o];
    PixelsAtIndex(src, [o, o, o]);
  }

  /** On a raster of at least 21x21 all seven points are sampled. */
  lemma CheckerSamplesOfLargeRaster(src: array2<Color>)
    requires src.Length0 >= 21 && src.Length1 >= 21
    ensures |CheckerSamples(src)| == 7
  {
    var ps := CheckerSamplePoints(src.Length0, src.Length1);
    assert forall k :: 0 <= k < 7 ==> InBounds(ps[k], src.Length0, src.Length1);
    KeepAllInBounds(ps, src.Length0, src.Length1);
  }

  lemma {:induction false} KeepAllInBounds(ps: seq<Point>, rows: int, cols: int)
    requires forall k :: 0 <= k < |ps| ==> InBounds(ps[k], rows, cols)
    ensures KeepInBounds(ps, rows, cols) == ps
  {
    if ps != [] {
      KeepAllInBounds(ps[..|ps| - 1], rows, cols);
      assert ps[..|ps| - 1] + [ps[|ps| - 1]] == ps;
    }
  }

  /** The sample at (0, 0) is always taken, so a non-empty raster has at least one checker colour, its top-left pixel first. */
  lemma CheckerColorsStartAtOrigin(src: array2<Color>)
    requires src.Length0 >= 1 && src.Length1 >= 1
    ensures |CheckerColors(src)| >= 1 && CheckerColors(src)[0] == src[0, 0]
  {
    var ps := CheckerSamplePoints(src.Length0, src.Length1);
    var kept := KeepInBounds(ps, src.Length0, src.Length1);
    FirstKept(ps, src.Length0, src.Length1);
    PixelsAtIndex(src, kept);
    ClusterStartsWithFirst(CheckerSamples(src), 15);
  }

  lemma {:induction false} FirstKept(ps: seq<Point>, rows: int, cols: int)
    requires ps != [] && InBounds(ps[0], rows, cols)
    ensures KeepInBounds(ps, rows, cols) != [] && KeepInBounds(ps, rows, cols)[0] == ps[0]
  {
    if |ps| > 1 {
      FirstKept(ps[..|ps| - 1], rows, cols);
    }
  }

  // ---------------------------------------------------------------------
  // detectBackgroundColor

  const SampleStep := 5

  /** Number of values 0, 5, 10, ... below `n`. */
  function Steps(n: nat): (k: nat)
    ensures 5 * k >= n && (k > 0 ==> 5 * (k - 1) < n)
  {
    (n + 4) / 5
  }

  /** Points of row `y` at x = 0, 5, 10, ... below `cols`. */
  function RowPoints(y: int, cols: nat): (ps: seq<Point>)
    ensures |ps| == Steps(cols)
    ensures forall i :: 0 <= i < |ps| ==> ps[i] == Point(5 * i, y) && 5 * i < cols
  {
    seq(Steps(cols), i => Point(5 * i, y))
  }

  /** Points of column `x` at y = 0, 5, 10, ... below `rows`. */
  function ColumnPoints(x: int, rows: nat): (ps: seq<Point>)
    ensures |ps| == Steps(rows)
    ensures forall j :: 0 <= j < |ps| ==> ps[j] == Point(x, 5 * j) && 5 * j < rows
  {
    seq(Steps(rows), j => Point(x, 5 * j))
  }

  /** Top edge, bottom edge, left edge, right edge, in that order. */
  function EdgePoints(rows: nat, cols: nat): (ps: seq<Point>)
    requires rows >= 1 && cols >= 1
    ensures |ps| == 2 * Steps(cols) + 2 * Steps(rows)
    ensures forall k :: 0 <= k < |ps| ==> InBounds(ps[k], rows, cols)
    ensures forall k :: 0 <= k < |ps| ==>
      (ps[k].y == 0 || ps[k].y == rows - 1 || ps[k].x == 0 || ps[k].x == cols - 1)
  {
    var top, bottom := RowPoints(0, cols), RowPoints(rows - 1, cols);
    var left, right := ColumnPoints(0, rows), ColumnPoints(cols - 1, rows);
    var ps := top + bottom + left + right;
    assert forall k :: 0 <= k < |ps| ==> ps[k] in top || ps[k] in bottom || ps[k] in left || ps[k] in right;
    ps
  }

  ghost function EdgeSamples(src: array2<Color>): seq<Color>
    requires src.Length0 >= 1 && src.Length1 >= 1
    reads src
  {
    PixelsAt(src, EdgePoints(src.Length0, src.Length1))
  }

  datatype Channel = Red | Green | Blue

  function Component(c: Color, ch: Channel): Byte
  {
    match ch
    case Red => c.r
    case Green => c.g
    case Blue => c.b
  }

  /** The sum of one channel over `s` (the `reduce` of the source). */
  function ChannelSum(s: seq<Color>, ch: Channel): nat
  {
    if s == [] then 0 else ChannelSum(s[..|s| - 1], ch) + Component(s[|s| - 1], ch)
  }

  lemma {:induction false} ChannelSumBounds(s: seq<Color>, ch: Channel)
    ensures ChannelSum(s, ch) <= 255 * |s|
  {
    if s != [] {
      ChannelSumBounds(s[..|s| - 1], ch);
    }
  }

  lemma {:induction false} ChannelSumUniform(s: seq<Color>, c: Color, ch: Channel)
    requires forall k :: 0 <= k < |s| ==> s[k] == c
    ensures ChannelSum(s, ch) == |s| * Component(c, ch)
  {
    if s != [] {
      ChannelSumUniform(s[..|s| - 1], c, ch);
    }
  }

  /** `Math.round(sum / count)` for a non-negative sum: halves are rounded up. */
  function RoundedMean(sum: nat, count: nat): Byte
    requires count > 0 && sum <= 255 * count
  {
    DivBounds(2 * sum + count, 2 * count);
    (2 * sum + count) / (2 * count)
  }

  /** The rounded mean is the integer nearest to `sum / count`, a half rounded up. */
  lemma RoundedMeanIsNearest(sum: nat, count: nat)
    requires count > 0 && sum <= 255 * count
    ensures var m := RoundedMean(sum, count);
      2 * count * m <= 2 * sum + count < 2 * count * m + 2 * count
  {
    DivBounds(2 * sum + count, 2 * count);
  }

  lemma DivBounds(n: nat, d: nat)
    requires d > 0
    ensures d * (n / d) <= n < d * (n / d) + d
    ensures n < 512 * (d / 2) && d % 2 == 0 ==> n / d <= 255
  {
    if n < 512 * (d / 2) && d % 2 == 0 && n / d > 255 {
      MulMonotone(256, n / d, d);
    }
  }

  lemma MulMonotone(a: nat, b: nat, d: nat)
    requires a <= b
    ensures a * d <= b * d
  {
  }

  /** The rounded per-channel average of a non-empty list of colours. */
  function MeanColor(s: seq<Color>): Color
    requires |s| > 0
  {
    ChannelSumBounds(s, Red);
    ChannelSumBounds(s, Green);
    ChannelSumBounds(s, Blue);
    Color(RoundedMean(ChannelSum(s, Red), |s|),
          RoundedMean(ChannelSum(s, Green), |s|),
          RoundedMean(ChannelSum(s, Blue), |s|))
  }

  /** What `detectBackgroundColor` returns. */
  ghost function BackgroundEstimate(src: array2<Color>): Color
    requires src.Length0 >= 1 && src.Length1 >= 1
    reads src
  {
    MeanColor(EdgeSamples(src))
  }

  /** A border made of one colour is estimated as exactly that colour. */
  lemma MeanOfUniform(s: seq<Color>, c: Color)
    requires |s| > 0 && forall k :: 0 <= k < |s| ==> s[k] == c
    ensures MeanColor(s) == c
  {
    ChannelSumUniform(s, c, Red);
    ChannelSumUniform(s, c, Green);
    ChannelSumUniform(s, c, Blue);
    MeanOfRepeated(c.r, |s|);
    MeanOfRepeated(c.g, |s|);
    MeanOfRepeated(c.b, |s|);
  }

  lemma MeanOfRepeated(v: Byte, n: nat)
    requires n > 0
    ensures RoundedMean(n * v, n) == v
  {
    var m := RoundedMean(n * v, n);
    RoundedMeanIsNearest(n * v, n);
    assert 2 * n * m <= 2 * n * v + n < 2 * n * m + 2 * n;
    if m < v {
      MulMonotone(m + 1, v, 2 * n);
    } else if m > v {
      MulMonotone(v + 1, m, 2 * n);
    }
  }

  /** One of the two row loops: append the pixels of row `y` at x = 0, 5, 10, ... */
  method SampleRow(src: array2<Color>, y: int, samples: seq<Color>) returns (out: seq<Color>)
    requires 0 <= y < src.Length0
    ensures out == samples + PixelsAt(src, RowPoints(y, src.Length1))
  {
    ghost var ps := RowPoints(y, src.Length1);
    out := samples;
    var x := 0;
    while x < src.Length1
      invariant x % 5 == 0 && 0 <= x / 5 <= |ps|
      invariant out == samples + PixelsAt(src, ps[..x / 5])
    {
      assert ps[..x / 5 + 1][..x / 5] == ps[..x / 5];
      out := out + [src[y, x]];
      x := x + SampleStep;
    }
    assert ps[..|ps|] == ps;
  }

  /** One of the two column loops: append the pixels of column `x` at y = 0, 5, 10, ... */
  method SampleColumn(src: array2<Color>, x: int, samples: seq<Color>) returns (out: seq<Color>)
    requires 0 <= x < src.Length1
    ensures out == samples + PixelsAt(src, ColumnPoints(x, src.Length0))
  {
    ghost var ps := ColumnPoints(x, src.Length0);
    out := samples;
    var y := 0;
    while y < src.Length0
      invariant y % 5 == 0 && 0 <= y / 5 <= |ps|
      invariant out == samples + PixelsAt(src, ps[..y / 5])
    {
      assert ps[..y / 5 + 1][..y / 5] == ps[..y / 5];
      out := out + [src[y, x]];
      y := y + SampleStep;
    }
    assert ps[..|ps|] == ps;
  }

  /** The `reduce` of the source: per-channel sums of the samples. */
  method SumChannels(samples: seq<Color>) returns (sumR: nat, sumG: nat, sumB: nat)
    ensures sumR == ChannelSum(samples, Red)
    ensures sumG == ChannelSum(samples, Green)
    ensures sumB == ChannelSum(samples, Blue)
  {
    sumR, sumG, sumB := 0, 0, 0;
    for i := 0 to |samples|
      invariant sumR == ChannelSum(samples[..i], Red)
      invariant sumG == ChannelSum(samples[..i], Green)
      invariant sumB == ChannelSum(samples[..i], Blue)
    {
      assert samples[..i + 1][..i] == samples[..i];
      sumR := sumR + samples[i].r;
      sumG := sumG + samples[i].g;
      sumB := sumB + samples[i].b;
    }
    assert samples[..|samples|] == samples;
  }

  lemma EdgeSamplesByEdge(src: array2<Color>)
    requires src.Length0 >= 1 && src.Length1 >= 1
    ensures EdgeSamples(src) ==
      PixelsAt(src, RowPoints(0, src.Length1)) + PixelsAt(src, RowPoints(src.Length0 - 1, src.Length1)) +
      PixelsAt(src, ColumnPoints(0, src.Length0)) + PixelsAt(src, ColumnPoints(src.Length1 - 1, src.Length0))
  {
    var rows, cols := src.Length0, src.Length1;
    var top, bottom := RowPoints(0, cols), RowPoints(rows - 1, cols);
    var left, right := ColumnPoints(0, rows), ColumnPoints(cols - 1, rows);
    assert EdgePoints(rows, cols) == top + bottom + left + right;
    PixelsAtAppend(src, top, bottom);
    PixelsAtAppend(src, top + bottom, left);
    PixelsAtAppend(src, top + bottom + left, right);
  }

  /** The four stepping loops and the averaging of `detectBackgroundColor`. */
  method DetectBackgroundColor(src: array2<Color>) returns (bg: Color)
    requires src.Length0 >= 1 && src.Length1 >= 1
    ensures bg == BackgroundEstimate(src)
  {
    var rows, cols := src.Length0, src.Length1;
    ghost var top := PixelsAt(src, RowPoints(0, cols));
    ghost var bottom := PixelsAt(src, RowPoints(rows - 1, cols));
    ghost var left := PixelsAt(src, ColumnPoints(0, rows));
    ghost var right := PixelsAt(src, ColumnPoints(cols - 1, rows));
    var edgeSamples: seq<Color> := [];
    edgeSamples := SampleRow(src, 0, edgeSamples);            // top edge
    assert edgeSamples == top;
    edgeSamples := SampleRow(src, rows - 1, edgeSamples);     // bottom edge
    edgeSamples := SampleColumn(src, 0, edgeSamples);         // left edge
    edgeSamples := SampleColumn(src, cols - 1, edgeSamples);  // right edge
    assert edgeSamples == top + bottom + left + right;
    EdgeSamplesByEdge(src);

    var sumR, sumG, sumB := SumChannels(edgeSamples);
    var count := |edgeSamples|;
    ChannelSumBounds(edgeSamples, Red);
    ChannelSumBounds(edgeSamples, Green);
    ChannelSumBounds(edgeSamples, Blue);
    bg := Color(RoundedMean(sumR, count), RoundedMean(sumG, count), RoundedMean(sumB, count));
  }

  predicate OnBorder(y: int, x: int, rows: int, cols: int)
  {
    y == 0 || y == rows - 1 || x == 0 || x == cols - 1
  }

  /** A raster whose border is one colour has that colour as its background estimate, whatever lies inside. */
  lemma UniformBorderEstimate(src: array2<Color>, c: Color)
    requires src.Length0 >= 1 && src.Length1 >= 1
    requires forall y, x :: 0 <= y < src.Length0 && 0 <= x < src.Length1 && OnBorder(y, x, src.Length0, src.Length1) ==> src[y, x] == c
    ensures BackgroundEstimate(src) == c
  {
    PixelsAtIndex(src, EdgePoints(src.Length0, src.Length1));
    MeanOfUniform(EdgeSamples(src), c);
  }

  /** `sampleCheckerColors` looks only at pixel values: same shape and contents, same checker colours. */
  lemma CheckerColorsDependOnContentsOnly(a: array2<Color>, b: array2<Color>)
    requires a.Length0 == b.Length0 && a.Length1 == b.Length1
    requires forall y, x :: 0 <= y < a.Length0 && 0 <= x < a.Length1 ==> a[y, x] == b[y, x]
    ensures CheckerColors(a) == CheckerColors(b)
  {
    var ps := KeepInBounds(CheckerSamplePoints(a.Length0, a.Length1), a.Length0, a.Length1);
    PixelsAtIndex(a, ps);
    PixelsAtIndex(b, ps);
    assert CheckerSamples(a) == CheckerSamples(b);
  }

  /** `detectBackgroundColor` looks only at pixel values: same shape and contents, same estimate. */
  lemma BackgroundEstimateDependsOnContentsOnly(a: array2<Color>, b: array2<Color>)
    requires a.Length0 == b.Length0 && a.Length1 == b.Length1 && a.Length0 >= 1 && a.Length1 >= 1
    requires forall y, x :: 0 <= y < a.Length0 && 0 <= x < a.Length1 ==> a[y, x] == b[y, x]
    ensures BackgroundEstimate(a) == BackgroundEstimate(b)
  {
    var es := EdgePoints(a.Length0, a.Length1);
    PixelsAtIndex(a, es);
    PixelsAtIndex(b, es);
    assert EdgeSamples(a) == EdgeSamples(b);
  }
}
