/**
 * The background-removal passes of src/utils/imageProcessor.ts. Each one
 * scans the raster row by row and rewrites cells of the alpha grid in
 * place; only the solid-background pass writes colours, through the
 * flood fill that it attempts before its scan.
 */
module Passes {
  import opened Colors
  import opened Sampling

  predicate SameShape<T, U>(a: array2<T>, b: array2<U>)
  {
    a.Length0 == b.Length0 && a.Length1 == b.Length1
  }

  // ---------------------------------------------------------------------
  // Per-pixel effect of each pass

  /** removeCheckeredPattern: transparent when some checker colour is closer than `tolerance * 3`. */
  ghost function CheckeredAlpha(px: Color, a: Byte, colors: seq<Color>, tolerance: int): Byte
  {
    if Near(px, colors, tolerance * 3) then 0 else a
  }

  /** The scan of removeSolidBackground: transparent when closer than `tolerance * 3` to the background estimate. */
  function SolidAlpha(px: Color, a: Byte, bg: Color, tolerance: int): Byte
  {
    if Dist(px, bg) < tolerance * 3 then 0 else a
  }

  /** `Math.floor(a * (1 - s / 255))` where the shadow mask exceeds 128, computed exactly. */
  function Feather(a: Byte, s: Byte): (r: Byte)
    ensures r <= a
    ensures s <= 128 ==> r == a
    ensures s > 128 ==> r * 255 <= a * (255 - s) < r * 255 + 255
  {
    if s > 128 then
      MulMonotone(255 - s, 255, a);
      a * (255 - s) / 255
    else a
  }

  /** A shadow cell of a visible pixel always loses opacity; a transparent pixel stays transparent. */
  lemma FeatherReduces(a: Byte, s: Byte)
    requires s > 128
    ensures a > 0 ==> Feather(a, s) < a
    ensures a == 0 ==> Feather(a, s) == 0
    ensures s == 255 ==> Feather(a, s) == 0
  {
  }

  /** Feathering never makes a pixel more opaque than another pixel that was already more opaque. */
  lemma FeatherMonotone(a: Byte, b: Byte, s: Byte)
    requires a <= b
    ensures Feather(a, s) <= Feather(b, s)
  {
    if s > 128 {
      MulMonotone(a, b, 255 - s);
    }
  }

  /** Both scan passes are idempotent: a second run with the same inputs changes nothing. */
  lemma ScanPassesIdempotent(px: Color, a: Byte, colors: seq<Color>, bg: Color, tolerance: int)
    ensures CheckeredAlpha(px, CheckeredAlpha(px, a, colors, tolerance), colors, tolerance)
         == CheckeredAlpha(px, a, colors, tolerance)
    ensures SolidAlpha(px, SolidAlpha(px, a, bg, tolerance), bg, tolerance)
         == SolidAlpha(px, a, bg, tolerance)
  {
  }

  // ---------------------------------------------------------------------
  // removeCheckeredPattern

  /** Sample the checker colours, then zero alpha wherever a pixel matches one of them. */
  method RemoveCheckeredPattern(src: array2<Color>, alpha: array2<Byte>, tolerance: int)
    requires SameShape(src, alpha)
    modifies alpha
    ensures forall y, x :: 0 <= y < src.Length0 && 0 <= x < src.Length1 ==>
      alpha[y, x] == CheckeredAlpha(src[y, x], old(alpha[y, x]), CheckerColors(src), tolerance)
  {
    var colors := SampleCheckerColors(src);
    var rows, cols := src.Length0, src.Length1;
    for y := 0 to rows
      invariant forall i, j :: 0 <= i < y && 0 <= j < cols ==>
        alpha[i, j] == CheckeredAlpha(src[i, j], old(alpha[i, j]), colors, tolerance)
      invariant forall i, j :: y <= i < rows && 0 <= j < cols ==> alpha[i, j] == old(alpha[i, j])
    {
      for x := 0 to cols
        invariant forall i, j :: 0 <= i < y && 0 <= j < cols ==>
          alpha[i, j] == CheckeredAlpha(src[i, j], old(alpha[i, j]), colors, tolerance)
        invariant forall j :: 0 <= j < x ==>
          alpha[y, j] == CheckeredAlpha(src[y, j], old(alpha[y, j]), colors, tolerance)
        invariant forall i, j :: y <= i < rows && 0 <= j < cols && (i > y || j >= x) ==>
          alpha[i, j] == old(alpha[i, j])
      {
        var pixel := src[y, x];
        var matched := MatchesAny(pixel, colors, tolerance * 3);
        if matched {
          alpha[y, x] := 0;
        }
      }
    }
  }

  // ---------------------------------------------------------------------
  // removeSolidBackground

  /**
   * What the `cv.floodFill` call did to the raster: it threw (and the
   * exception was swallowed), or it repainted a region with the fill
   * colour (255, 255, 255).
   */
  datatype FloodFillOutcome = Threw | Repainted(region: set<Point>)

  function AfterFill(px: Color, p: Point, fill: FloodFillOutcome): (c: Color)
    ensures fill.Threw? ==> c == px
    ensures fill.Repainted? ==> c == if p in fill.region then White else px
  {
    match fill
    case Threw => px
    case Repainted(region) => if p in region then White else px
  }

  /** The flood-fill step, whose region is decided outside the model. */
  method FloodFill(src: array2<Color>, fill: FloodFillOutcome)
    modifies src
    ensures forall y, x :: 0 <= y < src.Length0 && 0 <= x < src.Length1 ==>
      src[y, x] == AfterFill(old(src[y, x]), Point(x, y), fill)
  {
    match fill {
      case Threw =>
      case Repainted(region) =>
        forall y, x | 0 <= y < src.Length0 && 0 <= x < src.Length1 && Point(x, y) in region {
          src[y, x] := White;
        }
    }
  }

  /** The colour-difference scan of removeSolidBackground. */
  method ScanSolid(src: array2<Color>, alpha: array2<Byte>, bg: Color, tolerance: int)
    requires SameShape(src, alpha)
    modifies alpha
    ensures forall y, x :: 0 <= y < src.Length0 && 0 <= x < src.Length1 ==>
      alpha[y, x] == SolidAlpha(src[y, x], old(alpha[y, x]), bg, tolerance)
  {
    var rows, cols := src.Length0, src.Length1;
    for y := 0 to rows
      invariant forall i, j :: 0 <= i < y && 0 <= j < cols ==>
        alpha[i, j] == SolidAlpha(src[i, j], old(alpha[i, j]), bg, tolerance)
      invariant forall i, j :: y <= i < rows && 0 <= j < cols ==> alpha[i, j] == old(alpha[i, j])
    {
      for x := 0 to cols
        invariant forall i, j :: 0 <= i < y && 0 <= j < cols ==>
          alpha[i, j] == SolidAlpha(src[i, j], old(alpha[i, j]), bg, tolerance)
        invariant forall j :: 0 <= j < x ==>
          alpha[y, j] == SolidAlpha(src[y, j], old(alpha[y, j]), bg, tolerance)
        invariant forall i, j :: y <= i < rows && 0 <= j < cols && (i > y || j >= x) ==>
          alpha[i, j] == old(alpha[i, j])
      {
        var pixel := src[y, x];
        var diff := Abs(pixel.r - bg.r) + Abs(pixel.g - bg.g) + Abs(pixel.b - bg.b);
        if diff < tolerance * 3 {
          alpha[y, x] := 0;
        }
      }
    }
  }

  /**
   * Estimate the background from the border, let the flood fill act on
   * the raster, then zero alpha wherever the (possibly repainted) pixel is
   * close to the estimate. The estimate is taken before the fill.
   */
  method RemoveSolidBackground(src: array2<Color>, alpha: array2<Byte>, tolerance: int, fill: FloodFillOutcome)
    returns (ghost bg: Color)
    requires SameShape(src, alpha)
    requires src.Length0 >= 1 && src.Length1 >= 1
    modifies src, alpha
    ensures bg == old(BackgroundEstimate(src))
    ensures forall y, x :: 0 <= y < src.Length0 && 0 <= x < src.Length1 ==>
      src[y, x] == AfterFill(old(src[y, x]), Point(x, y), fill)
    ensures forall y, x :: 0 <= y < src.Length0 && 0 <= x < src.Length1 ==>
      alpha[y, x] == SolidAlpha(src[y, x], old(alpha[y, x]), bg, tolerance)
  {
    var bgColor := DetectBackgroundColor(src);
    bg := bgColor;
    FloodFill(src, fill);
    ScanSolid(src, alpha, bgColor, tolerance);
  }

  // ---------------------------------------------------------------------
  // removeShadows

  /** The feathering loop of removeShadows, given the blurred shadow mask. */
  method ApplyShadowMask(shadowMask: array2<Byte>, alpha: array2<Byte>)
    requires SameShape(shadowMask, alpha)
    requires shadowMask != alpha
    modifies alpha
    ensures forall y, x :: 0 <= y < alpha.Length0 && 0 <= x < alpha.Length1 ==>
      alpha[y, x] == Feather(old(alpha[y, x]), shadowMask[y, x])
  {
    var rows, cols := alpha.Length0, alpha.Length1;
    for y := 0 to rows
      invariant forall i, j :: 0 <= i < y && 0 <= j < cols ==>
        alpha[i, j] == Feather(old(alpha[i, j]), shadowMask[i, j])
      invariant forall i, j :: y <= i < rows && 0 <= j < cols ==> alpha[i, j] == old(alpha[i, j])
    {
      for x := 0 to cols
        invariant forall i, j :: 0 <= i < y && 0 <= j < cols ==>
          alpha[i, j] == Feather(old(alpha[i, j]), shadowMask[i, j])
        invariant forall j :: 0 <= j < x ==>
          alpha[y, j] == Feather(old(alpha[y, j]), shadowMask[y, j])
        invariant forall i, j :: y <= i < rows && 0 <= j < cols && (i > y || j >= x) ==>
          alpha[i, j] == old(alpha[i, j])
      {
        var shadowValue := shadowMask[y, x];
        if shadowValue > 128 {
          var currentAlpha: int := alpha[y, x];
          var newAlpha := currentAlpha * (255 - shadowValue) / 255;
          assert newAlpha == Feather(currentAlpha, shadowValue);
          alpha[y, x] := newAlpha;
        }
      }
    }
  }
}
