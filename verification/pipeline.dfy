/**
 * `processImage` of src/utils/imageProcessor.ts: create an opaque alpha
 * grid, run the enabled passes in the fixed order checkered, solid,
 * shadow, and put the alpha grid in the fourth channel of the output.
 */
module ImageProcessor {
  import opened Wrappers
  import opened Colors
  import opened Sampling
  import opened Passes

  datatype ProcessingOptions = ProcessingOptions(
    removeCheckered: bool,
    removeSolid: bool,
    removeShadow: bool,
    tolerance: int)

  const NotLoadedMessage := "OpenCV is not loaded yet. Please wait a moment and try again."

  /** The background estimate the solid pass uses; an empty raster has no pixel for it to matter to. */
  ghost function SolidTarget(src: array2<Color>): Color
    reads src
  {
    if src.Length0 >= 1 && src.Length1 >= 1 then BackgroundEstimate(src) else White
  }

  /**
   * The alpha of one output pixel: opaque to start with, then each enabled
   * pass in order. `orig` is the pixel as read, `painted` the same pixel
   * after the solid pass's flood fill, `shade` the shadow-mask value.
   */
  ghost function PixelAlpha(orig: Color, painted: Color, shade: Byte, colors: seq<Color>, bg: Color,
                            options: ProcessingOptions): Byte
  {
    var a0 := 255;
    var a1 := if options.removeCheckered then CheckeredAlpha(orig, a0, colors, options.tolerance) else a0;
    var a2 := if options.removeSolid then SolidAlpha(painted, a1, bg, options.tolerance) else a1;
    if options.removeShadow then Feather(a2, shade) else a2
  }

  /** The alpha grid after the three passes (lines 22 to 38 of `processImage`). */
  method ComputeAlpha(src: array2<Color>, options: ProcessingOptions, fill: FloodFillOutcome,
                      shadowMask: array2<Byte>)
    returns (alpha: array2<Byte>)
    requires SameShape(shadowMask, src)
    modifies src
    ensures fresh(alpha) && SameShape(alpha, src)
    ensures forall y, x :: 0 <= y < src.Length0 && 0 <= x < src.Length1 ==>
      src[y, x] == (if options.removeSolid then AfterFill(old(src[y, x]), Point(x, y), fill) else old(src[y, x]))
    ensures forall y, x :: 0 <= y < src.Length0 && 0 <= x < src.Length1 ==>
      alpha[y, x] == PixelAlpha(old(src[y, x]), src[y, x], shadowMask[y, x],
                                old(CheckerColors(src)), old(SolidTarget(src)), options)
  {
    var rows, cols := src.Length0, src.Length1;
    ghost var colors := CheckerColors(src);
    ghost var bg := SolidTarget(src);
    var tolerance := options.tolerance;

    alpha := new Byte[rows, cols]((_, _) => 255);

    if options.removeCheckered {
      RemoveCheckeredPattern(src, alpha, tolerance);
    }
    assert forall y, x :: 0 <= y < rows && 0 <= x < cols ==>
      alpha[y, x] == (if options.removeCheckered then CheckeredAlpha(src[y, x], 255, colors, tolerance) else 255);

    label beforeSolid:
    // On an empty raster there is no pixel for the solid pass to change.
    if options.removeSolid && rows >= 1 && cols >= 1 {
      ghost var estimate := RemoveSolidBackground(src, alpha, tolerance, fill);
    }
    assert forall y, x :: 0 <= y < rows && 0 <= x < cols ==>
      alpha[y, x] == (if options.removeSolid then SolidAlpha(src[y, x], old@beforeSolid(alpha[y, x]), bg, tolerance)
                      else old@beforeSolid(alpha[y, x]));

    if options.removeShadow {
      ApplyShadowMask(shadowMask, alpha);
    }
  }

  /** `cv.imread`: a fresh matrix holding the image's pixels. */
  method ReadImage(src: array2<Color>) returns (work: array2<Color>)
    ensures fresh(work) && SameShape(work, src)
    ensures forall y, x :: 0 <= y < src.Length0 && 0 <= x < src.Length1 ==> work[y, x] == src[y, x]
    ensures CheckerColors(work) == CheckerColors(src) && SolidTarget(work) == SolidTarget(src)
  {
    var rows, cols := src.Length0, src.Length1;
    work := new Color[rows, cols]((y, x) requires 0 <= y < rows && 0 <= x < cols reads src => src[y, x]);
    CheckerColorsDependOnContentsOnly(work, src);
    if rows >= 1 && cols >= 1 {
      BackgroundEstimateDependsOnContentsOnly(work, src);
    }
  }

  /** `cv.split` and `cv.merge`: the colours with the alpha grid as the fourth channel. */
  method Merge(work: array2<Color>, alpha: array2<Byte>) returns (dst: array2<Rgba>)
    requires SameShape(alpha, work)
    ensures fresh(dst) && SameShape(dst, work)
    ensures forall y, x :: 0 <= y < work.Length0 && 0 <= x < work.Length1 ==> dst[y, x] == Rgba(work[y, x], alpha[y, x])
  {
    var rows, cols := work.Length0, work.Length1;
    dst := new Rgba[rows, cols]((y, x) requires 0 <= y < rows && 0 <= x < cols reads work, alpha =>
      Rgba(work[y, x], alpha[y, x]));
  }

  /**
   * `processImage`: `cv.imread` reads the image into a matrix of its own,
   * the passes work on that copy, and the image itself is left as it was,
   * so every run starts from the original pixels. The output colour is the
   * copy's colour after the flood fill.
   */
  method ProcessImage(cvLoaded: bool, src: array2<Color>, options: ProcessingOptions,
                      fill: FloodFillOutcome, shadowMask: array2<Byte>)
    returns (result: Result<array2<Rgba>, string>)
    requires SameShape(shadowMask, src)
    ensures unchanged(src)
    ensures !cvLoaded ==> result == Failure(NotLoadedMessage)
    ensures cvLoaded ==> result.Success? && fresh(result.value) && SameShape(result.value, src)
    ensures cvLoaded ==> forall y, x :: 0 <= y < src.Length0 && 0 <= x < src.Length1 ==>
      var painted := if options.removeSolid then AfterFill(src[y, x], Point(x, y), fill) else src[y, x];
      result.value[y, x] == Rgba(painted, PixelAlpha(src[y, x], painted, shadowMask[y, x],
                                                     CheckerColors(src), SolidTarget(src), options))
  {
    if !cvLoaded {
      return Failure(NotLoadedMessage);
    }
    var rows, cols := src.Length0, src.Length1;
    var work := ReadImage(src);
    var alpha := ComputeAlpha(work, options, fill, shadowMask);
    var dst := Merge(work, alpha);
    result := Success(dst);
  }

  // ---------------------------------------------------------------------
  // Properties of the per-pixel result

  /** Alpha only goes down: the result is at most what any earlier pass left. */
  lemma AlphaNeverRaised(orig: Color, painted: Color, shade: Byte, colors: seq<Color>, bg: Color,
                         options: ProcessingOptions)
    ensures options.removeCheckered ==>
      PixelAlpha(orig, painted, shade, colors, bg, options) <= CheckeredAlpha(orig, 255, colors, options.tolerance)
    ensures options.removeSolid ==>
      PixelAlpha(orig, painted, shade, colors, bg, options) <= SolidAlpha(painted, 255, bg, options.tolerance)
  {
  }

  /** A pixel that the checkered or the solid pass removes stays fully transparent after the shadow pass. */
  lemma RemovedStaysTransparent(orig: Color, painted: Color, shade: Byte, colors: seq<Color>, bg: Color,
                                options: ProcessingOptions)
    requires (options.removeCheckered && Near(orig, colors, options.tolerance * 3))
          || (options.removeSolid && Dist(painted, bg) < options.tolerance * 3)
    ensures PixelAlpha(orig, painted, shade, colors, bg, options) == 0
  {
  }

  /** With every pass disabled the output is fully opaque. */
  lemma NoPassKeepsOpaque(orig: Color, painted: Color, shade: Byte, colors: seq<Color>, bg: Color,
                          options: ProcessingOptions)
    requires !options.removeCheckered && !options.removeSolid && !options.removeShadow
    ensures PixelAlpha(orig, painted, shade, colors, bg, options) == 255
  {
  }

  /**
   * A raster of one colour loses every pixel to the checkered pass for any
   * tolerance of at least 1: the colour at (0, 0) is always a checker colour.
   */
  lemma UniformRasterClearedByCheckered(src: array2<Color>, c: Color, tolerance: int)
    requires src.Length0 >= 1 && src.Length1 >= 1 && tolerance >= 1
    requires forall y, x :: 0 <= y < src.Length0 && 0 <= x < src.Length1 ==> src[y, x] == c
    ensures forall y, x :: 0 <= y < src.Length0 && 0 <= x < src.Length1 ==>
      CheckeredAlpha(src[y, x], 255, CheckerColors(src), tolerance) == 0
  {
    CheckerColorsStartAtOrigin(src);
    var colors := CheckerColors(src);
    assert Dist(c, colors[0]) == 0;
  }

  /** The same raster loses every pixel to the solid scan, when no flood fill repaints it. */
  lemma UniformRasterClearedBySolid(src: array2<Color>, c: Color, tolerance: int)
    requires src.Length0 >= 1 && src.Length1 >= 1 && tolerance >= 1
    requires forall y, x :: 0 <= y < src.Length0 && 0 <= x < src.Length1 ==> src[y, x] == c
    ensures forall y, x :: 0 <= y < src.Length0 && 0 <= x < src.Length1 ==>
      SolidAlpha(src[y, x], 255, BackgroundEstimate(src), tolerance) == 0
  {
    UniformBorderEstimate(src, c);
  }

  /**
   * End to end: with the solid pass on and a flood fill that threw, every
   * output pixel of a one-colour raster is transparent, whatever the other
   * passes do. A fill that repaints pixels white can leave them opaque.
   */
  lemma UniformRasterClearedWhenFillThrows(src: array2<Color>, c: Color, shadowMask: array2<Byte>,
                                           options: ProcessingOptions)
    requires SameShape(shadowMask, src)
    requires src.Length0 >= 1 && src.Length1 >= 1 && options.removeSolid && options.tolerance >= 1
    requires forall y, x :: 0 <= y < src.Length0 && 0 <= x < src.Length1 ==> src[y, x] == c
    ensures forall y, x :: 0 <= y < src.Length0 && 0 <= x < src.Length1 ==>
      PixelAlpha(src[y, x], AfterFill(src[y, x], Point(x, y), Threw), shadowMask[y, x],
                 CheckerColors(src), SolidTarget(src), options) == 0
  {
    UniformRasterClearedBySolid(src, c, options.tolerance);
  }
}
