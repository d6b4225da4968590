/**
 * Pixels and colour distance, as used by every background-removal pass of
 * src/utils/imageProcessor.ts.
 */
module Colors {

  /** An 8-bit channel value, as read through `ucharPtr`. */
  type Byte = x: int | 0 <= x <= 255

  /** The red, green and blue channels of one pixel. */
  datatype Color = Color(r: Byte, g: Byte, b: Byte)

  /** A pixel of the output raster: colour plus the computed alpha channel. */
  datatype Rgba = Rgba(rgb: Color, a: Byte)

  /** A grid position with x as column and y as row, as in `cv.Point`. */
  datatype Point = Point(x: int, y: int)

  const White := Color(255, 255, 255)

  function Abs(n: int): (r: nat)
    ensures r == n || r == -n
  {
    if n < 0 then -n else n
  }

  /** L1 distance between two colours: the sum of the per-channel differences. */
  function Dist(a: Color, b: Color): (d: nat)
    ensures d == 0 <==> a == b
    ensures d <= 3 * 255
  {
    Abs(a.r - b.r) + Abs(a.g - b.g) + Abs(a.b - b.b)
  }

  lemma DistSymmetric(a: Color, b: Color)
    ensures Dist(a, b) == Dist(b, a)
  {
  }

  /** Some colour of `reps` lies at distance below `limit` from `c`. */
  ghost predicate Near(c: Color, reps: seq<Color>, limit: int)
  {
    exists k :: 0 <= k < |reps| && Dist(c, reps[k]) < limit
  }

  lemma NearExtend(c: Color, reps: seq<Color>, more: seq<Color>, limit: int)
    requires Near(c, reps, limit)
    ensures Near(c, reps + more, limit)
  {
    var k :| 0 <= k < |reps| && Dist(c, reps[k]) < limit;
    assert (reps + more)[k] == reps[k];
  }

  /**
   * The inner loop shared by clusterColors and removeCheckeredPattern:
   * scan `reps` in order and stop at the first one closer than `limit`.
   */
  method MatchesAny(c: Color, reps: seq<Color>, limit: int) returns (found: bool)
    ensures found <==> Near(c, reps, limit)
  {
    found := false;
    var j := 0;
    while j < |reps|
      invariant 0 <= j <= |reps|
      invariant forall k :: 0 <= k < j ==> Dist(c, reps[k]) >= limit
    {
      if Dist(c, reps[j]) < limit {
        found := true;
        break;
      }
      j := j + 1;
    }
  }
}
