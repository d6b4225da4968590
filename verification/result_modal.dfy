/**
 * The crop editor of src/components/ResultModal.tsx: the cursor position
 * mapped into image coordinates, hit-testing of the four corner handles,
 * drawing a new rectangle, resizing from a handle, and the choice between
 * downloading the image as it is and downloading a crop of it.
 * Coordinates are JavaScript numbers, modelled as `real`.
 */
module ResultModal {
  import opened Wrappers

  datatype Pos = Pos(x: real, y: real)
  datatype CropArea = CropArea(x: real, y: real, width: real, height: real)
  /** The natural size of the displayed image. */
  datatype Size = Size(w: real, h: real)
  /** The bounding rectangle of the element the image is drawn in. */
  datatype Rect = Rect(left: real, top: real, width: real, height: real)

  function Min(a: real, b: real): real { if a <= b then a else b }
  function Max(a: real, b: real): real { if a >= b then a else b }
  function Abs(a: real): real { if a >= 0.0 then a else -a }

  /** `Math.max(lo, Math.min(hi, v))`. */
  function Clamp(lo: real, hi: real, v: real): (r: real)
    requires lo <= hi
    ensures lo <= r <= hi
    ensures lo <= v <= hi ==> r == v
    ensures v < lo ==> r == lo
    ensures v > hi ==> r == hi
  {
    Max(lo, Min(hi, v))
  }

  // ---------------------------------------------------------------------
  // getRelativePosition

  /**
   * The cursor in image coordinates: the offset in the element scaled by
   * the ratio of the image size to the element size, clamped to the image;
   * (0, 0) when the element is not mounted.
   */
  function RelativePosition(clientX: real, clientY: real, canvas: Option<Rect>, img: Size): (p: Pos)
    requires img.w >= 0.0 && img.h >= 0.0
    requires canvas.Some? ==> canvas.value.width > 0.0 && canvas.value.height > 0.0
    ensures canvas.None? ==> p == Pos(0.0, 0.0)
    ensures 0.0 <= p.x <= img.w && 0.0 <= p.y <= img.h
  {
    match canvas
    case None => Pos(0.0, 0.0)
    case Some(rect) =>
      var scaleX := img.w / rect.width;
      var scaleY := img.h / rect.height;
      Pos(Clamp(0.0, img.w, (clientX - rect.left) * scaleX), Clamp(0.0, img.h, (clientY - rect.top) * scaleY))
  }

  /** A cursor inside the element maps proportionally, without clamping. */
  lemma RelativePositionInside(clientX: real, clientY: real, rect: Rect, img: Size)
    requires img.w >= 0.0 && img.h >= 0.0
    requires rect.width > 0.0 && rect.height > 0.0
    requires rect.left <= clientX <= rect.left + rect.width
    requires rect.top <= clientY <= rect.top + rect.height
    ensures RelativePosition(clientX, clientY, Some(rect), img).x == (clientX - rect.left) * (img.w / rect.width)
    ensures RelativePosition(clientX, clientY, Some(rect), img).y == (clientY - rect.top) * (img.h / rect.height)
  {
  }

  // ---------------------------------------------------------------------
  // Corner handles

  datatype Handle = NW | NE | SW | SE

  /** The key of the handle in the handle table. */
  function Name(h: Handle): string
  {
    match h
    case NW => "nw"
    case NE => "ne"
    case SW => "sw"
    case SE => "se"
  }

  /** `resizeHandle.includes(c)`. */
  predicate HasEdge(h: Handle, c: char)
  {
    c in Name(h)
  }

  /** Every handle moves exactly one horizontal and exactly one vertical edge. */
  lemma HandleEdgesExclusive(h: Handle)
    ensures HasEdge(h, 'n') != HasEdge(h, 's')
    ensures HasEdge(h, 'w') != HasEdge(h, 'e')
  {
  }

  /** The handle table, in the order its entries are visited. */
  const HandleOrder: seq<Handle> := [NW, NE, SW, SE]

  const HandleSize: real := 20.0

  function Corner(crop: CropArea, h: Handle): Pos
  {
    match h
    case NW => Pos(crop.x, crop.y)
    case NE => Pos(crop.x + crop.width, crop.y)
    case SW => Pos(crop.x, crop.y + crop.height)
    case SE => Pos(crop.x + crop.width, crop.y + crop.height)
  }

  /** Strictly closer than the handle size on both axes. */
  predicate NearCorner(pos: Pos, corner: Pos)
  {
    Abs(pos.x - corner.x) < HandleSize && Abs(pos.y - corner.y) < HandleSize
  }

  /** The first handle of `hs` whose corner is near `pos`. */
  function FirstHitIn(crop: CropArea, pos: Pos, hs: seq<Handle>): Option<Handle>
  {
    if hs == [] then None
    else if NearCorner(pos, Corner(crop, hs[0])) then Some(hs[0])
    else FirstHitIn(crop, pos, hs[1..])
  }

  /** The handle a mouse-down at `pos` grabs, if any. */
  function FirstHit(crop: CropArea, pos: Pos): Option<Handle>
  {
    FirstHitIn(crop, pos, HandleOrder)
  }

  /** The corner of `hs[i]` is near `pos` and no corner before it in `hs` is. */
  predicate FirstNearAt(crop: CropArea, pos: Pos, hs: seq<Handle>, i: int)
    requires 0 <= i < |hs|
  {
    NearCorner(pos, Corner(crop, hs[i])) && forall k :: 0 <= k < i ==> !NearCorner(pos, Corner(crop, hs[k]))
  }

  lemma {:induction false} FirstHitInIsFirstMatch(crop: CropArea, pos: Pos, hs: seq<Handle>)
    ensures FirstHitIn(crop, pos, hs).None? ==> forall k :: 0 <= k < |hs| ==> !NearCorner(pos, Corner(crop, hs[k]))
    ensures FirstHitIn(crop, pos, hs).Some? ==>
      exists i :: 0 <= i < |hs| && hs[i] == FirstHitIn(crop, pos, hs).value && FirstNearAt(crop, pos, hs, i)
  {
    if hs != [] && !NearCorner(pos, Corner(crop, hs[0])) {
      FirstHitInIsFirstMatch(crop, pos, hs[1..]);
      if FirstHitIn(crop, pos, hs[1..]).Some? {
        var i :| 0 <= i < |hs[1..]| && hs[1..][i] == FirstHitIn(crop, pos, hs[1..]).value && FirstNearAt(crop, pos, hs[1..], i);
        assert hs[i + 1] == hs[1..][i];
        forall k | 0 <= k < i + 1 ensures !NearCorner(pos, Corner(crop, hs[k])) {
          if k > 0 {
            assert hs[k] == hs[1..][k - 1];
          }
        }
        assert FirstNearAt(crop, pos, hs, i + 1);
      } else {
        forall k | 0 <= k < |hs| ensures !NearCorner(pos, Corner(crop, hs[k])) {
          if k > 0 {
            assert hs[k] == hs[1..][k - 1];
          }
        }
      }
    } else if hs != [] {
      assert FirstNearAt(crop, pos, hs, 0);
    }
  }

  /**
   * Hit-testing picks a handle whose corner is near, and only when every
   * handle before it in the order nw, ne, sw, se is not; no handle is
   * picked only when no corner is near.
   */
  lemma FirstHitIsFirstMatch(crop: CropArea, pos: Pos)
    ensures FirstHit(crop, pos).None? <==> forall k :: 0 <= k < 4 ==> !NearCorner(pos, Corner(crop, HandleOrder[k]))
    ensures FirstHit(crop, pos).Some? ==>
      exists i :: 0 <= i < 4 && HandleOrder[i] == FirstHit(crop, pos).value && FirstNearAt(crop, pos, HandleOrder, i)
  {
    FirstHitInIsFirstMatch(crop, pos, HandleOrder);
  }

  /** A press exactly on the top-left corner of any crop grabs the nw handle, which is tested first. */
  lemma PressOnTopLeftGrabsNW(crop: CropArea)
    ensures FirstHit(crop, Pos(crop.x, crop.y)) == Some(NW)
  {
  }

  /** The loop over the handle table in `handleMouseDown`. */
  method HitHandle(crop: CropArea, pos: Pos) returns (h: Option<Handle>)
    ensures h == FirstHit(crop, pos)
  {
    var i := 0;
    while i < |HandleOrder|
      invariant 0 <= i <= |HandleOrder|
      invariant FirstHitIn(crop, pos, HandleOrder[i..]) == FirstHit(crop, pos)
    {
      var handle := HandleOrder[i];
      assert HandleOrder[i..][0] == handle;
      if NearCorner(pos, Corner(crop, handle)) {
        return Some(handle);
      }
      assert HandleOrder[i..][1..] == HandleOrder[i + 1..];
      i := i + 1;
    }
    return None;
  }

  // ---------------------------------------------------------------------
  // Drawing and resizing

  /** The rectangle spanned by the drag start and the cursor. */
  function NewCrop(start: Pos, pos: Pos): (c: CropArea)
    ensures c.width >= 0.0 && c.height >= 0.0
    ensures (c.x == start.x && c.x + c.width == pos.x) || (c.x == pos.x && c.x + c.width == start.x)
    ensures (c.y == start.y && c.y + c.height == pos.y) || (c.y == pos.y && c.y + c.height == start.y)
  {
    CropArea(Min(start.x, pos.x), Min(start.y, pos.y), Abs(pos.x - start.x), Abs(pos.y - start.y))
  }

  /** Swapping the drag start and the cursor gives the same rectangle. */
  lemma NewCropSymmetric(a: Pos, b: Pos)
    ensures NewCrop(a, b) == NewCrop(b, a)
  {
  }

  /** A drag that stays inside the image draws a rectangle inside the image. */
  lemma NewCropInsideImage(start: Pos, pos: Pos, img: Size)
    requires 0.0 <= start.x <= img.w && 0.0 <= start.y <= img.h
    requires 0.0 <= pos.x <= img.w && 0.0 <= pos.y <= img.h
    ensures 0.0 <= NewCrop(start, pos).x && NewCrop(start, pos).x + NewCrop(start, pos).width <= img.w
    ensures 0.0 <= NewCrop(start, pos).y && NewCrop(start, pos).y + NewCrop(start, pos).height <= img.h
  {
  }

  const MinSide: real := 10.0

  /**
   * Resizing from a handle: the n, s, w and e rules applied in that order,
   * each to the result of the previous one.
   */
  function Resize(crop: CropArea, h: Handle, pos: Pos): (c: CropArea)
    ensures HasEdge(h, 'n') ==> c.y + c.height == crop.y + crop.height && c.height >= MinSide
    ensures HasEdge(h, 'n') && pos.y <= crop.y + crop.height - MinSide ==> c.y == pos.y
    ensures HasEdge(h, 's') ==> c.y == crop.y && c.height >= MinSide
    ensures HasEdge(h, 's') && pos.y - crop.y >= MinSide ==> c.y + c.height == pos.y
    ensures HasEdge(h, 'w') ==> c.x + c.width == crop.x + crop.width && c.width >= MinSide
    ensures HasEdge(h, 'w') && pos.x <= crop.x + crop.width - MinSide ==> c.x == pos.x
    ensures HasEdge(h, 'e') ==> c.x == crop.x && c.width >= MinSide
    ensures HasEdge(h, 'e') && pos.x - crop.x >= MinSide ==> c.x + c.width == pos.x
    ensures HasEdge(h, 'n') && pos.y > crop.y + crop.height - MinSide ==> c.height == MinSide
    ensures HasEdge(h, 's') && pos.y - crop.y < MinSide ==> c.height == MinSide
    ensures HasEdge(h, 'w') && pos.x > crop.x + crop.width - MinSide ==> c.width == MinSide
    ensures HasEdge(h, 'e') && pos.x - crop.x < MinSide ==> c.width == MinSide
  {
    HandleEdgesExclusive(h);
    var afterN :=
      if HasEdge(h, 'n') then
        var maxY := crop.y + crop.height;
        var top := Min(pos.y, maxY - MinSide);
        crop.(y := top, height := maxY - top)
      else crop;
    var afterS :=
      if HasEdge(h, 's') then afterN.(height := Max(MinSide, pos.y - afterN.y)) else afterN;
    var afterW :=
      if HasEdge(h, 'w') then
        var maxX := crop.x + crop.width;
        var left := Min(pos.x, maxX - MinSide);
        afterS.(x := left, width := maxX - left)
      else afterS;
    if HasEdge(h, 'e') then afterW.(width := Max(MinSide, pos.x - afterW.x)) else afterW
  }

  /** Every handle moves one horizontal and one vertical edge, so a resized crop is at least 10 on each side. */
  lemma ResizeKeepsMinimumSides(crop: CropArea, h: Handle, pos: Pos)
    ensures Resize(crop, h, pos).width >= MinSide && Resize(crop, h, pos).height >= MinSide
  {
    HandleEdgesExclusive(h);
  }

  /**
   * The 10-unit minimum is enforced against the opposite edge only, not
   * against the image: the nw handle of a 5-unit-high crop at the top of
   * the image, dragged to the corner, moves the top edge above the image.
   */
  lemma ResizeMayLeaveImage()
    ensures Resize(CropArea(0.0, 0.0, 20.0, 5.0), NW, Pos(0.0, 0.0)).y < 0.0
  {
  }

  // ---------------------------------------------------------------------
  // The editor state

  /** What the download button does: hand the image on as it is, or draw the crop first. */
  datatype DownloadAction = PassOriginal(src: string) | DrawCrop(area: CropArea)

  class CropEditor {
    var imgSize: Size
    var cropArea: Option<CropArea>
    var isDragging: bool
    var dragStart: Option<Pos>
    var resizeHandle: Option<Handle>

    /**
     * The image size is a natural size, the crop never has a negative side,
     * a drag always has a start, and a handle is only held on an existing crop.
     */
    predicate Valid()
      reads this
    {
      imgSize.w >= 0.0 && imgSize.h >= 0.0 &&
      (cropArea.Some? ==> cropArea.value.width >= 0.0 && cropArea.value.height >= 0.0) &&
      (isDragging ==> dragStart.Some?) &&
      (resizeHandle.Some? ==> cropArea.Some?)
    }

    constructor ()
      ensures Valid()
      ensures imgSize == Size(0.0, 0.0) && cropArea == None && !isDragging && dragStart == None && resizeHandle == None
    {
      imgSize := Size(0.0, 0.0);
      cropArea := None;
      isDragging := false;
      dragStart := None;
      resizeHandle := None;
    }

    /** The effect on a new `imageSrc`: once the image has loaded, the crop is the whole image. */
    method ImageLoaded(imageSrc: string, naturalWidth: nat, naturalHeight: nat)
      requires Valid()
      modifies this
      ensures Valid()
      ensures imageSrc == "" ==> unchanged(this)
      ensures imageSrc != "" ==> imgSize == Size(naturalWidth as real, naturalHeight as real)
      ensures imageSrc != "" ==> cropArea == Some(CropArea(0.0, 0.0, naturalWidth as real, naturalHeight as real))
      ensures isDragging == old(isDragging) && dragStart == old(dragStart) && resizeHandle == old(resizeHandle)
    {
      if imageSrc == "" {
        return;
      }
      imgSize := Size(naturalWidth as real, naturalHeight as real);
      cropArea := Some(CropArea(0.0, 0.0, naturalWidth as real, naturalHeight as real));
    }

    /**
     * `handleMouseDown`: a press near a corner of the crop grabs that
     * handle and keeps the crop; any other press starts a new, empty crop
     * at the cursor. Dragging starts either way.
     */
    method MouseDown(clientX: real, clientY: real, canvas: Option<Rect>)
      requires Valid()
      requires canvas.Some? ==> canvas.value.width > 0.0 && canvas.value.height > 0.0
      modifies this
      ensures Valid()
      ensures isDragging && dragStart == Some(RelativePosition(clientX, clientY, canvas, old(imgSize)))
      ensures imgSize == old(imgSize)
      ensures var pos := RelativePosition(clientX, clientY, canvas, old(imgSize));
        var grabbed := if old(cropArea).Some? then FirstHit(old(cropArea).value, pos) else None;
        if grabbed.Some? then resizeHandle == grabbed && cropArea == old(cropArea)
        else resizeHandle == None && cropArea == Some(CropArea(pos.x, pos.y, 0.0, 0.0))
    {
      var pos := RelativePosition(clientX, clientY, canvas, imgSize);
      if cropArea.Some? {
        var handle := HitHandle(cropArea.value, pos);
        if handle.Some? {
          resizeHandle := handle;
          isDragging := true;
          dragStart := Some(pos);
          return;
        }
      }
      isDragging := true;
      dragStart := Some(pos);
      cropArea := Some(CropArea(pos.x, pos.y, 0.0, 0.0));
      resizeHandle := None;
    }

    /**
     * `handleMouseMove`: ignored unless dragging; with a handle held the
     * crop is resized from it, otherwise a new crop is drawn from the drag
     * start to the cursor.
     */
    method MouseMove(clientX: real, clientY: real, canvas: Option<Rect>)
      requires Valid()
      requires canvas.Some? ==> canvas.value.width > 0.0 && canvas.value.height > 0.0
      modifies this
      ensures Valid()
      ensures !old(isDragging) ==> unchanged(this)
      ensures imgSize == old(imgSize) && isDragging == old(isDragging)
      ensures dragStart == old(dragStart) && resizeHandle == old(resizeHandle)
      ensures old(isDragging) ==>
        var pos := RelativePosition(clientX, clientY, canvas, old(imgSize));
        cropArea == Some(if old(resizeHandle).Some? then Resize(old(cropArea).value, old(resizeHandle).value, pos)
                         else NewCrop(old(dragStart).value, pos))
    {
      if !isDragging || dragStart.None? {
        return;
      }
      var pos := RelativePosition(clientX, clientY, canvas, imgSize);
      if resizeHandle.Some? && cropArea.Some? {
        ResizeKeepsMinimumSides(cropArea.value, resizeHandle.value, pos);
        cropArea := Some(Resize(cropArea.value, resizeHandle.value, pos));
      } else {
        cropArea := Some(NewCrop(dragStart.value, pos));
      }
    }

    /** `handleMouseUp`, also bound to leaving the element: the drag ends and the handle is let go. */
    method MouseUp()
      requires Valid()
      modifies this
      ensures Valid()
      ensures !isDragging && resizeHandle == None
      ensures cropArea == old(cropArea) && dragStart == old(dragStart) && imgSize == old(imgSize)
    {
      isDragging := false;
      resizeHandle := None;
    }

    /** `resetCrop`: the crop becomes the whole image again. */
    method ResetCrop()
      requires Valid()
      modifies this
      ensures Valid()
      ensures cropArea == Some(CropArea(0.0, 0.0, imgSize.w, imgSize.h))
      ensures imgSize == old(imgSize) && isDragging == old(isDragging)
      ensures dragStart == old(dragStart) && resizeHandle == old(resizeHandle)
    {
      cropArea := Some(CropArea(0.0, 0.0, imgSize.w, imgSize.h));
    }

    /** `handleDownloadClick`: without a crop the image source goes to the download handler unchanged. */
    method DownloadClick(imageSrc: string) returns (action: DownloadAction)
      ensures cropArea.None? ==> action == PassOriginal(imageSrc)
      ensures cropArea.Some? ==> action == DrawCrop(cropArea.value)
    {
      if cropArea.None? {
        return PassOriginal(imageSrc);
      }
      action := DrawCrop(cropArea.value);
    }
  }
}
