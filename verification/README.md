# Background Remover: a verified model

This project models the core of a browser background remover. The model
is written in Dafny and its properties are proved.

The image engine in `src/utils/imageProcessor.ts` works on an RGB raster
and on a separate alpha grid, which starts fully opaque. It runs up to
three passes over them, in this order:

1. **Checkered pass.** It samples seven fixed points and clusters their
   colours greedily under L1 distance. Then it makes transparent every
   pixel within `tolerance * 3` of a cluster representative.
2. **Solid pass.** It estimates the background as the rounded mean of
   every fifth pixel on the four borders. It lets `cv.floodFill` repaint
   part of the working copy of the raster. Then it makes transparent every pixel within
   `tolerance * 3` of the estimate.
3. **Shadow pass.** It feathers alpha wherever a blurred shadow mask
   exceeds 128.

The passes work on a copy that `cv.imread` makes, so the image itself is
never changed and every run starts from its original pixels. The result is
the copy's colours with the computed alpha as the fourth channel.

Two smaller parts sit around the engine:

- **`src/App.tsx`** holds the application state: the loaded image, its
  file name, the processed image, the error text and the modal flag. It
  also decides the download URL and file name.
- **`src/components/ResultModal.tsx`** is a small crop editor. It maps the
  cursor into image coordinates and hit-tests the four corner handles. It
  draws new rectangles and resizes a rectangle from a handle with a
  10-unit minimum side.

The modules follow the source:

- `Colors`: pixels and L1 distance.
- `Clustering`: `clusterColors`.
- `Sampling`: `sampleCheckerColors` and `detectBackgroundColor`.
- `Passes`: the three removal passes.
- `ImageProcessor`: `processImage`.
- `App`: `src/App.tsx`.
- `ResultModal`: `src/components/ResultModal.tsx`.

The specifications follow the same approach throughout:

- **Loops.** Each loop of the source is a method proved against a
  specification function, for example the ghost functions `Cluster`,
  `CheckerSamples`, `BackgroundEstimate` and `CheckeredAlpha`, and the
  compiled functions `SolidAlpha` and `Feather`.
  Lemmas then state what those functions promise.
- **Grids.** Each pass rewrites an `array2` in place. Its postcondition
  gives every cell's new value in terms of its old value.
- **Handlers.** The React handlers become methods on the classes
  `AppModel` and `CropEditor`. Their fields are the component state.

## Model

| member | source | states |
|---|---|---|
| Colors.Dist | src/utils/imageProcessor.ts:126 | The L1 colour distance is zero exactly for equal colours and never exceeds 765. |
| Colors.DistSymmetric | src/utils/imageProcessor.ts:78 | The distance does not depend on argument order. |
| Colors.MatchesAny | src/utils/imageProcessor.ts:125-131 | The early-exit scan over representatives reports a match exactly when some representative is closer than the limit. |
| Clustering.ClusterColors | src/utils/imageProcessor.ts:115-138 | The loop returns exactly the greedy clustering `Cluster(colors, threshold)`: seeded with `colors[0]`, then every colour, the first included, is appended when no representative so far is closer than the threshold. |
| Clustering.ClusterStartsWithFirst | src/utils/imageProcessor.ts:119-121 | Empty input gives no clusters; otherwise the first representative is `colors[0]`. |
| Clustering.ClusterPicksInputColors | src/utils/imageProcessor.ts:132-134 | Every representative is one of the input colours; nothing is averaged. |
| Clustering.ClusterIsSubsequence | src/utils/imageProcessor.ts:121-135 | With a positive threshold the representatives are a subsequence of the input in input order, so no more than the input. |
| Clustering.ClusterCoversInput | src/utils/imageProcessor.ts:123-135 | With a positive threshold every input colour is closer than the threshold to some representative. |
| Clustering.ClusterSeparated | src/utils/imageProcessor.ts:125-134 | Any two representatives are at distance at least the threshold. |
| Clustering.ClusterNonPositiveThreshold | src/utils/imageProcessor.ts:121-135 | With a threshold of zero or less nothing is absorbed and the first colour appears twice: the output is `[colors[0]] + colors`. |
| Clustering.ClusterAbsorbsAppended | src/utils/imageProcessor.ts:123-135 | Appending a colour close to an existing representative leaves the clusters unchanged. |
| Sampling.KeepInBounds | src/utils/imageProcessor.ts:103-104 | The kept points are no more than the listed ones and all lie inside the raster. |
| Sampling.KeepInBoundsFilters | src/utils/imageProcessor.ts:103-104 | A point is kept exactly when it is listed and inside the raster; kept points keep their order. |
| Sampling.CollectCheckerSamples | src/utils/imageProcessor.ts:93-108 | The sampling loop reads the pixels at the listed in-bounds points, in order, and at most seven of them. |
| Sampling.SampleCheckerColors | src/utils/imageProcessor.ts:88-113 | `sampleCheckerColors` returns the samples clustered at threshold 15, at most seven colours. |
| Sampling.CheckerSamplesOfSinglePixel | src/utils/imageProcessor.ts:93-108 | On a 1x1 raster exactly the three points landing on (0, 0) are read, so out-of-range points are dropped, not clamped. |
| Sampling.CheckerSamplesOfLargeRaster | src/utils/imageProcessor.ts:93-108 | From 21x21 on, all seven points are sampled. |
| Sampling.CheckerColorsStartAtOrigin | src/utils/imageProcessor.ts:94 | A non-empty raster always has a checker colour, and the first one is its top-left pixel. |
| Sampling.Steps | src/utils/imageProcessor.ts:191 | The number of offsets 0, 5, 10, ... below `n` is the ceiling of `n / 5`. |
| Sampling.RowPoints | src/utils/imageProcessor.ts:191-200 | A row is sampled at x = 0, 5, 10, ... below the width, `ceil(cols / 5)` points. |
| Sampling.ColumnPoints | src/utils/imageProcessor.ts:203-212 | A column is sampled at y = 0, 5, 10, ... below the height, `ceil(rows / 5)` points. |
| Sampling.EdgePoints | src/utils/imageProcessor.ts:190-212 | The border samples number `2*ceil(cols/5) + 2*ceil(rows/5)`, all inside the raster and all on its border. |
| Sampling.SampleRow | src/utils/imageProcessor.ts:191-200 | One row loop appends exactly the pixels of that row at the sampled columns. |
| Sampling.SampleColumn | src/utils/imageProcessor.ts:203-212 | One column loop appends exactly the pixels of that column at the sampled rows. |
| Sampling.SumChannels | src/utils/imageProcessor.ts:215-222 | The `reduce` yields the per-channel sums of the samples. |
| Sampling.ChannelSumBounds | src/utils/imageProcessor.ts:215-222 | A channel sum is at most 255 per sample. |
| Sampling.RoundedMeanIsNearest | src/utils/imageProcessor.ts:226-228 | Each channel is the integer nearest to the mean, halves rounded up: `2*count*m <= 2*sum+count < 2*count*(m+1)`. |
| Sampling.MeanOfUniform | src/utils/imageProcessor.ts:214-229 | The rounded mean of samples all of one colour is that colour. |
| Sampling.DetectBackgroundColor | src/utils/imageProcessor.ts:184-230 | The four stepping loops and the averaging return `BackgroundEstimate(src)`, the rounded per-channel mean of the border samples in top, bottom, left, right order. |
| Sampling.UniformBorderEstimate | src/utils/imageProcessor.ts:184-230 | A raster whose border pixels are all one colour is estimated as exactly that colour, whatever lies inside. |
| Sampling.CheckerColorsDependOnContentsOnly | src/utils/imageProcessor.ts:88-113 | Two rasters of the same shape and contents give the same checker colours. |
| Sampling.BackgroundEstimateDependsOnContentsOnly | src/utils/imageProcessor.ts:184-230 | Two non-empty rasters of the same shape and contents give the same background estimate. |
| Passes.Feather | src/utils/imageProcessor.ts:260-265 | The new alpha never exceeds the old one, is unchanged where the mask is at most 128, and elsewhere is the floor of `a * (255 - s) / 255`. |
| Passes.FeatherReduces | src/utils/imageProcessor.ts:261-265 | Under a shadow, visible alpha strictly drops, zero stays zero, and a mask of 255 clears the pixel. |
| Passes.FeatherMonotone | src/utils/imageProcessor.ts:264 | Feathering preserves the order of alpha values. |
| Passes.ScanPassesIdempotent | src/utils/imageProcessor.ts:69-85 | Running the checkered or the solid scan a second time with the same inputs changes nothing. |
| Passes.RemoveCheckeredPattern | src/utils/imageProcessor.ts:64-86 | Every cell becomes 0 where the pixel is within `tolerance*3` of a checker colour and keeps its old alpha otherwise; colours are not written. |
| Passes.FloodFill | src/utils/imageProcessor.ts:150-164 | When the fill throws the raster is unchanged; otherwise exactly the pixels of the filled region become white. |
| Passes.ScanSolid | src/utils/imageProcessor.ts:167-179 | Every cell becomes 0 where the pixel is within `tolerance*3` of the background colour and keeps its old alpha otherwise. |
| Passes.RemoveSolidBackground | src/utils/imageProcessor.ts:140-182 | The estimate is taken before the fill; the raster is the filled one; alpha is the solid scan of the filled raster against the estimate. |
| Passes.ApplyShadowMask | src/utils/imageProcessor.ts:258-268 | Every cell becomes `Feather(old alpha, mask)`: only cells whose mask exceeds 128 change. |
| ImageProcessor.ComputeAlpha | src/utils/imageProcessor.ts:22-38 | Alpha starts at 255 and each cell ends as `PixelAlpha`: the enabled passes applied in the order checkered, solid, shadow. |
| ImageProcessor.ReadImage | src/utils/imageProcessor.ts:13 | `cv.imread` gives a fresh matrix of the same shape and contents, so its checker colours and background estimate are the image's own. |
| ImageProcessor.Merge | src/utils/imageProcessor.ts:41-44 | The output is a fresh raster of the same shape whose every pixel is the working colour with its alpha as the fourth channel. |
| ImageProcessor.ProcessImage | src/utils/imageProcessor.ts:8-62 | Without the library it fails with the fixed message; otherwise it returns a fresh raster whose every pixel is the image's colour after the flood fill and its computed alpha. The image itself is left unchanged either way, so a second run samples the original pixels again. |
| ImageProcessor.AlphaNeverRaised | src/utils/imageProcessor.ts:25-38 | The final alpha is at most what the checkered or the solid pass alone would leave. |
| ImageProcessor.RemovedStaysTransparent | src/utils/imageProcessor.ts:25-38 | A pixel removed by the checkered or solid pass is still fully transparent after the shadow pass. |
| ImageProcessor.NoPassKeepsOpaque | src/utils/imageProcessor.ts:23 | With every pass disabled the output is fully opaque. |
| ImageProcessor.UniformRasterClearedByCheckered | src/utils/imageProcessor.ts:64-86 | A raster of one colour is cleared entirely by the checkered pass for any tolerance of at least 1. |
| ImageProcessor.UniformRasterClearedBySolid | src/utils/imageProcessor.ts:167-179 | On a raster of one colour, the solid scan rule applied to the raster's own pixels against their estimate clears every pixel for any tolerance of at least 1; this is the case where the flood fill repaints none of them. |
| ImageProcessor.UniformRasterClearedWhenFillThrows | src/utils/imageProcessor.ts:8-62 | With the solid pass on, a tolerance of at least 1 and a flood fill that threw, every output pixel of a one-colour raster has alpha 0, whatever the checkered and shadow passes do. |
| App.ExtensionIsLastDot | src/App.tsx:62 | Only the last dot of the name can start the extension the pattern matches. |
| App.DownloadFileName | src/App.tsx:62 | A final `.` plus one or more non-dot characters is replaced by `-transparent.png`; a name with no such suffix is kept. |
| App.DownloadFileNameEndsInSuffix | src/App.tsx:62 | A rewritten name keeps everything before the last dot and ends in `-transparent.png`. |
| App.DownloadFileNameOfDoubleExtension | src/App.tsx:62 | `a.tar.gz` becomes `a.tar-transparent.png`. |
| App.DownloadFileNameOfDotFile | src/App.tsx:62 | `.hidden` becomes `-transparent.png`. |
| App.DownloadFileNameWithoutExtension | src/App.tsx:62 | `photo` and `photo.` are kept. |
| App.ChooseUrl | src/App.tsx:59-60 | A non-empty cropped URL wins, then a non-empty processed image; with neither there is no URL. |
| App.ErrorMessage | src/App.tsx:48-49 | The error text always starts with the fixed message and has details exactly for an `Error` with a non-empty message. |
| App.ErrorMessageKeepsDetails | src/App.tsx:48-49 | The details are ` Details: ` followed by the message, readable back from the text. |
| App.ErrorMessageInjective | src/App.tsx:48-49 | Different non-empty messages give different texts. |
| App.AppModel.constructor | src/App.tsx:16-27 | No image, no name, no result, no error, not processing, modal closed, default options (checkered and solid on, shadow off, tolerance 20). |
| App.AppModel.ModalImageSrc | src/App.tsx:229-230 | The modal gets the processed image whenever it is truthy, open or closed, and the empty string otherwise; an open modal always shows the processed image. |
| App.AppModel.HandleReset | src/App.tsx:9-14 | Image, processed image, file name and error are cleared; options and the modal flag are kept, and the modal is hidden. |
| App.AppModel.HandleImageLoad | src/App.tsx:29-34 | The image and file name are stored; processed image and error are cleared. |
| App.AppModel.HandleProcess | src/App.tsx:36-40 | Processing starts exactly when an image is loaded and the library is loaded and present; then the error is cleared; otherwise nothing changes. |
| App.AppModel.CompleteProcess | src/App.tsx:41-53 | Success stores the result and opens the modal; an exception sets the error text; processing ends either way. |
| App.AppModel.CloseModal | src/App.tsx:231 | The modal closes and nothing else changes. |
| App.AppModel.HandleModalDownload | src/App.tsx:57-68 | A link is produced exactly when one of the URLs is non-empty, pointing at the chosen URL, named by the rewritten file name. |
| ResultModal.Clamp | src/components/ResultModal.tsx:43-44 | The clamped value lies in the range and equals the input when the input already does. |
| ResultModal.RelativePosition | src/components/ResultModal.tsx:37-46 | The position always lies within the image, and is (0, 0) without an element. |
| ResultModal.RelativePositionInside | src/components/ResultModal.tsx:40-44 | A cursor inside the element maps proportionally, without clamping. |
| ResultModal.HandleEdgesExclusive | src/components/ResultModal.tsx:87-102 | No handle moves both the top and the bottom edge, or both the left and the right edge, and each moves one of each. |
| ResultModal.FirstHitIsFirstMatch | src/components/ResultModal.tsx:53-68 | The grabbed handle is the first, in the order nw, ne, sw, se, whose corner is strictly closer than 20 on both axes; none is grabbed only when no corner is. |
| ResultModal.PressOnTopLeftGrabsNW | src/components/ResultModal.tsx:53-68 | A press exactly on the top-left corner grabs the nw handle, whatever the crop's size, since nw is tested first. |
| ResultModal.HitHandle | src/components/ResultModal.tsx:61-68 | The loop over the handle table returns the first matching handle. |
| ResultModal.NewCrop | src/components/ResultModal.tsx:107-112 | A drawn rectangle has non-negative sides, and the drag start and the cursor are opposite corners. |
| ResultModal.NewCropSymmetric | src/components/ResultModal.tsx:107-112 | Swapping the drag start and the cursor gives the same rectangle. |
| ResultModal.NewCropInsideImage | src/components/ResultModal.tsx:107-112 | A drag between points of the image draws a rectangle inside the image. |
| ResultModal.Resize | src/components/ResultModal.tsx:83-104 | n and w keep the opposite edge fixed; s and e keep the top or left edge fixed; the moved side is at least 10; the moved edge follows the cursor unless that would make the side shorter than 10, and then the side is exactly 10. |
| ResultModal.ResizeKeepsMinimumSides | src/components/ResultModal.tsx:83-104 | From any crop and any handle, the resized crop is at least 10 wide and 10 high, because every handle moves one horizontal and one vertical edge. |
| ResultModal.ResizeMayLeaveImage | src/components/ResultModal.tsx:87-91 | The 10-unit minimum is enforced against the opposite edge only, so the top edge can leave the image. |
| ResultModal.CropEditor.constructor | src/components/ResultModal.tsx:18-22 | Size 0x0, no crop, not dragging, no drag start, no handle. |
| ResultModal.CropEditor.ImageLoaded | src/components/ResultModal.tsx:26-35 | With an image source the size and the crop become the whole image; without one nothing changes. |
| ResultModal.CropEditor.MouseDown | src/components/ResultModal.tsx:48-76 | Dragging starts at the cursor; a grabbed handle keeps the crop; otherwise an empty crop at the cursor with no handle. |
| ResultModal.CropEditor.MouseMove | src/components/ResultModal.tsx:78-115 | Nothing changes unless dragging; with a handle the crop is resized from it, otherwise it is drawn from the drag start; the editor invariant is kept. |
| ResultModal.CropEditor.MouseUp | src/components/ResultModal.tsx:117-120 | Dragging stops and the handle is released; the crop is kept. |
| ResultModal.CropEditor.ResetCrop | src/components/ResultModal.tsx:122-124 | The crop becomes the whole image. |
| ResultModal.CropEditor.DownloadClick | src/components/ResultModal.tsx:126-154 | Without a crop the image source is handed on unchanged; with one the crop is drawn first. |

## Left out

- OpenCV's implementations are not modelled. `imread` appears only as a same-shape copy (`ImageProcessor.ReadImage`), and `split`, `set` and `merge` only as pairing each colour with its alpha (`ImageProcessor.Merge`). `cvtColor`, `imshow`, `toDataURL`, and `Mat` allocation and deletion are left out. The raster is an array of RGB colours. The output is an array of colour and alpha pairs, not an encoded data URL.
- The `channels` and `alpha` matrices leak when a pass throws. Memory management is not part of the model.
- `cv.floodFill` is a library call. The model takes its effect as an input, `FloodFillOutcome`. Either it threw and its exception was swallowed, or it repainted some region white. Which region a 4-connected fill reaches is not modelled.
- The shadow mask pipeline of `removeShadows` is not modelled: HSV conversion, the `tolerance * 2.5` threshold, morphological opening and closing, and the Gaussian blur. The final mask is an input array.
- Passes.Feather computes the shadow formula in exact integers as `a * (255 - s) div 255`. The source uses floating point, `Math.floor(a * (1 - s / 255))`, and may be one lower where the product is an exact multiple of 255.
- Sampling.DetectBackgroundColor requires a raster with at least one row and one column. When exactly one dimension is zero the source reads outside the matrix; when both are, it divides 0 by 0 and every channel is NaN.
- ImageProcessor.ComputeAlpha skips the solid pass on an empty raster. There the source's pass has no pixel to change.
- ResultModal.RelativePosition requires an element of positive width and height. A zero-size element makes the source compute an infinite or NaN scale, which real numbers cannot express.
- ResultModal.CropEditor.DownloadClick returns the crop to draw. It does not draw it, and the asynchronous image load, the canvas copy and the PNG encoding are left out.
- App.AppModel.CompleteProcess takes the outcome of `processImage` as a parameter, either a result URL or a thrown value. The `setTimeout` deferral between `HandleProcess` and `CompleteProcess` is not modelled, and neither is the console log.
- App.AppModel.HandleProcess takes the library's `loaded` flag and the presence of `cv` as parameters. These come from the OpenCV provider hook.
- Anchor creation and the click that starts the download are not modelled. `HandleModalDownload` returns the link it would click.
- src/components/ImageUploader.tsx is not part of this model. It does file reading and image decoding.
- src/components/ProcessingControls.tsx is not part of this model. It is rendering plus replacement of the options object.
- JSX layout and styling are not modelled.
- The code has no seed-based region growing, no user-picked colours and no mask preview, so the model has none either.
- ResultModal.CropEditor.ImageLoaded collapses the effect on a new image source and its asynchronous `img.onload` into one step. Interleavings where other events arrive between the two are not modelled.
