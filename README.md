# RiskRewardUpdater: video-box removal and chart uploader, modelled in Dafny

RiskRewardUpdater prepares stock-chart screenshots for publication. This
project models two parts of it.

**The video-box removal engine (`Services/ImageProcessor.cs`).** It looks for
a dark rectangle in the lower-left part of a chart image and blacks it out.
- *Search area.* It takes the region of interest (ROI): the left third of the
  columns and the bottom half of the rows.
- *Thresholding.* It thresholds the gray ROI: dark pixels become 255.
- *Selection.* Among the contours of the thresholded ROI it picks the first of
  the largest ones whose area exceeds 500.
- *Placement.* It moves that contour's bounding box into image coordinates and
  grows it by 10 pixels on every side. When nothing qualifies, the answer is
  the ROI itself.
- *Blackout.* It draws the box into an all-zero mask the size of the image and
  blurs the mask with a 45x45 Gaussian. Every pixel where the blurred mask is
  non-zero becomes black.

**The chart uploader (`Program.cs`).** It walks the chart files in enumeration
order. For each file it:
- takes the ticker from the file name;
- looks up the company name through a cache (details below);
- uploads the chart as `charts/<file name>`;
- appends a record to the manifest.

Finally it uploads the manifest as `data.json`.

The cache entries carry the day they were fetched:
- an entry at most 28 days old is answered as it is;
- a stale entry is refreshed while fewer than 20 refreshes have been spent in the run;
- a missing ticker is always refreshed;
- a stale entry past that budget is answered stale.

Modules:
- `Geometry`: the `System.Drawing.Rectangle` semantics used, meaning `Offset`,
  `Inflate` and `Empty`.
- `Contours`: contours as point sequences. It holds the doubled shoelace area
  (so "area > 500" is "`Area2` > 1000") and `boundingRect`, whose width is
  maxX − minX + 1.
- `Raster`: 8-bit buffers as `array2`, and their row-major snapshots.
- `Wrappers`: the `Option` type both parts use.
- `ImageProcessor`: the ROI, the threshold loop, the running-maximum selection,
  detection, the mask, the blur abstraction, compositing and `RemoveVideoBox`.
- `ChartUploader`:
  - the cache policy as a function (`CompanyNameLookup`);
  - the run as a specification over a progress value (`ProcessStep`, `ProcessFirst`);
  - the program's static state as the class `Program`, whose methods update
    the cache, the refresh counter, the manifest and the upload log in place.

How inputs are represented:
- Dates are day numbers. `today` is `DateTime.Today` and `now` is the day of
  `DateTime.Now`. Since `Today` is midnight, comparing `LastUpdated + 28 days`
  with it on timestamps gives the same answer as comparing the day numbers.
- The symbol search is the function `search`. It yields the name of the first
  best match, or `None` when there is none; `None` becomes "Unknown".
- An upload is recorded as the blob name appended to `uploads`.
- In the image engine, three library results are inputs or parameters:
  - the contour finder's output is an input;
  - the gray ROI is the threshold's input;
  - the Gaussian blur is a function parameter. Its only assumed property is
    `BlurSupport`: it keeps the buffer's shape, and it leaves 0 every pixel
    whose 45x45 neighbourhood is all 0.

Two readings of the detector are easy to get wrong; the model follows the code:
- *ROI top.* The comment calls the ROI "the lower half". Its top row is
  `H - H/2` (`Services/ImageProcessor.cs:36`), which for an odd height is
  `H/2 + 1`, not `H/2`.
- *Threshold.* `THRESH_BINARY_INV` at 50 maps every gray value at most 50 to
  255, including 50 itself; a "darker than 50" reading would leave 50 out.

## Model

| member | source | states |
|---|---|---|
| Geometry.Offset | Services/ImageProcessor.cs:79-80 | Shifting a rectangle by (dx, dy) keeps its size and moves exactly the pixels it covers by (dx, dy) |
| Geometry.Inflate | Services/ImageProcessor.cs:83 | `Inflate(dx, dy)` moves the left and top edges out by dx and dy and the right and bottom edges out by the same amounts |
| Contours.DegenerateContourArea | Services/ImageProcessor.cs:63-66 | A contour of fewer than three points has area 0, so it never passes the area filter |
| Contours.BoundingRect | Services/ImageProcessor.cs:76 | The bounding rectangle holds every point of the contour, and a point touches each of its four edges. It is at least 1x1 for a non-empty contour and `Rectangle.Empty` for an empty one |
| Contours.BlockContourBounds | Services/ImageProcessor.cs:76 | The bounding rectangle of a solid block's four-corner contour is exactly the block's pixel extent |
| Contours.BlockContourArea | Services/ImageProcessor.cs:63 | The doubled area of a solid block's contour is 2·(x1−x0)·(y1−y0) |
| ImageProcessor.Roi | Services/ImageProcessor.cs:34-36 | The ROI is (0, H − H/2, W/3, H/2). Its top is H/2 + H%2, it lies inside the image, and its bottom edge is row H |
| ImageProcessor.Threshold | Services/ImageProcessor.cs:47 | The output has the input's size and is binary. A pixel is 255 exactly when its gray value is ≤ 50, and 0 exactly when it is > 50 |
| ImageProcessor.FirstLargestUnique | Services/ImageProcessor.cs:66 | At most one index is the first of the largest qualifying contours |
| ImageProcessor.FindLargestContour | Services/ImageProcessor.cs:57-71 | The result is None exactly when no contour has area > 500. Otherwise the chosen contour qualifies, no contour is larger, and every earlier contour is strictly smaller, so the first of equal maxima wins |
| ImageProcessor.DetectedBoxUnique | Services/ImageProcessor.cs:54-91 | The detector's answer is determined by the image size and the contours |
| ImageProcessor.DetectedBoxNonEmpty | Services/ImageProcessor.cs:91-96 | When the ROI has pixels, the answer has positive width and height and is never `Rectangle.Empty`. A detected box is at least 21 pixels on each side |
| ImageProcessor.DetectVideoBox | Services/ImageProcessor.cs:30-92 | Fails exactly when the ROI is empty. Otherwise it returns the placed box (shifted by the ROI origin, inflated by 10, unclipped) of the first largest qualifying contour, or the ROI itself when none qualifies. The answer has positive size |
| ImageProcessor.SolidBlockDetected | Services/ImageProcessor.cs:76-85 | A lone solid block larger than the filter is answered as the block moved into image coordinates and grown by 10 pixels on every side |
| ImageProcessor.MaskGrid | Services/ImageProcessor.cs:99-101 | The drawn mask has the image's size. It is 255 on exactly the pixels of box ∩ canvas and 0 elsewhere |
| ImageProcessor.ClearMask | Services/ImageProcessor.cs:100 | Every mask pixel becomes 0 |
| ImageProcessor.FillRectangle | Services/ImageProcessor.cs:101 | Pixels inside the box become 255 and all others keep their value. Parts of the box outside the canvas are dropped |
| ImageProcessor.ApplyBlur | Services/ImageProcessor.cs:104 | The mask becomes the blur of its previous contents |
| ImageProcessor.FarPixelUncovered | Services/ImageProcessor.cs:104 | The blurred mask is 0 at every pixel more than 22 pixels from the box |
| ImageProcessor.CopyBlackThroughMask | Services/ImageProcessor.cs:107-111 | Every pixel with a non-zero mask value becomes (0,0,0). Every pixel with mask 0 keeps its old value |
| ImageProcessor.OverlayBlackBox | Services/ImageProcessor.cs:94-113 | For a non-empty box, a pixel becomes black exactly when the blurred mask is non-zero there, and is otherwise unchanged. `Rectangle.Empty` changes nothing. No pixel more than 22 pixels from the box changes |
| ImageProcessor.RemoveVideoBox | Services/ImageProcessor.cs:11-28 | Fails, leaving the image as it was, exactly when the ROI is empty. Otherwise the detected box is never `Rectangle.Empty`, so the blackout always runs: each pixel is black where the blurred mask is non-zero and unchanged elsewhere |
| ChartUploader.FileNameWithoutExtension | Program.cs:74 | The ticker is the prefix of the file name before its last '.', or the whole name when there is no '.' |
| ChartUploader.Refresh | Program.cs:108-123 | A refresh answers the fetched name, or "Unknown" when there is no best match. It stores that name stamped `now` under the ticker, adds only that key, and leaves every other entry as it was |
| ChartUploader.CompanyNameLookup | Program.cs:87-106 | The four cases of the lookup. A fresh hit (at most 28 days old) answers the cached name with nothing changed. A stale entry under budget is refreshed and the count rises by 1. A missing ticker is refreshed with the count unchanged. A stale entry past the budget answers the stale name with nothing changed |
| ChartUploader.LookupKeepsBudget | Program.cs:94-96 | A lookup never lowers the refresh count, raises it by at most 1, and never takes it past 20 |
| ChartUploader.LookupCachesTicker | Program.cs:100-103 | After a lookup the ticker is cached under the name answered, and no cached ticker is dropped |
| ChartUploader.CachedAnswerIgnoresSearch | Program.cs:89-92 | A fresh hit, or a stale entry past the budget, does not depend on the search result: no request is made |
| ChartUploader.RefreshedEntryIsFresh | Program.cs:116-120 | Asking again on the same day gives the same name and changes nothing. Unless the first lookup met a stale entry past the budget, which stays stale, the entry is fresh afterwards, so the second lookup is a fresh hit |
| ChartUploader.RunLookupBehaves | Program.cs:87-106 | The run's lookup keeps the budget and caches the ticker it is asked about, in every state |
| ChartUploader.ProcessFirstLength | Program.cs:72-80 | After n files the manifest and the upload log have grown by exactly n entries |
| ChartUploader.ProcessFirstPrefix | Program.cs:72-80 | Processing more files only appends. The earlier manifest records and uploads are untouched |
| ChartUploader.ProcessFirstEntryAt | Program.cs:72-80 | The i-th new manifest record belongs to file i: its ticker, the name the lookup gave at that point of the run, its last-write date, `charts/` + its file name, and an empty comment. The i-th new upload is `charts/` + that file name |
| ChartUploader.RunKeepsBudget | Program.cs:19 | Across any number of files, the refresh count never decreases and never exceeds 20 |
| ChartUploader.RunCachesEveryTicker | Program.cs:72-80 | After a run every processed ticker is cached, and no earlier cache entry is dropped |
| ChartUploader.Program.constructor | Program.cs:17-19 | A run starts with the loaded cache, a refresh count of 0, an empty manifest and no uploads |
| ChartUploader.Program.GetCompanyName | Program.cs:87-106 | Answers, and updates the cache and the counter, exactly as `CompanyNameLookup` prescribes, and keeps the count within 0..20 |
| ChartUploader.Program.RefreshCompanyName | Program.cs:108-123 | Returns the fetched name or "Unknown" and stores it, stamped `now`, under the ticker |
| ChartUploader.Program.UploadToBlob | Program.cs:125-132 | Records exactly one upload, at the end of the log |
| ChartUploader.Program.UpdateDataJson | Program.cs:134-149 | Appends exactly one record to the end of the manifest: the ticker, the company name, the last-write date, `charts/` + the file name, and an empty comment. Earlier records are untouched |
| ChartUploader.Program.ProcessChart | Program.cs:74-79 | One loop pass changes the state exactly as `ProcessStep` prescribes (lookup, upload, record), and keeps the count within budget |
| ChartUploader.Program.ProcessCharts | Program.cs:68-85 | The final state is that of `ProcessFirst` over all files in order, followed by the upload of `data.json`. Together with the lemmas above, the manifest holds one record per file in order |

## Left out

- Image decoding and encoding (`Imread`/`Imwrite`) are file I/O through a native library. The engine works on an in-memory `array2` of pixels.
- The BGR-to-gray conversion is OpenCV's fixed-point luminance. `Threshold` takes the gray ROI as its input.
- The contour finder is a border-following library algorithm. Its output is an input sequence of contours, so `Threshold`'s output is not connected to it.
- Contour area is the integer doubled shoelace area. The library returns it as a double of the same value halved.
- The Gaussian blur arithmetic (floating-point kernel, rounding, border handling) is not modelled. The blur is a parameter with only the 22-pixel support property.
- FillRectangle: the model assumes the OpenCV 4 `rectangle(img, Rect, ...)` overload, which draws nothing when the width or the height is ≤ 0. The model agrees with it: such a box contains no pixel. Older OpenCV 3 releases test `area() > 0` instead and would draw a box with both sides negative, normalised. That behaviour is not modelled. The case never arises in `RemoveVideoBox`, because every box the detector answers has positive size (`DetectedBoxNonEmpty`).
- Reading the ROI's pixels when the ROI is empty makes the colour conversion raise an error. The model reports this as `Failure(InvalidImage)`, and the error's type and message are not modelled.
- Configuration, user secrets, cache.json and data.json (de)serialisation, and saving the cache are not modelled. They are I/O and foreign libraries. The constructor takes the loaded cache.
- Enumerating the `*.PNG` files and the folder path are not modelled. A run takes the file names as a sequence.
- The Alpha Vantage HTTP request and its failures (exceptions, malformed JSON) are not modelled. The search is a total function giving `Option<string>`.
- The Azure Blob upload is not modelled. Only the blob name is recorded.
- async/await is not modelled. The model is sequential, as the code awaits every call in order.
- `File.GetLastWriteTime` and the "yyyy-MM-dd" formatting are not modelled. Each chart file carries its date already formatted.
- ChartUploader.Program.ProcessCharts: `DateTime.Now` and `DateTime.Today` are taken once per run, so a clock that crosses midnight during a run is not modelled.
