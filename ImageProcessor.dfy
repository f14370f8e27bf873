/** The video-box removal engine of Services/ImageProcessor.cs: locate a dark
    rectangle in the lower-left part of a chart screenshot, then black it out
    through a feathered mask.

    The library calls that the engine makes are represented as follows:
    - the colour-to-gray conversion is not modelled; the thresholding step
      takes the gray region of interest as its input;
    - the contour finder's output is an input sequence of contours;
    - contourArea is the doubled integer shoelace area (Contours.Area2);
    - the Gaussian blur is a function parameter whose only assumed property is
      BlurSupport: it keeps the buffer's shape and leaves zero every pixel whose
      45x45 neighbourhood (22 pixels each way) is zero in its input. */
module ImageProcessor {
  import opened Geometry
  import opened Contours
  import opened Raster
  import opened Wrappers

  /** The one error the engine raises: a raster with no pixels to look at. */
  datatype Error = InvalidImage

  datatype Result<T> = Success(value: T) | Failure(error: Error)

  // ---------------------------------------------------------------------
  // Detection policy
  // ---------------------------------------------------------------------

  /** Gray level at or below which a pixel counts as dark. */
  const ThresholdLevel := 50
  /** Value written for dark pixels by the inverted threshold, and for
      covered pixels in the mask. */
  const MaxValue := 255
  /** Contours must enclose strictly more than this many square pixels. */
  const MinContourArea := 500
  /** Pixels added on every side of the detected bounding box. */
  const InflateMargin := 10
  /** Side of the square blur kernel, and how far it reaches from its centre. */
  const BlurKernelSize := 45
  const BlurReach := BlurKernelSize / 2

  // ---------------------------------------------------------------------
  // Region of interest
  // ---------------------------------------------------------------------

  /** The searched region: the left third of the columns and the bottom
      height / 2 rows. Its top is height - height / 2, which is one row below
      height / 2 when the height is odd, so its bottom edge is the image's. */
  function Roi(width: nat, height: nat): (roi: Rectangle)
    ensures roi.x == 0 && roi.width == width / 3 && roi.height == height / 2
    ensures roi.y == height / 2 + height % 2
    ensures 0 <= roi.y && Right(roi) <= width && Bottom(roi) == height
  {
    var roiHeight := height / 2;
    var roiWidth := width / 3;
    Rectangle(0, height - roiHeight, roiWidth, roiHeight)
  }

  /** The region of interest holds no pixel (an image narrower than three
      columns or shorter than two rows, including the 0 x 0 raster a failed
      decode produces); the colour conversion then rejects it. */
  predicate RoiIsEmpty(width: nat, height: nat)
  {
    width / 3 == 0 || height / 2 == 0
  }

  // ---------------------------------------------------------------------
  // Threshold
  // ---------------------------------------------------------------------

  /** Inverted binary threshold of one gray value. */
  function ThresholdBinaryInv(gray: Byte): Byte
  {
    if gray > ThresholdLevel then 0 else MaxValue
  }

  /** Threshold the gray region of interest into a fresh binary buffer of the
      same size: dark pixels (gray at most 50) become 255, all others 0. */
  method Threshold(gray: array2<Byte>) returns (thresh: array2<Byte>)
    ensures fresh(thresh)
    ensures thresh.Length0 == gray.Length0 && thresh.Length1 == gray.Length1
    ensures forall row, col :: 0 <= row < gray.Length0 && 0 <= col < gray.Length1 ==>
      (thresh[row, col] == MaxValue <==> gray[row, col] <= ThresholdLevel) &&
      (thresh[row, col] == 0 <==> gray[row, col] > ThresholdLevel)
  {
    thresh := new Byte[gray.Length0, gray.Length1];
    var row := 0;
    while row < gray.Length0
      invariant 0 <= row <= gray.Length0
      invariant forall r, c :: 0 <= r < row && 0 <= c < gray.Length1 ==>
        thresh[r, c] == ThresholdBinaryInv(gray[r, c])
    {
      var col := 0;
      while col < gray.Length1
        invariant 0 <= col <= gray.Length1
        invariant forall r, c :: 0 <= r < row && 0 <= c < gray.Length1 ==>
          thresh[r, c] == ThresholdBinaryInv(gray[r, c])
        invariant forall c :: 0 <= c < col ==> thresh[row, c] == ThresholdBinaryInv(gray[row, c])
      {
        thresh[row, col] := ThresholdBinaryInv(gray[row, col]);
        col := col + 1;
      }
      row := row + 1;
    }
  }

  // ---------------------------------------------------------------------
  // Largest-contour selection
  // ---------------------------------------------------------------------

  /** The contour passes the noise filter: area > 500, i.e. doubled area > 1000. */
  predicate Qualifies(c: Contour)
  {
    Area2(c) > 2 * MinContourArea
  }

  predicate NoneQualifies(contours: seq<Contour>)
  {
    forall j :: 0 <= j < |contours| ==> !Qualifies(contours[j])
  }

  /** Contour k passes the filter, no contour is larger, and every earlier
      contour is strictly smaller: the first of the largest. */
  ghost predicate IsFirstLargest(contours: seq<Contour>, k: int)
  {
    && 0 <= k < |contours|
    && Qualifies(contours[k])
    && (forall j :: 0 <= j < |contours| ==> Area2(contours[j]) <= Area2(contours[k]))
    && (forall j :: 0 <= j < k ==> Area2(contours[j]) < Area2(contours[k]))
  }

  /** At most one contour is the first of the largest. */
  lemma FirstLargestUnique(contours: seq<Contour>, k1: int, k2: int)
    requires IsFirstLargest(contours, k1) && IsFirstLargest(contours, k2)
    ensures k1 == k2
  {
  }

  /** The running-maximum scan: keep a contour when it passes the filter and
      is strictly larger than the best so far (which starts at 0), so the
      first of several equally large contours wins. */
  method FindLargestContour(contours: seq<Contour>) returns (largest: Option<nat>)
    ensures largest.None? <==> NoneQualifies(contours)
    ensures largest.Some? ==> IsFirstLargest(contours, largest.value)
  {
    largest := None;
    var maxArea := 0;  // twice the best area so far
    for i := 0 to |contours|
      invariant largest.None? ==> maxArea == 0 && forall j :: 0 <= j < i ==> !Qualifies(contours[j])
      invariant largest.Some? ==> largest.value < i && maxArea == Area2(contours[largest.value])
      invariant largest.Some? ==> Qualifies(contours[largest.value])
      invariant largest.Some? ==> forall j :: 0 <= j < i ==> Area2(contours[j]) <= maxArea
      invariant largest.Some? ==> forall j :: 0 <= j < largest.value ==> Area2(contours[j]) < maxArea
    {
      var contourArea := Area2(contours[i]);
      if contourArea > 2 * MinContourArea && contourArea > maxArea {
        largest := Some(i);
        maxArea := contourArea;
      }
    }
  }

  // ---------------------------------------------------------------------
  // Detection
  // ---------------------------------------------------------------------

  /** The bounding box of contour c (in region-local coordinates) moved into
      image coordinates and grown by the margin on every side. */
  function Placed(c: Contour, roi: Rectangle): Rectangle
  {
    Inflate(Offset(BoundingRect(c), roi.x, roi.y), InflateMargin, InflateMargin)
  }

  /** box is what the detector answers for an image of the given size whose
      thresholded region of interest has the given contours: the placed box of
      the first largest qualifying contour, or the region itself when none
      qualifies. */
  ghost predicate IsDetectedBox(width: nat, height: nat, contours: seq<Contour>, box: Rectangle)
  {
    var roi := Roi(width, height);
    if NoneQualifies(contours) then box == roi
    else exists k :: IsFirstLargest(contours, k) && box == Placed(contours[k], roi)
  }

  /** The detector's answer is determined by the image size and the contours. */
  lemma DetectedBoxUnique(width: nat, height: nat, contours: seq<Contour>, b1: Rectangle, b2: Rectangle)
    requires IsDetectedBox(width, height, contours, b1)
    requires IsDetectedBox(width, height, contours, b2)
    ensures b1 == b2
  {
    if !NoneQualifies(contours) {
      var k1 :| IsFirstLargest(contours, k1) && b1 == Placed(contours[k1], Roi(width, height));
      var k2 :| IsFirstLargest(contours, k2) && b2 == Placed(contours[k2], Roi(width, height));
      FirstLargestUnique(contours, k1, k2);
    }
  }

  /** Whenever the region of interest has pixels the answer has positive width
      and height, so it is never Rectangle.Empty; a detected (rather than
      fallback) box is at least 21 pixels on each side. */
  lemma DetectedBoxNonEmpty(width: nat, height: nat, contours: seq<Contour>, box: Rectangle)
    requires !RoiIsEmpty(width, height)
    requires IsDetectedBox(width, height, contours, box)
    ensures box.width > 0 && box.height > 0 && box != Empty
    ensures !NoneQualifies(contours) ==> box.width >= 2 * InflateMargin + 1 && box.height >= 2 * InflateMargin + 1
  {
    if !NoneQualifies(contours) {
      var k :| IsFirstLargest(contours, k) && box == Placed(contours[k], Roi(width, height));
      if |contours[k]| < 3 {
        DegenerateContourArea(contours[k]);
      }
    }
  }

  /** Locate the video box. Fails as the colour conversion does when the
      region of interest is empty; otherwise answers the detected box, which
      is not clipped to the image. */
  method DetectVideoBox(width: nat, height: nat, contours: seq<Contour>) returns (result: Result<Rectangle>)
    ensures result.Failure? <==> RoiIsEmpty(width, height)
    ensures result.Success? ==> IsDetectedBox(width, height, contours, result.value)
    ensures result.Success? && NoneQualifies(contours) ==> result.value == Roi(width, height)
    ensures result.Success? ==> result.value.width > 0 && result.value.height > 0
  {
    var roiHeight := height / 2;
    var roiWidth := width / 3;
    var roi := Rectangle(0, height - roiHeight, roiWidth, roiHeight);
    if RoiIsEmpty(width, height) {
      return Failure(InvalidImage);
    }
    if |contours| > 0 {
      var largest := FindLargestContour(contours);
      if largest.Some? {
        var boundingRect := BoundingRect(contours[largest.value]);
        boundingRect := boundingRect.(x := boundingRect.x + roi.x);
        boundingRect := boundingRect.(y := boundingRect.y + roi.y);
        boundingRect := Inflate(boundingRect, InflateMargin, InflateMargin);
        assert boundingRect == Placed(contours[largest.value], roi);
        DetectedBoxNonEmpty(width, height, contours, boundingRect);
        return Success(boundingRect);
      }
    }
    return Success(Rectangle(0, height - roiHeight, roiWidth, roiHeight));
  }

  /** A single solid dark block inside the region, spanning columns x0..x1 and
      rows y0..y1 of the region and larger than the filter, is found
      pixel-exactly: the answer is the block moved into image coordinates and
      grown by 10 pixels on each side. */
  lemma SolidBlockDetected(width: nat, height: nat, x0: int, y0: int, x1: int, y1: int)
    requires x0 <= x1 && y0 <= y1
    requires (x1 - x0) * (y1 - y0) > MinContourArea
    ensures IsDetectedBox(width, height, [BlockContour(x0, y0, x1, y1)],
      Rectangle(x0 - InflateMargin, Roi(width, height).y + y0 - InflateMargin,
                x1 - x0 + 1 + 2 * InflateMargin, y1 - y0 + 1 + 2 * InflateMargin))
  {
    var cs := [BlockContour(x0, y0, x1, y1)];
    BlockContourArea(x0, y0, x1, y1);
    BlockContourBounds(x0, y0, x1, y1);
    assert IsFirstLargest(cs, 0);
  }

  // ---------------------------------------------------------------------
  // Mask
  // ---------------------------------------------------------------------

  /** The mask after the filled rectangle is drawn on an all-zero canvas:
      255 on box ∩ canvas, 0 elsewhere. */
  function MaskGrid(box: Rectangle, width: nat, height: nat): (g: Grid)
    ensures IsGrid(g, width, height)
    ensures forall row, col :: 0 <= row < height && 0 <= col < width ==>
      g[row][col] == if Contains(box, col, row) then MaxValue else 0
  {
    seq(height, row => seq(width, col => if Contains(box, col, row) then MaxValue else 0))
  }

  /** Every in-canvas pixel within `reach` rows and columns of (row, col) is 0. */
  ghost predicate ZeroNear(g: Grid, width: nat, height: nat, row: int, col: int, reach: nat)
    requires IsGrid(g, width, height)
  {
    forall r, c ::
      (0 <= r < height && 0 <= c < width && row - reach <= r <= row + reach && col - reach <= c <= col + reach)
      ==> g[r][c] == 0
  }

  /** The only property assumed of the blur: it keeps the buffer's shape, and
      a pixel whose whole neighbourhood within `reach` is 0 stays 0. */
  ghost predicate BlurSupport(blur: Grid -> Grid, reach: nat)
  {
    forall g: Grid, width: nat, height: nat {:trigger blur(g), IsGrid(g, width, height)} ::
      IsGrid(g, width, height) ==>
        IsGrid(blur(g), width, height) &&
        forall row, col :: 0 <= row < height && 0 <= col < width && ZeroNear(g, width, height, row, col, reach) ==>
          blur(g)[row][col] == 0
  }

  /** The feathered mask: the drawn mask after the blur. */
  ghost function BlurredMask(box: Rectangle, width: nat, height: nat, blur: Grid -> Grid): (g: Grid)
    requires BlurSupport(blur, BlurReach)
    ensures IsGrid(g, width, height)
  {
    blur(MaskGrid(box, width, height))
  }

  /** Pixel (row, col) is more than the blur's reach away from the box. */
  predicate FarFromBox(box: Rectangle, row: int, col: int)
  {
    || col < box.x - BlurReach || col >= Right(box) + BlurReach
    || row < box.y - BlurReach || row >= Bottom(box) + BlurReach
  }

  /** The feathered mask is 0 at every pixel farther than 22 pixels from the
      box. */
  lemma FarPixelUncovered(box: Rectangle, width: nat, height: nat, blur: Grid -> Grid, row: int, col: int)
    requires BlurSupport(blur, BlurReach)
    requires 0 <= row < height && 0 <= col < width
    requires FarFromBox(box, row, col)
    ensures BlurredMask(box, width, height, blur)[row][col] == 0
  {
    var g := MaskGrid(box, width, height);
    forall r, c | 0 <= r < height && 0 <= c < width &&
      row - BlurReach <= r <= row + BlurReach && col - BlurReach <= c <= col + BlurReach
      ensures g[r][c] == 0
    {
      assert !Contains(box, c, r);
    }
    assert ZeroNear(g, width, height, row, col, BlurReach);
  }

  /** mask.SetTo(0) */
  method ClearMask(mask: array2<Byte>)
    modifies mask
    ensures forall row, col :: 0 <= row < mask.Length0 && 0 <= col < mask.Length1 ==> mask[row, col] == 0
  {
    var row := 0;
    while row < mask.Length0
      invariant 0 <= row <= mask.Length0
      invariant forall r, c :: 0 <= r < row && 0 <= c < mask.Length1 ==> mask[r, c] == 0
    {
      var col := 0;
      while col < mask.Length1
        invariant 0 <= col <= mask.Length1
        invariant forall r, c :: 0 <= r < row && 0 <= c < mask.Length1 ==> mask[r, c] == 0
        invariant forall c :: 0 <= c < col ==> mask[row, c] == 0
      {
        mask[row, col] := 0;
        col := col + 1;
      }
      row := row + 1;
    }
  }

  /** Draw the box filled with 255; the parts of the box outside the canvas
      are dropped without error. */
  method FillRectangle(mask: array2<Byte>, box: Rectangle)
    modifies mask
    ensures forall row, col :: 0 <= row < mask.Length0 && 0 <= col < mask.Length1 ==>
      mask[row, col] == if Contains(box, col, row) then MaxValue else old(mask[row, col])
  {
    var top := if box.y < 0 then 0 else box.y;
    var bottom := if Bottom(box) > mask.Length0 then mask.Length0 else Bottom(box);
    var left := if box.x < 0 then 0 else box.x;
    var right := if Right(box) > mask.Length1 then mask.Length1 else Right(box);
    var row := top;
    while row < bottom
      invariant top <= row
      invariant forall r, c :: 0 <= r < mask.Length0 && 0 <= c < mask.Length1 ==>
        mask[r, c] == if Contains(box, c, r) && r < row then MaxValue else old(mask[r, c])
      decreases bottom - row
    {
      var col := left;
      while col < right
        invariant left <= col
        invariant forall r, c :: 0 <= r < mask.Length0 && 0 <= c < mask.Length1 ==>
          mask[r, c] == if Contains(box, c, r) && (r < row || (r == row && c < col)) then MaxValue else old(mask[r, c])
        decreases right - col
      {
        mask[row, col] := MaxValue;
        col := col + 1;
      }
      row := row + 1;
    }
  }

  /** Blur the mask in place. */
  method ApplyBlur(mask: array2<Byte>, blur: Grid -> Grid)
    requires BlurSupport(blur, BlurReach)
    modifies mask
    ensures forall row, col :: 0 <= row < mask.Length0 && 0 <= col < mask.Length1 ==>
      mask[row, col] == blur(old(Snapshot(mask)))[row][col]
  {
    var g := blur(Snapshot(mask));
    assert IsGrid(g, mask.Length1, mask.Length0);
    var row := 0;
    while row < mask.Length0
      invariant 0 <= row <= mask.Length0
      invariant forall r, c :: 0 <= r < row && 0 <= c < mask.Length1 ==> mask[r, c] == g[r][c]
    {
      var col := 0;
      while col < mask.Length1
        invariant 0 <= col <= mask.Length1
        invariant forall r, c :: 0 <= r < row && 0 <= c < mask.Length1 ==> mask[r, c] == g[r][c]
        invariant forall c :: 0 <= c < col ==> mask[row, c] == g[row][c]
      {
        mask[row, col] := g[row][col];
        col := col + 1;
      }
      row := row + 1;
    }
  }

  // ---------------------------------------------------------------------
  // Compositing
  // ---------------------------------------------------------------------

  /** Copy an all-black overlay into the image through the mask: every pixel
      whose mask value is non-zero, however small, becomes black; every pixel
      whose mask value is 0 is left exactly as it was. */
  method CopyBlackThroughMask(image: array2<Pixel>, mask: array2<Byte>)
    requires mask.Length0 == image.Length0 && mask.Length1 == image.Length1
    modifies image
    ensures forall row, col :: 0 <= row < image.Length0 && 0 <= col < image.Length1 ==>
      image[row, col] == if mask[row, col] != 0 then Black else old(image[row, col])
  {
    var row := 0;
    while row < image.Length0
      invariant 0 <= row <= image.Length0
      invariant forall r, c :: 0 <= r < image.Length0 && 0 <= c < image.Length1 ==>
        image[r, c] == if r < row && mask[r, c] != 0 then Black else old(image[r, c])
    {
      var col := 0;
      while col < image.Length1
        invariant 0 <= col <= image.Length1
        invariant forall r, c :: 0 <= r < image.Length0 && 0 <= c < image.Length1 ==>
          image[r, c] == if (r < row || (r == row && c < col)) && mask[r, c] != 0 then Black else old(image[r, c])
      {
        if mask[row, col] != 0 {
          image[row, col] := Black;
        }
        col := col + 1;
      }
      row := row + 1;
    }
  }

  /** Black out the box with feathered edges: build an all-zero mask the size
      of the image, draw the box into it, blur it and copy black through it.
      The empty rectangle leaves the image as it is. Pixels farther than 22
      pixels from the box never change. */
  method OverlayBlackBox(image: array2<Pixel>, box: Rectangle, blur: Grid -> Grid)
    requires BlurSupport(blur, BlurReach)
    modifies image
    ensures forall row, col :: 0 <= row < image.Length0 && 0 <= col < image.Length1 ==>
      image[row, col] ==
        if box != Empty && BlurredMask(box, image.Length1, image.Length0, blur)[row][col] != 0
        then Black else old(image[row, col])
    ensures forall row, col :: 0 <= row < image.Length0 && 0 <= col < image.Length1 && FarFromBox(box, row, col) ==>
      image[row, col] == old(image[row, col])
  {
    if box != Empty {
      var mask := new Byte[image.Length0, image.Length1];
      ClearMask(mask);
      FillRectangle(mask, box);
      ghost var drawn := MaskGrid(box, image.Length1, image.Length0);
      SnapshotEquals(mask, drawn);
      ApplyBlur(mask, blur);
      CopyBlackThroughMask(image, mask);
      forall row, col | 0 <= row < image.Length0 && 0 <= col < image.Length1 && FarFromBox(box, row, col)
        ensures image[row, col] == old(image[row, col])
      {
        FarPixelUncovered(box, image.Length1, image.Length0, blur, row, col);
      }
    }
  }

  /** A buffer whose every cell agrees with a grid of its shape has that grid
      as its snapshot. */
  lemma SnapshotEquals(a: array2<Byte>, g: Grid)
    requires IsGrid(g, a.Length1, a.Length0)
    requires forall row, col :: 0 <= row < a.Length0 && 0 <= col < a.Length1 ==> a[row, col] == g[row][col]
    ensures Snapshot(a) == g
  {
    var s := Snapshot(a);
    forall row | 0 <= row < a.Length0
      ensures s[row] == g[row]
    {
    }
  }

  /** The whole engine on one decoded image: detect, then black out when the
      answer is not the empty rectangle (it never is). When the image is too
      small to hold a region of interest the call raises InvalidImage before
      anything is written, and the image stays as it was. */
  method RemoveVideoBox(image: array2<Pixel>, contours: seq<Contour>, blur: Grid -> Grid)
    returns (detected: Result<Rectangle>)
    requires BlurSupport(blur, BlurReach)
    modifies image
    ensures detected.Failure? <==> RoiIsEmpty(image.Length1, image.Length0)
    ensures detected.Failure? ==>
      forall row, col :: 0 <= row < image.Length0 && 0 <= col < image.Length1 ==> image[row, col] == old(image[row, col])
    ensures detected.Success? ==>
      && IsDetectedBox(image.Length1, image.Length0, contours, detected.value)
      && detected.value != Empty
      && forall row, col :: 0 <= row < image.Length0 && 0 <= col < image.Length1 ==>
           image[row, col] ==
             if BlurredMask(detected.value, image.Length1, image.Length0, blur)[row][col] != 0
             then Black else old(image[row, col])
  {
    detected := DetectVideoBox(image.Length1, image.Length0, contours);
    if detected.Success? {
      var boxArea := detected.value;
      if boxArea != Empty {
        OverlayBlackBox(image, boxArea, blur);
      }
    }
  }
}
