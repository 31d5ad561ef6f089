/** Page geometry of the export: the rotated (effective) pixel size, the
    pixel-to-millimetre conversion, and the placement rectangles of the
    preserve-size, fit and fill layouts. Lengths are exact reals, an
    idealisation of the double arithmetic of the original. */
module Geometry {
  import opened ImageList

  datatype PixelSize = PixelSize(width: nat, height: nat)

  /** A rectangle in millimetres: top-left corner and size. */
  datatype Rect = Rect(x: real, y: real, width: real, height: real)

  datatype Orientation = Portrait | Landscape

  const MmPerInch: real := 25.4

  /** The margin of standard-page mode, in millimetres. */
  const Margin: real := 10.0

  /** The size of the image once turned: width and height swap for a quarter
      or three-quarter turn. */
  function EffectiveSize(img: ImageRecord): PixelSize {
    if img.rotation == 90 || img.rotation == 270 then PixelSize(img.height, img.width)
    else PixelSize(img.width, img.height)
  }

  /** The canvas `processImage` draws on, sized as the source sizes it. */
  method ProcessImageCanvas(img: ImageRecord) returns (canvasWidth: nat, canvasHeight: nat)
    ensures PixelSize(canvasWidth, canvasHeight) == EffectiveSize(img)
    ensures canvasWidth * canvasHeight == img.width * img.height
  {
    var rotation := img.rotation;
    if rotation == 90 || rotation == 270 {
      canvasWidth := img.height;
      canvasHeight := img.width;
    } else {
      canvasWidth := img.width;
      canvasHeight := img.height;
    }
  }

  /** One more quarter turn swaps the effective size. */
  lemma QuarterTurnSwapsEffectiveSize(img: ImageRecord)
    requires ValidImage(img)
    ensures EffectiveSize(Rotated(img)) == PixelSize(EffectiveSize(img).height, EffectiveSize(img).width)
  {
  }

  /** A length in pixels converted at `dpi` dots per inch. */
  function PixelsToMm(px: nat, dpi: nat): real
    requires dpi > 0
  {
    px as real * (MmPerInch / dpi as real)
  }

  lemma PixelsToMmPositive(px: nat, dpi: nat)
    requires px > 0 && dpi > 0
    ensures PixelsToMm(px, dpi) > 0.0
  {
    var k := MmPerInch / dpi as real;
    assert k > 0.0;
    assert px as real * k > 0.0;
  }

  /** Converting preserves the order of lengths. */
  lemma PixelsToMmMonotone(a: nat, b: nat, dpi: nat)
    requires dpi > 0
    ensures PixelsToMm(a, dpi) > PixelsToMm(b, dpi) <==> a > b
  {
    var k := MmPerInch / dpi as real;
    assert k > 0.0;
    assert PixelsToMm(a, dpi) - PixelsToMm(b, dpi) == (a as real - b as real) * k;
  }

  // ---------------------------------------------------------------------------
  // Preserve-size mode: each page is the image, converted to millimetres
  // ---------------------------------------------------------------------------

  function PreservedWidth(canvas: PixelSize, dpi: nat): real
    requires dpi > 0
  {
    PixelsToMm(canvas.width, dpi)
  }

  function PreservedHeight(canvas: PixelSize, dpi: nat): real
    requires dpi > 0
  {
    PixelsToMm(canvas.height, dpi)
  }

  /** The image covers its page from the origin. */
  function FullPage(width: real, height: real): (r: Rect)
    ensures r.x == 0.0 && r.y == 0.0
    ensures r.x + r.width == width && r.y + r.height == height
  {
    Rect(0.0, 0.0, width, height)
  }

  /** The orientation the document is created with in preserve-size mode:
      landscape only when the page is strictly wider than tall. */
  function InitialOrientation(width: real, height: real): Orientation {
    if width > height then Landscape else Portrait
  }

  /** A preserved page has the aspect ratio of the turned image, and is
      landscape exactly when the turned image is wider than tall (a square
      image gives a portrait page). */
  lemma PreservedPageFollowsImage(canvas: PixelSize, dpi: nat)
    requires dpi > 0 && canvas.width > 0 && canvas.height > 0
    ensures PreservedWidth(canvas, dpi) > 0.0 && PreservedHeight(canvas, dpi) > 0.0
    ensures PreservedWidth(canvas, dpi) * canvas.height as real == PreservedHeight(canvas, dpi) * canvas.width as real
    ensures InitialOrientation(PreservedWidth(canvas, dpi), PreservedHeight(canvas, dpi)) == Landscape
      <==> canvas.width > canvas.height
  {
    PixelsToMmPositive(canvas.width, dpi);
    PixelsToMmPositive(canvas.height, dpi);
    PixelsToMmMonotone(canvas.width, canvas.height, dpi);
    var k := MmPerInch / dpi as real;
    var w := canvas.width as real;
    var h := canvas.height as real;
    assert (w * k) * h == (h * k) * w;
  }

  // ---------------------------------------------------------------------------
  // Standard-page mode: fixed page, 10 mm margin, fit or fill
  // ---------------------------------------------------------------------------

  function Min(a: real, b: real): real {
    if a <= b then a else b
  }

  /** The fit computation of standard-page mode on an image of `mmWidth` by
      `mmHeight` millimetres: scale by the smaller of the two ratios between
      the margin box and the image, and centre the result. */
  function FitBox(mmWidth: real, mmHeight: real, pageWidth: real, pageHeight: real): Rect
    requires mmWidth > 0.0 && mmHeight > 0.0
  {
    var maxWidth := pageWidth - Margin * 2.0;
    var maxHeight := pageHeight - Margin * 2.0;
    var widthRatio := maxWidth / mmWidth;
    var heightRatio := maxHeight / mmHeight;
    var ratio := Min(widthRatio, heightRatio);
    var finalWidth := mmWidth * ratio;
    var finalHeight := mmHeight * ratio;
    Rect((pageWidth - finalWidth) / 2.0, (pageHeight - finalHeight) / 2.0, finalWidth, finalHeight)
  }

  /** Fit applied to an image record: its turned size, converted at `dpi`. */
  function FitPlacement(img: ImageRecord, dpi: nat, pageWidth: real, pageHeight: real): Rect
    requires ValidImage(img) && dpi > 0
  {
    var size := EffectiveSize(img);
    PixelsToMmPositive(size.width, dpi);
    PixelsToMmPositive(size.height, dpi);
    FitBox(PixelsToMm(size.width, dpi), PixelsToMm(size.height, dpi), pageWidth, pageHeight)
  }

  /** Fill: the margin box itself, whatever the image's proportions. */
  function FillPlacement(pageWidth: real, pageHeight: real): (r: Rect)
    ensures r.x == Margin && r.y == Margin
    ensures pageWidth - (r.x + r.width) == Margin && pageHeight - (r.y + r.height) == Margin
  {
    Rect(Margin, Margin, pageWidth - Margin * 2.0, pageHeight - Margin * 2.0)
  }

  lemma MulMonotone(a: real, x: real, y: real)
    requires a > 0.0 && x <= y
    ensures a * x <= a * y
  {
    assert a * y - a * x == a * (y - x);
  }

  lemma MulDivCancel(a: real, m: real)
    requires a > 0.0
    ensures a * (m / a) == m
  {
  }

  /** The fitted box lies inside the margin box, touches it on at least one
      axis, keeps the image's aspect ratio, and is centred on the page. */
  lemma FitBoxInsideMarginsAndCentred(mmWidth: real, mmHeight: real, pageWidth: real, pageHeight: real)
    requires mmWidth > 0.0 && mmHeight > 0.0
    ensures var r := FitBox(mmWidth, mmHeight, pageWidth, pageHeight);
      && r.width <= pageWidth - Margin * 2.0
      && r.height <= pageHeight - Margin * 2.0
      && (r.width == pageWidth - Margin * 2.0 || r.height == pageHeight - Margin * 2.0)
      && r.width * mmHeight == r.height * mmWidth
      && r.x == pageWidth - (r.x + r.width)
      && r.y == pageHeight - (r.y + r.height)
      && r.x >= Margin && r.y >= Margin
  {
    var maxWidth := pageWidth - Margin * 2.0;
    var maxHeight := pageHeight - Margin * 2.0;
    var widthRatio := maxWidth / mmWidth;
    var heightRatio := maxHeight / mmHeight;
    var ratio := Min(widthRatio, heightRatio);
    var r := FitBox(mmWidth, mmHeight, pageWidth, pageHeight);
    assert r.width == mmWidth * ratio && r.height == mmHeight * ratio;
    MulMonotone(mmWidth, ratio, widthRatio);
    MulMonotone(mmHeight, ratio, heightRatio);
    MulDivCancel(mmWidth, maxWidth);
    MulDivCancel(mmHeight, maxHeight);
    assert r.width * mmHeight == r.height * mmWidth by {
      assert mmWidth * ratio * mmHeight == mmHeight * ratio * mmWidth;
    }
  }

  lemma DivScale(m: real, a: real, k: real)
    requires a > 0.0 && k > 0.0
    ensures m / (a * k) == (m / a) / k
  {
  }

  lemma DivOrder(x: real, y: real, k: real)
    requires k > 0.0
    ensures x / k <= y / k <==> x <= y
  {
    assert y / k - x / k == (y - x) / k;
  }

  /** Scaling both sides of the image by the same factor does not move the
      fitted box: only the image's proportions matter. */
  lemma FitBoxScaleInvariant(a: real, b: real, k: real, pageWidth: real, pageHeight: real)
    requires a > 0.0 && b > 0.0 && k > 0.0
    ensures FitBox(a * k, b * k, pageWidth, pageHeight) == FitBox(a, b, pageWidth, pageHeight)
  {
    var maxWidth := pageWidth - Margin * 2.0;
    var maxHeight := pageHeight - Margin * 2.0;
    DivScale(maxWidth, a, k);
    DivScale(maxHeight, b, k);
    var wr := maxWidth / a;
    var hr := maxHeight / b;
    DivOrder(wr, hr, k);
    assert Min(wr / k, hr / k) == Min(wr, hr) / k;
    var ratio := Min(wr, hr);
    assert a * k * (ratio / k) == a * ratio;
    assert b * k * (ratio / k) == b * ratio;
  }

  /** Fit mode does not depend on the dpi setting: it equals the fit of the
      turned pixel size itself. */
  lemma FitIgnoresDpi(img: ImageRecord, dpi: nat, pageWidth: real, pageHeight: real)
    requires ValidImage(img) && dpi > 0
    ensures FitPlacement(img, dpi, pageWidth, pageHeight)
      == FitBox(EffectiveSize(img).width as real, EffectiveSize(img).height as real, pageWidth, pageHeight)
  {
    var size := EffectiveSize(img);
    var k := MmPerInch / dpi as real;
    var a, b := size.width as real, size.height as real;
    assert PixelsToMm(size.width, dpi) == a * k && PixelsToMm(size.height, dpi) == b * k;
    assert FitPlacement(img, dpi, pageWidth, pageHeight) == FitBox(a * k, b * k, pageWidth, pageHeight);
    FitBoxScaleInvariant(a, b, k, pageWidth, pageHeight);
  }

  /** The fitted box of a placed image: inside the margins, touching them on
      one axis, centred, and in the proportions of the turned image. */
  lemma FitPlacementInsideMarginsAndCentred(img: ImageRecord, dpi: nat, pageWidth: real, pageHeight: real)
    requires ValidImage(img) && dpi > 0
    ensures var r := FitPlacement(img, dpi, pageWidth, pageHeight);
      var size := EffectiveSize(img);
      && r.width <= pageWidth - Margin * 2.0
      && r.height <= pageHeight - Margin * 2.0
      && (r.width == pageWidth - Margin * 2.0 || r.height == pageHeight - Margin * 2.0)
      && r.width * size.height as real == r.height * size.width as real
      && r.x == pageWidth - (r.x + r.width)
      && r.y == pageHeight - (r.y + r.height)
      && r.x >= Margin && r.y >= Margin
  {
    var size := EffectiveSize(img);
    FitIgnoresDpi(img, dpi, pageWidth, pageHeight);
    FitBoxInsideMarginsAndCentred(size.width as real, size.height as real, pageWidth, pageHeight);
  }

  /** At 300 dpi a 1200 by 1800 pixel image gives a 101.6 by 152.4 mm page. */
  lemma PreservedPageExample()
    ensures PreservedWidth(PixelSize(1200, 1800), 300) == 101.6
    ensures PreservedHeight(PixelSize(1200, 1800), 300) == 152.4
  {
  }

  /** On a 210 by 297 mm page, a 3000 by 2000 pixel image is fitted to the
      190 mm width of the margin box and centred vertically. */
  lemma FitExample()
    ensures FitPlacement(ImageRecord(1, "a.png", "image/png", 3000, 2000, 0), 300, 210.0, 297.0)
      == Rect(10.0, 511.0 / 6.0, 190.0, 380.0 / 3.0)
  {
    var img := ImageRecord(1, "a.png", "image/png", 3000, 2000, 0);
    FitIgnoresDpi(img, 300, 210.0, 297.0);
    var ratio := Min(190.0 / 3000.0, 277.0 / 2000.0);
    assert ratio == 190.0 / 3000.0;
  }
}
