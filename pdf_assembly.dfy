/** The document the export builds: an append-only list of pages, each with
    the image rectangles drawn on it, and the page plan the export loop is
    proved to produce. */
module PdfAssembly {
  import opened ImageList
  import opened Geometry

  /** One page: its size in millimetres and the rectangles images were drawn in. */
  datatype Page = Page(width: real, height: real, images: seq<Rect>)

  /** A document handed to the browser as a download. */
  datatype SavedPdf = SavedPdf(fileName: string, orientation: Orientation, pages: seq<Page>)

  /** The settings the export reads. `dpi` has no control and stays at its
      initial value; quality and the page-size name are not modelled. */
  datatype PdfSettings = PdfSettings(preserveSize: bool, dpi: nat, orientation: Orientation, fitToPage: bool)

  const DefaultSettings: PdfSettings := PdfSettings(true, 300, Portrait, false)

  /** The fixed name of the saved file. */
  const OutputFileName: string := "converted-images.pdf"

  /** The document object of the PDF library, as far as the export uses it:
      created with an orientation and a first page, grown by appending pages,
      and drawn on by placing an image on the current (last) page. */
  class PdfDocument {
    var orientation: Orientation
    var pages: seq<Page>
    /** The page format given at creation, reused by a bare `addPage()`. */
    const formatWidth: real
    const formatHeight: real

    constructor (orientation: Orientation, width: real, height: real)
      ensures this.orientation == orientation
      ensures formatWidth == width && formatHeight == height
      ensures pages == [Page(width, height, [])]
    {
      this.orientation := orientation;
      formatWidth := width;
      formatHeight := height;
      pages := [Page(width, height, [])];
    }

    /** `pdf.internal.pageSize.getWidth()`: the width of the current page. */
    function PageWidth(): (r: real)
      reads this
      requires pages != []
    {
      pages[|pages| - 1].width
    }

    function PageHeight(): (r: real)
      reads this
      requires pages != []
    {
      pages[|pages| - 1].height
    }

    /** `pdf.addPage()`: a new empty page in the creation format. */
    method AddPage()
      modifies this`pages
      ensures pages == old(pages) + [Page(formatWidth, formatHeight, [])]
    {
      pages := pages + [Page(formatWidth, formatHeight, [])];
    }

    /** `pdf.addPage([width, height])`: a new empty page of the given size,
        taken as given whatever the document's orientation. */
    method AddPageOfSize(width: real, height: real)
      modifies this`pages
      ensures pages == old(pages) + [Page(width, height, [])]
    {
      pages := pages + [Page(width, height, [])];
    }

    /** `pdf.addImage(data, 'JPEG', x, y, w, h)`: draws on the current page;
      earlier pages and the page's size are untouched. */
    method AddImage(placement: Rect)
      requires pages != []
      modifies this`pages
      ensures |pages| == |old(pages)|
      ensures pages[..|pages| - 1] == old(pages)[..|pages| - 1]
      ensures var last := old(pages)[|pages| - 1];
        pages[|pages| - 1] == Page(last.width, last.height, last.images + [placement])
    {
      var last := pages[|pages| - 1];
      pages := pages[..|pages| - 1] + [Page(last.width, last.height, last.images + [placement])];
    }
  }

  // ---------------------------------------------------------------------------
  // The page plan: what the export produces from the image list
  // ---------------------------------------------------------------------------

  predicate SettingsValid(settings: PdfSettings) {
    settings.dpi > 0
  }

  /** The page one image becomes. In preserve-size mode the page is the turned
      image converted to millimetres, covered by the image; otherwise it is a
      page of the chosen format with the image fitted or stretched inside the
      margins. `formatWidth` and `formatHeight` are the page size the PDF
      library gives for the chosen page size and orientation. */
  function PageFor(img: ImageRecord, settings: PdfSettings, formatWidth: real, formatHeight: real): Page
    requires ValidImage(img) && SettingsValid(settings)
  {
    if settings.preserveSize then
      var size := EffectiveSize(img);
      var width := PreservedWidth(size, settings.dpi);
      var height := PreservedHeight(size, settings.dpi);
      Page(width, height, [FullPage(width, height)])
    else if settings.fitToPage then
      Page(formatWidth, formatHeight, [FitPlacement(img, settings.dpi, formatWidth, formatHeight)])
    else
      Page(formatWidth, formatHeight, [FillPlacement(formatWidth, formatHeight)])
  }

  /** No image of the list fails to process. */
  predicate NoneFail(failing: set<nat>, count: nat) {
    forall k :: 0 <= k < count ==> k !in failing
  }

  /** Page k is the page of image k. */
  function PlannedPages(images: seq<ImageRecord>, settings: PdfSettings, formatWidth: real, formatHeight: real): seq<Page>
    requires AllValid(images) && SettingsValid(settings)
  {
    seq(|images|, k requires 0 <= k < |images| => PageFor(images[k], settings, formatWidth, formatHeight))
  }

  /** The orientation the document is created with: from the first image in
      preserve-size mode, from the settings otherwise. */
  function PlannedOrientation(images: seq<ImageRecord>, settings: PdfSettings): Orientation
    requires |images| > 0 && AllValid(images) && SettingsValid(settings)
  {
    if settings.preserveSize then
      var size := EffectiveSize(images[0]);
      InitialOrientation(PreservedWidth(size, settings.dpi), PreservedHeight(size, settings.dpi))
    else settings.orientation
  }

  /** The file a successful export of a non-empty list saves. */
  function PlannedPdf(images: seq<ImageRecord>, settings: PdfSettings, formatWidth: real, formatHeight: real): SavedPdf
    requires |images| > 0 && AllValid(images) && SettingsValid(settings)
  {
    SavedPdf(OutputFileName, PlannedOrientation(images, settings), PlannedPages(images, settings, formatWidth, formatHeight))
  }

  /** One page per image, in list order: the plan of a concatenation is the
      concatenation of the plans, so no page depends on a neighbour. */
  lemma PlannedPagesAppend(a: seq<ImageRecord>, b: seq<ImageRecord>, settings: PdfSettings, formatWidth: real, formatHeight: real)
    requires AllValid(a) && AllValid(b) && SettingsValid(settings)
    ensures AllValid(a + b)
    ensures PlannedPages(a + b, settings, formatWidth, formatHeight)
      == PlannedPages(a, settings, formatWidth, formatHeight) + PlannedPages(b, settings, formatWidth, formatHeight)
  {
    assert forall k :: 0 <= k < |a + b| ==> (a + b)[k] == if k < |a| then a[k] else b[k - |a|];
  }

  /** Dragging an image to a new place moves its page the same way. */
  lemma PlannedPagesFollowMove(images: seq<ImageRecord>, from: nat, to: nat, settings: PdfSettings, formatWidth: real, formatHeight: real)
    requires AllValid(images) && SettingsValid(settings)
    requires from < |images| && to < |images|
    ensures AllValid(Moved(images, from, to))
    ensures PlannedPages(Moved(images, from, to), settings, formatWidth, formatHeight)
      == Moved(PlannedPages(images, settings, formatWidth, formatHeight), from, to)
  {
    var m := Moved(images, from, to);
    forall k | 0 <= k < |m|
      ensures ValidImage(m[k])
    {
      assert m[k] in multiset(m);
      MovedIsPermutation(images, from, to);
      assert m[k] in multiset(images);
      var j :| 0 <= j < |images| && images[j] == m[k];
    }
  }

  /** Preserve-size pages: each page holds one image drawn from the origin
      over the whole page, the page has the turned image's proportions, and
      the document is landscape exactly when the first turned image is wider
      than tall. */
  lemma PreservedPagesCoverImages(images: seq<ImageRecord>, settings: PdfSettings, formatWidth: real, formatHeight: real)
    requires AllValid(images) && SettingsValid(settings) && settings.preserveSize
    ensures var pages := PlannedPages(images, settings, formatWidth, formatHeight);
      && |pages| == |images|
      && forall k :: 0 <= k < |images| ==>
        && pages[k].images == [Rect(0.0, 0.0, pages[k].width, pages[k].height)]
        && pages[k].width > 0.0 && pages[k].height > 0.0
        && pages[k].width * EffectiveSize(images[k]).height as real
           == pages[k].height * EffectiveSize(images[k]).width as real
    ensures |images| > 0 ==>
      (PlannedOrientation(images, settings) == Landscape <==> EffectiveSize(images[0]).width > EffectiveSize(images[0]).height)
  {
    var pages := PlannedPages(images, settings, formatWidth, formatHeight);
    forall k | 0 <= k < |images|
      ensures pages[k].images == [Rect(0.0, 0.0, pages[k].width, pages[k].height)]
      ensures pages[k].width > 0.0 && pages[k].height > 0.0
      ensures pages[k].width * EffectiveSize(images[k]).height as real
           == pages[k].height * EffectiveSize(images[k]).width as real
    {
      assert ValidImage(images[k]);
      PreservedPageFollowsImage(EffectiveSize(images[k]), settings.dpi);
    }
    if |images| > 0 {
      assert ValidImage(images[0]);
      PreservedPageFollowsImage(EffectiveSize(images[0]), settings.dpi);
    }
  }

  /** A page of standard mode: the chosen format, holding one image that is
      fitted inside the margins (touching them on one axis, centred, in the
      turned image's proportions) or stretched over the margin box. */
  predicate StandardPage(p: Page, img: ImageRecord, settings: PdfSettings, formatWidth: real, formatHeight: real) {
    && p.width == formatWidth && p.height == formatHeight
    && |p.images| == 1
    && var r := p.images[0];
      if settings.fitToPage then
        && r.x >= Margin && r.y >= Margin
        && r.x + r.width <= formatWidth - Margin && r.y + r.height <= formatHeight - Margin
        && (r.width == formatWidth - Margin * 2.0 || r.height == formatHeight - Margin * 2.0)
        && r.x == formatWidth - (r.x + r.width) && r.y == formatHeight - (r.y + r.height)
        && r.width * EffectiveSize(img).height as real == r.height * EffectiveSize(img).width as real
      else
        r == Rect(Margin, Margin, formatWidth - Margin * 2.0, formatHeight - Margin * 2.0)
  }

  lemma StandardPageOf(img: ImageRecord, settings: PdfSettings, formatWidth: real, formatHeight: real)
    requires ValidImage(img) && SettingsValid(settings) && !settings.preserveSize
    ensures StandardPage(PageFor(img, settings, formatWidth, formatHeight), img, settings, formatWidth, formatHeight)
  {
    if settings.fitToPage {
      FitPlacementInsideMarginsAndCentred(img, settings.dpi, formatWidth, formatHeight);
    }
  }

  /** Standard pages: one page per image, each a standard page for its image. */
  lemma StandardPagesUseFormat(images: seq<ImageRecord>, settings: PdfSettings, formatWidth: real, formatHeight: real)
    requires AllValid(images) && SettingsValid(settings) && !settings.preserveSize
    ensures var pages := PlannedPages(images, settings, formatWidth, formatHeight);
      && |pages| == |images|
      && forall k :: 0 <= k < |images| ==> StandardPage(pages[k], images[k], settings, formatWidth, formatHeight)
  {
    var pages := PlannedPages(images, settings, formatWidth, formatHeight);
    forall k | 0 <= k < |images|
      ensures StandardPage(pages[k], images[k], settings, formatWidth, formatHeight)
    {
      assert ValidImage(images[k]);
      StandardPageOf(images[k], settings, formatWidth, formatHeight);
    }
  }

  // ---------------------------------------------------------------------------
  // The two page loops of convertToPDF. Processing image k (drawing it on a
  // canvas, encoding and reading it back) throws when k is in `failing`; the
  // loop then stops and no document is returned.
  // ---------------------------------------------------------------------------

  /** Preserve-size branch: the first image fixes the document's first page
      and orientation, each later image adds a page of its own size. */
  method BuildPreservedPdf(images: seq<ImageRecord>, settings: PdfSettings, failing: set<nat>,
                           ghost formatWidth: real, ghost formatHeight: real) returns (pdf: PdfDocument?)
    requires |images| > 0 && AllValid(images) && SettingsValid(settings) && settings.preserveSize
    ensures pdf == null <==> !NoneFail(failing, |images|)
    ensures pdf != null ==>
      && fresh(pdf)
      && pdf.orientation == PlannedOrientation(images, settings)
      && pdf.pages == PlannedPages(images, settings, formatWidth, formatHeight)
  {
    ghost var plan := PlannedPages(images, settings, formatWidth, formatHeight);
    if 0 in failing {
      return null;
    }
    var canvasWidth, canvasHeight := ProcessImageCanvas(images[0]);
    var pixelsToMm := MmPerInch / settings.dpi as real;
    var firstWidth := canvasWidth as real * pixelsToMm;
    var firstHeight := canvasHeight as real * pixelsToMm;
    var doc := new PdfDocument(if firstWidth > firstHeight then Landscape else Portrait, firstWidth, firstHeight);
    assert firstWidth == PixelsToMm(canvasWidth, settings.dpi);
    assert firstHeight == PixelsToMm(canvasHeight, settings.dpi);
    assert plan[0] == Page(firstWidth, firstHeight, [Rect(0.0, 0.0, firstWidth, firstHeight)]);
    doc.AddImage(Rect(0.0, 0.0, firstWidth, firstHeight));
    assert doc.pages[0] == plan[0];
    assert doc.pages == [plan[0]] == plan[..1];
    for i := 1 to |images|
      invariant doc.pages == plan[..i]
      invariant doc.orientation == PlannedOrientation(images, settings)
      invariant NoneFail(failing, i)
    {
      if i in failing {
        return null;
      }
      var width, height := ProcessImageCanvas(images[i]);
      var pageWidth := width as real * pixelsToMm;
      var pageHeight := height as real * pixelsToMm;
      assert pageWidth == PixelsToMm(width, settings.dpi);
      assert pageHeight == PixelsToMm(height, settings.dpi);
      assert plan[i] == Page(pageWidth, pageHeight, [Rect(0.0, 0.0, pageWidth, pageHeight)]);
      doc.AddPageOfSize(pageWidth, pageHeight);
      doc.AddImage(Rect(0.0, 0.0, pageWidth, pageHeight));
      assert doc.pages[..i] == plan[..i] && doc.pages[i] == plan[i];
      assert doc.pages == plan[..i] + [plan[i]];
      assert plan[..i + 1] == plan[..i] + [plan[i]];
    }
    assert plan[..|images|] == plan;
    return doc;
  }

  /** Standard-page branch: one document in the chosen format and
      orientation; every image after the first adds a page of that format,
      and each image is fitted or stretched inside the 10 mm margins. */
  method BuildStandardPdf(images: seq<ImageRecord>, settings: PdfSettings, failing: set<nat>,
                          formatWidth: real, formatHeight: real) returns (pdf: PdfDocument?)
    requires |images| > 0 && AllValid(images) && SettingsValid(settings) && !settings.preserveSize
    ensures pdf == null <==> !NoneFail(failing, |images|)
    ensures pdf != null ==>
      && fresh(pdf)
      && pdf.orientation == settings.orientation
      && pdf.pages == PlannedPages(images, settings, formatWidth, formatHeight)
  {
    ghost var plan := PlannedPages(images, settings, formatWidth, formatHeight);
    var doc := new PdfDocument(settings.orientation, formatWidth, formatHeight);
    var pageWidth := doc.PageWidth();
    var pageHeight := doc.PageHeight();
    for i := 0 to |images|
      invariant doc.formatWidth == pageWidth == formatWidth && doc.formatHeight == pageHeight == formatHeight
      invariant i == 0 ==> doc.pages == [Page(formatWidth, formatHeight, [])]
      invariant i > 0 ==> doc.pages == plan[..i]
      invariant doc.orientation == settings.orientation
      invariant NoneFail(failing, i)
    {
      if i > 0 {
        doc.AddPage();
      }
      if i in failing {
        return null;
      }
      assert ValidImage(images[i]);
      assert doc.pages == plan[..i] + [Page(formatWidth, formatHeight, [])];
      var placement;
      if settings.fitToPage {
        placement := FitPlacement(images[i], settings.dpi, pageWidth, pageHeight);
      } else {
        placement := Rect(Margin, Margin, pageWidth - Margin * 2.0, pageHeight - Margin * 2.0);
      }
      assert plan[i] == Page(formatWidth, formatHeight, [placement]);
      doc.AddImage(placement);
      assert doc.pages[..i] == plan[..i] && doc.pages[i] == plan[i];
      assert doc.pages == plan[..i] + [plan[i]];
      assert plan[..i + 1] == plan[..i] + [plan[i]];
    }
    assert plan[..|images|] == plan;
    return doc;
  }
}
