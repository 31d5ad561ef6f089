# Image-to-PDF converter: a verified model of its core

The converter is a single browser page (`src/app/page.js`). The user uploads
image files and ZIP archives of images. The page keeps an ordered list of
image records that the user can remove, rotate by quarter turns and reorder
by dragging. It then exports the list as one PDF, one page per image, in
one of two modes:

- **preserve size** (the default): every page is created with the turned
  image's size in millimetres at 300 dpi, the fixed dpi setting (how the
  PDF library treats that size is outside the model, see "Left out");
- **standard page**: every page has the chosen format, with a 10 mm margin,
  and each image is either fitted into the margin box, keeping its
  proportions and centred, or stretched to fill it.

The model has five modules:

- `Filenames` (`filenames.dfy`) covers the two classifiers. `isImageFile`
  is the extension test of the upload filter. `getImageMimeType` maps a
  file name to a MIME type through a table with a fallback.
- `ImageList` (`image_list.dfy`) holds the image record and the pure list
  edits: the filter of `removeImage`, the map of `rotateImage`, the two
  splices of `handleDragOverItem`, and the records one upload batch
  produces.
- `Geometry` (`geometry.dfy`) covers the turned (effective) pixel size,
  the pixel-to-millimetre conversion, the preserve-size page, and the fit
  and fill placements of standard-page mode.
- `PdfAssembly` (`pdf_assembly.dfy`) models the PDF library's document as
  a class. The document holds a list of pages and a current page. It
  offers `addPage`, `addPage([w, h])` and `addImage`. The module also has
  the two page-building loops of `convertToPDF`, each proved against
  `PlannedPages`, the page-per-image specification.
- `Converter` (`converter.dfy`) is the component itself, a class. Its
  fields are the state hooks: `images`, `draggedIndex`, the PDF settings,
  and the files handed to the browser's download. Its methods are the
  handlers.

## Model

| member | source | states |
|---|---|---|
| Filenames.LastSegment | src/app/page.js:87 | `split('.').pop()` is the suffix of the name after its last dot, holds no dot, and is the whole name when there is no dot |
| Filenames.ImageFileIffKnownExtension | src/app/page.js:80-87 | a name passes the upload filter exactly when it has a dot and the lower-cased text after its last dot is one of jpg, jpeg, png, gif, bmp, webp, svg, so the filter and the MIME lookup read the same extension |
| Filenames.ImageFileMimeType | src/app/page.js:86-98 | every name the filter accepts gets its own table entry, never the fallback; jpg and jpeg, and only they, give image/jpeg |
| Filenames.RejectedNameFallsBack | src/app/page.js:86-98 | a dotted name the filter rejects has an extension outside the table and gets the fallback image/jpeg |
| Filenames.LookupAsWrittenAgreesOnImageFiles | src/app/page.js:37-41 | on every archive member the upload loop passes to `getImageMimeType`, the object lookup as written returns the table's own entry |
| Filenames.ConstructorExtensionEscapesFallback | src/app/page.js:87-97 | the name "a.constructor" makes the lookup as written return an inherited Object.prototype member where the fallback is meant |
| ImageList.Without | src/app/page.js:118-120 | the filter keeps exactly the records whose id differs from the removed one and never lengthens the list |
| ImageList.WithoutAppend | src/app/page.js:118-120 | the filter distributes over concatenation, so survivors keep their relative order |
| ImageList.WithoutIdempotent | src/app/page.js:118-120 | removing the same id twice equals removing it once |
| ImageList.WithoutAbsent | src/app/page.js:118-120 | removing an id that no record carries leaves the list unchanged |
| ImageList.WithoutDropsOne | src/app/page.js:118-120 | with distinct ids, removing a present id shortens the list by exactly one |
| ImageList.RotateTouchesOnlyRotation | src/app/page.js:123-127 | rotation keeps the length and every record with another id; the record with the id differs only in its rotation, which becomes (rotation + 90) mod 360 |
| ImageList.RotatedValid | src/app/page.js:125 | a quarter turn keeps the rotation among 0, 90, 180 and 270 |
| ImageList.RotateKeepsValid | src/app/page.js:123-127 | rotating by id keeps every record valid |
| ImageList.RotateFourTimes | src/app/page.js:123-127 | four rotations of the same id restore the list |
| ImageList.SpliceMoveIsMoved | src/app/page.js:141-144 | deleting the dragged record at its index and inserting it at the target index gives the moved list |
| ImageList.MovedIsPermutation | src/app/page.js:141-144 | a move keeps the length and the multiset of records |
| ImageList.MovedInverse | src/app/page.js:138-148 | dragging back from the target to the origin undoes the move |
| ImageList.MovedPlacesDragged | src/app/page.js:141-144 | the dragged record ends at the target index and records outside the span between the two indices keep their positions |
| ImageList.ArchiveImagesAreFresh | src/app/page.js:37-44 | every record taken from an archive is unrotated, valid, named like an image file and typed by `getImageMimeType` of its path |
| ImageList.BatchIsFresh | src/app/page.js:28-51 | every record of an upload batch is unrotated, valid and named like an image file |
| ImageList.BatchAppend | src/app/page.js:30-51 | uploading files in two calls appends the same records as one call with all of them |
| Geometry.ProcessImageCanvas | src/app/page.js:167-177 | the canvas is the image with width and height swapped at 90 and 270 degrees, and keeps its area |
| Geometry.QuarterTurnSwapsEffectiveSize | src/app/page.js:171-177 | one more quarter turn swaps the effective width and height |
| Geometry.PixelsToMmPositive | src/app/page.js:217-219 | a positive length in pixels gives a positive length in millimetres |
| Geometry.PixelsToMmMonotone | src/app/page.js:217-219 | the conversion keeps the order of lengths |
| Geometry.PreservedPageFollowsImage | src/app/page.js:217-226 | a preserved page has positive sides, the aspect ratio of the turned image, and is landscape exactly when the image is wider than tall |
| Geometry.PreservedPageExample | src/app/page.js:217-219 | at 300 dpi, 1200 by 1800 pixels give a 101.6 by 152.4 mm page |
| Geometry.FitBoxInsideMarginsAndCentred | src/app/page.js:269-289 | the fitted box lies inside the margin box, touches it on at least one axis, keeps the image's proportions and is centred on the page |
| Geometry.FitBoxScaleInvariant | src/app/page.js:279-284 | scaling both image sides by one factor does not move the fitted box |
| Geometry.FitIgnoresDpi | src/app/page.js:274-287 | the fitted placement equals the fit of the turned pixel size, whatever the dpi |
| Geometry.FitPlacementInsideMarginsAndCentred | src/app/page.js:269-289 | a placed image is fitted inside the margins, touches them on one axis, keeps its turned proportions and is centred |
| Geometry.FitExample | src/app/page.js:271-287 | on a 210 by 297 mm page, 3000 by 2000 pixels are fitted to 190 by 380/3 mm at (10, 511/6) |
| PdfAssembly.PdfDocument.constructor | src/app/page.js:222-226 | a new document has one empty page of the given format and the given orientation |
| PdfAssembly.PdfDocument.AddPage | src/app/page.js:264 | `addPage()` appends an empty page in the creation format |
| PdfAssembly.PdfDocument.AddPageOfSize | src/app/page.js:243 | `addPage([w, h])` appends an empty page of that size |
| PdfAssembly.PdfDocument.AddImage | src/app/page.js:230 | `addImage` draws on the current (last) page only and keeps every other page |
| PdfAssembly.PlannedPagesAppend | src/app/page.js:233-247 | one page per image, in list order: the plan of a concatenation is the concatenation of the plans |
| PdfAssembly.PlannedPagesFollowMove | src/app/page.js:138-148 | dragging an image to a new index moves its page the same way |
| PdfAssembly.PreservedPagesCoverImages | src/app/page.js:210-247 | in preserve-size mode every page holds exactly one image drawn over the whole page, whose proportions are those of the turned image, and the document orientation follows the first image |
| PdfAssembly.StandardPageOf | src/app/page.js:264-293 | the page of one image in standard mode has the chosen format and holds one image, fitted inside the margins (touching them on one axis, centred, in the turned proportions) or stretched over the margin box |
| PdfAssembly.StandardPagesUseFormat | src/app/page.js:250-294 | in standard mode every page has the chosen format and holds one image, placed by the fit or the fill rule |
| PdfAssembly.BuildPreservedPdf | src/app/page.js:210-247 | the preserve-size loop produces a document exactly when no image fails; that document's pages are the plan and its orientation follows the first image |
| PdfAssembly.BuildStandardPdf | src/app/page.js:250-294 | the standard-page loop adds a page only from the second image on, and produces a document exactly when no image fails; its pages are the plan in the chosen orientation |
| Converter.ExtractArchiveImages | src/app/page.js:37-44 | the archive loop collects exactly the records of the non-directory image members, in archive order |
| Converter.ImageToPdfConverter.constructor | src/app/page.js:8-21 | an empty list, nothing dragged, and the default settings: preserve size, 300 dpi, portrait, no fit |
| Converter.ImageToPdfConverter.UpdateSettings | src/app/page.js:358-421 | a settings control replaces its own field and keeps the rest of the settings |
| Converter.ImageToPdfConverter.HandleFileUpload | src/app/page.js:24-54 | the upload appends the batch's records after the images already listed, and the list stays valid |
| Converter.ImageToPdfConverter.RemoveImage | src/app/page.js:118-120 | the list becomes the filter that drops the id |
| Converter.ImageToPdfConverter.RotateImage | src/app/page.js:123-127 | the record with the id turns a quarter, and the list stays valid |
| Converter.ImageToPdfConverter.HandleDragStart | src/app/page.js:130-132 | the picked-up index is remembered |
| Converter.ImageToPdfConverter.HandleDragEnd | src/app/page.js:134-136 | nothing is being dragged any more |
| Converter.ImageToPdfConverter.HandleDragOverItem | src/app/page.js:138-148 | with nothing dragged, or with the item over its own place, nothing changes; otherwise the dragged record moves to the index and the drag follows it |
| Converter.ImageToPdfConverter.ConvertToPdf | src/app/page.js:201-307 | an empty list saves nothing; otherwise the file converted-images.pdf with the planned pages is saved exactly when no image fails, and a failure saves nothing |

## Left out

- The JSX markup, styling and icons are not modelled. The handlers they
  wire up are. The drop and file-input handlers (`onDrop`,
  `onFileInputChange`) only pass their file list to the upload handler.
- `createImageObject` reads a file and decodes it. Reading, decoding and
  preview data URLs are not modelled. Each file's decoded id, width and
  height are inputs. The model assumes a positive decoded size
  (`FilesDecodeValid`), and a decoder that never loads would leave the
  upload pending forever.
- Record ids are `Date.now() + Math.random()`, a clock and randomness, so
  the model takes them as inputs. Distinct ids are a hypothesis of
  `WithoutDropsOne` only.
- ZIP reading is not modelled. An archive is its list of members (path,
  directory flag, decoded image) in the order the archive library lists
  them. A failing `loadAsync` is not modelled.
- Canvas pixels, the drawing transform and the JPEG encoder are not
  modelled, and neither is the quality setting. Only the canvas size is
  kept.
- The PDF library keeps page sizes and image data internally. It is
  modelled as a page list of sizes and drawn rectangles.
- The page-size table of the PDF library (A4, A3, Letter, Legal) is not
  modelled. The `pageSize` setting is not modelled either. The standard
  format's width and height are parameters of `ConvertToPdf`.
- Millimetre arithmetic uses exact reals in place of double-precision
  floating point. Under exact reals, `width * (25.4 / dpi)` and
  `width * 25.4 / dpi` coincide.
- Processing errors anywhere in the export loop are modelled by `failing`,
  the set of indices whose image fails. Any such failure ends the run
  without saving. The alert, the console message and the busy flag and
  progress text (`isProcessing`, `processingStep`) are not modelled.
- The upload and the export are `async`. They are modelled as atomic
  steps, so interleavings with other handlers are not modelled. Neither
  are stale state values captured by React callbacks.
- Filenames.IsImageFile: case-insensitive matching is modelled by ASCII
  lower-casing. The regular expression has the `i` flag but not the `u`
  flag, and in that mode case folding never maps a non-ASCII character to
  an ASCII one (so neither U+017F nor U+0131 matches an extension
  letter); the accepted names are therefore the same.
- PdfAssembly.PdfDocument.AddPageOfSize: the model keeps the given width
  and height whatever the document's orientation. The PDF library is not
  part of this model; if its `addPage([w, h])` turns the size to the
  orientation the document was created with, then in preserve-size mode a
  page whose image is oriented unlike the first image gets its sides
  swapped while the image is still drawn over `w` by `h` from the origin,
  and PreservedPagesCoverImages and BuildPreservedPdf describe the sizes
  passed to the library rather than the pages it produces.
- Processing an image (`processImage`, `loadImageElement`) waits for an
  `onload` and has no `onerror`: an image that fails to load leaves the
  export pending forever, with no alert and the busy flag still set. The
  model's `Failed` outcome covers only errors the `try` block catches;
  in both cases nothing is saved.
- Converter.ImageToPdfConverter.HandleDragOverItem: requires both indices
  to be within the list. The page only produces such indices, and the
  source does not guard them.
- Converter.ImageToPdfConverter.UpdateSettings: changes the three modelled
  controls at once. `dpi` has no control and keeps its default.

## Findings

| source | as written | input that shows it | evidently intended | confidence | as-written member | corrected member |
|---|---|---|---|---|---|---|
| src/app/page.js:87-97 | `mimeTypes[ext] \|\| 'image/jpeg'` reads a plain object literal, so an extension naming an Object.prototype member returns that inherited member, not a MIME string. The only caller passes names accepted by `isImageFile`, where the lookup is correct. | "a.constructor" | the fallback "image/jpeg" for every extension outside the table | high; not executed | Filenames.ConstructorExtensionEscapesFallback | Filenames.RejectedNameFallsBack |
