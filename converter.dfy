/** The converter component's state and handlers: the image list, the index
    of the item being dragged, the export settings, and the downloads the
    export has handed to the browser. */
module Converter {
  import opened Filenames
  import opened ImageList
  import opened Geometry
  import opened PdfAssembly

  datatype Option<T> = None | Some(value: T)

  /** How an export run ends: nothing to do, a saved file, or an error
      caught by the export (an alert, no file). */
  datatype RunOutcome = NothingToConvert | Saved | Failed

  lemma AppendBatchValid(images: seq<ImageRecord>, files: seq<UploadFile>)
    requires AllValid(images) && FilesDecodeValid(files)
    ensures AllValid(images + Batch(files))
  {
    BatchIsFresh(files);
    var all := images + Batch(files);
    forall k | 0 <= k < |all|
      ensures ValidImage(all[k])
    {
      if k >= |images| {
        assert all[k] == Batch(files)[k - |images|];
      }
    }
  }

  /** The archive branch of the upload loop: walk the archive's members and
      keep a record for every image member that is not a directory, typed by
      getImageMimeType. */
  method ExtractArchiveImages(entries: seq<ArchiveEntry>) returns (records: seq<ImageRecord>)
    ensures records == ArchiveImages(entries)
  {
    records := [];
    for j := 0 to |entries|
      invariant records == ArchiveImages(entries[..j])
    {
      var entry := entries[j];
      assert entries[..j + 1][..j] == entries[..j];
      if !entry.isDir && IsImageFile(entry.path) {
        records := records + [NewRecord(entry.path, MimeType(entry.path), entry.decoded)];
      }
    }
    assert entries[..|entries|] == entries;
  }

  class ImageToPdfConverter {
    var images: seq<ImageRecord>
    var draggedIndex: Option<nat>
    var settings: PdfSettings
    /** The files saved so far, oldest first. */
    var downloads: seq<SavedPdf>

    ghost predicate Valid()
      reads this
    {
      AllValid(images) && SettingsValid(settings)
    }

    constructor ()
      ensures Valid()
      ensures images == [] && draggedIndex == None
      ensures settings == DefaultSettings && downloads == []
    {
      images := [];
      draggedIndex := None;
      settings := DefaultSettings;
      downloads := [];
    }

    /** The settings controls: each changes one flag and keeps the rest. */
    method UpdateSettings(preserveSize: bool, orientation: Orientation, fitToPage: bool)
      requires Valid()
      modifies this`settings
      ensures Valid()
      ensures settings == old(settings).(preserveSize := preserveSize, orientation := orientation, fitToPage := fitToPage)
    {
      settings := settings.(preserveSize := preserveSize, orientation := orientation, fitToPage := fitToPage);
    }

    /** `handleFileUpload`: collect a record for every image file and every
        image member of every archive, in arrival order, and append the batch
        after the images already listed. */
    method HandleFileUpload(files: seq<UploadFile>)
      requires Valid() && FilesDecodeValid(files)
      modifies this`images
      ensures Valid()
      ensures images == old(images) + Batch(files)
    {
      var newImages: seq<ImageRecord> := [];
      for i := 0 to |files|
        invariant images == old(images)
        invariant newImages == Batch(files[..i])
      {
        var file := files[i];
        assert files[..i + 1][..i] == files[..i];
        assert Batch(files[..i + 1]) == Batch(files[..i]) + FileImages(file);
        if IsZip(file) {
          var extracted := ExtractArchiveImages(file.entries);
          newImages := newImages + extracted;
        } else if IsImageFile(file.name) {
          newImages := newImages + [NewRecord(file.name, file.mimeType, file.decoded)];
        }
      }
      assert files[..|files|] == files;
      AppendBatchValid(images, files);
      images := images + newImages;
    }

    /** `removeImage`: drop every record with the id. */
    method RemoveImage(id: int)
      requires Valid()
      modifies this`images
      ensures Valid()
      ensures images == Without(old(images), id)
    {
      images := Without(images, id);
      forall k | 0 <= k < |images|
        ensures ValidImage(images[k])
      {
        assert images[k] in old(images);
      }
    }

    /** `rotateImage`: a quarter turn for the record with the id. */
    method RotateImage(id: int)
      requires Valid()
      modifies this`images
      ensures Valid()
      ensures images == RotateId(old(images), id)
    {
      RotateKeepsValid(images, id);
      images := RotateId(images, id);
    }

    /** `handleDragStart`: remember the index of the item picked up. */
    method HandleDragStart(index: nat)
      requires index < |images|
      modifies this`draggedIndex
      ensures draggedIndex == Some(index)
    {
      draggedIndex := Some(index);
    }

    /** `handleDragEnd`: nothing is being dragged any more. */
    method HandleDragEnd()
      modifies this`draggedIndex
      ensures draggedIndex == None
    {
      draggedIndex := None;
    }

    /** `handleDragOverItem`: while an item is dragged over another position,
        move it there at once and follow it. */
    method HandleDragOverItem(index: nat)
      requires Valid() && index < |images|
      requires draggedIndex.Some? ==> draggedIndex.value < |images|
      modifies this`images, this`draggedIndex
      ensures Valid()
      ensures old(draggedIndex).None? || old(draggedIndex) == Some(index) ==>
        images == old(images) && draggedIndex == old(draggedIndex)
      ensures old(draggedIndex).Some? && old(draggedIndex) != Some(index) ==>
        images == Moved(old(images), old(draggedIndex).value, index) && draggedIndex == Some(index)
    {
      if draggedIndex.Some? && draggedIndex.value != index {
        var from := draggedIndex.value;
        var newImages := images;
        var draggedImage := newImages[from];
        newImages := Splice(newImages, from, 1, []);
        newImages := Splice(newImages, index, 0, [draggedImage]);
        SpliceMoveIsMoved(images, from, index);
        MovedIsPermutation(images, from, index);
        forall k | 0 <= k < |newImages|
          ensures ValidImage(newImages[k])
        {
          assert newImages[k] in multiset(images);
        }
        images := newImages;
        draggedIndex := Some(index);
      }
    }

    /** `convertToPDF`. An empty list does nothing. Otherwise each image, in
        list order, is processed and becomes one page; the file is saved only
        after the last page, so when processing image k fails (k in
        `failing`) the run ends with the error alert and nothing is saved.
        `formatWidth` and `formatHeight` are the page size the PDF library
        gives for the chosen page size and orientation. */
    method ConvertToPdf(failing: set<nat>, formatWidth: real, formatHeight: real) returns (outcome: RunOutcome)
      requires Valid()
      modifies this`downloads
      ensures |images| == 0 ==> outcome == NothingToConvert && downloads == old(downloads)
      ensures |images| > 0 && NoneFail(failing, |images|) ==>
        outcome == Saved && downloads == old(downloads) + [PlannedPdf(images, settings, formatWidth, formatHeight)]
      ensures |images| > 0 && !NoneFail(failing, |images|) ==>
        outcome == Failed && downloads == old(downloads)
    {
      if |images| == 0 {
        return NothingToConvert;
      }
      var pdf: PdfDocument?;
      if settings.preserveSize {
        pdf := BuildPreservedPdf(images, settings, failing, formatWidth, formatHeight);
      } else {
        pdf := BuildStandardPdf(images, settings, failing, formatWidth, formatHeight);
      }
      if pdf == null {
        // the catch block: an alert, and no file
        return Failed;
      }
      downloads := downloads + [SavedPdf(OutputFileName, pdf.orientation, pdf.pages)];
      return Saved;
    }
  }
}
