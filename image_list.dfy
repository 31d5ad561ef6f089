/** The component's `images` state: an ordered list of image records and the
    pure list edits the handlers apply to it (remove, rotate, move, and the
    batch an upload appends). */
module ImageList {
  import opened Filenames

  /** One uploaded image. `fileType` is the MIME type the File object carries;
      the preview data URL and the File itself are not modelled. */
  datatype ImageRecord = ImageRecord(
    id: int,
    name: string,
    fileType: string,
    width: nat,
    height: nat,
    rotation: nat)

  /** Rotations start at 0 and only ever advance by quarter turns. */
  predicate ValidRotation(r: nat) {
    r == 0 || r == 90 || r == 180 || r == 270
  }

  /** Decoded images have positive pixel dimensions. */
  predicate ValidImage(img: ImageRecord) {
    img.width > 0 && img.height > 0 && ValidRotation(img.rotation)
  }

  predicate AllValid(images: seq<ImageRecord>) {
    forall k :: 0 <= k < |images| ==> ValidImage(images[k])
  }

  predicate HasId(images: seq<ImageRecord>, id: int) {
    exists k :: 0 <= k < |images| && images[k].id == id
  }

  /** No two records share an id (the model's reading of the time-plus-random
      id generator). */
  predicate DistinctIds(images: seq<ImageRecord>) {
    forall i, j :: 0 <= i < j < |images| ==> images[i].id != images[j].id
  }

  // ---------------------------------------------------------------------------
  // removeImage: `prev.filter(img => img.id !== id)`
  // ---------------------------------------------------------------------------

  function Without(images: seq<ImageRecord>, id: int): (r: seq<ImageRecord>)
    ensures |r| <= |images|
    ensures forall img :: img in r <==> img in images && img.id != id
  {
    if images == [] then []
    else (if images[0].id != id then [images[0]] else []) + Without(images[1..], id)
  }

  /** Filtering distributes over concatenation: survivors keep their relative
      order, wherever they stood. */
  lemma {:induction false} WithoutAppend(a: seq<ImageRecord>, b: seq<ImageRecord>, id: int)
    ensures Without(a + b, id) == Without(a, id) + Without(b, id)
  {
    if a == [] {
      assert a + b == b;
    } else {
      assert (a + b)[1..] == a[1..] + b;
      WithoutAppend(a[1..], b, id);
    }
  }

  /** Removing the same id twice is the same as removing it once. */
  lemma {:induction false} WithoutIdempotent(images: seq<ImageRecord>, id: int)
    ensures Without(Without(images, id), id) == Without(images, id)
  {
    if images != [] {
      WithoutIdempotent(images[1..], id);
      var head := if images[0].id != id then [images[0]] else [];
      WithoutAppend(head, Without(images[1..], id), id);
      if images[0].id != id {
        assert Without(head, id) == head by {
          assert head[1..] == [];
        }
      }
    }
  }

  /** Removing an id no record carries leaves the list as it was. */
  lemma {:induction false} WithoutAbsent(images: seq<ImageRecord>, id: int)
    requires !HasId(images, id)
    ensures Without(images, id) == images
  {
    if images != [] {
      assert !HasId(images[1..], id) by {
        forall k | 0 <= k < |images[1..]|
          ensures images[1..][k].id != id
        {
          assert images[1..][k] == images[k + 1];
        }
      }
      WithoutAbsent(images[1..], id);
      assert images[0].id != id;
      assert images == [images[0]] + images[1..];
    }
  }

  /** With distinct ids, removing an id present in the list drops exactly one
      record. */
  lemma {:induction false} WithoutDropsOne(images: seq<ImageRecord>, id: int)
    requires DistinctIds(images) && HasId(images, id)
    ensures |Without(images, id)| == |images| - 1
  {
    var k :| 0 <= k < |images| && images[k].id == id;
    if images[0].id == id {
      assert !HasId(images[1..], id) by {
        forall j | 0 <= j < |images[1..]|
          ensures images[1..][j].id != id
        {
          assert images[1..][j] == images[j + 1];
        }
      }
      WithoutAbsent(images[1..], id);
    } else {
      assert k > 0 && images[1..][k - 1] == images[k];
      assert DistinctIds(images[1..]) by {
        forall i, j | 0 <= i < j < |images[1..]|
          ensures images[1..][i].id != images[1..][j].id
        {
          assert images[1..][i] == images[i + 1] && images[1..][j] == images[j + 1];
        }
      }
      WithoutDropsOne(images[1..], id);
    }
  }

  // ---------------------------------------------------------------------------
  // rotateImage: `prev.map(img => img.id === id ? {...img, rotation: (img.rotation + 90) % 360} : img)`
  // ---------------------------------------------------------------------------

  function Rotated(img: ImageRecord): ImageRecord {
    img.(rotation := (img.rotation + 90) % 360)
  }

  function RotateId(images: seq<ImageRecord>, id: int): seq<ImageRecord> {
    seq(|images|, k requires 0 <= k < |images| =>
      if images[k].id == id then Rotated(images[k]) else images[k])
  }

  /** Rotation keeps the length and every position; at each position only the
      rotation can change, and only for records carrying the id. */
  lemma RotateTouchesOnlyRotation(images: seq<ImageRecord>, id: int)
    ensures |RotateId(images, id)| == |images|
    ensures forall k :: 0 <= k < |images| ==>
      RotateId(images, id)[k].(rotation := 0) == images[k].(rotation := 0)
    ensures forall k :: 0 <= k < |images| && images[k].id != id ==> RotateId(images, id)[k] == images[k]
    ensures forall k :: 0 <= k < |images| && images[k].id == id ==>
      RotateId(images, id)[k].rotation == (images[k].rotation + 90) % 360
  {
  }

  /** A quarter turn keeps a rotation among 0, 90, 180 and 270. */
  lemma RotatedValid(img: ImageRecord)
    requires ValidImage(img)
    ensures ValidImage(Rotated(img))
  {
  }

  lemma RotateKeepsValid(images: seq<ImageRecord>, id: int)
    requires AllValid(images)
    ensures AllValid(RotateId(images, id))
  {
    forall k | 0 <= k < |images|
      ensures ValidImage(RotateId(images, id)[k])
    {
      assert ValidImage(images[k]);
      if images[k].id == id {
        RotatedValid(images[k]);
      }
    }
  }

  /** Four quarter turns of the same record restore the list. */
  lemma RotateFourTimes(images: seq<ImageRecord>, id: int)
    requires AllValid(images)
    ensures RotateId(RotateId(RotateId(RotateId(images, id), id), id), id) == images
  {
    var r1 := RotateId(images, id);
    var r2 := RotateId(r1, id);
    var r3 := RotateId(r2, id);
    var r4 := RotateId(r3, id);
    forall k | 0 <= k < |images|
      ensures r4[k] == images[k]
    {
      assert ValidImage(images[k]);
      if images[k].id == id {
        assert r1[k] == Rotated(images[k]) && r2[k] == Rotated(r1[k]);
        assert r3[k] == Rotated(r2[k]) && r4[k] == Rotated(r3[k]);
        RotatedFourTimes(images[k]);
      } else {
        assert r1[k] == images[k] && r2[k] == images[k] && r3[k] == images[k];
      }
    }
  }

  lemma RotatedFourTimes(img: ImageRecord)
    requires ValidRotation(img.rotation)
    ensures Rotated(Rotated(Rotated(Rotated(img)))) == img
  {
  }

  // ---------------------------------------------------------------------------
  // handleDragOverItem: two `splice` calls on a copy of the list
  // ---------------------------------------------------------------------------

  /** `Array.prototype.splice` with in-range arguments, as the value the array
      holds afterwards. */
  function Splice<T>(s: seq<T>, start: nat, deleteCount: nat, items: seq<T>): seq<T>
    requires start + deleteCount <= |s|
  {
    s[..start] + items + s[start + deleteCount..]
  }

  /** The list after the element at `from` has been taken out and put back at
      `to`, position by position: it lands at `to`, the elements it passes
      over shift by one towards `from`, the rest stay put. */
  function Moved<T>(s: seq<T>, from: nat, to: nat): seq<T>
    requires from < |s| && to < |s|
  {
    seq(|s|, k requires 0 <= k < |s| =>
      if k == to then s[from]
      else if from < to && from <= k < to then s[k + 1]
      else if to < from && to < k <= from then s[k - 1]
      else s[k])
  }

  /** The two splices of handleDragOverItem compute Moved. */
  lemma SpliceMoveIsMoved<T>(s: seq<T>, from: nat, to: nat)
    requires from < |s| && to < |s|
    ensures Splice(Splice(s, from, 1, []), to, 0, [s[from]]) == Moved(s, from, to)
  {
    var t := Splice(s, from, 1, []);
    var u := Splice(t, to, 0, [s[from]]);
    assert |u| == |s|;
    forall k | 0 <= k < |s|
      ensures u[k] == Moved(s, from, to)[k]
    {
      if k < to {
        assert u[k] == t[k];
      } else if k > to {
        assert u[k] == t[k - 1];
      }
    }
  }

  /** Moving an element is a permutation: the same records, the same number of
      times each. */
  lemma MovedIsPermutation<T>(s: seq<T>, from: nat, to: nat)
    requires from < |s| && to < |s|
    ensures |Moved(s, from, to)| == |s|
    ensures multiset(Moved(s, from, to)) == multiset(s)
  {
    SpliceMoveIsMoved(s, from, to);
    var t := Splice(s, from, 1, []);
    assert s == s[..from] + [s[from]] + s[from + 1..];
    assert multiset(t) == multiset(s) - multiset{s[from]};
    var u := Splice(t, to, 0, [s[from]]);
    assert t == t[..to] + t[to..];
    assert multiset(u) == multiset(t) + multiset{s[from]};
  }

  /** Dragging back from `to` to `from` undoes the move. */
  lemma MovedInverse<T>(s: seq<T>, from: nat, to: nat)
    requires from < |s| && to < |s|
    ensures Moved(Moved(s, from, to), to, from) == s
  {
    var m := Moved(s, from, to);
    var back := Moved(m, to, from);
    forall k | 0 <= k < |s|
      ensures back[k] == s[k]
    {
    }
  }

  /** The dragged element ends at `to`; outside the span between the two
      indices nothing moves. */
  lemma MovedPlacesDragged<T>(s: seq<T>, from: nat, to: nat)
    requires from < |s| && to < |s|
    ensures Moved(s, from, to)[to] == s[from]
    ensures forall k :: 0 <= k < |s| && (k < from || k > to) && (k < to || k > from) ==>
      Moved(s, from, to)[k] == s[k]
  {
  }

  // ---------------------------------------------------------------------------
  // handleFileUpload: the batch of new records, in arrival order
  // ---------------------------------------------------------------------------

  /** What reading and decoding one image file yields: the id the record is
      given and the decoded pixel size. */
  datatype Decoded = Decoded(id: int, width: nat, height: nat)

  /** One member of a ZIP archive, in the order the archive library lists it. */
  datatype ArchiveEntry = ArchiveEntry(path: string, isDir: bool, decoded: Decoded)

  /** One file handed to the upload handler: its name and browser MIME type,
      what decoding it as an image gives, and what listing it as an archive
      gives (each used only on the branch that reads it). */
  datatype UploadFile = UploadFile(name: string, mimeType: string, decoded: Decoded, entries: seq<ArchiveEntry>)

  predicate EndsWith(s: string, suffix: string) {
    |suffix| <= |s| && s[|s| - |suffix|..] == suffix
  }

  /** `file.type === 'application/zip' || file.name.endsWith('.zip')` (case
      sensitive, unlike isImageFile). */
  predicate IsZip(f: UploadFile) {
    f.mimeType == "application/zip" || EndsWith(f.name, ".zip")
  }

  /** `createImageObject`: a fresh record with rotation 0. */
  function NewRecord(name: string, fileType: string, d: Decoded): ImageRecord {
    ImageRecord(d.id, name, fileType, d.width, d.height, 0)
  }

  /** The records an archive contributes: its image members that are not
      directories, each typed by getImageMimeType. */
  function ArchiveImages(entries: seq<ArchiveEntry>): seq<ImageRecord>
    decreases |entries|
  {
    if entries == [] then []
    else
      var e := entries[|entries| - 1];
      ArchiveImages(entries[..|entries| - 1]) +
        (if !e.isDir && IsImageFile(e.path) then [NewRecord(e.path, MimeType(e.path), e.decoded)] else [])
  }

  /** The records one uploaded file contributes. */
  function FileImages(f: UploadFile): seq<ImageRecord> {
    if IsZip(f) then ArchiveImages(f.entries)
    else if IsImageFile(f.name) then [NewRecord(f.name, f.mimeType, f.decoded)]
    else []
  }

  /** `newImages` after the upload loop over `files`. */
  function Batch(files: seq<UploadFile>): seq<ImageRecord>
    decreases |files|
  {
    if files == [] then []
    else Batch(files[..|files| - 1]) + FileImages(files[|files| - 1])
  }

  predicate DecodedValid(d: Decoded) {
    d.width > 0 && d.height > 0
  }

  predicate FilesDecodeValid(files: seq<UploadFile>) {
    forall i :: 0 <= i < |files| ==>
      DecodedValid(files[i].decoded) &&
      forall j :: 0 <= j < |files[i].entries| ==> DecodedValid(files[i].entries[j].decoded)
  }

  /** A fresh record: unrotated, named like an image file, and valid whenever
      the decoder reported a positive size. */
  predicate FreshImage(img: ImageRecord) {
    img.rotation == 0 && IsImageFile(img.name)
  }

  lemma {:induction false} ArchiveImagesAreFresh(entries: seq<ArchiveEntry>)
    requires forall j :: 0 <= j < |entries| ==> DecodedValid(entries[j].decoded)
    ensures forall k :: 0 <= k < |ArchiveImages(entries)| ==>
      FreshImage(ArchiveImages(entries)[k]) && ValidImage(ArchiveImages(entries)[k]) &&
      ArchiveImages(entries)[k].fileType == MimeType(ArchiveImages(entries)[k].name)
    decreases |entries|
  {
    if entries != [] {
      var init := entries[..|entries| - 1];
      assert forall j :: 0 <= j < |init| ==> init[j] == entries[j];
      ArchiveImagesAreFresh(init);
    }
  }

  /** Every record of an upload batch is a fresh, valid image record. */
  lemma {:induction false} BatchIsFresh(files: seq<UploadFile>)
    requires FilesDecodeValid(files)
    ensures AllValid(Batch(files))
    ensures forall k :: 0 <= k < |Batch(files)| ==> FreshImage(Batch(files)[k])
    decreases |files|
  {
    if files != [] {
      var init := files[..|files| - 1];
      var last := files[|files| - 1];
      assert forall i :: 0 <= i < |init| ==> init[i] == files[i];
      BatchIsFresh(init);
      if IsZip(last) {
        ArchiveImagesAreFresh(last.entries);
      }
    }
  }

  /** Uploading files one call at a time appends the same records as one call
      with all of them. */
  lemma {:induction false} BatchAppend(a: seq<UploadFile>, b: seq<UploadFile>)
    ensures Batch(a + b) == Batch(a) + Batch(b)
    decreases |b|
  {
    if b == [] {
      assert a + b == a;
    } else {
      var init := b[..|b| - 1];
      assert (a + b)[..|a + b| - 1] == a + init;
      BatchAppend(a, init);
    }
  }
}
