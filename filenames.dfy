/** Classification of file names at upload time: which names count as images
    (`isImageFile`) and which MIME type an archive member is given
    (`getImageMimeType`). Letters are compared after ASCII lower-casing. */
module Filenames {

  /** The extensions accepted by the upload filter, in lower case. */
  const ImageExtensions: set<string> := {"jpg", "jpeg", "png", "gif", "bmp", "webp", "svg"}

  /** The extension-to-MIME-type table of `getImageMimeType`. */
  const MimeTypes: map<string, string> := map[
    "jpg" := "image/jpeg",
    "jpeg" := "image/jpeg",
    "png" := "image/png",
    "gif" := "image/gif",
    "bmp" := "image/bmp",
    "webp" := "image/webp",
    "svg" := "image/svg+xml"
  ]

  /** The type used when the extension is not in the table. */
  const FallbackMimeType: string := "image/jpeg"

  function LowerChar(c: char): char {
    if 'A' <= c <= 'Z' then (c as int + 32) as char else c
  }

  function LowerAscii(s: string): string {
    seq(|s|, i requires 0 <= i < |s| => LowerChar(s[i]))
  }

  predicate EndsWithIgnoringCase(s: string, suffix: string) {
    |suffix| <= |s| && LowerAscii(s[|s| - |suffix|..]) == LowerAscii(suffix)
  }

  /** `isImageFile`: the name matches `/\.(jpg|jpeg|png|gif|bmp|webp|svg)$/i`,
      that is, it ends with a dot and one of the extensions, in any case. */
  predicate IsImageFile(name: string) {
    exists ext :: ext in ImageExtensions && EndsWithIgnoringCase(name, "." + ext)
  }

  /** The index of the last dot in the name, or -1 when it has none. */
  function LastDot(name: string): (r: int)
    ensures -1 <= r < |name|
    ensures r >= 0 ==> name[r] == '.'
    ensures forall k :: r < k < |name| ==> name[k] != '.'
  {
    if |name| == 0 then -1
    else if name[|name| - 1] == '.' then |name| - 1
    else LastDot(name[..|name| - 1])
  }

  /** `name.split('.').pop()`: the text after the last dot, or the whole name
      when it has no dot. */
  function LastSegment(name: string): (r: string)
    ensures |r| <= |name| && r == name[|name| - |r|..]
    ensures '.' !in r
    ensures |r| < |name| ==> name[|name| - |r| - 1] == '.'
  {
    name[LastDot(name) + 1..]
  }

  /** The lower-cased text after the last dot. */
  function Extension(name: string): string {
    LowerAscii(LastSegment(name))
  }

  /** `getImageMimeType` with the fallback applied to every extension outside
      the table (see MimeLookupAsWritten for what the object lookup does). */
  function MimeType(name: string): string {
    var ext := Extension(name);
    if ext in MimeTypes then MimeTypes[ext] else FallbackMimeType
  }

  /** What reading a property of a plain object literal yields: an own
      property, or a member inherited from Object.prototype. */
  datatype PropertyValue = Own(text: string) | Inherited(key: string)

  /** The all-lower-case member names of Object.prototype: the only inherited
      members a lower-cased key can reach. */
  const PrototypeKeys: set<string> := {"constructor", "__proto__"}

  /** `mimeTypes[ext] || 'image/jpeg'` as written: an inherited member is a
      truthy object, so it is returned instead of the fallback. */
  function MimeLookupAsWritten(name: string): PropertyValue {
    var ext := Extension(name);
    if ext in MimeTypes then Own(MimeTypes[ext])
    else if ext in PrototypeKeys then Inherited(ext)
    else Own(FallbackMimeType)
  }

  lemma ExtensionLowerAndDotless(ext: string)
    requires ext in ImageExtensions
    ensures LowerAscii(ext) == ext && '.' !in ext
  {
  }

  /** A dot followed by no further dot is the last dot. */
  lemma LastDotAt(name: string, j: nat)
    requires j < |name| && name[j] == '.'
    requires forall k :: j < k < |name| ==> name[k] != '.'
    ensures LastDot(name) == j
  {
  }

  /** `isImageFile` holds exactly when the name has a dot and the lower-cased
      text after its last dot is one of the seven extensions: the filter and
      the MIME lookup read the same extension. */
  lemma ImageFileIffKnownExtension(name: string)
    ensures IsImageFile(name) <==> '.' in name && Extension(name) in ImageExtensions
  {
    if IsImageFile(name) {
      ImageFileHasKnownExtension(name);
    }
    if '.' in name && Extension(name) in ImageExtensions {
      KnownExtensionIsImageFile(name);
    }
  }

  lemma ImageFileHasKnownExtension(name: string)
    requires IsImageFile(name)
    ensures '.' in name && Extension(name) in ImageExtensions
  {
    var ext :| ext in ImageExtensions && EndsWithIgnoringCase(name, "." + ext);
    ExtensionLowerAndDotless(ext);
    var d := "." + ext;
    var j := |name| - |d|;
    var low := LowerAscii(name[j..]);
    assert low == LowerAscii(d);
    assert low[0] == LowerChar(name[j]) && LowerAscii(d)[0] == '.';
    assert name[j] == '.';
    forall k | j < k < |name|
      ensures name[k] != '.'
    {
      assert low[k - j] == LowerChar(name[k]);
      assert LowerAscii(d)[k - j] == LowerChar(ext[k - j - 1]) == ext[k - j - 1];
      assert ext[k - j - 1] in ext;
    }
    LastDotAt(name, j);
    assert name[j] in name;
    forall i | 0 <= i < |ext|
      ensures Extension(name)[i] == ext[i]
    {
      assert low[i + 1] == LowerChar(name[j + 1 + i]);
      assert LowerAscii(d)[i + 1] == LowerChar(ext[i]);
    }
    assert Extension(name) == ext;
  }

  lemma KnownExtensionIsImageFile(name: string)
    requires '.' in name && Extension(name) in ImageExtensions
    ensures IsImageFile(name)
  {
    var k :| 0 <= k < |name| && name[k] == '.';
    var j := LastDot(name);
    assert j >= k;
    var ext := Extension(name);
    ExtensionLowerAndDotless(ext);
    var d := "." + ext;
    assert |d| == |name| - j;
    forall i | 0 <= i < |d|
      ensures LowerAscii(name[j..])[i] == LowerAscii(d)[i]
    {
      if i > 0 {
        assert LowerAscii(d)[i] == LowerChar(ext[i - 1]) == ext[i - 1];
      }
    }
    assert EndsWithIgnoringCase(name, d);
  }

  /** Every name the upload filter accepts gets its table entry, never the
      fallback branch; jpg and jpeg both give image/jpeg. */
  lemma ImageFileMimeType(name: string)
    requires IsImageFile(name)
    ensures Extension(name) in MimeTypes
    ensures MimeType(name) == MimeTypes[Extension(name)]
    ensures Extension(name) in {"jpg", "jpeg"} <==> MimeType(name) == "image/jpeg"
  {
    ImageFileIffKnownExtension(name);
  }

  /** A dotted name the upload filter rejects has an extension outside the
      table, so it gets the fallback type. */
  lemma RejectedNameFallsBack(name: string)
    requires '.' in name && !IsImageFile(name)
    ensures Extension(name) !in MimeTypes
    ensures MimeType(name) == FallbackMimeType
  {
    ImageFileIffKnownExtension(name);
    assert MimeTypes.Keys == ImageExtensions;
  }

  /** On every name `isImageFile` accepts, the lookup as written returns the
      table's own entry, so the defect below never reaches the upload path. */
  lemma LookupAsWrittenAgreesOnImageFiles(name: string)
    requires IsImageFile(name)
    ensures MimeLookupAsWritten(name) == Own(MimeType(name))
  {
    ImageFileIffKnownExtension(name);
  }

  /** The name "a.constructor" makes the lookup as written return
      Object.prototype.constructor, where the fallback image/jpeg is meant. */
  lemma ConstructorExtensionEscapesFallback()
    ensures MimeLookupAsWritten("a.constructor") == Inherited("constructor")
    ensures MimeType("a.constructor") == FallbackMimeType
  {
    var name := "a.constructor";
    LastDotAt(name, 1);
    assert LastSegment(name) == "constructor";
    assert Extension(name) == "constructor";
  }
}
