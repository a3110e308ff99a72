/**
 * File-name classification (frontend/app.js): the suffix tests `isVideo`,
 * `isImage` and `isAudio`, and the extension lookups `getMediaTypeFromFileName`
 * and `getFileIconByExt`.
 */
module MediaClassifier {
  import opened Wrappers
  import opened Text

  const VideoSuffixes: seq<string> := ["mp4", "mkv", "webm", "avi", "mov", "flv", "wmv"]
  /** `jpe?g` stands for both spellings. */
  const ImageSuffixes: seq<string> := ["jpg", "jpeg", "png", "gif", "bmp", "webp", "svg"]
  const AudioSuffixes: seq<string> := ["mp3", "wav", "ogg", "m4a", "flac", "aac"]

  /**
   * `name` ends in `.` followed by `ext`, ignoring the case of ASCII letters:
   * one alternative of a pattern `/\.(…)$/i`. Without the `u` flag a
   * case-insensitive pattern folds only ASCII letters onto each other.
   */
  predicate EndsWithDotted(name: string, ext: string) {
    |ext| + 1 <= |name| && LowerAscii(name[|name| - |ext| - 1..]) == "." + ext
  }

  predicate MatchesAnySuffix(name: string, exts: seq<string>) {
    exists k :: 0 <= k < |exts| && EndsWithDotted(name, exts[k])
  }

  predicate IsVideo(name: string) {
    MatchesAnySuffix(name, VideoSuffixes)
  }

  predicate IsImage(name: string) {
    MatchesAnySuffix(name, ImageSuffixes)
  }

  predicate IsAudio(name: string) {
    MatchesAnySuffix(name, AudioSuffixes)
  }

  /** The text after the last `.`, or all of `s` when it has none: `s.split('.').pop()`. */
  function AfterLastDot(s: string): (r: string)
    ensures '.' !in r
    ensures |r| <= |s| && s[|s| - |r|..] == r
    ensures |r| < |s| ==> s[|s| - |r| - 1] == '.'
  {
    if s == [] then []
    else if s[|s| - 1] == '.' then []
    else AfterLastDot(s[..|s| - 1]) + [s[|s| - 1]]
  }

  /** Whatever precedes a dot-free tail, the tail after the dot is what `split('.').pop()` returns. */
  lemma {:induction false} AfterLastDotOf(p: string, e: string)
    requires '.' !in e
    ensures AfterLastDot(p + "." + e) == e
    decreases |e|
  {
    if e == [] {
      assert p + "." + e == p + ['.'];
      AfterLastDotSnoc(p, '.');
    } else {
      var init, c := e[..|e| - 1], e[|e| - 1];
      assert e == init + [c];
      assert p + "." + e == (p + "." + init) + [c];
      AfterLastDotSnoc(p + "." + init, c);
      AfterLastDotOf(p, init);
    }
  }

  /** A name with no dot is its own extension text. */
  lemma {:induction false} AfterLastDotOfDotless(s: string)
    requires '.' !in s
    ensures AfterLastDot(s) == s
    decreases |s|
  {
    if s != [] {
      var init, c := s[..|s| - 1], s[|s| - 1];
      assert s == init + [c];
      AfterLastDotSnoc(init, c);
      AfterLastDotOfDotless(init);
    }
  }

  /** The lower-cased extension a lookup table is indexed with. */
  function Extension(name: string): (ext: string)
    ensures '.' !in ext
    ensures forall i :: 0 <= i < |ext| ==> !('A' <= ext[i] <= 'Z')
  {
    LowerAscii(AfterLastDot(name))
  }

  /** The video MIME table. */
  function VideoType(ext: string): Option<string> {
    match ext
    case "mp4" => Some("video/mp4")
    case "webm" => Some("video/webm")
    case "ogv" => Some("video/ogg")
    case "mov" => Some("video/quicktime")
    case "mkv" => Some("video/x-matroska")
    case "avi" => Some("video/x-msvideo")
    case "flv" => Some("video/x-flv")
    case "wmv" => Some("video/x-ms-wmv")
    case "m4v" => Some("video/x-m4v")
    case "3gp" => Some("video/3gpp")
    case _ => None
  }

  /** The audio MIME table. */
  function AudioType(ext: string): Option<string> {
    match ext
    case "mp3" => Some("audio/mpeg")
    case "wav" => Some("audio/wav")
    case "ogg" => Some("audio/ogg")
    case "aac" => Some("audio/aac")
    case "m4a" => Some("audio/mp4")
    case "flac" => Some("audio/flac")
    case "opus" => Some("audio/opus")
    case _ => None
  }

  /** The image MIME table. */
  function ImageType(ext: string): Option<string> {
    match ext
    case "jpg" => Some("image/jpeg")
    case "jpeg" => Some("image/jpeg")
    case "png" => Some("image/png")
    case "gif" => Some("image/gif")
    case "webp" => Some("image/webp")
    case "svg" => Some("image/svg+xml")
    case "bmp" => Some("image/bmp")
    case "ico" => Some("image/x-icon")
    case _ => None
  }

  /** The document MIME table. */
  function DocumentType(ext: string): Option<string> {
    match ext
    case "pdf" => Some("application/pdf")
    case "doc" => Some("application/msword")
    case "docx" => Some("application/vnd.openxmlformats-officedocument.wordprocessingml.document")
    case "xls" => Some("application/vnd.ms-excel")
    case "xlsx" => Some("application/vnd.openxmlformats-officedocument.spreadsheetml.sheet")
    case "ppt" => Some("application/vnd.ms-powerpoint")
    case "pptx" => Some("application/vnd.openxmlformats-officedocument.presentationml.presentation")
    case "txt" => Some("text/plain")
    case "rtf" => Some("application/rtf")
    case "html" => Some("text/html")
    case "htm" => Some("text/html")
    case "css" => Some("text/css")
    case "js" => Some("application/javascript")
    case "json" => Some("application/json")
    case "xml" => Some("application/xml")
    case _ => None
  }

  /** The archive and miscellaneous MIME table. */
  function OtherType(ext: string): Option<string> {
    match ext
    case "zip" => Some("application/zip")
    case "rar" => Some("application/x-rar-compressed")
    case "7z" => Some("application/x-7z-compressed")
    case "gz" => Some("application/gzip")
    case "tar" => Some("application/x-tar")
    case "iso" => Some("application/x-iso9660-image")
    case "torrent" => Some("application/x-bittorrent")
    case _ => None
  }

  /** `later` overrides `earlier`, as a later object spread does. */
  function Override(earlier: Option<string>, later: Option<string>): Option<string> {
    if later.Some? then later else earlier
  }

  /**
   * The merged table `{...video, ...audio, ...image, ...document, ...other}`,
   * looked up among its own entries.
   */
  function AllTypes(ext: string): Option<string> {
    Override(Override(Override(Override(VideoType(ext), AudioType(ext)), ImageType(ext)), DocumentType(ext)), OtherType(ext))
  }

  const DefaultIcon: string := "\U{1F4C4}"

  /** The icon table. */
  function IconFor(ext: string): Option<string> {
    match ext
    case "pdf" => Some("\U{1F4C4}")
    case "doc" => Some("\U{1F4DD}")
    case "docx" => Some("\U{1F4DD}")
    case "txt" => Some("\U{1F4C4}")
    case "rtf" => Some("\U{1F4C4}")
    case "xls" => Some("\U{1F4CA}")
    case "xlsx" => Some("\U{1F4CA}")
    case "csv" => Some("\U{1F4CA}")
    case "ppt" => Some("\U{1F4CA}")
    case "pptx" => Some("\U{1F4CA}")
    case "zip" => Some("\U{1F4E6}")
    case "rar" => Some("\U{1F4E6}")
    case "7z" => Some("\U{1F4E6}")
    case "tar" => Some("\U{1F4E6}")
    case "gz" => Some("\U{1F4E6}")
    case "js" => Some("\U{1F4BB}")
    case "html" => Some("\U{1F4BB}")
    case "css" => Some("\U{1F4BB}")
    case "py" => Some("\U{1F4BB}")
    case "java" => Some("\U{1F4BB}")
    case "php" => Some("\U{1F4BB}")
    case "json" => Some("\U{1F4BB}")
    case "exe" => Some("\U{2699}\U{FE0F}")
    case "iso" => Some("\U{1F4BF}")
    case "torrent" => Some("\U{1F504}")
    case _ => None
  }

  /**
   * `getMediaTypeFromFileName` with the table read as a dictionary of its own
   * entries: the MIME type of the extension, or `null`.
   */
  function MediaType(name: string): Option<string> {
    AllTypes(Extension(name))
  }

  /** `getFileIconByExt` read the same way: the extension's icon or the page icon. */
  function FileIcon(name: string): string {
    var ext := Extension(name);
    if IconFor(ext).Some? then IconFor(ext).value else DefaultIcon
  }

  /** A suffix test that matches pins down the extension the lookups see. */
  lemma SuffixMatchFixesExtension(name: string, ext: string)
    requires EndsWithDotted(name, ext)
    requires '.' !in ext
    ensures Extension(name) == ext
  {
    var k := |name| - |ext| - 1;
    var tail := name[k + 1..];
    FoldedDottedSuffix(name[k], tail, ext);
    assert name == name[..k] + "." + tail;
    AfterLastDotOf(name[..k], tail);
  }

  /** A dot followed by a dot-free text, case-folded, reads `"." + ext` only if the text folds to `ext`. */
  lemma FoldedDottedSuffix(c: char, tail: string, ext: string)
    requires LowerAscii([c] + tail) == "." + ext
    requires '.' !in ext
    ensures c == '.' && LowerAscii(tail) == ext && '.' !in tail
  {
    var s := [c] + tail;
    var dotted := "." + ext;
    assert LowerChar(c) == LowerAscii(s)[0] == dotted[0] == '.';
    forall i | 0 <= i < |tail| ensures LowerChar(tail[i]) == ext[i] && tail[i] != '.' {
      assert s[i + 1] == tail[i];
      assert LowerAscii(s)[i + 1] == dotted[i + 1] == ext[i];
      assert ext[i] in ext;
    }
    assert LowerAscii(tail) == ext;
  }

  /** A name `isVideo` accepts gets a `video/…` MIME type. */
  lemma VideoHasVideoType(name: string)
    requires IsVideo(name)
    ensures MediaType(name).Some? && HasPrefix(MediaType(name).value, "video/")
  {
    var k :| 0 <= k < |VideoSuffixes| && EndsWithDotted(name, VideoSuffixes[k]);
    VideoSuffixTyped(VideoSuffixes[k]);
    SuffixMatchFixesExtension(name, VideoSuffixes[k]);
  }

  lemma VideoSuffixTyped(e: string)
    requires e in VideoSuffixes
    ensures '.' !in e
    ensures AllTypes(e).Some? && HasPrefix(AllTypes(e).value, "video/")
  {
    if e in VideoSuffixes[..2] {
      VideoTypedPart1(e);
    } else if e in VideoSuffixes[2..4] {
      VideoTypedPart2(e);
    } else {
      assert e in VideoSuffixes[4..];
      VideoTypedPart3(e);
    }
  }

  // The suffix tables are checked a few entries at a time so that each proof stays small.
  lemma VideoTypedPart1(e: string)
    requires e in VideoSuffixes[..2]
    ensures '.' !in e
    ensures AllTypes(e).Some? && HasPrefix(AllTypes(e).value, "video/")
  {
  }

  lemma VideoTypedPart2(e: string)
    requires e in VideoSuffixes[2..4]
    ensures '.' !in e
    ensures AllTypes(e).Some? && HasPrefix(AllTypes(e).value, "video/")
  {
  }

  lemma VideoTypedPart3(e: string)
    requires e in VideoSuffixes[4..]
    ensures '.' !in e
    ensures AllTypes(e).Some? && HasPrefix(AllTypes(e).value, "video/")
  {
  }

  /** A name `isAudio` accepts gets an `audio/…` MIME type. */
  lemma AudioHasAudioType(name: string)
    requires IsAudio(name)
    ensures MediaType(name).Some? && HasPrefix(MediaType(name).value, "audio/")
  {
    var k :| 0 <= k < |AudioSuffixes| && EndsWithDotted(name, AudioSuffixes[k]);
    AudioSuffixTyped(AudioSuffixes[k]);
    SuffixMatchFixesExtension(name, AudioSuffixes[k]);
  }

  lemma AudioSuffixTyped(e: string)
    requires e in AudioSuffixes
    ensures '.' !in e
    ensures AllTypes(e).Some? && HasPrefix(AllTypes(e).value, "audio/")
  {
    if e in AudioSuffixes[..2] {
      AudioTypedPart1(e);
    } else if e in AudioSuffixes[2..4] {
      AudioTypedPart2(e);
    } else {
      assert e in AudioSuffixes[4..];
      AudioTypedPart3(e);
    }
  }

  lemma AudioTypedPart1(e: string)
    requires e in AudioSuffixes[..2]
    ensures '.' !in e
    ensures AllTypes(e).Some? && HasPrefix(AllTypes(e).value, "audio/")
  {
  }

  lemma AudioTypedPart2(e: string)
    requires e in AudioSuffixes[2..4]
    ensures '.' !in e
    ensures AllTypes(e).Some? && HasPrefix(AllTypes(e).value, "audio/")
  {
  }

  lemma AudioTypedPart3(e: string)
    requires e in AudioSuffixes[4..]
    ensures '.' !in e
    ensures AllTypes(e).Some? && HasPrefix(AllTypes(e).value, "audio/")
  {
  }

  /** A name `isImage` accepts gets an `image/…` MIME type. */
  lemma ImageHasImageType(name: string)
    requires IsImage(name)
    ensures MediaType(name).Some? && HasPrefix(MediaType(name).value, "image/")
  {
    var k :| 0 <= k < |ImageSuffixes| && EndsWithDotted(name, ImageSuffixes[k]);
    ImageSuffixTyped(ImageSuffixes[k]);
    SuffixMatchFixesExtension(name, ImageSuffixes[k]);
  }

  lemma ImageSuffixTyped(e: string)
    requires e in ImageSuffixes
    ensures '.' !in e
    ensures AllTypes(e).Some? && HasPrefix(AllTypes(e).value, "image/")
  {
    if e in ImageSuffixes[..2] {
      ImageTypedPart1(e);
    } else if e in ImageSuffixes[2..4] {
      ImageTypedPart2(e);
    } else {
      assert e in ImageSuffixes[4..];
      ImageTypedPart3(e);
    }
  }

  lemma ImageTypedPart1(e: string)
    requires e in ImageSuffixes[..2]
    ensures '.' !in e
    ensures AllTypes(e).Some? && HasPrefix(AllTypes(e).value, "image/")
  {
  }

  lemma ImageTypedPart2(e: string)
    requires e in ImageSuffixes[2..4]
    ensures '.' !in e
    ensures AllTypes(e).Some? && HasPrefix(AllTypes(e).value, "image/")
  {
  }

  lemma ImageTypedPart3(e: string)
    requires e in ImageSuffixes[4..]
    ensures '.' !in e
    ensures AllTypes(e).Some? && HasPrefix(AllTypes(e).value, "image/")
  {
  }

  /** Cutting at the last dot, one character at a time from the right. */
  lemma AfterLastDotSnoc(init: string, c: char)
    ensures AfterLastDot(init + [c]) == if c == '.' then [] else AfterLastDot(init) + [c]
  {
    assert (init + [c])[..|init|] == init;
  }

  lemma LowerAsciiSnoc(init: string, c: char)
    ensures LowerAscii(init + [c]) == LowerAscii(init) + [LowerChar(c)]
  {
    LowerAsciiConcat(init, [c]);
  }

  /** Folding case before or after cutting at the last dot gives the same text. */
  lemma {:induction false} AfterLastDotFolded(s: string)
    ensures LowerAscii(AfterLastDot(s)) == AfterLastDot(LowerAscii(s))
    decreases |s|
  {
    if s != [] {
      var init, c := s[..|s| - 1], s[|s| - 1];
      assert s == init + [c];
      LowerAsciiSnoc(init, c);
      assert LowerChar(c) == '.' <==> c == '.';
      AfterLastDotSnoc(LowerAscii(init), LowerChar(c));
      AfterLastDotSnoc(init, c);
      if c != '.' {
        AfterLastDotFolded(init);
        LowerAsciiSnoc(AfterLastDot(init), c);
      }
    }
  }

  /** Names that agree up to ASCII case get the same MIME type and the same icon. */
  lemma LookupIgnoresCase(a: string, b: string)
    requires LowerAscii(a) == LowerAscii(b)
    ensures Extension(a) == Extension(b)
    ensures MediaType(a) == MediaType(b)
    ensures FileIcon(a) == FileIcon(b)
  {
    AfterLastDotFolded(a);
    AfterLastDotFolded(b);
  }

  /** An extension none of the five MIME tables lists. */
  predicate UnknownMediaExtension(ext: string) {
    VideoType(ext).None? && AudioType(ext).None? && ImageType(ext).None?
    && DocumentType(ext).None? && OtherType(ext).None?
  }

  /** An extension is unknown to the merged table exactly when every table misses it. */
  lemma UnknownExtensionIsNull(ext: string)
    ensures AllTypes(ext).None? <==> UnknownMediaExtension(ext)
  {
  }

  /**
   * The lookups as written and the corrected ones differ at exactly the two
   * keys that name an inherited member; everywhere else `allTypes[ext] || null`
   * is the table entry or `null`, and `icons[ext] || '📄'` is the table icon or
   * the default one.
   */
  lemma AsWrittenDiffersOnlyAtInherited(name: string)
    ensures MediaTypeAsWritten(name) == (if MediaType(name).Some? then JsString(MediaType(name).value) else JsNull)
      <==> Extension(name) !in {"constructor", "__proto__"}
    ensures FileIconAsWritten(name) == JsString(FileIcon(name)) <==> Extension(name) !in {"constructor", "__proto__"}
  {
    var ext := Extension(name);
    if ext == "constructor" {
      ConstructorUntyped();
    } else if ext == "__proto__" {
      ProtoUntyped();
    } else if MediaTypeAsWritten(name).JsInherited? || FileIconAsWritten(name).JsInherited? {
      LeakedMembersAreLowerCase(name);
    }
  }

  /**
   * The MIME table is wider than the suffix tests: a bare `mp4` with no dot
   * gets a video type although `isVideo` rejects it.
   */
  lemma BareExtensionIsTyped()
    ensures MediaType("mp4") == Some("video/mp4") && !IsVideo("mp4")
  {
    Mp4Extension();
    assert AllTypes("mp4") == Some("video/mp4");
    ShortNameNotVideo("mp4");
  }

  /** Every video suffix has at least three letters, so a dotted match needs four characters. */
  lemma ShortNameNotVideo(name: string)
    requires |name| <= 3
    ensures !IsVideo(name)
  {
    forall k | 0 <= k < |VideoSuffixes| ensures !EndsWithDotted(name, VideoSuffixes[k]) {
      assert |VideoSuffixes[k]| >= 3;
    }
  }

  lemma Mp4Extension()
    ensures Extension("mp4") == "mp4"
  {
    AfterLastDotOfDotless("mp4");
    LowerAsciiNoUpper("mp4");
  }

  /** `.m4v` likewise has a video MIME type but is not a video to `isVideo`. */
  lemma M4vIsTypedNotVideo()
    ensures MediaType("clip.m4v") == Some("video/x-m4v") && !IsVideo("clip.m4v")
  {
    M4vExtension();
    forall k | 0 <= k < |VideoSuffixes| ensures !EndsWithDotted("clip.m4v", VideoSuffixes[k]) {
      if EndsWithDotted("clip.m4v", VideoSuffixes[k]) {
        VideoSuffixTyped(VideoSuffixes[k]);
        SuffixMatchFixesExtension("clip.m4v", VideoSuffixes[k]);
      }
    }
  }

  lemma M4vExtension()
    ensures Extension("clip.m4v") == "m4v"
  {
    AfterLastDotOf("clip", "m4v");
    assert "clip" + "." + "m4v" == "clip.m4v";
    LowerAsciiNoUpper("m4v");
  }

  /** What a property read on a plain JavaScript object can give back. */
  datatype JsValue = JsString(text: string) | JsNull | JsInherited(member: string)

  /** Properties every plain object inherits from `Object.prototype`. */
  const ObjectPrototypeMembers: set<string> := {
    "constructor", "__proto__", "hasOwnProperty", "isPrototypeOf", "propertyIsEnumerable",
    "toString", "toLocaleString", "valueOf", "__defineGetter__", "__defineSetter__",
    "__lookupGetter__", "__lookupSetter__"}

  /**
   * `getMediaTypeFromFileName` as written: `allTypes[ext] || null` also finds
   * members inherited from `Object.prototype`, which are truthy and not strings.
   */
  function MediaTypeAsWritten(name: string): (r: JsValue)
    ensures r.JsString? <==> MediaType(name).Some?
    ensures r.JsString? ==> r.text == MediaType(name).value
    ensures r.JsInherited? <==> MediaType(name).None? && Extension(name) in ObjectPrototypeMembers
  {
    var ext := Extension(name);
    if AllTypes(ext).Some? then JsString(AllTypes(ext).value)
    else if ext in ObjectPrototypeMembers then JsInherited(ext)
    else JsNull
  }

  /** `getFileIconByExt` as written: `icons[ext] || '📄'`, with the same inherited lookups. */
  function FileIconAsWritten(name: string): (r: JsValue)
    ensures !r.JsNull?
    ensures r.JsString? <==> Extension(name) !in ObjectPrototypeMembers || IconFor(Extension(name)).Some?
    ensures r.JsString? ==> r.text == FileIcon(name)
  {
    var ext := Extension(name);
    if IconFor(ext).Some? then JsString(IconFor(ext).value)
    else if ext in ObjectPrototypeMembers then JsInherited(ext)
    else JsString(DefaultIcon)
  }

  /**
   * The extension `constructor` is in no table, yet the lookups as written
   * return `Object` instead of `null` and instead of the default icon.
   */
  lemma InheritedExtensionLeaks()
    ensures Extension("notes.constructor") == "constructor"
    ensures MediaType("notes.constructor") == None
    ensures MediaTypeAsWritten("notes.constructor") == JsInherited("constructor")
    ensures FileIcon("notes.constructor") == DefaultIcon
    ensures FileIconAsWritten("notes.constructor") == JsInherited("constructor")
  {
    ConstructorExtension();
    ConstructorUntyped();
  }

  lemma ConstructorUntyped()
    ensures AllTypes("constructor") == None && IconFor("constructor") == None
  {
  }

  lemma ProtoUntyped()
    ensures AllTypes("__proto__") == None && IconFor("__proto__") == None
  {
  }

  lemma ConstructorExtension()
    ensures Extension("notes.constructor") == "constructor"
  {
    AfterLastDotOf("notes", "constructor");
    assert "notes" + "." + "constructor" == "notes.constructor";
    ConstructorIsLowerCase();
  }

  lemma ConstructorIsLowerCase()
    ensures LowerAscii("constructor") == "constructor"
  {
    LowerAsciiNoUpper("constructor");
  }

  /** Only the lower-case members can be reached, since the extension is lower-cased first. */
  lemma LeakedMembersAreLowerCase(name: string)
    requires MediaTypeAsWritten(name).JsInherited? || FileIconAsWritten(name).JsInherited?
    ensures Extension(name) == "constructor" || Extension(name) == "__proto__"
  {
    LowerCaseMembers(Extension(name));
  }

  /** Every member but two has an upper-case letter, so a lower-cased extension cannot name it. */
  lemma LowerCaseMembers(m: string)
    requires m in ObjectPrototypeMembers
    ensures (forall i :: 0 <= i < |m| ==> !('A' <= m[i] <= 'Z')) ==> m == "constructor" || m == "__proto__"
  {
    if m == "hasOwnProperty" { assert 'A' <= m[3] <= 'Z'; }
    else if m == "isPrototypeOf" { assert 'A' <= m[2] <= 'Z'; }
    else if m == "propertyIsEnumerable" { assert 'A' <= m[8] <= 'Z'; }
    else if m == "toString" { assert 'A' <= m[2] <= 'Z'; }
    else if m == "toLocaleString" { assert 'A' <= m[2] <= 'Z'; }
    else if m == "valueOf" { assert 'A' <= m[5] <= 'Z'; }
    else if m == "__defineGetter__" { assert 'A' <= m[8] <= 'Z'; }
    else if m == "__defineSetter__" { assert 'A' <= m[8] <= 'Z'; }
    else if m == "__lookupGetter__" { assert 'A' <= m[8] <= 'Z'; }
    else if m == "__lookupSetter__" { assert 'A' <= m[8] <= 'Z'; }
  }
}
