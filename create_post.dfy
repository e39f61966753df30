/** The post-creation dialog: which selected files it accepts, the previews it builds, the form
    it submits with its defaults, and how the upload's completion is turned into dialog state.
    React rendering, the `XMLHttpRequest` transport and object URLs are not modelled. */
module CreatePost {
  import opened Wrappers

  /** The dialog's two modes: a photo post or a reel. */
  datatype Mode = ImageMode | VideoMode

  /** What the dialog sees of a selected file: its size in bytes and its MIME type (`file.type`,
      possibly empty). */
  datatype FileInfo = FileInfo(size: nat, mimeType: string)

  datatype MediaKind = ImagePreview | VideoPreview

  /** A preview tile. The object URL made by `URL.createObjectURL` is represented by the file it
      points at. */
  datatype Preview = Preview(file: FileInfo, kind: MediaKind)

  /** The largest accepted file: 100 MiB. */
  const MaxFileSize: nat := 100 * 1024 * 1024

  /** The messages the dialog shows. */
  datatype ErrorMessage =
    | UnsupportedFormat   // "Formato no compatible en iPhone. Usa MP4 (H.264) o MOV. Máximo 100MB."
    | NoFileSelected      // "Debes seleccionar al menos un archivo."
    | LoginRequired       // "Inicia sesión para publicar."
    | Forbidden           // "Tu cuenta no tiene permisos para publicar."
    | CreateFailed(status: int)  // "No se pudo crear la publicación (<status>)."
    | UploadFailed        // "No se pudo subir el contenido."

  // ---------------------------------------------------------------------------------------------
  // Accepting a selection

  predicate StartsWith(s: string, prefix: string)
  {
    |prefix| <= |s| && s[..|prefix|] == prefix
  }

  /** `toLowerCase` on one character, as far as it can matter for comparing with the ASCII MIME
      types below: ASCII capitals and the Kelvin sign (which lower-cases to `k`). Every other
      character that `toLowerCase` changes maps to text that is not plain ASCII, so leaving it
      unchanged keeps it unequal to the allowed types. */
  function LowerChar(c: char): char
  {
    if 'A' <= c <= 'Z' then (c as int + 32) as char
    else if c == '\U{212A}' then 'k'
    else c
  }

  function Lower(s: string): string
  {
    seq(|s|, i requires 0 <= i < |s| => LowerChar(s[i]))
  }

  const AllowedVideoMimes: set<string> := {"video/mp4", "video/quicktime"}

  /** The per-file test of `handleFiles`: at most 100 MiB and, in photo mode, an `image/` type;
      in reel mode, an MP4 or QuickTime type compared case-insensitively. */
  predicate Accepts(mode: Mode, f: FileInfo)
  {
    if f.size > MaxFileSize then false
    else if mode == ImageMode then StartsWith(f.mimeType, "image/")
    else Lower(f.mimeType) in AllowedVideoMimes
  }

  /** `Array.from(fileList).every(...)`. */
  predicate AllAccepted(mode: Mode, files: seq<FileInfo>)
  {
    forall i :: 0 <= i < |files| ==> Accepts(mode, files[i])
  }

  /** The tile of one file: a video tile exactly when the type starts with `video/`, compared
      case-sensitively. */
  function PreviewOf(f: FileInfo): (r: Preview)
    ensures r.file == f
    ensures r.kind == VideoPreview <==> StartsWith(f.mimeType, "video/")
  {
    Preview(f, if StartsWith(f.mimeType, "video/") then VideoPreview else ImagePreview)
  }

  /** The previews of a selection, one per file and in the same order. */
  function PreviewsOf(files: seq<FileInfo>): (r: seq<Preview>)
    ensures |r| == |files|
    ensures forall i :: 0 <= i < |files| ==> r[i].file == files[i]
    ensures forall i :: 0 <= i < |files| ==>
              (r[i].kind == VideoPreview <==> StartsWith(files[i].mimeType, "video/"))
  {
    seq(|files|, i requires 0 <= i < |files| => PreviewOf(files[i]))
  }

  /** An accepted file is never larger than 100 MiB, whatever the mode. */
  lemma AcceptedFilesFitTheLimit(mode: Mode, files: seq<FileInfo>)
    requires AllAccepted(mode, files)
    ensures forall i :: 0 <= i < |files| ==> files[i].size <= MaxFileSize
  {
    forall i | 0 <= i < |files| ensures files[i].size <= MaxFileSize {
      assert Accepts(mode, files[i]);
    }
  }

  /** The size limit is inclusive: a file of exactly 100 MiB passes, one byte more does not. */
  lemma SizeLimitIsInclusive()
    ensures Accepts(VideoMode, FileInfo(MaxFileSize, "video/mp4"))
    ensures !Accepts(VideoMode, FileInfo(MaxFileSize + 1, "video/mp4"))
    ensures Accepts(ImageMode, FileInfo(MaxFileSize, "image/png"))
    ensures !Accepts(ImageMode, FileInfo(MaxFileSize + 1, "image/png"))
  {
    assert Lower("video/mp4") == "video/mp4";
    assert StartsWith("image/png", "image/");
  }

  /** Reel mode refuses WebM and images; photo mode refuses videos. */
  lemma ModesRefuseOtherKinds()
    ensures !Accepts(VideoMode, FileInfo(1, "video/webm"))
    ensures !Accepts(VideoMode, FileInfo(1, "image/png"))
    ensures !Accepts(ImageMode, FileInfo(1, "video/mp4"))
    ensures Accepts(VideoMode, FileInfo(1, "VIDEO/QuickTime"))
  {
    assert Lower("video/webm") == "video/webm";
    assert Lower("image/png") == "image/png";
    assert Lower("VIDEO/QuickTime") == "video/quicktime";
    assert "video/mp4"[..6] == "video/";
  }

  /** Lower-casing keeps the length and is idempotent. */
  lemma LowerIdempotent(s: string)
    ensures |Lower(s)| == |s|
    ensures Lower(Lower(s)) == Lower(s)
  {
    var l := Lower(s);
    forall i | 0 <= i < |s| ensures Lower(l)[i] == l[i] {
      assert l[i] == LowerChar(s[i]);
    }
  }

  /** Reel mode ignores case: two files of the same size whose types differ only in case are
      both accepted or both refused. */
  lemma ReelModeIgnoresCase(f: FileInfo, g: FileInfo)
    requires f.size == g.size && Lower(f.mimeType) == Lower(g.mimeType)
    ensures Accepts(VideoMode, f) <==> Accepts(VideoMode, g)
  {
  }

  /** For a type already in lower case, reel mode accepts exactly MP4 and QuickTime files within
      the limit. */
  lemma LowerCaseReelTypesIff(f: FileInfo)
    requires Lower(f.mimeType) == f.mimeType
    ensures Accepts(VideoMode, f)
            <==> f.size <= MaxFileSize && (f.mimeType == "video/mp4" || f.mimeType == "video/quicktime")
  {
  }

  /** A selection is refused as a whole as soon as one of its files is refused. */
  lemma OneRefusedFileRefusesSelection(mode: Mode, files: seq<FileInfo>, i: int)
    requires 0 <= i < |files| && !Accepts(mode, files[i])
    ensures !AllAccepted(mode, files)
  {
  }

  /** In photo mode every tile of an accepted selection is an image tile. */
  lemma {:induction false} PhotoSelectionsPreviewAsImages(files: seq<FileInfo>)
    requires AllAccepted(ImageMode, files)
    ensures forall i :: 0 <= i < |files| ==> PreviewsOf(files)[i].kind == ImagePreview
  {
    forall i | 0 <= i < |files| ensures PreviewsOf(files)[i].kind == ImagePreview {
      assert Accepts(ImageMode, files[i]);
      assert files[i].mimeType[..6] == "image/";
    }
  }

  /** In reel mode a file accepted with an already lower-case type gets a video tile. */
  lemma LowerCaseVideosPreviewAsVideos(f: FileInfo)
    requires Accepts(VideoMode, f) && Lower(f.mimeType) == f.mimeType
    ensures PreviewOf(f).kind == VideoPreview
  {
    assert f.mimeType == "video/mp4" || f.mimeType == "video/quicktime";
    assert "video/mp4"[..6] == "video/" && "video/quicktime"[..6] == "video/";
  }

  /** The acceptance test lower-cases the type but the tile choice does not: reel mode accepts
      an upper-case `VIDEO/MP4` and shows it as an image tile. */
  lemma UpperCaseVideoAcceptedAsImageTile()
    ensures Accepts(VideoMode, FileInfo(1, "VIDEO/MP4"))
    ensures PreviewOf(FileInfo(1, "VIDEO/MP4")).kind == ImagePreview
  {
    assert Lower("VIDEO/MP4") == "video/mp4";
    assert "VIDEO/MP4"[..6] != "video/" by {
      assert "VIDEO/MP4"[0] == 'V';
    }
  }

  // ---------------------------------------------------------------------------------------------
  // Form defaults

  /** The characters `String.prototype.trim` removes: white space and line terminators. */
  const JsWhitespace: set<char> := {
    '\t', '\n', '\U{000B}', '\U{000C}', '\r', ' ', '\U{00A0}', '\U{1680}',
    '\U{2000}', '\U{2001}', '\U{2002}', '\U{2003}', '\U{2004}', '\U{2005}', '\U{2006}',
    '\U{2007}', '\U{2008}', '\U{2009}', '\U{200A}',
    '\U{2028}', '\U{2029}', '\U{202F}', '\U{205F}', '\U{3000}', '\U{FEFF}'}

  predicate IsJsWhitespace(c: char)
  {
    c in JsWhitespace
  }

  /** `r` is the part of `s` that starts at `a`, and everything of `s` before and after it is
      white space. */
  ghost predicate PaddedAt(s: string, r: string, a: int)
  {
    0 <= a <= |s| - |r| && r == s[a..a + |r|]
    && (forall i :: 0 <= i < a ==> IsJsWhitespace(s[i]))
    && (forall i :: a + |r| <= i < |s| ==> IsJsWhitespace(s[i]))
  }

  /** `s.trim()`: `s` without its leading and trailing white space. */
  function Trim(s: string): (r: string)
    ensures |r| <= |s|
    ensures r != [] ==> !IsJsWhitespace(r[0]) && !IsJsWhitespace(r[|r| - 1])
    decreases |s|
  {
    if s == [] then s
    else if IsJsWhitespace(s[0]) then Trim(s[1..])
    else if IsJsWhitespace(s[|s| - 1]) then Trim(s[..|s| - 1])
    else s
  }

  /** What `trim()` returns is the middle of `s`, with only white space around it. */
  lemma {:induction false} TrimPadded(s: string)
    ensures exists a :: PaddedAt(s, Trim(s), a)
    decreases |s|
  {
    var r := Trim(s);
    if s == [] {
      assert PaddedAt(s, r, 0);
    } else if IsJsWhitespace(s[0]) {
      TrimPadded(s[1..]);
      var a :| PaddedAt(s[1..], r, a);
      PaddedAfterSpace(s, r, a);
    } else if IsJsWhitespace(s[|s| - 1]) {
      TrimPadded(s[..|s| - 1]);
      var a :| PaddedAt(s[..|s| - 1], r, a);
      PaddedBeforeSpace(s, r, a);
    } else {
      assert PaddedAt(s, r, 0);
    }
  }

  lemma PaddedAfterSpace(s: string, r: string, a: int)
    requires s != [] && IsJsWhitespace(s[0]) && PaddedAt(s[1..], r, a)
    ensures PaddedAt(s, r, a + 1)
  {
    var rest := s[1..];
    assert r == s[a + 1..a + 1 + |r|];
    forall i | a + 1 + |r| <= i < |s| ensures IsJsWhitespace(s[i]) {
      assert s[i] == rest[i - 1];
    }
    forall i | 0 <= i < a + 1 ensures IsJsWhitespace(s[i]) {
      if i > 0 {
        assert s[i] == rest[i - 1];
      }
    }
  }

  lemma PaddedBeforeSpace(s: string, r: string, a: int)
    requires s != [] && IsJsWhitespace(s[|s| - 1]) && PaddedAt(s[..|s| - 1], r, a)
    ensures PaddedAt(s, r, a)
  {
    var rest := s[..|s| - 1];
    assert r == s[a..a + |r|];
    forall i | a + |r| <= i < |s| ensures IsJsWhitespace(s[i]) {
      if i < |s| - 1 {
        assert s[i] == rest[i];
      }
    }
    forall i | 0 <= i < a ensures IsJsWhitespace(s[i]) {
      assert s[i] == rest[i];
    }
  }

  /** `trim()` returns the empty string exactly when `s` is all white space. */
  lemma TrimEmptyIffBlank(s: string)
    ensures Trim(s) == [] <==> forall i :: 0 <= i < |s| ==> IsJsWhitespace(s[i])
  {
    TrimPadded(s);
    var r := Trim(s);
    var a :| PaddedAt(s, r, a);
    if r != [] {
      assert s[a] == r[0];
    }
  }

  /** Trimming twice is trimming once. */
  lemma TrimIdempotent(s: string)
    ensures Trim(Trim(s)) == Trim(s)
  {
    var r := Trim(s);
    if r != [] {
      assert !IsJsWhitespace(r[0]) && !IsJsWhitespace(r[|r| - 1]);
    }
  }

  /** The title sent with the form: the trimmed title, or a default that depends on the mode
      when the title is blank. */
  function DefaultTitle(mode: Mode, title: string): (r: string)
    ensures r != ""
    ensures Trim(title) != "" ==> r == Trim(title)
  {
    var t := Trim(title);
    if t != "" then t
    else if mode == VideoMode then "Nuevo reel"
    else "Nueva publicaci\U{00F3}n"
  }

  /** The body sent with the form: the trimmed body, or a fixed text when it is blank. */
  function DefaultBody(body: string): (r: string)
    ensures r != ""
    ensures Trim(body) != "" ==> r == Trim(body)
  {
    var t := Trim(body);
    if t != "" then t else "Contenido compartido en UZEED."
  }

  /** A blank title falls back to the mode's default, and a blank body to the fixed text. */
  lemma BlankFieldsGetDefaults(mode: Mode, title: string, body: string)
    requires forall i :: 0 <= i < |title| ==> IsJsWhitespace(title[i])
    requires forall i :: 0 <= i < |body| ==> IsJsWhitespace(body[i])
    ensures mode == VideoMode ==> DefaultTitle(mode, title) == "Nuevo reel"
    ensures mode == ImageMode ==> DefaultTitle(mode, title) == "Nueva publicaci\U{00F3}n"
    ensures DefaultBody(body) == "Contenido compartido en UZEED."
  {
    TrimEmptyIffBlank(title);
    TrimEmptyIffBlank(body);
  }

  /** A title with any non-blank character is sent trimmed and never replaced by a default. */
  lemma NonBlankTitleIsKept(mode: Mode, title: string, i: int)
    requires 0 <= i < |title| && !IsJsWhitespace(title[i])
    ensures DefaultTitle(mode, title) == Trim(title)
  {
    TrimEmptyIffBlank(title);
    assert title[i] in title;
  }

  /** The multipart form of `submit`. */
  datatype UploadForm = UploadForm(
    title: string, body: string, isPublic: string, price: string, files: seq<FileInfo>)

  /** `String(isPublic)`. */
  function BoolText(b: bool): string
  {
    if b then "true" else "false"
  }

  /** What a call of `submit` did: nothing while the session is loading, a redirect to the login
      page, a refusal for want of files, or an upload of `form`. */
  datatype SubmitOutcome = Ignored | RedirectToLogin | Rejected | Sending(form: UploadForm)

  // ---------------------------------------------------------------------------------------------
  // The dialog

  class CreatePostModal {
    var mode: Mode
    var title: string
    var body: string
    var isPublic: bool
    var files: Option<seq<FileInfo>>
    var previews: seq<Preview>
    var error: Option<ErrorMessage>
    var progress: int
    var uploading: bool

    /** The previews always show the current selection, and a selection is never empty and was
        accepted in the current mode. */
    ghost predicate Valid()
      reads this
    {
      previews == PreviewsOf(GetOr(files, []))
      && (files.Some? ==> files.value != [] && AllAccepted(mode, files.value))
    }

    /** The dialog as first rendered, or reset when it is opened. */
    constructor (defaultMode: Mode)
      ensures Valid()
      ensures mode == defaultMode && title == "" && body == "" && !isPublic
      ensures files == None && previews == [] && error == None && progress == 0 && !uploading
    {
      mode, title, body, isPublic := defaultMode, "", "", false;
      files, previews, error, progress, uploading := None, [], None, 0, false;
    }

    /** The effect that runs whenever the dialog opens: every field back to its initial value. */
    method Open(defaultMode: Mode)
      modifies this
      ensures Valid()
      ensures mode == defaultMode && title == "" && body == "" && !isPublic
      ensures files == None && previews == [] && error == None && progress == 0 && !uploading
    {
      mode, title, body, isPublic := defaultMode, "", "", false;
      files, previews, error, progress, uploading := None, [], None, 0, false;
    }

    /** `handleFiles`: clear the selection for an absent or empty list; reject the whole list,
        keeping the previous selection, when any file fails the test; otherwise take it and
        build its previews. */
    method HandleFiles(fileList: Option<seq<FileInfo>>)
      requires Valid()
      modifies this
      ensures Valid()
      ensures mode == old(mode) && title == old(title) && body == old(body)
      ensures isPublic == old(isPublic) && progress == old(progress) && uploading == old(uploading)
      ensures (fileList.None? || fileList.value == []) ==>
                files == None && previews == [] && error == old(error)
      ensures fileList.Some? && fileList.value != [] && !AllAccepted(mode, fileList.value) ==>
                error == Some(UnsupportedFormat) && files == old(files) && previews == old(previews)
      ensures fileList.Some? && fileList.value != [] && AllAccepted(mode, fileList.value) ==>
                error == None && files == fileList && previews == PreviewsOf(fileList.value)
    {
      if fileList.None? || fileList.value == [] {
        files := None;
        previews := [];
        return;
      }
      var accepted := AllAccepted(mode, fileList.value);
      if !accepted {
        error := Some(UnsupportedFormat);
        return;
      }
      error := None;
      files := fileList;
      previews := PreviewsOf(fileList.value);
    }

    /** A mode button: switch the mode and clear the selection as `handleFiles(null)` does. */
    method SelectMode(m: Mode)
      requires Valid()
      modifies this
      ensures Valid()
      ensures mode == m && files == None && previews == []
      ensures error == old(error) && title == old(title) && body == old(body)
      ensures isPublic == old(isPublic) && progress == old(progress) && uploading == old(uploading)
    {
      HandleFiles(None);
      mode := m;
    }

    /** `submit`, up to the point where the request is sent. `meLoading` and `signedIn` are the
        session state of the signed-in-user hook. */
    method Submit(meLoading: bool, signedIn: bool) returns (outcome: SubmitOutcome)
      requires Valid()
      modifies this
      ensures Valid()
      ensures mode == old(mode) && title == old(title) && body == old(body)
      ensures isPublic == old(isPublic) && files == old(files) && previews == old(previews)
      ensures progress == old(progress)
      ensures meLoading ==> outcome == Ignored && error == old(error) && uploading == old(uploading)
      ensures !meLoading && !signedIn ==>
                outcome == RedirectToLogin && error == old(error) && uploading == old(uploading)
      ensures !meLoading && signedIn && files == None ==>
                outcome == Rejected && error == Some(NoFileSelected) && uploading == old(uploading)
      ensures !meLoading && signedIn && files != None ==>
                error == None && uploading
                && outcome == Sending(UploadForm(DefaultTitle(mode, title), DefaultBody(body),
                                                 BoolText(isPublic), "0", files.value))
      ensures outcome.Sending? ==>
                outcome.form.files != [] && AllAccepted(mode, outcome.form.files)
                && forall i :: 0 <= i < |outcome.form.files| ==> outcome.form.files[i].size <= MaxFileSize
    {
      if meLoading {
        return Ignored;
      }
      if !signedIn {
        return RedirectToLogin;
      }
      if files.None? || files.value == [] {
        error := Some(NoFileSelected);
        return Rejected;
      }
      var form := UploadForm(DefaultTitle(mode, title), DefaultBody(body),
                             BoolText(isPublic), "0", files.value);
      AcceptedFilesFitTheLimit(mode, files.value);
      error := None;
      uploading := true;
      outcome := Sending(form);
    }

    /** `xhr.onload`: a 2xx status completes the upload and closes the dialog (`closed`); 401
        and 403 get their own messages and any other status a generic one. The upload always
        ends. */
    method OnLoad(status: int) returns (closed: bool)
      requires Valid()
      modifies this
      ensures Valid()
      ensures !uploading
      ensures mode == old(mode) && title == old(title) && body == old(body)
      ensures isPublic == old(isPublic) && files == old(files) && previews == old(previews)
      ensures closed <==> 200 <= status < 300
      ensures closed ==> progress == 100 && error == old(error)
      ensures !closed ==> progress == old(progress)
      ensures status == 401 ==> error == Some(LoginRequired)
      ensures status == 403 ==> error == Some(Forbidden)
      ensures !closed && status != 401 && status != 403 ==> error == Some(CreateFailed(status))
    {
      if 200 <= status < 300 {
        progress := 100;
        uploading := false;
        return true;
      }
      if status == 401 {
        error := Some(LoginRequired);
        uploading := false;
        return false;
      }
      if status == 403 {
        error := Some(Forbidden);
        uploading := false;
        return false;
      }
      error := Some(CreateFailed(status));
      uploading := false;
      closed := false;
    }

    /** `xhr.onerror`: the upload ends with the network-failure message. */
    method OnError()
      requires Valid()
      modifies this
      ensures Valid()
      ensures error == Some(UploadFailed) && !uploading
      ensures mode == old(mode) && title == old(title) && body == old(body)
      ensures isPublic == old(isPublic) && files == old(files) && previews == old(previews)
      ensures progress == old(progress)
    {
      error := Some(UploadFailed);
      uploading := false;
    }
  }

  /** A full round: open the dialog, pick one MP4 in reel mode with a blank title, and submit
      while signed in; the form carries the reel default and the upload is under way. */
  method UploadOneReel() returns (form: UploadForm)
    ensures form == UploadForm("Nuevo reel", "Contenido compartido en UZEED.", "false", "0",
                               [FileInfo(1024, "video/mp4")])
  {
    var m := new CreatePostModal(ImageMode);
    m.SelectMode(VideoMode);
    var clip := FileInfo(1024, "video/mp4");
    assert Lower(clip.mimeType) == "video/mp4";
    assert AllAccepted(VideoMode, [clip]);
    m.HandleFiles(Some([clip]));
    var outcome := m.Submit(false, true);
    assert Trim("") == "";
    form := outcome.form;
  }
}
