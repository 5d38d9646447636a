/** The upload middleware: the validation of the uploaded files and the sanitising of the
    transformation settings the client sent. */
module FileValidation {

  import opened Wrappers
  import opened Strings
  import FileSystem

  /** A file stored by the upload layer: where its bytes are, the name the client gave it, its
      size and its mime type. */
  datatype UploadedFile = UploadedFile(path: string, originalName: string, size: nat, mimeType: string)

  datatype Format = Webp | Jpeg | Png | Avif | Tiff
  datatype Fit = Cover | Contain | Fill | Inside | Outside
  datatype MarkKind = MarkNone | MarkText | MarkImage
  datatype Position = Center | North | Northeast | East | Southeast | South | Southwest | West | Northwest
  datatype NamingKind = Original | Custom | Numbered

  datatype Resize = Resize(width: int, height: int, fit: Fit)

  /** A sanitised watermark. A missing watermark sanitises to kind `none` with every other
      field absent; the image path is never carried over. */
  datatype Watermark = Watermark(kind: MarkKind, text: Option<string>, font: Option<string>,
                                 position: Option<Position>, imagePath: Option<string>)

  datatype Naming = Naming(kind: NamingKind, prefix: string, start: int)

  /** The settings every file of a job is processed with. */
  datatype Settings = Settings(format: Format, quality: int, resize: Resize, watermark: Watermark, naming: Naming)

  // What the client may send. A string field is None when it is missing or not a string; a
  // numeric field holds what `parseInt` makes of it, None for NaN; a sub-object is None when
  // it is missing or falsy.
  datatype RawResize = RawResize(width: Option<int>, height: Option<int>, fit: Option<string>)
  datatype RawWatermark = RawWatermark(kind: Option<string>, text: Option<string>, font: Option<string>,
                                       position: Option<string>, imagePath: Option<string>)
  datatype RawNaming = RawNaming(kind: Option<string>, prefix: Option<string>, start: Option<int>)
  datatype RawSettings = RawSettings(format: Option<string>, quality: Option<int>, resize: Option<RawResize>,
                                     watermark: Option<RawWatermark>, naming: Option<RawNaming>)

  /** The `settings` field of the request body: absent or JSON `null`, text that is not JSON,
      or a parsed value. */
  datatype SettingsPayload = Absent | Malformed | Given(raw: RawSettings)

  /** What a middleware does: call `next` with a value, or answer with an error status. */
  datatype Gate<+T> = Next(passed: T) | Rejected(code: int, error: string, message: string)

  function FormatName(f: Format): string {
    match f
    case Webp => "webp"
    case Jpeg => "jpeg"
    case Png => "png"
    case Avif => "avif"
    case Tiff => "tiff"
  }

  function FormatOf(s: string): (r: Option<Format>)
    ensures r.Some? ==> FormatName(r.value) == s
    ensures forall f: Format :: FormatName(f) == s ==> r == Some(f)
  {
    if s == "webp" then Some(Webp)
    else if s == "jpeg" then Some(Jpeg)
    else if s == "png" then Some(Png)
    else if s == "avif" then Some(Avif)
    else if s == "tiff" then Some(Tiff)
    else None
  }

  function FitName(f: Fit): string {
    match f
    case Cover => "cover"
    case Contain => "contain"
    case Fill => "fill"
    case Inside => "inside"
    case Outside => "outside"
  }

  function FitOf(s: string): (r: Option<Fit>)
    ensures r.Some? ==> FitName(r.value) == s
    ensures forall f: Fit :: FitName(f) == s ==> r == Some(f)
  {
    if s == "cover" then Some(Cover)
    else if s == "contain" then Some(Contain)
    else if s == "fill" then Some(Fill)
    else if s == "inside" then Some(Inside)
    else if s == "outside" then Some(Outside)
    else None
  }

  function MarkKindName(k: MarkKind): string {
    match k
    case MarkNone => "none"
    case MarkText => "text"
    case MarkImage => "image"
  }

  function MarkKindOf(s: string): (r: Option<MarkKind>)
    ensures r.Some? ==> MarkKindName(r.value) == s
    ensures forall k: MarkKind :: MarkKindName(k) == s ==> r == Some(k)
  {
    if s == "none" then Some(MarkNone)
    else if s == "text" then Some(MarkText)
    else if s == "image" then Some(MarkImage)
    else None
  }

  function PositionName(p: Position): string {
    match p
    case Center => "center"
    case North => "north"
    case Northeast => "northeast"
    case East => "east"
    case Southeast => "southeast"
    case South => "south"
    case Southwest => "southwest"
    case West => "west"
    case Northwest => "northwest"
  }

  function PositionOf(s: string): (r: Option<Position>)
    ensures r.Some? ==> PositionName(r.value) == s
    ensures forall p: Position :: PositionName(p) == s ==> r == Some(p)
  {
    if s == "center" then Some(Center)
    else if s == "north" then Some(North)
    else if s == "northeast" then Some(Northeast)
    else if s == "east" then Some(East)
    else if s == "southeast" then Some(Southeast)
    else if s == "south" then Some(South)
    else if s == "southwest" then Some(Southwest)
    else if s == "west" then Some(West)
    else if s == "northwest" then Some(Northwest)
    else None
  }

  function NamingKindName(k: NamingKind): string {
    match k
    case Original => "original"
    case Custom => "custom"
    case Numbered => "numbered"
  }

  function NamingKindOf(s: string): (r: Option<NamingKind>)
    ensures r.Some? ==> NamingKindName(r.value) == s
    ensures forall k: NamingKind :: NamingKindName(k) == s ==> r == Some(k)
  {
    if s == "original" then Some(Original)
    else if s == "custom" then Some(Custom)
    else if s == "numbered" then Some(Numbered)
    else None
  }

  /** `parseInt(x) || fallback`: NaN and 0 are falsy. */
  function OrDefault(v: Option<int>, fallback: int): int {
    if v.Some? && v.value != 0 then v.value else fallback
  }

  /** `Math.max(lo, Math.min(hi, x))`. */
  function Clamp(lo: int, hi: int, x: int): int {
    if x > hi then (if hi > lo then hi else lo) else if x < lo then lo else x
  }

  /** A whitelisted format passes, anything else becomes webp. */
  function ValidateFormat(format: Option<string>): (r: Format)
    ensures format.Some? && FormatOf(format.value).Some? ==> FormatName(r) == format.value
    ensures format.None? || FormatOf(format.value).None? ==> r == Webp
  {
    if format.Some? && FormatOf(format.value).Some? then FormatOf(format.value).value else Webp
  }

  /** A quality between 1 and 100 passes, anything else becomes 85. */
  function ValidateQuality(quality: Option<int>): (r: int)
    ensures 1 <= r <= 100
    ensures quality.Some? && 1 <= quality.value <= 100 ==> r == quality.value
    ensures quality.None? || quality.value < 1 || quality.value > 100 ==> r == 85
  {
    if quality.Some? && 1 <= quality.value <= 100 then quality.value else 85
  }

  /** Sanitising a sanitised quality changes nothing. */
  lemma QualityIdempotent(quality: Option<int>)
    ensures ValidateQuality(Some(ValidateQuality(quality))) == ValidateQuality(quality)
  {
  }

  /** One side of a resize box: NaN and 0 give the default, the rest is clamped to [1, 10000]. */
  function ValidateSide(side: Option<int>, fallback: int): (r: int)
    requires 1 <= fallback <= 10000
    ensures 1 <= r <= 10000
    ensures side.Some? && 1 <= side.value <= 10000 ==> r == side.value
    ensures side.None? || side.value == 0 ==> r == fallback
    ensures side.Some? && side.value < 0 ==> r == 1
    ensures side.Some? && side.value > 10000 ==> r == 10000
  {
    Clamp(1, 10000, OrDefault(side, fallback))
  }

  function ValidateResize(resize: Option<RawResize>): (r: Resize)
    ensures 1 <= r.width <= 10000 && 1 <= r.height <= 10000
    ensures resize.None? ==> r == Resize(1920, 1080, Inside)
    ensures resize.Some? ==>
              r.width == ValidateSide(resize.value.width, 1920) && r.height == ValidateSide(resize.value.height, 1080)
    ensures resize.Some? && resize.value.fit.Some? && FitOf(resize.value.fit.value).Some? ==>
              FitName(r.fit) == resize.value.fit.value
    ensures resize.Some? && (resize.value.fit.None? || FitOf(resize.value.fit.value).None?) ==> r.fit == Inside
  {
    match resize
    case None => Resize(1920, 1080, Inside)
    case Some(raw) =>
      Resize(ValidateSide(raw.width, 1920), ValidateSide(raw.height, 1080),
             if raw.fit.Some? && FitOf(raw.fit.value).Some? then FitOf(raw.fit.value).value else Inside)
  }

  /** `s.substring(0, n)`. */
  function Take(s: string, n: nat): (r: string)
    ensures |r| <= n && |r| <= |s|
    ensures |s| <= n ==> r == s
    ensures r == s[..|r|]
  {
    if |s| <= n then s else s[..n]
  }

  function ValidateWatermark(watermark: Option<RawWatermark>): (r: Watermark)
    ensures r.imagePath.None?
    ensures watermark.None? ==> r == Watermark(MarkNone, None, None, None, None)
    ensures watermark.Some? ==>
      var raw := watermark.value;
      && (raw.kind.Some? && MarkKindOf(raw.kind.value).Some? ==> MarkKindName(r.kind) == raw.kind.value)
      && (raw.kind.None? || MarkKindOf(raw.kind.value).None? ==> r.kind == MarkNone)
      && r.text.Some? && |r.text.value| <= 100
      && (raw.text.Some? ==> |r.text.value| <= |raw.text.value| && r.text.value == raw.text.value[..|r.text.value|]
                             && (|raw.text.value| <= 100 ==> r.text.value == raw.text.value))
      && (raw.text.None? ==> r.text.value == "")
      && r.font == Some(raw.font.GetOr("Arial"))
      && r.position.Some?
      && (raw.position.Some? && PositionOf(raw.position.value).Some? ==> PositionName(r.position.value) == raw.position.value)
      && (raw.position.None? || PositionOf(raw.position.value).None? ==> r.position == Some(Southeast))
  {
    match watermark
    case None => Watermark(MarkNone, None, None, None, None)
    case Some(raw) =>
      Watermark(
        if raw.kind.Some? && MarkKindOf(raw.kind.value).Some? then MarkKindOf(raw.kind.value).value else MarkNone,
        Some(if raw.text.Some? then Take(raw.text.value, 100) else ""),
        Some(raw.font.GetOr("Arial")),
        Some(if raw.position.Some? && PositionOf(raw.position.value).Some? then PositionOf(raw.position.value).value else Southeast),
        None)
  }

  /** The characters `/[^a-zA-Z0-9-_]/g` does not strip. */
  predicate PrefixChar(c: char) {
    ('a' <= c <= 'z') || ('A' <= c <= 'Z') || ('0' <= c <= '9') || c == '-' || c == '_'
  }

  predicate AllPrefixChars(s: string) {
    forall i | 0 <= i < |s| :: PrefixChar(s[i])
  }

  /** `s.replace(/[^a-zA-Z0-9-_]/g, '')`: the allowed characters of `s`, in order. */
  function KeepPrefixChars(s: string): (r: string)
    ensures AllPrefixChars(r)
    ensures |r| <= |s|
  {
    if s == [] then []
    else (if PrefixChar(s[0]) then [s[0]] else []) + KeepPrefixChars(s[1..])
  }

  /** Stripping leaves a string of allowed characters as it is. */
  lemma {:induction false} KeepPrefixCharsFixes(s: string)
    requires AllPrefixChars(s)
    ensures KeepPrefixChars(s) == s
  {
    if s != [] {
      KeepPrefixCharsFixes(s[1..]);
    }
  }

  function ValidateStart(start: Option<int>): (r: int)
    ensures r >= 0
    ensures start.None? || start.value == 0 ==> r == 1
    ensures start.Some? && start.value < 0 ==> r == 0
    ensures start.Some? && start.value > 0 ==> r == start.value
  {
    var s := OrDefault(start, 1);
    if s > 0 then s else 0
  }

  function ValidateNaming(naming: Option<RawNaming>): (r: Naming)
    ensures r.start >= 0
    ensures |r.prefix| <= 50 && AllPrefixChars(r.prefix)
    ensures naming.None? ==> r == Naming(Original, "image", 1)
    ensures naming.Some? ==>
      var raw := naming.value;
      && (raw.kind.Some? && NamingKindOf(raw.kind.value).Some? ==> NamingKindName(r.kind) == raw.kind.value)
      && (raw.kind.None? || NamingKindOf(raw.kind.value).None? ==> r.kind == Original)
      && (raw.prefix.Some? ==> r.prefix == Take(KeepPrefixChars(raw.prefix.value), 50))
      && (raw.prefix.None? ==> r.prefix == "image")
      && r.start == ValidateStart(raw.start)
  {
    match naming
    case None => Naming(Original, "image", 1)
    case Some(raw) =>
      Naming(
        if raw.kind.Some? && NamingKindOf(raw.kind.value).Some? then NamingKindOf(raw.kind.value).value else Original,
        if raw.prefix.Some? then Take(KeepPrefixChars(raw.prefix.value), 50) else "image",
        ValidateStart(raw.start))
  }

  /** A sanitised naming sent back as it is. */
  function NamingAsRaw(n: Naming): RawNaming {
    RawNaming(Some(NamingKindName(n.kind)), Some(n.prefix), Some(n.start))
  }

  /** Sanitising a sanitised naming again changes only a start of 0, which becomes 1. */
  lemma {:induction false} NamingRevalidation(naming: Option<RawNaming>)
    ensures var n := ValidateNaming(naming);
            ValidateNaming(Some(NamingAsRaw(n))) == if n.start == 0 then n.(start := 1) else n
  {
    var n := ValidateNaming(naming);
    KeepPrefixCharsFixes(n.prefix);
  }

  /** So sanitising is not idempotent: a negative start becomes 0, and 0 then becomes 1. */
  lemma NamingNotIdempotent()
    ensures var once := ValidateNaming(Some(RawNaming(None, None, Some(-5))));
            once.start == 0 && ValidateNaming(Some(NamingAsRaw(once))).start == 1
  {
  }

  /** The five sanitised fields, each within the range its validator guarantees. */
  function Sanitize(raw: RawSettings): (s: Settings)
    ensures 1 <= s.quality <= 100
    ensures 1 <= s.resize.width <= 10000 && 1 <= s.resize.height <= 10000
    ensures s.watermark.imagePath.None?
    ensures s.naming.start >= 0 && |s.naming.prefix| <= 50 && AllPrefixChars(s.naming.prefix)
  {
    Settings(ValidateFormat(raw.format), ValidateQuality(raw.quality), ValidateResize(raw.resize),
             ValidateWatermark(raw.watermark), ValidateNaming(raw.naming))
  }

  /** `validateSettings`: an absent, `null` or unparsable payload is refused with 400 before
      `next`; otherwise `next` receives the five sanitised fields. */
  function ValidateSettings(payload: SettingsPayload): (r: Gate<Settings>)
    ensures r.Rejected? <==> !payload.Given?
    ensures r.Rejected? ==> r == Rejected(400, "Invalid settings", "Processing settings are invalid or corrupted")
    ensures r.Next? ==>
              && r.passed.format == ValidateFormat(payload.raw.format)
              && r.passed.quality == ValidateQuality(payload.raw.quality)
              && r.passed.resize == ValidateResize(payload.raw.resize)
              && r.passed.watermark == ValidateWatermark(payload.raw.watermark)
              && r.passed.naming == ValidateNaming(payload.raw.naming)
  {
    match payload
    case Given(raw) => Next(Sanitize(raw))
    case _ => Rejected(400, "Invalid settings", "Processing settings are invalid or corrupted")
  }

  /** `parseInt(process.env.MAX_FILE_SIZE) || 10 * 1024 * 1024`. */
  function MaxFileSize(env: Option<int>): (limit: int)
    ensures limit != 0
    ensures env.None? ==> limit == 10485760
  {
    OrDefault(env, 10 * 1024 * 1024)
  }

  /** A file passes when its bytes exist and are not larger than the limit. */
  predicate FileOk(f: UploadedFile, files: map<string, nat>, maxSize: int) {
    f.path in files && files[f.path] <= maxSize
  }

  /** The 400 answer for a file that fails validation. */
  function FileRejection(f: UploadedFile, files: map<string, nat>): Gate<()> {
    if f.path !in files then
      Rejected(400, "File upload failed", "File " + f.originalName + " was not uploaded properly")
    else
      Rejected(400, "File too large", "File " + f.originalName + " exceeds size limit")
  }

  /** `validateFiles`: refuses an empty upload, then answers for the first file that is missing
      on disk or too large; `next` is called only when every file passes. */
  method ValidateFiles(uploads: seq<UploadedFile>, disk: FileSystem.Disk, maxSizeEnv: Option<int>) returns (r: Gate<()>)
    ensures |uploads| == 0 ==> r == Rejected(400, "No files uploaded", "Please select at least one image file")
    ensures r.Next? <==> |uploads| > 0 && forall i | 0 <= i < |uploads| :: FileOk(uploads[i], disk.files, MaxFileSize(maxSizeEnv))
    ensures r.Rejected? && |uploads| > 0 ==>
      exists i | 0 <= i < |uploads| ::
        && !FileOk(uploads[i], disk.files, MaxFileSize(maxSizeEnv))
        && (forall j | 0 <= j < i :: FileOk(uploads[j], disk.files, MaxFileSize(maxSizeEnv)))
        && r == FileRejection(uploads[i], disk.files)
  {
    if |uploads| == 0 {
      return Rejected(400, "No files uploaded", "Please select at least one image file");
    }
    var maxSize := MaxFileSize(maxSizeEnv);
    var i := 0;
    while i < |uploads|
      invariant 0 <= i <= |uploads|
      invariant forall j | 0 <= j < i :: FileOk(uploads[j], disk.files, maxSize)
    {
      var f := uploads[i];
      var present := disk.Exists(f.path);
      if !present {
        return FileRejection(f, disk.files);
      }
      if disk.files[f.path] > maxSize {
        return FileRejection(f, disk.files);
      }
      i := i + 1;
    }
    r := Next(());
  }
}
