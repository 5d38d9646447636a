/** The per-image transform decisions (resize, watermark, encode), output naming, and the batch
    loop that runs the transform over every file of a job. The pixel work itself is done by an
    image library and enters the model only as its outcome, a `SharpRun`. */
module ImageProcessor {

  import opened Wrappers
  import opened Strings
  import opened JsMath
  import opened FileValidation
  import opened FileSystem

  // ---------------------------------------------------------------- naming

  /** The five extensions an output file can get. */
  predicate KnownExtension(ext: string) {
    ext == "webp" || ext == "jpg" || ext == "png" || ext == "avif" || ext == "tiff"
  }

  /** The extension of the files a format produces. */
  function FormatExtension(f: Format): (ext: string)
    ensures KnownExtension(ext) && |ext| >= 3
  {
    match f
    case Webp => "webp"
    case Jpeg => "jpg"
    case Png => "png"
    case Avif => "avif"
    case Tiff => "tiff"
  }

  /** `getFileExtension`: the lowercased name of a format gives that format's extension, and
      "jpg" gives jpg; anything else gives webp. So jpeg and jpg give jpg and webp, png, avif
      and tiff give themselves, in any letter case. */
  function FileExtension(format: string): (ext: string)
    ensures KnownExtension(ext)
    ensures var f := ToLower(format);
            && ((f == "jpeg" || f == "jpg") ==> ext == "jpg")
            && ((f == "webp" || f == "png" || f == "avif" || f == "tiff") ==> ext == f)
            && (!KnownExtension(f) && f != "jpeg" ==> ext == "webp")
  {
    var f := ToLower(format);
    if f == "jpg" then "jpg"
    else match FormatOf(f)
         case Some(known) => FormatExtension(known)
         case None => "webp"
  }

  /** The extension depends on the letters of the format only, not on their case. */
  lemma FileExtensionIgnoresCase(format: string)
    ensures FileExtension(ToLower(format)) == FileExtension(format)
  {
    ToLowerIdempotent(format);
  }

  /** `n.toString()` for any integer. */
  function IntToString(n: int): string {
    if n < 0 then "-" + NatToString(-n) else NatToString(n)
  }

  /** The extension of a format is `getFileExtension` of its name. */
  lemma FormatExtensionAgrees(f: Format)
    ensures FormatExtension(f) == FileExtension(FormatName(f))
  {
    AlreadyLower(FormatName(f));
  }

  /** The sequence number of a numbered output name: `(start + index)` padded to three digits. */
  function NumberLabel(n: int): (l: string)
    ensures |l| >= 3
  {
    PadStart(IntToString(n), 3, '0')
  }

  /** `generateOutputFilename`. */
  function OutputFilename(originalName: string, settings: Settings, index: nat): (name: string)
    ensures var ext := FormatExtension(settings.format);
            |name| > |ext| && name[|name| - |ext| - 1..] == "." + ext
  {
    var ext := FormatExtension(settings.format);
    var base := if settings.naming.kind == Original then ParseName(originalName)
                else settings.naming.prefix + NumberLabel(settings.naming.start + index);
    DotExtEnds(base, ext);
    base + "." + ext
  }

  /** `base + "." + ext` ends in a dot and `ext`. */
  lemma DotExtEnds(base: string, ext: string)
    ensures var name := base + "." + ext; name[|name| - |ext| - 1..] == "." + ext
  {
    var name := base + "." + ext;
    assert name[|name| - |ext| - 1..] == "." + ext;
  }

  /** An output name ends in a dot and the extension of its format, and that is the extension
      `path.extname` finds in it, unless an original-name base is empty. */
  lemma OutputFilenameExtension(originalName: string, settings: Settings, index: nat)
    requires settings.naming.kind == Original ==> ParseName(originalName) != ""
    ensures Extname(OutputFilename(originalName, settings, index)) == "." + FormatExtension(settings.format)
  {
    var ext := FormatExtension(settings.format);
    assert forall i | 0 <= i < |ext| :: ext[i] != '.';
    var base := if settings.naming.kind == Original then ParseName(originalName)
                else settings.naming.prefix + NumberLabel(settings.naming.start + index);
    if settings.naming.kind != Original {
      assert |NumberLabel(settings.naming.start + index)| >= 3;
    }
    ExtnameOfJoined(base, ext);
  }

  /** The label of a non-negative number is at least three digits that read back as it. */
  lemma NumberLabelValue(n: nat)
    ensures var l := NumberLabel(n); |l| >= 3 && AllDigits(l) && DigitsValue(l) == n
  {
    NatToStringRoundTrip(n);
    ZeroPadValue(NatToString(n), 3);
  }

  /** The middle of `prefix + mid + "." + ext`. */
  lemma JoinedParts(prefix: string, mid: string, ext: string)
    ensures var name := prefix + mid + "." + ext;
            |name| == |prefix| + |mid| + |ext| + 1 && name[|prefix|..|name| - |ext| - 1] == mid
  {
    var name := prefix + mid + "." + ext;
    assert name[|prefix|..|name| - |ext| - 1] == mid;
  }

  /** A numbered name is the prefix, the label, a dot and the extension. */
  lemma NumberedName(originalName: string, settings: Settings, index: nat)
    requires settings.naming.kind != Original
    ensures OutputFilename(originalName, settings, index)
            == settings.naming.prefix + NumberLabel(settings.naming.start + index) + "."
               + FormatExtension(settings.format)
  {
  }

  /** Reads the sequence number back out of a numbered output name: the digits between the
      prefix and the final dot and extension. */
  function NumberInName(name: string, settings: Settings): Option<nat> {
    DigitsBetween(name, |settings.naming.prefix|, |FormatExtension(settings.format)|)
  }

  /** The value of the digits of `name` after its first `p` characters and before its last
      `e + 1`, if they are all digits. */
  function DigitsBetween(name: string, p: nat, e: nat): Option<nat> {
    if p + e + 1 <= |name| && AllDigits(name[p..|name| - e - 1]) then Some(DigitsValue(name[p..|name| - e - 1]))
    else None
  }

  /** Between a prefix and a dot with an extension, the digits put there are found. */
  lemma DigitsBetweenJoined(prefix: string, digits: string, ext: string)
    requires AllDigits(digits)
    ensures DigitsBetween(prefix + digits + "." + ext, |prefix|, |ext|) == Some(DigitsValue(digits))
  {
    JoinedParts(prefix, digits, ext);
  }

  /** The number of a numbered name reads back as `start + index`. */
  lemma NumberedNameRoundTrip(originalName: string, settings: Settings, index: nat)
    requires settings.naming.kind != Original && settings.naming.start >= 0
    ensures NumberInName(OutputFilename(originalName, settings, index), settings) == Some(settings.naming.start + index)
  {
    var n: nat := settings.naming.start + index;
    NumberedName(originalName, settings, index);
    NumberLabelValue(n);
    NumberInJoined(NumberLabel(n), settings);
  }

  /** The number in a name built from the prefix, a numeral and the extension is the numeral's. */
  lemma NumberInJoined(digits: string, settings: Settings)
    requires AllDigits(digits)
    ensures NumberInName(settings.naming.prefix + digits + "." + FormatExtension(settings.format), settings)
            == Some(DigitsValue(digits))
  {
    DigitsBetweenJoined(settings.naming.prefix, digits, FormatExtension(settings.format));
  }

  /** Numbered names never collide within a job: two indices give two names. */
  lemma NumberedNamesDistinct(a: string, b: string, settings: Settings, i: nat, j: nat)
    requires settings.naming.kind != Original && settings.naming.start >= 0
    requires i != j
    ensures OutputFilename(a, settings, i) != OutputFilename(b, settings, j)
  {
    NumberedNameRoundTrip(a, settings, i);
    NumberedNameRoundTrip(b, settings, j);
  }

  /** Original names collide: two uploads that differ only in their extension give the same
      output name, whatever their positions. */
  lemma OriginalNamesCollide(base: string, ext1: string, ext2: string, settings: Settings, i: nat, j: nat)
    requires settings.naming.kind == Original
    requires base != [] && ext1 != [] && ext2 != []
    requires forall k | 0 <= k < |base| :: base[k] != '/'
    requires forall k | 0 <= k < |ext1| :: ext1[k] != '.' && ext1[k] != '/'
    requires forall k | 0 <= k < |ext2| :: ext2[k] != '.' && ext2[k] != '/'
    ensures OutputFilename(base + "." + ext1, settings, i) == OutputFilename(base + "." + ext2, settings, j)
  {
    ParseNameOfJoined(base, ext1);
    ParseNameOfJoined(base, ext2);
  }

  /** Under original naming the output name is the upload's name without directory and
      extension, a dot, and the extension of the format it is converted to. */
  lemma OutputFilenameOriginal(originalName: string, settings: Settings, index: nat)
    requires settings.naming.kind == Original
    ensures OutputFilename(originalName, settings, index) == ParseName(originalName) + "." + FormatExtension(settings.format)
  {
  }

  /** So an upload "base.ext" is converted to "base." followed by the format's extension. */
  lemma OriginalJoinedName(base: string, ext: string, settings: Settings, index: nat)
    requires settings.naming.kind == Original
    requires base != [] && ext != []
    requires forall k | 0 <= k < |base| :: base[k] != '/'
    requires forall k | 0 <= k < |ext| :: ext[k] != '.' && ext[k] != '/'
    ensures OutputFilename(base + "." + ext, settings, index) == base + "." + FormatExtension(settings.format)
  {
    ParseNameOfJoined(base, ext);
  }

  /** The worked example: prefix img, start 5, third file, webp. */
  lemma NumberedExample(settings: Settings)
    requires settings.naming == Naming(Numbered, "img", 5) && settings.format == Webp
    ensures OutputFilename("photo.png", settings, 2) == "img007.webp"
  {
    assert IntToString(7) == "7";
  }

  // ---------------------------------------------------------------- resize

  /** Pixel dimensions reported by the image library. */
  datatype Dims = Dims(width: nat, height: nat)

  datatype ResizeStep = KeepSize | ResizeTo(width: int, height: int, fit: Fit, withoutEnlargement: bool)

  /** `applyResize`: an image that already fits the box under `inside` is left alone; any
      other image is resized to the box with the requested fit, never enlarged under `inside`. */
  function ResizeDecision(resize: Resize, meta: Dims): (step: ResizeStep)
    ensures step.KeepSize? <==> resize.fit == Inside && meta.width <= resize.width && meta.height <= resize.height
    ensures step.ResizeTo? ==> step.width == resize.width && step.height == resize.height && step.fit == resize.fit
    ensures step.ResizeTo? ==> (step.withoutEnlargement <==> resize.fit == Inside)
  {
    if resize.fit == Inside && meta.width <= resize.width && meta.height <= resize.height then KeepSize
    else ResizeTo(resize.width, resize.height, resize.fit, resize.fit == Inside)
  }

  // ---------------------------------------------------------------- watermark

  /** `getGravityFromPosition`: the nine anchor names map to themselves, anything else to
      southeast. */
  function GravityFromPosition(position: string): (g: string)
    ensures PositionOf(g).Some?
    ensures PositionOf(position).Some? ==> g == position
    ensures PositionOf(position).None? ==> g == "southeast"
  {
    if PositionOf(position).Some? then position else "southeast"
  }

  datatype MarkStep =
    | Unchanged
    | TextOverlay(text: string, font: Option<string>, position: Option<Position>)
    | ImageOverlay(imagePath: string, position: Option<Position>)

  /** `applyWatermark`: text only for kind text with a non-empty text, an image only for kind
      image with a non-empty path; otherwise the image is returned as it is. */
  function WatermarkDispatch(w: Watermark): (step: MarkStep)
    ensures step.TextOverlay? <==> w.kind == MarkText && w.text.Some? && w.text.value != ""
    ensures step.ImageOverlay? <==> w.kind == MarkImage && w.imagePath.Some? && w.imagePath.value != ""
    ensures step.TextOverlay? ==> step.text == w.text.value && step.font == w.font && step.position == w.position
    ensures step.ImageOverlay? ==> step.imagePath == w.imagePath.value && step.position == w.position
  {
    if w.kind == MarkText && w.text.Some? && w.text.value != "" then TextOverlay(w.text.value, w.font, w.position)
    else if w.kind == MarkImage && w.imagePath.Some? && w.imagePath.value != "" then ImageOverlay(w.imagePath.value, w.position)
    else Unchanged
  }

  /** Because sanitising drops the image path, no sanitised watermark ever reaches the image
      branch, whatever the client sent. */
  lemma SanitizedImageWatermarkNeverApplies(raw: Option<RawWatermark>)
    ensures !WatermarkDispatch(ValidateWatermark(raw)).ImageOverlay?
  {
  }

  /** The anchor a text watermark is placed at; an absent position means center. */
  function TextGravity(position: Option<Position>): string {
    GravityFromPosition(if position.Some? then PositionName(position.value) else "center")
  }

  /** The anchor an image watermark is placed at; an absent position means southeast. */
  function ImageGravity(position: Option<Position>): string {
    GravityFromPosition(if position.Some? then PositionName(position.value) else "southeast")
  }

  /** `Math.floor(side * 0.5)` for both sides of the base image: the box a watermark is shrunk
      into, and only when it is wider or taller than the base itself. */
  function WatermarkBox(mark: Dims, base: Dims): (box: Option<Dims>)
    ensures box.Some? <==> mark.width > base.width || mark.height > base.height
    ensures box.Some? ==> 2 * box.value.width <= base.width < 2 * box.value.width + 2
    ensures box.Some? ==> 2 * box.value.height <= base.height < 2 * box.value.height + 2
  {
    if mark.width > base.width || mark.height > base.height then Some(Dims(base.width / 2, base.height / 2))
    else None
  }

  datatype ImageMarkPlan = SkipMark | Composite(shrinkTo: Option<Dims>, gravity: string)

  /** `applyImageWatermark`: a missing watermark file leaves the image unchanged; otherwise the
      watermark, shrunk when too large, is composited at its anchor. */
  function ImageMarkDecision(imagePath: string, fileExists: bool, position: Option<Position>,
                             mark: Dims, base: Dims): (plan: ImageMarkPlan)
    ensures plan.SkipMark? <==> imagePath == "" || !fileExists
    ensures plan.Composite? ==> plan.shrinkTo == WatermarkBox(mark, base) && PositionOf(plan.gravity).Some?
  {
    if imagePath == "" || !fileExists then SkipMark else Composite(WatermarkBox(mark, base), ImageGravity(position))
  }

  /** The entity each of `< > & " '` is written as inside the SVG text. */
  function EscapeChar(c: char): string {
    if c == '<' then "&lt;"
    else if c == '>' then "&gt;"
    else if c == '&' then "&amp;"
    else if c == '"' then "&quot;"
    else if c == '\'' then "&#39;"
    else [c]
  }

  /** `text.replace(/[<>&"']/g, ...)` in `applyTextWatermark`. */
  function EscapeSvgText(s: string): (r: string)
    ensures forall i | 0 <= i < |r| :: r[i] != '<' && r[i] != '>' && r[i] != '"' && r[i] != '\''
  {
    if s == [] then [] else EscapeChar(s[0]) + EscapeSvgText(s[1..])
  }

  /** Reads the five entities back into their characters. */
  function UnescapeSvgText(s: string): string
    decreases |s|
  {
    if s == [] then []
    else if s[0] != '&' then [s[0]] + UnescapeSvgText(s[1..])
    else if StartsWith(s, "&lt;") then "<" + UnescapeSvgText(s[4..])
    else if StartsWith(s, "&gt;") then ">" + UnescapeSvgText(s[4..])
    else if StartsWith(s, "&amp;") then "&" + UnescapeSvgText(s[5..])
    else if StartsWith(s, "&quot;") then "\"" + UnescapeSvgText(s[6..])
    else if StartsWith(s, "&#39;") then "'" + UnescapeSvgText(s[5..])
    else [s[0]] + UnescapeSvgText(s[1..])
  }

  /** Unescaping reads one escaped character back and goes on with the rest. */
  lemma UnescapeStep(c: char, rest: string)
    ensures UnescapeSvgText(EscapeChar(c) + rest) == [c] + UnescapeSvgText(rest)
  {
    var t := EscapeChar(c) + rest;
    if c == '<' {
      assert t[..4] == "&lt;" && t[4..] == rest;
    } else if c == '>' {
      assert t[..4][1] == 'g';
      assert t[..4] == "&gt;" && t[4..] == rest;
    } else if c == '&' {
      UnescapeAmp(rest);
    } else if c == '"' {
      UnescapeQuot(rest);
    } else if c == '\'' {
      UnescapeApos(rest);
    } else {
      assert t[0] == c && t[1..] == rest;
    }
  }

  lemma UnescapeAmp(rest: string)
    ensures UnescapeSvgText("&amp;" + rest) == "&" + UnescapeSvgText(rest)
  {
    var t := "&amp;" + rest;
    assert t[..4][1] == 'a';
    assert t[..5] == "&amp;" && t[5..] == rest;
  }

  lemma UnescapeQuot(rest: string)
    ensures UnescapeSvgText("&quot;" + rest) == "\"" + UnescapeSvgText(rest)
  {
    var t := "&quot;" + rest;
    assert t[..4][1] == 'q' && t[..5][1] == 'q';
    assert t[..6] == "&quot;" && t[6..] == rest;
  }

  lemma UnescapeApos(rest: string)
    ensures UnescapeSvgText("&#39;" + rest) == "'" + UnescapeSvgText(rest)
  {
    var t := "&#39;" + rest;
    assert t[..4][1] == '#' && t[..5][1] == '#';
    assert |t| < 6 || t[..6][1] == '#';
    assert t[..5] == "&#39;" && t[5..] == rest;
  }

  /** Escaping loses nothing: the original text is read back from the escaped one. */
  lemma {:induction false} EscapeRoundTrip(s: string)
    ensures UnescapeSvgText(EscapeSvgText(s)) == s
  {
    if s != [] {
      UnescapeStep(s[0], EscapeSvgText(s[1..]));
      EscapeRoundTrip(s[1..]);
      assert s == [s[0]] + s[1..];
    }
  }

  // ---------------------------------------------------------------- encode

  datatype Encoder =
    | WebpEncoder(quality: int, effort: int, smartSubsample: bool)
    | JpegEncoder(quality: int, progressive: bool, mozjpeg: bool)
    | PngEncoder(compressionLevel: int, progressive: bool)
    | AvifEncoder(quality: int, effort: int)
    | TiffEncoder(quality: int, compression: string)
    | PlainWebpEncoder(quality: int)

  /** `applyFormat`: the encoder and its options for a format name (in any letter case). */
  function EncoderFor(format: string, quality: int): (e: Encoder)
    ensures e.PngEncoder? ==> e.compressionLevel == RoundDiv(100 - quality, 10)
    ensures e.PngEncoder? && 1 <= quality <= 100 ==> 0 <= e.compressionLevel <= 10
    ensures !e.PngEncoder? ==> e.quality == quality
  {
    var f := ToLower(format);
    if f == "webp" then WebpEncoder(quality, 4, true)
    else if f == "jpeg" || f == "jpg" then JpegEncoder(quality, true, true)
    else if f == "png" then
      var level := RoundDiv(100 - quality, 10);
      assert 1 <= quality <= 100 ==> 0 <= level <= 10 by {
        if 1 <= quality <= 100 {
          if level < 0 {
            MulMonotone(10, 2 * level + 1, -1);
          } else if level > 10 {
            MulMonotone(10, 21, 2 * level - 1);
          }
        }
      }
      PngEncoder(level, true)
    else if f == "avif" then AvifEncoder(quality, 4)
    else if f == "tiff" then TiffEncoder(quality, "lzw")
    else PlainWebpEncoder(quality)
  }

  /** The container format an encoder writes, as a file extension. */
  function EncoderExtension(e: Encoder): string {
    match e
    case WebpEncoder(_, _, _) => "webp"
    case JpegEncoder(_, _, _) => "jpg"
    case PngEncoder(_, _) => "png"
    case AvifEncoder(_, _) => "avif"
    case TiffEncoder(_, _) => "tiff"
    case PlainWebpEncoder(_) => "webp"
  }

  /** Every output file is encoded in the format its extension names, for any format string. */
  lemma EncoderMatchesExtension(format: string, quality: int)
    ensures EncoderExtension(EncoderFor(format, quality)) == FileExtension(format)
  {
  }

  // ---------------------------------------------------------------- one image

  datatype Step = ResizeImage(resize: ResizeStep) | Watermarking(mark: MarkStep) | EncodeImage(encoder: Encoder)

  /** The steps `processImage` hands to the image library, in order: the resize unless it is
      skipped, the watermark when one applies, and always the encode. */
  function TransformSteps(settings: Settings, meta: Dims): (steps: seq<Step>)
    ensures var resizes := !ResizeDecision(settings.resize, meta).KeepSize?;
            var marks := !WatermarkDispatch(settings.watermark).Unchanged?;
            && |steps| == 1 + (if resizes then 1 else 0) + (if marks then 1 else 0)
            && (resizes ==> steps[0] == ResizeImage(ResizeDecision(settings.resize, meta)))
            && (marks ==> steps[|steps| - 2] == Watermarking(WatermarkDispatch(settings.watermark)))
            && steps[|steps| - 1] == EncodeImage(EncoderFor(FormatName(settings.format), settings.quality))
  {
    var resize := ResizeDecision(settings.resize, meta);
    var mark := WatermarkDispatch(settings.watermark);
    (if resize.KeepSize? then [] else [ResizeImage(resize)])
    + (if settings.watermark.kind == MarkNone || mark.Unchanged? then [] else [Watermarking(mark)])
    + [EncodeImage(EncoderFor(FormatName(settings.format), settings.quality))]
  }

  /** Sizes and dimensions of one processed image. */
  datatype Metrics = Metrics(originalSize: nat, processedSize: nat, width: nat, height: nat)

  /** What the image library makes of one file: the input's metadata and the sizes of input and
      output, or the message of the error it threw. */
  datatype SharpRun = Rendered(meta: Dims, inputSize: nat, outputSize: nat) | SharpFailed(message: string)

  /** `processImage`: the metrics of a rendered image (dimensions are the input's), or its
      error wrapped in "Failed to process image: ". */
  function ProcessImage(run: SharpRun): (r: Result<Metrics>)
    ensures r.Ok? <==> run.Rendered?
    ensures r.Ok? ==> r.value == Metrics(run.inputSize, run.outputSize, run.meta.width, run.meta.height)
    ensures r.Err? ==> r.message == "Failed to process image: " + run.message
  {
    match run
    case Rendered(meta, inSize, outSize) => Ok(Metrics(inSize, outSize, meta.width, meta.height))
    case SharpFailed(msg) => Err("Failed to process image: " + msg)
  }

  // ---------------------------------------------------------------- the batch

  /** One line of the results of a batch. */
  datatype FileResult =
    | Succeeded(originalSize: nat, processedSize: nat, width: nat, height: nat,
                originalName: string, outputName: string, outputPath: string)
    | FailedFile(error: string, originalName: string, outputName: string)

  /** What the progress callback receives after a file succeeds; speed and eta are left out. */
  datatype Snapshot = Snapshot(processed: nat, total: nat)

  /** `path.join(path.dirname(file.path), '..', 'processed', name)`, without the collapsing of
      `..` that `path.join` performs. */
  function OutputPath(inputPath: string, name: string): (p: string)
    ensures var tail := "/../processed/" + name; |p| >= |tail| && p[|p| - |tail|..] == tail
  {
    var slash := LastIndexOf(inputPath, '/');
    (if slash < 0 then "." else inputPath[..slash]) + "/../processed/" + name
  }

  /** Where the output of a file goes: its name and its path. */
  datatype Target = Target(name: string, path: Path)

  /** The target of file number `index`: `generateOutputFilename`, then that name in the
      processed directory beside the upload's. */
  function TargetFor(file: UploadedFile, settings: Settings, index: nat): (t: Target)
    ensures t.path == OutputPath(file.path, t.name)
  {
    var name := OutputFilename(file.originalName, settings, index);
    Target(name, OutputPath(file.path, name))
  }

  /** The result line of `file` when its output goes to `target`: the metrics and the output
      path when the image rendered, the error otherwise. */
  function Line(file: UploadedFile, target: Target, run: SharpRun): (r: FileResult)
    ensures r.Succeeded? <==> run.Rendered?
  {
    match ProcessImage(run)
    case Ok(m) => Succeeded(m.originalSize, m.processedSize, m.width, m.height, file.originalName, target.name, target.path)
    case Err(msg) => FailedFile(msg, file.originalName, target.name)
  }

  /** The result line for file number `index`. */
  function ResultFor(file: UploadedFile, settings: Settings, index: nat, run: SharpRun): (r: FileResult)
    ensures r.Succeeded? <==> run.Rendered?
  {
    Line(file, TargetFor(file, settings, index), run)
  }

  /** The output targets of a batch, each file's at its index. */
  function Targets(files: seq<UploadedFile>, settings: Settings): (targets: seq<Target>)
    ensures |targets| == |files|
  {
    seq(|files|, i requires 0 <= i < |files| => TargetFor(files[i], settings, i))
  }

  /** The result lines of the first `n` files, file `i` having output target `targets[i]`. */
  function BatchResults(files: seq<UploadedFile>, targets: seq<Target>, runs: seq<SharpRun>, n: nat): seq<FileResult>
    requires n <= |files| == |targets| == |runs|
  {
    if n == 0 then [] else BatchResults(files, targets, runs, n - 1) + [Line(files[n - 1], targets[n - 1], runs[n - 1])]
  }

  /** Line `i` of the results is the line of file `i`. */
  lemma {:induction false} BatchResultsAt(files: seq<UploadedFile>, targets: seq<Target>, runs: seq<SharpRun>, n: nat)
    requires n <= |files| == |targets| == |runs|
    ensures |BatchResults(files, targets, runs, n)| == n
    ensures forall i | 0 <= i < n :: BatchResults(files, targets, runs, n)[i] == Line(files[i], targets[i], runs[i])
  {
    if n > 0 {
      BatchResultsAt(files, targets, runs, n - 1);
      var prev := BatchResults(files, targets, runs, n - 1);
      var last := Line(files[n - 1], targets[n - 1], runs[n - 1]);
      var all := BatchResults(files, targets, runs, n);
      assert all == prev + [last];
      forall i | 0 <= i < n
        ensures all[i] == Line(files[i], targets[i], runs[i])
      {
        if i < n - 1 {
          assert all[i] == prev[i];
        }
      }
    }
  }

  /** The result lines of a whole batch. */
  function Batch(files: seq<UploadedFile>, settings: Settings, runs: seq<SharpRun>): seq<FileResult>
    requires |runs| == |files|
  {
    BatchResults(files, Targets(files, settings), runs, |files|)
  }

  /** Line `i` of a batch is the result of file `i` at index `i`. */
  lemma BatchAt(files: seq<UploadedFile>, settings: Settings, runs: seq<SharpRun>)
    requires |runs| == |files|
    ensures |Batch(files, settings, runs)| == |files|
    ensures forall i | 0 <= i < |files| :: Batch(files, settings, runs)[i] == ResultFor(files[i], settings, i, runs[i])
  {
    var targets := Targets(files, settings);
    BatchResultsAt(files, targets, runs, |files|);
    forall i | 0 <= i < |files|
      ensures Batch(files, settings, runs)[i] == ResultFor(files[i], settings, i, runs[i])
    {
      assert targets[i] == TargetFor(files[i], settings, i);
    }
  }

  /** The snapshots reported while the first `n` files of a batch end as `runs` says: one
      after every rendered file, numbered by its position. */
  function SuccessReports(runs: seq<SharpRun>, n: nat, total: nat): (reports: seq<Snapshot>)
    requires n <= |runs|
    ensures forall k | 0 <= k < |reports| :: reports[k].total == total && 1 <= reports[k].processed <= n
  {
    if n == 0 then []
    else SuccessReports(runs, n - 1, total) + (if runs[n - 1].Rendered? then [Snapshot(n, total)] else [])
  }

  /** The number of rendered files among the first `n`. */
  function RenderedCount(runs: seq<SharpRun>, n: nat): nat
    requires n <= |runs|
  {
    if n == 0 then 0 else RenderedCount(runs, n - 1) + (if runs[n - 1].Rendered? then 1 else 0)
  }

  /** The reports of a batch: one per rendered file, each naming a rendered file by its
      position, strictly increasing. */
  lemma {:induction false} SuccessReportsShape(runs: seq<SharpRun>, n: nat, total: nat)
    requires n <= |runs|
    ensures var reports := SuccessReports(runs, n, total);
            && |reports| == RenderedCount(runs, n)
            && (forall k | 0 <= k < |reports| ::
                  1 <= reports[k].processed <= n && reports[k].total == total
                  && runs[reports[k].processed - 1].Rendered?)
            && (forall k, l | 0 <= k < l < |reports| :: reports[k].processed < reports[l].processed)
  {
    if n > 0 {
      SuccessReportsShape(runs, n - 1, total);
    }
  }

  /** Some line of `results` succeeded with its output at `p`. */
  ghost predicate WritesTo(results: seq<FileResult>, p: Path) {
    exists i | 0 <= i < |results| :: results[i].Succeeded? && results[i].outputPath == p
  }

  /** The file sizes once the output of one line is written over `files`: a succeeded line
      puts its processed size at its output path, a failed one writes nothing. */
  function WriteOutput(files: map<Path, nat>, r: FileResult): map<Path, nat> {
    if r.Succeeded? then files[r.outputPath := r.processedSize] else files
  }

  /** The archives that survive the output of one line: one at its output path is overwritten. */
  function DropOutput(archives: map<Path, seq<ZipEntry>>, r: FileResult): map<Path, seq<ZipEntry>> {
    if r.Succeeded? then archives - {r.outputPath} else archives
  }

  /** The file sizes once the outputs of `results` are written in order over `files`. */
  function Written(files: map<Path, nat>, results: seq<FileResult>): (m: map<Path, nat>)
    ensures forall p | p in files :: p in m
  {
    if results == [] then files
    else WriteOutput(Written(files, results[..|results| - 1]), results[|results| - 1])
  }

  /** The output paths of the succeeded lines. */
  function WrittenPaths(results: seq<FileResult>): set<Path> {
    if results == [] then {}
    else
      var last := results[|results| - 1];
      WrittenPaths(results[..|results| - 1]) + (if last.Succeeded? then {last.outputPath} else {})
  }

  /** A line writes `p` when the last one does or one before it does. */
  lemma WritesToSnoc(results: seq<FileResult>, p: Path)
    requires results != []
    ensures var last := results[|results| - 1];
            WritesTo(results, p) <==> WritesTo(results[..|results| - 1], p) || (last.Succeeded? && last.outputPath == p)
  {
    var prefix := results[..|results| - 1];
    if WritesTo(prefix, p) {
      var i :| 0 <= i < |prefix| && prefix[i].Succeeded? && prefix[i].outputPath == p;
      assert results[i] == prefix[i];
    }
    if WritesTo(results, p) {
      var i :| 0 <= i < |results| && results[i].Succeeded? && results[i].outputPath == p;
      if i < |prefix| {
        assert results[i] == prefix[i];
      }
    }
  }

  /** After the writes, a path exists exactly when it existed before or some succeeded line
      wrote it; a path no line wrote keeps its size, and the size at a path is that of the
      last line that wrote it. */
  lemma {:induction false} WrittenHas(files: map<Path, nat>, results: seq<FileResult>)
    ensures forall p :: p in Written(files, results) <==> p in files || WritesTo(results, p)
    ensures forall p | p in files && !WritesTo(results, p) :: Written(files, results)[p] == files[p]
    ensures forall i | 0 <= i < |results| && results[i].Succeeded? :: results[i].outputPath in Written(files, results)
    ensures forall i | 0 <= i < |results| && results[i].Succeeded? &&
                       (forall j | i < j < |results| :: !(results[j].Succeeded? && results[j].outputPath == results[i].outputPath)) ::
              Written(files, results)[results[i].outputPath] == results[i].processedSize
  {
    if results != [] {
      var n := |results|;
      var prefix := results[..n - 1];
      WrittenHas(files, prefix);
      forall p {
        WritesToSnoc(results, p);
      }
      forall i | 0 <= i < n && results[i].Succeeded?
        ensures results[i].outputPath in Written(files, results)
      {
        if i < n - 1 {
          assert prefix[i] == results[i];
        }
      }
      forall i | 0 <= i < n && results[i].Succeeded? &&
                 (forall j | i < j < n :: !(results[j].Succeeded? && results[j].outputPath == results[i].outputPath))
        ensures Written(files, results)[results[i].outputPath] == results[i].processedSize
      {
        if i < n - 1 {
          assert prefix[i] == results[i];
          assert forall j | i < j < n - 1 :: prefix[j] == results[j];
        }
      }
    }
  }

  /** One more line writes its output over the earlier writes. */
  lemma WrittenSnoc(files: map<Path, nat>, results: seq<FileResult>, r: FileResult)
    ensures Written(files, results + [r]) == WriteOutput(Written(files, results), r)
  {
    assert (results + [r])[..|results|] == results;
  }

  /** One more line adds its output path when it succeeded. */
  lemma WrittenPathsSnoc(results: seq<FileResult>, r: FileResult)
    ensures WrittenPaths(results + [r]) == WrittenPaths(results) + (if r.Succeeded? then {r.outputPath} else {})
  {
    assert (results + [r])[..|results|] == results;
  }

  /** The written paths are exactly the output paths of the succeeded lines. */
  lemma {:induction false} WrittenPathsHas(results: seq<FileResult>)
    ensures forall p :: p in WrittenPaths(results) <==> WritesTo(results, p)
  {
    if results != [] {
      WrittenPathsHas(results[..|results| - 1]);
      forall p {
        WritesToSnoc(results, p);
      }
    }
  }

  /** `processImage` on `file` with its output at `target`, writing the output when the
      image library renders it. */
  method ProcessOne(file: UploadedFile, target: Target, run: SharpRun, disk: Disk)
    returns (result: FileResult)
    modifies disk
    ensures result == Line(file, target, run)
    ensures disk.files == WriteOutput(old(disk.files), result)
    ensures disk.archives == DropOutput(old(disk.archives), result)
  {
    result := Line(file, target, run);
    if result.Succeeded? {
      disk.WriteFile(result.outputPath, result.processedSize);
    }
  }

  /** The file sizes once the first `n` files of a batch are processed over `files0`. */
  function BatchWrites(files0: map<Path, nat>, files: seq<UploadedFile>, targets: seq<Target>, runs: seq<SharpRun>, n: nat): map<Path, nat>
    requires n <= |files| == |targets| == |runs|
  {
    if n == 0 then files0
    else WriteOutput(BatchWrites(files0, files, targets, runs, n - 1), Line(files[n - 1], targets[n - 1], runs[n - 1]))
  }

  /** The archives that survive the first `n` files of a batch. */
  function BatchDrops(archives0: map<Path, seq<ZipEntry>>, files: seq<UploadedFile>, targets: seq<Target>, runs: seq<SharpRun>, n: nat): map<Path, seq<ZipEntry>>
    requires n <= |files| == |targets| == |runs|
  {
    if n == 0 then archives0
    else DropOutput(BatchDrops(archives0, files, targets, runs, n - 1), Line(files[n - 1], targets[n - 1], runs[n - 1]))
  }

  /** Processing the first `n` files writes what writing the outputs of their lines does. */
  lemma {:induction false} BatchWritesAre(files0: map<Path, nat>, archives0: map<Path, seq<ZipEntry>>,
                                           files: seq<UploadedFile>, targets: seq<Target>, runs: seq<SharpRun>, n: nat)
    requires n <= |files| == |targets| == |runs|
    ensures BatchWrites(files0, files, targets, runs, n) == Written(files0, BatchResults(files, targets, runs, n))
    ensures BatchDrops(archives0, files, targets, runs, n) == archives0 - WrittenPaths(BatchResults(files, targets, runs, n))
  {
    if n > 0 {
      BatchWritesAre(files0, archives0, files, targets, runs, n - 1);
      var prev := BatchResults(files, targets, runs, n - 1);
      var r := Line(files[n - 1], targets[n - 1], runs[n - 1]);
      WrittenSnoc(files0, prev, r);
      WrittenPathsSnoc(prev, r);
    }
  }

  /** `batchProcess`: processes the files in order, one result per file at its index; a failing
      file becomes a failure line and the loop goes on; the progress sink receives exactly the
      snapshots of `SuccessReports`, so `processed` strictly increases and never exceeds the
      number of files. `runs[i]` is what the image library does with file `i`. */
  method BatchProcess(files: seq<UploadedFile>, settings: Settings, runs: seq<SharpRun>, disk: Disk)
    returns (results: seq<FileResult>, reports: seq<Snapshot>)
    requires |runs| == |files|
    modifies disk
    ensures results == Batch(files, settings, runs)
    ensures |results| == |files|
    ensures disk.files == Written(old(disk.files), results)
    ensures disk.archives == old(disk.archives) - WrittenPaths(results)
    ensures forall i | 0 <= i < |files| :: results[i] == ResultFor(files[i], settings, i, runs[i])
    ensures reports == SuccessReports(runs, |files|, |files|)
    ensures forall k | 0 <= k < |reports| ::
              1 <= reports[k].processed <= |files| && reports[k].total == |files|
              && results[reports[k].processed - 1].Succeeded?
    ensures forall k, l | 0 <= k < l < |reports| :: reports[k].processed < reports[l].processed
  {
    results, reports := ProcessFiles(files, Targets(files, settings), runs, disk);
    BatchWritesAre(old(disk.files), old(disk.archives), files, Targets(files, settings), runs, |files|);
    BatchShape(files, Targets(files, settings), runs);
    assert forall k | 0 <= k < |reports| ::
             1 <= reports[k].processed <= |files| && reports[k].total == |files|
             && results[reports[k].processed - 1].Succeeded?;
    assert forall k, l | 0 <= k < l < |reports| :: reports[k].processed < reports[l].processed;
    BatchAt(files, settings, runs);
  }

  /** The loop of `batchProcess`: file `i` goes to its target, through `processImage`, and a
      rendered file reports its position. */
  method ProcessFiles(files: seq<UploadedFile>, targets: seq<Target>, runs: seq<SharpRun>, disk: Disk)
    returns (results: seq<FileResult>, reports: seq<Snapshot>)
    requires |files| == |targets| == |runs|
    modifies disk
    ensures results == BatchResults(files, targets, runs, |files|)
    ensures reports == SuccessReports(runs, |files|, |files|)
    ensures disk.files == BatchWrites(old(disk.files), files, targets, runs, |files|)
    ensures disk.archives == BatchDrops(old(disk.archives), files, targets, runs, |files|)
  {
    results := [];
    reports := [];
    for i := 0 to |files|
      invariant results == BatchResults(files, targets, runs, i)
      invariant reports == SuccessReports(runs, i, |files|)
      invariant disk.files == BatchWrites(old(disk.files), files, targets, runs, i)
      invariant disk.archives == BatchDrops(old(disk.archives), files, targets, runs, i)
    {
      results, reports := ProcessNext(files, targets, runs, i, results, reports, disk);
    }
  }

  /** One turn of `batchProcess`'s loop: the next file's line, its progress report when it
      succeeds, and its output on the disk. */
  method ProcessNext(files: seq<UploadedFile>, targets: seq<Target>, runs: seq<SharpRun>, i: nat,
                     results: seq<FileResult>, reports: seq<Snapshot>, disk: Disk)
    returns (results': seq<FileResult>, reports': seq<Snapshot>)
    requires i < |files| == |targets| == |runs|
    requires results == BatchResults(files, targets, runs, i)
    requires reports == SuccessReports(runs, i, |files|)
    modifies disk
    ensures results' == BatchResults(files, targets, runs, i + 1)
    ensures reports' == SuccessReports(runs, i + 1, |files|)
    ensures disk.files == WriteOutput(old(disk.files), Line(files[i], targets[i], runs[i]))
    ensures disk.archives == DropOutput(old(disk.archives), Line(files[i], targets[i], runs[i]))
  {
    var result := ProcessOne(files[i], targets[i], runs[i], disk);
    results' := results + [result];
    reports' := reports;
    if result.Succeeded? {
      reports' := reports + [Snapshot(i + 1, |files|)];
    }
  }

  /** The lines of a whole batch line up with its files, and every report names a succeeded
      line, in increasing order. */
  lemma BatchShape(files: seq<UploadedFile>, targets: seq<Target>, runs: seq<SharpRun>)
    requires |files| == |targets| == |runs|
    ensures var results := BatchResults(files, targets, runs, |files|);
            var reports := SuccessReports(runs, |files|, |files|);
            && |results| == |files|
            && (forall k | 0 <= k < |reports| ::
                  1 <= reports[k].processed <= |files| && reports[k].total == |files|
                  && results[reports[k].processed - 1].Succeeded?)
            && (forall k, l | 0 <= k < l < |reports| :: reports[k].processed < reports[l].processed)
  {
    var total := |files|;
    var results := BatchResults(files, targets, runs, total);
    var reports := SuccessReports(runs, total, total);
    BatchResultsAt(files, targets, runs, total);
    SuccessReportsShape(runs, total, total);
    forall k | 0 <= k < |reports|
      ensures results[reports[k].processed - 1].Succeeded?
    {
      var j := reports[k].processed - 1;
      assert 0 <= j < total && runs[j].Rendered?;
      assert results[j] == Line(files[j], targets[j], runs[j]);
    }
  }
}
