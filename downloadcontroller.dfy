/** The download side: serving a job's archive and single output files, describing, listing
    and deleting archives, and counting how often each archive was downloaded. */
module DownloadController {

  import opened Wrappers
  import opened Strings
  import opened Sorting
  import opened Seqs
  import opened FileSystem
  import opened FileValidation
  import opened ImageProcessor
  import opened ZipService

  /** A file sent as an attachment: where it is read from, the name offered to the browser, its
      content type and its length. */
  datatype Attachment = Attachment(path: Path, filename: string, contentType: string, size: nat)

  /** The answer of `getDownloadInfo`. */
  datatype DownloadInfo = DownloadInfo(jobId: string, filename: string, size: nat, downloadCount: nat,
                                       createdAt: int, downloadUrl: string)

  /** A name in the downloads directory with its size and birth time (what `fs.readdirSync`
      and `fs.statSync` report). */
  datatype DirEntry = DirEntry(name: string, size: nat, birthtime: int)

  /** One entry of `listDownloads`. */
  datatype DownloadItem = DownloadItem(jobId: string, filename: string, size: nat, createdAt: int,
                                       downloadCount: nat, downloadUrl: string)

  /** The name an archive is offered under. */
  function ArchiveFilename(jobId: string): string {
    "converted-images-" + jobId + ".zip"
  }

  function DownloadUrl(jobId: string): string {
    "/api/download/zip/" + jobId
  }

  /** Where single output files are served from. */
  function ProcessedPath(filename: string): Path {
    "temp/processed/" + filename
  }

  /** `downloadCounts.get(id) || 0`. */
  function Count(counts: map<string, nat>, id: string): nat {
    if id in counts then counts[id] else 0
  }

  /** The filename guard of `downloadSingle`: a name holding "..", "/" or "\\" is refused. */
  predicate Unsafe(filename: string)
    ensures !Unsafe(filename) ==> Basename(filename) == filename
    ensures !Unsafe(filename) ==> forall i | 0 <= i < |filename| :: filename[i] != '\\'
  {
    CharContained(filename, '/');
    CharContained(filename, '\\');
    Contains(filename, "..") || Contains(filename, "/") || Contains(filename, "\\")
  }

  /** The content type for a lowercased extension. */
  function ContentTypeOf(ext: string): (t: string)
    ensures t == "image/jpeg" <==> ext == ".jpg" || ext == ".jpeg"
    ensures t == "image/png" <==> ext == ".png"
    ensures t == "image/webp" <==> ext == ".webp"
    ensures t == "image/avif" <==> ext == ".avif"
    ensures t == "image/tiff" <==> ext == ".tiff"
    ensures t == "application/octet-stream" <==>
              !(ext == ".jpg" || ext == ".jpeg" || ext == ".png" || ext == ".webp" || ext == ".avif" || ext == ".tiff")
  {
    if ext == ".jpg" || ext == ".jpeg" then "image/jpeg"
    else if ext == ".png" then "image/png"
    else if ext == ".webp" then "image/webp"
    else if ext == ".avif" then "image/avif"
    else if ext == ".tiff" then "image/tiff"
    else "application/octet-stream"
  }

  /** The content type `downloadSingle` sends for `filename`, by its lowercased extension. */
  function ContentType(filename: string): (t: string)
    ensures t != "application/octet-stream" <==>
              ToLower(Extname(filename)) in {".jpg", ".jpeg", ".png", ".webp", ".avif", ".tiff"}
  {
    ContentTypeOf(ToLower(Extname(filename)))
  }

  /** The content type of the images a format produces. */
  function ImageType(f: Format): string {
    match f
    case Webp => "image/webp"
    case Jpeg => "image/jpeg"
    case Png => "image/png"
    case Avif => "image/avif"
    case Tiff => "image/tiff"
  }

  /** A numbered output name with a sanitised prefix passes the filename guard, and is served
      with the content type of the format it was converted to. */
  lemma NumberedOutputDownloadable(originalName: string, settings: Settings, index: nat)
    requires settings.naming.kind != Original && settings.naming.start >= 0
    requires AllPrefixChars(settings.naming.prefix)
    ensures !Unsafe(OutputFilename(originalName, settings, index))
    ensures ContentType(OutputFilename(originalName, settings, index)) == ImageType(settings.format)
  {
    var prefix, digits := settings.naming.prefix, NumberLabel(settings.naming.start + index);
    var ext := FormatExtension(settings.format);
    NumberedName(originalName, settings, index);
    NumberLabelValue(settings.naming.start + index);
    assert forall i | 0 <= i < |ext| :: 'a' <= ext[i] <= 'z';
    SafeJoinedName(prefix, digits, ext);
    OutputFilenameExtension(originalName, settings, index);
    OutputContentType(settings.format);
  }

  /** A name made of allowed prefix characters, digits, one dot and lower-case letters passes
      the filename guard. */
  lemma SafeJoinedName(prefix: string, digits: string, ext: string)
    requires AllPrefixChars(prefix) && AllDigits(digits)
    requires forall i | 0 <= i < |ext| :: 'a' <= ext[i] <= 'z'
    ensures !Unsafe(prefix + digits + "." + ext)
  {
    var name := prefix + digits + "." + ext;
    forall i | 0 <= i < |name|
      ensures name[i] != '/' && name[i] != '\\'
      ensures name[i] == '.' ==> i == |prefix| + |digits|
    {
      if i < |prefix| {
        assert name[i] == prefix[i];
      } else if i < |prefix| + |digits| {
        assert name[i] == digits[i - |prefix|];
      } else if i > |prefix| + |digits| {
        assert name[i] == ext[i - |prefix| - |digits| - 1];
      }
    }
    NotContainsChar(name, "/", 0);
    NotContainsChar(name, "\\", 0);
    NoDoubleDot(name);
  }

  /** The extension a format's files get is served as that format's image type. */
  lemma OutputContentType(f: Format)
    ensures ContentTypeOf(ToLower("." + FormatExtension(f))) == ImageType(f)
  {
    var ext := "." + FormatExtension(f);
    AlreadyLower(ext);
    match f
    case Webp => assert ext == ".webp";
    case Jpeg => assert ext == ".jpg";
    case Png => assert ext == ".png";
    case Avif => assert ext == ".avif";
    case Tiff => assert ext == ".tiff";
  }

  /** An original-name output whose base ends in a dot (the upload "photo..png" gives
      "photo..webp") holds "..", so it can never be downloaded on its own. */
  lemma OriginalBaseEndingInDot(originalName: string, settings: Settings, index: nat)
    requires settings.naming.kind == Original
    requires var base := ParseName(originalName); base != [] && base[|base| - 1] == '.'
    ensures Unsafe(OutputFilename(originalName, settings, index))
  {
    var base := ParseName(originalName);
    var ext := FormatExtension(settings.format);
    assert OutputFilename(originalName, settings, index) == base[..|base| - 1] + ".." + ext;
    ContainsInfix(base[..|base| - 1], "..", ext);
  }

  /** Such uploads exist: the base name of "a." + "." + "png" is "a.". */
  lemma DotEndingBaseExample()
    ensures var base := ParseName("a." + "." + "png"); base != [] && base[|base| - 1] == '.'
  {
    ParseNameOfJoined("a.", "png");
  }

  predicate IsZip(name: string) {
    Extname(name) == ".zip"
  }

  /** The listing item of a directory entry: the job id is the name without its extension,
      so an archive "id.zip" is listed as job "id". */
  function ItemFor(e: DirEntry, counts: map<string, nat>): (item: DownloadItem)
    ensures item.filename == e.name && item.size == e.size
    ensures IsZip(e.name) && Basename(e.name) == e.name ==> e.name == item.jobId + ".zip"
  {
    ParseNameSplits(e.name);
    var jobId := ParseName(e.name);
    DownloadItem(jobId, e.name, e.size, e.birthtime, Count(counts, jobId), DownloadUrl(jobId))
  }

  /** The items of the archives among the first `n` entries, in directory order. */
  function ZipItems(entries: seq<DirEntry>, n: nat, counts: map<string, nat>): seq<DownloadItem>
    requires n <= |entries|
  {
    FilterMap(entries, n, (e: DirEntry) => IsZip(e.name), (e: DirEntry) => ItemFor(e, counts))
  }

  /** One more entry adds its item exactly when it is an archive. */
  lemma ZipItemsStep(entries: seq<DirEntry>, i: nat, counts: map<string, nat>)
    requires i < |entries|
    ensures ZipItems(entries, i + 1, counts)
            == ZipItems(entries, i, counts) + (if IsZip(entries[i].name) then [ItemFor(entries[i], counts)] else [])
  {
  }

  /** What every listed item satisfies: an archive's name, the job id its base name gives, that
      job's count and link. */
  predicate ListedItem(x: DownloadItem, counts: map<string, nat>) {
    && IsZip(x.filename)
    && x.jobId == ParseName(x.filename)
    && x.downloadCount == Count(counts, x.jobId)
    && x.downloadUrl == DownloadUrl(x.jobId)
  }

  /** Every item is well formed. */
  lemma ZipItemsListed(entries: seq<DirEntry>, counts: map<string, nat>)
    ensures forall x | x in ZipItems(entries, |entries|, counts) :: ListedItem(x, counts)
  {
    var keep, item := (e: DirEntry) => IsZip(e.name), (e: DirEntry) => ItemFor(e, counts);
    forall i | 0 <= i < |entries| && keep(entries[i])
      ensures ListedItem(item(entries[i]), counts)
    {
    }
    FilterMapAll(entries, |entries|, keep, item, (x: DownloadItem) => ListedItem(x, counts));
  }

  /** So is every item of the sorted listing. */
  lemma SortedListed(entries: seq<DirEntry>, counts: map<string, nat>)
    ensures var l := SortDesc(ZipItems(entries, |entries|, counts), CreatedKey);
            forall k | 0 <= k < |l| :: ListedItem(l[k], counts)
  {
    var items := ZipItems(entries, |entries|, counts);
    var l := SortDesc(items, CreatedKey);
    ZipItemsListed(entries, counts);
    forall k | 0 <= k < |l|
      ensures ListedItem(l[k], counts)
    {
      assert l[k] in multiset(items);
    }
  }

  /** Entry `i` is an archive and `x` is its item. */
  predicate ItemAt(entries: seq<DirEntry>, i: nat, counts: map<string, nat>, x: DownloadItem)
    requires i < |entries|
  {
    IsZip(entries[i].name) && x == ItemFor(entries[i], counts)
  }

  function CreatedKey(d: DownloadItem): int {
    d.createdAt
  }

  class DownloadController {
    /** How often each job's archive was downloaded. */
    var downloadCounts: map<string, nat>
    const disk: Disk

    constructor (disk: Disk)
      ensures downloadCounts == map[] && this.disk == disk
    {
      downloadCounts := map[];
      this.disk := disk;
    }

    /** `downloadZip`: a missing archive is 404 and counts nothing; otherwise the archive is
        sent as "converted-images-<id>.zip" and its count goes up by exactly one. */
    method DownloadZip(jobId: string) returns (r: Reply<Attachment>)
      modifies this
      ensures ArchivePath(jobId) !in disk.files ==>
                r == Failure(404, "Download not found", "The requested download is no longer available")
                && downloadCounts == old(downloadCounts)
      ensures ArchivePath(jobId) in disk.files ==>
                && r == Success(Attachment(ArchivePath(jobId), ArchiveFilename(jobId), "application/zip", disk.files[ArchivePath(jobId)]))
                && downloadCounts == old(downloadCounts)[jobId := Count(old(downloadCounts), jobId) + 1]
    {
      var zipPath := ArchivePath(jobId);
      var present := disk.Exists(zipPath);
      if !present {
        return Failure(404, "Download not found", "The requested download is no longer available");
      }
      var size := disk.files[zipPath];
      var current := if jobId in downloadCounts then downloadCounts[jobId] else 0;
      downloadCounts := downloadCounts[jobId := current + 1];
      r := Success(Attachment(zipPath, ArchiveFilename(jobId), "application/zip", size));
    }

    /** `downloadSingle`: an unsafe name is 400 before any lookup, a missing file 404;
        otherwise the file is sent with the content type of its extension. */
    method DownloadSingle(filename: string) returns (r: Reply<Attachment>)
      ensures Unsafe(filename) ==> r == Failure(400, "Invalid filename", "Filename contains invalid characters")
      ensures !Unsafe(filename) && ProcessedPath(filename) !in disk.files ==>
                r == Failure(404, "File not found", "The requested file is no longer available")
      ensures !Unsafe(filename) && ProcessedPath(filename) in disk.files ==>
                r == Success(Attachment(ProcessedPath(filename), filename, ContentType(filename), disk.files[ProcessedPath(filename)]))
    {
      if Contains(filename, "..") || Contains(filename, "/") || Contains(filename, "\\") {
        return Failure(400, "Invalid filename", "Filename contains invalid characters");
      }
      var filePath := ProcessedPath(filename);
      var present := disk.Exists(filePath);
      if !present {
        return Failure(404, "File not found", "The requested file is no longer available");
      }
      var ext := ToLower(Extname(filename));
      r := Success(Attachment(filePath, filename, ContentTypeOf(ext), disk.files[filePath]));
    }

    /** `getDownloadInfo`, with the archive's birth time as `createdAt`: 404 for a missing
        archive, else its name, size, download count and link. */
    method GetDownloadInfo(jobId: string, createdAt: int) returns (r: Reply<DownloadInfo>)
      ensures ArchivePath(jobId) !in disk.files ==>
                r == Failure(404, "Download not found", "The requested download is no longer available")
      ensures ArchivePath(jobId) in disk.files ==>
                r == Success(DownloadInfo(jobId, ArchiveFilename(jobId), disk.files[ArchivePath(jobId)],
                                          Count(downloadCounts, jobId), createdAt, DownloadUrl(jobId)))
    {
      var zipPath := ArchivePath(jobId);
      var present := disk.Exists(zipPath);
      if !present {
        return Failure(404, "Download not found", "The requested download is no longer available");
      }
      var count := if jobId in downloadCounts then downloadCounts[jobId] else 0;
      r := Success(DownloadInfo(jobId, ArchiveFilename(jobId), disk.files[zipPath], count, createdAt, DownloadUrl(jobId)));
    }

    /** `listDownloads` over the downloads directory's entries (None when the directory does
        not exist): one item per ".zip" entry, named after the entry's base name, with its
        count, newest first. */
    method ListDownloads(listing: Option<seq<DirEntry>>) returns (downloads: seq<DownloadItem>)
      ensures listing.None? ==> downloads == []
      ensures listing.Some? ==> downloads == SortDesc(ZipItems(listing.value, |listing.value|, downloadCounts), CreatedKey)
      ensures SortedDesc(downloads, CreatedKey)
      ensures forall k | 0 <= k < |downloads| :: ListedItem(downloads[k], downloadCounts)
    {
      if listing.None? {
        return [];
      }
      var files := listing.value;
      var found: seq<DownloadItem> := [];
      var i := 0;
      while i < |files|
        invariant 0 <= i <= |files|
        invariant found == ZipItems(files, i, downloadCounts)
      {
        var file := files[i];
        ZipItemsStep(files, i, downloadCounts);
        if IsZip(file.name) {
          found := found + [ItemFor(file, downloadCounts)];
        }
        i := i + 1;
      }
      downloads := SortDesc(found, CreatedKey);
      SortedListed(files, downloadCounts);
    }

    /** `deleteDownload`: a missing archive is 404 and a failing deletion 500 (with the file
        system's message), both changing nothing; otherwise the archive is deleted and the
        job's count is dropped, no other count changing. */
    method DeleteDownload(jobId: string, unlinkError: string) returns (r: Reply<string>)
      modifies this, disk
      ensures ArchivePath(jobId) !in old(disk.files) ==>
                r == Failure(404, "Download not found", "The requested download does not exist")
      ensures ArchivePath(jobId) in old(disk.files) && ArchivePath(jobId) in disk.locked ==>
                r == Failure(500, "Failed to delete download", unlinkError)
      ensures r.Failure? ==>
                downloadCounts == old(downloadCounts) && disk.files == old(disk.files) && disk.archives == old(disk.archives)
      ensures ArchivePath(jobId) in old(disk.files) && ArchivePath(jobId) !in disk.locked ==>
                && r == Success("Download deleted successfully")
                && disk.files == old(disk.files) - {ArchivePath(jobId)}
                && disk.archives == old(disk.archives) - {ArchivePath(jobId)}
                && downloadCounts == old(downloadCounts) - {jobId}
    {
      var zipPath := ArchivePath(jobId);
      var present := disk.Exists(zipPath);
      if !present {
        return Failure(404, "Download not found", "The requested download does not exist");
      }
      var ok := disk.Unlink(zipPath);
      if !ok {
        return Failure(500, "Failed to delete download", unlinkError);
      }
      downloadCounts := downloadCounts - {jobId};
      r := Success("Download deleted successfully");
    }
  }

  /** The listing holds an item for an entry exactly when the entry is an archive. */
  lemma ListedExactlyArchives(entries: seq<DirEntry>, counts: map<string, nat>, x: DownloadItem)
    ensures x in SortDesc(ZipItems(entries, |entries|, counts), CreatedKey) <==>
              exists i | 0 <= i < |entries| :: ItemAt(entries, i, counts, x)
  {
    var items := ZipItems(entries, |entries|, counts);
    assert x in multiset(SortDesc(items, CreatedKey)) <==> x in multiset(items);
    if x in items {
      var i := FilterMapFrom(entries, |entries|, (e: DirEntry) => IsZip(e.name), (e: DirEntry) => ItemFor(e, counts), x);
      assert ItemAt(entries, i, counts, x);
    }
    if exists i | 0 <= i < |entries| :: ItemAt(entries, i, counts, x) {
      var i :| 0 <= i < |entries| && ItemAt(entries, i, counts, x);
      FilterMapHas(entries, |entries|, (e: DirEntry) => IsZip(e.name), (e: DirEntry) => ItemFor(e, counts), i);
    }
  }
}
