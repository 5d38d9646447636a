/** The archive service: which results of a batch go into the job's archive, and the writing of
    an archive from a list of members. The compressed bytes are the archiving library's and
    enter the model only as the outcome of its run. */
module ZipService {

  import opened Wrappers
  import opened FileSystem
  import opened ImageProcessor
  import Seqs

  /** How the archiving library's run ends: the output stream closes with the archive size, or
      the archive emits an error. */
  datatype ArchiverRun = Closed(size: nat) | ArchiverFailed(message: string)

  /** What `createZip` resolves with. */
  datatype ZipInfo = ZipInfo(path: Path, size: nat)

  /** `path.join(tempDir, 'downloads', jobId + '.zip')`, relative to the application root. */
  function ArchivePath(jobId: string): Path {
    "temp/downloads/" + jobId + ".zip"
  }

  /** A result becomes an archive member when it succeeded and its output file still exists. */
  predicate IsZipped(r: FileResult, files: map<Path, nat>) {
    r.Succeeded? && r.outputPath in files
  }

  function MemberOf(r: FileResult): ZipEntry
    requires r.Succeeded?
  {
    ZipEntry(r.outputPath, r.outputName)
  }

  /** The filter and map of `createBatchZip`: the members for the successful results whose
      output file exists, in result order, each stored under its output name. */
  function BatchZipEntries(results: seq<FileResult>, files: map<Path, nat>): (entries: seq<ZipEntry>)
    ensures |entries| <= |results|
    ensures forall e | e in entries :: e.path in files
    ensures forall i | 0 <= i < |results| && IsZipped(results[i], files) :: MemberOf(results[i]) in entries
    ensures forall e | e in entries :: exists i | 0 <= i < |results| :: IsZipped(results[i], files) && e == MemberOf(results[i])
  {
    if results == [] then []
    else
      var rest := BatchZipEntries(results[1..], files);
      assert forall e | e in rest :: exists i | 0 <= i < |results| :: IsZipped(results[i], files) && e == MemberOf(results[i]) by {
        forall e | e in rest
          ensures exists i | 0 <= i < |results| :: IsZipped(results[i], files) && e == MemberOf(results[i])
        {
          var j :| 0 <= j < |results[1..]| && IsZipped(results[1..][j], files) && e == MemberOf(results[1..][j]);
          assert results[j + 1] == results[1..][j];
        }
      }
      assert forall i | 1 <= i < |results| && IsZipped(results[i], files) :: MemberOf(results[i]) in rest by {
        forall i | 1 <= i < |results| && IsZipped(results[i], files)
          ensures MemberOf(results[i]) in rest
        {
          assert results[1..][i - 1] == results[i];
        }
      }
      (if IsZipped(results[0], files) then [MemberOf(results[0])] else []) + rest
  }

  /** `MemberOf` extended to failed results, which are never zipped. */
  function Member(r: FileResult): ZipEntry {
    if r.Succeeded? then MemberOf(r) else ZipEntry("", r.outputName)
  }

  /** The members are those of the zipped results in result order, one member per zipped
      result: a filter of the results followed by a map, as `filter(...).map(...)` is. Two
      results with the same output name give two equal members. */
  lemma {:induction false} BatchZipEntriesInOrder(results: seq<FileResult>, files: map<Path, nat>)
    ensures BatchZipEntries(results, files) == Seqs.FilterMap(results, |results|, r => IsZipped(r, files), Member)
  {
    if results != [] {
      BatchZipEntriesInOrder(results[1..], files);
      Seqs.FilterMapCons(results, |results|, r => IsZipped(r, files), Member);
    }
  }

  /** The first `n` members whose file exists: the `fs.existsSync` check of `createZip`. */
  function ExistingEntries(entries: seq<ZipEntry>, n: nat, files: map<Path, nat>): (r: seq<ZipEntry>)
    requires n <= |entries|
    ensures |r| <= n
    ensures forall e | e in r :: e.path in files
  {
    if n == 0 then []
    else ExistingEntries(entries, n - 1, files) + (if entries[n - 1].path in files then [entries[n - 1]] else [])
  }

  /** A list whose every member exists passes the existence check whole. */
  lemma {:induction false} AllExisting(entries: seq<ZipEntry>, n: nat, files: map<Path, nat>)
    requires n <= |entries|
    requires forall e | e in entries :: e.path in files
    ensures ExistingEntries(entries, n, files) == entries[..n]
  {
    if n > 0 {
      AllExisting(entries, n - 1, files);
      assert entries[..n] == entries[..n - 1] + [entries[n - 1]];
    }
  }

  /** The existence check keeps the existing members in order, each as often as it occurs. */
  lemma ExistingEntriesInOrder(entries: seq<ZipEntry>, n: nat, files: map<Path, nat>)
    requires n <= |entries|
    ensures ExistingEntries(entries, n, files) == Seqs.FilterMap(entries, n, (e: ZipEntry) => e.path in files, (e: ZipEntry) => e)
  {
  }

  /** A member occurs in the result of the existence check as often as among the first `n`
      members when its file exists, and not at all otherwise. */
  lemma {:induction false} ExistingEntriesCount(entries: seq<ZipEntry>, n: nat, files: map<Path, nat>, e: ZipEntry)
    requires n <= |entries|
    ensures multiset(ExistingEntries(entries, n, files))[e] == if e.path in files then multiset(entries[..n])[e] else 0
  {
    if n > 0 {
      ExistingEntriesCount(entries, n - 1, files, e);
      assert entries[..n] == entries[..n - 1] + [entries[n - 1]];
    }
  }

  /** The existence check keeps exactly the members whose file exists. */
  lemma {:induction false} ExistingEntriesMembers(entries: seq<ZipEntry>, n: nat, files: map<Path, nat>)
    requires n <= |entries|
    ensures forall e :: e in ExistingEntries(entries, n, files) <==> e in entries[..n] && e.path in files
  {
    if n > 0 {
      ExistingEntriesMembers(entries, n - 1, files);
      assert entries[..n] == entries[..n - 1] + [entries[n - 1]];
    }
  }

  /** `createZip`: adds every member whose file exists under its name and finalises the archive.
      When the output stream closes, the archive (holding exactly the existing members) is on
      disk and the path and size are returned; when the archive errs, its error is returned. */
  method CreateZip(entries: seq<ZipEntry>, outputPath: Path, disk: Disk, run: ArchiverRun) returns (r: Result<ZipInfo>)
    modifies disk
    ensures r.Ok? <==> run.Closed?
    ensures r.Ok? ==> r.value == ZipInfo(outputPath, run.size)
    ensures r.Err? ==> r.message == run.message
    ensures run.Closed? ==> disk.files == old(disk.files)[outputPath := run.size]
    ensures run.Closed? ==> disk.archives == old(disk.archives)[outputPath := ExistingEntries(entries, |entries|, old(disk.files))]
    ensures run.ArchiverFailed? ==> disk.files == old(disk.files) && disk.archives == old(disk.archives)
  {
    var added: seq<ZipEntry> := [];
    for i := 0 to |entries|
      invariant disk.files == old(disk.files) && disk.archives == old(disk.archives)
      invariant added == ExistingEntries(entries, i, disk.files)
    {
      var present := disk.Exists(entries[i].path);
      if present {
        added := added + [entries[i]];
      }
    }
    match run {
      case Closed(size) =>
        disk.WriteArchive(outputPath, added, size);
        r := Ok(ZipInfo(outputPath, size));
      case ArchiverFailed(msg) =>
        r := Err(msg);
    }
  }

  /** `createBatchZip`: without a successful result whose file exists it fails with "No
      processed files available for download" and writes nothing; otherwise it archives exactly
      those results at the job's archive path. */
  method CreateBatchZip(results: seq<FileResult>, jobId: string, disk: Disk, run: ArchiverRun) returns (r: Result<ZipInfo>)
    modifies disk
    ensures BatchZipEntries(results, old(disk.files)) == [] ==>
              r == Err("No processed files available for download") && disk.files == old(disk.files) && disk.archives == old(disk.archives)
    ensures BatchZipEntries(results, old(disk.files)) != [] ==>
              && (r.Ok? <==> run.Closed?)
              && (r.Ok? ==> r.value == ZipInfo(ArchivePath(jobId), run.size))
              && (r.Err? ==> r.message == run.message)
              && (run.Closed? ==> disk.files == old(disk.files)[ArchivePath(jobId) := run.size]
                                  && disk.archives == old(disk.archives)[ArchivePath(jobId) := BatchZipEntries(results, old(disk.files))])
              && (run.ArchiverFailed? ==> disk.files == old(disk.files) && disk.archives == old(disk.archives))
  {
    var toZip := BatchZipEntries(results, disk.files);
    if toZip == [] {
      r := Err("No processed files available for download");
    } else {
      AllExisting(toZip, |toZip|, disk.files);
      assert toZip[..|toZip|] == toZip;
      r := CreateZip(toZip, ArchivePath(jobId), disk, run);
    }
  }

  /** The archive of a job holds a member for a result exactly when the result succeeded and its
      output file existed, stored under the output name. */
  lemma ArchiveHoldsSuccesses(results: seq<FileResult>, files: map<Path, nat>, e: ZipEntry)
    ensures e in BatchZipEntries(results, files) <==>
              exists i | 0 <= i < |results| :: IsZipped(results[i], files) && e == MemberOf(results[i])
  {
  }

  /** A batch in which nothing succeeded has nothing to archive. */
  lemma NoSuccessNoArchive(results: seq<FileResult>, files: map<Path, nat>)
    requires forall i | 0 <= i < |results| :: !results[i].Succeeded?
    ensures BatchZipEntries(results, files) == []
  {
  }
}
