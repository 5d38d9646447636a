# Batch image converter: a Dafny model of its job engine

The server takes a batch of uploaded images and a set of transformation settings. Settings
cover the format, quality, resize box, watermark and output naming. It runs every image
through the transformation in the background, reporting progress, and writes each rendered
output to the processed directory. It packs the successful outputs it finds on disk into
one zip archive per job and serves that archive for download. Jobs can be
polled, listed, cancelled and retried. When a run finishes with its results, a cleanup is
scheduled for thirty minutes later, which deletes the job with its uploads, outputs and
archive. A run that throws schedules no cleanup.

The model has one module per core source file, plus a few helper modules:

- `FileValidation` covers `middleware/fileValidation.js`: the upload check and the
  sanitising of the settings the client sent.
- `ImageProcessor` covers `services/imageProcessor.js`:
  - the decisions of each transformation step (resize, watermark, encoder);
  - output naming;
  - the batch loop, which writes every rendered output to the disk. What the image
    library does with a file enters as its outcome, a `SharpRun`.
- `ZipService` covers `services/zipService.js`: which results go into a job's archive, and
  the writing of that archive. What the archiving library does enters as an `ArchiverRun`.
- `ProcessController` covers `controllers/processController.js`:
  - the job store, as pure transitions over a `Store` value;
  - a `ProcessController` class whose fields mirror the store and whose methods are proved
    to perform those transitions;
  - lemmas about how the controller's events interleave.
- `DownloadController` covers `controllers/downloadController.js`: a class holding the
  download counters, with the download, information, listing and deletion handlers.
- `App` covers `app.js`: which requests the general rate limiter counts, the catch-all
  handler for unmatched URLs, and `formatUptime`.
- Helper modules:
  - `Wrappers`: Option, Result and the HTTP `Reply`.
  - `Strings`: the JavaScript string built-ins the code uses, including decimal numerals,
    `padStart`, `toLowerCase`, `includes`, `path.basename`, `path.extname` and
    `path.parse`.
  - `Sorting`: the stable `Array.prototype.sort` with a descending key, and `slice`.
  - `Seqs`: a filter-and-map over a prefix of a sequence.
  - `JsMath`: `Math.round` of a quotient.
  - `FileSystem`: a `Disk` class holding paths with sizes, archive contents, and the paths
    whose deletion throws.

## How the run of a job is modelled

`processJob` is an async function with awaits, so its run is a sequence of separate events:

- `Start`: up to the first await.
- `Report`: once for each progress callback.
- `Finish` or `Crash`: everything after `batchProcess` resolves or throws.

Requests (`cancelJob`, `retryJob`, status queries) and the cleanup timer can come between
any two of these events. The run keeps its own reference to the job object, and that
object is also the value stored in the jobs Map until the first callback replaces the entry
with a shallow copy. The store models this aliasing with two parts:

- `runs` is the run's own object.
- `shared` is the set of ids whose Map entry is still that same object.

A write to the stored object while it is shared (as `cancelJob` does) reaches the run's
object too. After the copy it no longer does. The `setImmediate` queue is the `scheduled`
set. Pending cleanup timers are the `timers` multiset. Ids from `uuidv4` are parameters
that meet `FreshId`, and `Date.now()` is a `now` parameter.

## Behaviour as written

The model follows the code. In several places a reader might expect a different behaviour
from what the code does. The lemmas below state what the code actually does:

- Cancelling a job already cancelled is accepted again (`ProcessController.CancelTwice`).
  Only completed and failed jobs are refused.
- Cancelling does not stop the batch. When the run finishes, it stores completed or failed
  over the cancellation (`ProcessController.CancelOverwrittenByFinish`). A job cancelled
  while queued is still started (`ProcessController.CancelBeforeStart`). A progress report
  after the first one puts the run's own status back (`ProcessController.CancelThenReport`).
- Cancelling deletes only the uploads of the job (`cleanupJobFiles`), not its outputs.
  The job's deferred cleanup is still scheduled when its run finishes.
- A second start of a job that is already active is not a no-op. Its `finally` block
  removes the id from `activeJobs` (`ProcessController.Start`).
- An image watermark is shrunk only when it is larger than the base image itself, not
  larger than half of it. It is then shrunk to half the base (`ImageProcessor.WatermarkBox`).
- The settings sanitiser never carries the watermark image path over, so an image
  watermark never applies (`ImageProcessor.SanitizedImageWatermarkNeverApplies`).
- Sanitising the naming settings twice is not the same as sanitising once. A negative
  start becomes 0, and 0 then becomes 1 (`FileValidation.NamingNotIdempotent`).
- Two uploads that differ only in their extension get the same output name under
  original naming (`ImageProcessor.OriginalNamesCollide`).
- A base name ending in a dot gives an output name holding "..". The single-file download
  then refuses that name (`DownloadController.OriginalBaseEndingInDot`).
- A retried job keeps the original job's archive path. If the retry writes no archive of
  its own, its cleanup deletes the original's archive
  (`ProcessController.RetryKeepsArchivePath`).

## Model

| member | source | states |
|---|---|---|
| FileValidation.FormatOf | middleware/fileValidation.js:65-68 | a format name is recognised exactly when it is one of the five whitelisted names, and is read as that format |
| FileValidation.FitOf | middleware/fileValidation.js:81 | a fit name is recognised exactly when it is one of the five fits |
| FileValidation.MarkKindOf | middleware/fileValidation.js:88-92 | a watermark kind is recognised exactly when it is none, text or image |
| FileValidation.PositionOf | middleware/fileValidation.js:89-95 | a position is recognised exactly when it is center or one of the eight compass points |
| FileValidation.NamingKindOf | middleware/fileValidation.js:103-106 | a naming kind is recognised exactly when it is original, custom or numbered |
| FileValidation.ValidateFormat | middleware/fileValidation.js:65-68 | a whitelisted format passes unchanged; anything else, or nothing, becomes webp |
| FileValidation.ValidateQuality | middleware/fileValidation.js:70-73 | the quality lies in 1..100; a parsed value in range passes, NaN or out of range gives 85 |
| FileValidation.QualityIdempotent | middleware/fileValidation.js:70-73 | sanitising a sanitised quality changes nothing |
| FileValidation.ValidateSide | middleware/fileValidation.js:79-80 | a side lies in 1..10000: in range it passes, NaN or 0 gives the default, a negative value 1, a value over 10000 gives 10000 |
| FileValidation.ValidateResize | middleware/fileValidation.js:75-83 | a missing box is 1920x1080 inside; otherwise each side is sanitised and a known fit passes, anything else is inside |
| FileValidation.Take | middleware/fileValidation.js:93 | `substring(0, n)` is the prefix of length min(n, length) |
| FileValidation.ValidateWatermark | middleware/fileValidation.js:85-98 | a missing watermark is kind none with nothing else; otherwise a known kind and position pass, with none and southeast as fallbacks; the text is a prefix of at most 100 characters ("" for a non-string); the font defaults to Arial; the image path is never kept |
| FileValidation.KeepPrefixChars | middleware/fileValidation.js:107 | stripping leaves only letters, digits, '-' and '_', and never lengthens the prefix |
| FileValidation.KeepPrefixCharsFixes | middleware/fileValidation.js:107 | stripping leaves a prefix of allowed characters unchanged |
| FileValidation.ValidateStart | middleware/fileValidation.js:108 | the start is never negative: NaN or 0 gives 1, a negative value 0, a positive one passes |
| FileValidation.ValidateNaming | middleware/fileValidation.js:100-110 | a missing naming is original, "image", 1; otherwise a known kind passes (else original); the prefix is stripped and cut to 50 characters ("image" for a non-string); the start is sanitised |
| FileValidation.NamingRevalidation | middleware/fileValidation.js:100-110 | sanitising a sanitised naming again changes only a start of 0, which becomes 1 |
| FileValidation.NamingNotIdempotent | middleware/fileValidation.js:108 | a start of -5 sanitises to 0, and sanitising again gives 1 |
| FileValidation.Sanitize | middleware/fileValidation.js:46-52 | the sanitised settings have a quality in 1..100, sides in 1..10000, no watermark image path, a non-negative start and a prefix of at most 50 allowed characters |
| FileValidation.MaxFileSize | middleware/fileValidation.js:24 | the size limit is never 0, and is 10 MiB when the variable is not a number |
| FileValidation.ValidateSettings | middleware/fileValidation.js:36-63 | a missing, null or unparsable payload is refused with 400 and the fixed message, exactly then; otherwise `next` gets the five sanitised fields |
| FileValidation.ValidateFiles | middleware/fileValidation.js:4-34 | an empty upload gets 400 "No files uploaded"; `next` is called exactly when every file exists and is within the size limit; otherwise the answer names the first failing file, as missing or as too large |
| ImageProcessor.FileExtension | services/imageProcessor.js:315-326 | the table, read through the formats' own extensions: in any letter case, jpeg and jpg give jpg, webp, png, avif and tiff give themselves, and anything else gives webp |
| ImageProcessor.FileExtensionIgnoresCase | services/imageProcessor.js:325 | the extension depends only on the lowercased format |
| ImageProcessor.OutputFilenameExtension | services/imageProcessor.js:296-313 | `path.extname` of an output name is "." plus its format's extension, whenever the base is not empty |
| ImageProcessor.NumberLabelValue | services/imageProcessor.js:307 | the padded number has at least three digits and reads back as the number |
| ImageProcessor.NumberedNameRoundTrip | services/imageProcessor.js:305-308 | the digits between prefix and extension of a numbered name read back as start + index |
| ImageProcessor.NumberedNamesDistinct | services/imageProcessor.js:305-308 | numbered names of two different indices differ |
| ImageProcessor.OriginalNamesCollide | services/imageProcessor.js:301-303 | under original naming, uploads differing only in extension get the same output name |
| ImageProcessor.NumberedExample | services/imageProcessor.js:305-308 | prefix img, start 5, index 2 and webp give "img007.webp" |
| ImageProcessor.ResizeDecision | services/imageProcessor.js:66-80 | the resize is skipped exactly when the fit is inside and the image already fits the box; otherwise it resizes to the box with the fit, never enlarging exactly under inside |
| ImageProcessor.GravityFromPosition | services/imageProcessor.js:238-252 | the nine anchor names map to themselves and anything else to southeast |
| ImageProcessor.WatermarkDispatch | services/imageProcessor.js:82-97 | a text overlay exactly for kind text with non-empty text; an image overlay exactly for kind image with a non-empty path; otherwise the image is unchanged |
| ImageProcessor.SanitizedImageWatermarkNeverApplies | services/imageProcessor.js:90-93 | no sanitised watermark reaches the image branch |
| ImageProcessor.WatermarkBox | services/imageProcessor.js:195-200 | a watermark is shrunk exactly when it is wider or taller than the base, into the floor of half the base's sides |
| ImageProcessor.ImageMarkDecision | services/imageProcessor.js:176-229 | the image is unchanged exactly when the path is empty or the file is missing; otherwise the watermark is composited at a valid anchor, shrunk as `WatermarkBox` says |
| ImageProcessor.EscapeSvgText | services/imageProcessor.js:144-147 | the escaped text holds no `<`, `>`, `"` or `'` |
| ImageProcessor.EscapeRoundTrip | services/imageProcessor.js:144-147 | unescaping the five entities gives the original text back |
| ImageProcessor.EncoderFor | services/imageProcessor.js:254-294 | png gets compression level round((100 - quality) / 10), within 0..10 for a valid quality; every other encoder gets the quality as given |
| ImageProcessor.EncoderMatchesExtension | services/imageProcessor.js:257-293 | every format string is encoded in the container its file extension names |
| ImageProcessor.TransformSteps | services/imageProcessor.js:18-36 | the steps are the resize unless it is skipped, then the watermark when one applies, then always the encode |
| ImageProcessor.ProcessImage | services/imageProcessor.js:11-62 | a rendered image gives its input's sizes and dimensions; a failure gives the error prefixed with "Failed to process image: " |
| ImageProcessor.ResultFor | services/imageProcessor.js:338-373 | a result line is a success exactly when the image rendered |
| ImageProcessor.BatchResultsAt | services/imageProcessor.js:333-374 | the results have one line per file, line i being file i's result |
| ImageProcessor.SuccessReportsShape | services/imageProcessor.js:348-364 | one report per rendered file, each naming a rendered file's position as processed, strictly increasing, with the batch size as total |
| ImageProcessor.BatchProcess | services/imageProcessor.js:328-377 | one result per file in order, a failure not stopping the loop; every succeeded line's output is written to the disk in file order, so a later file writing the same path wins, and an archive at such a path is overwritten; the progress sink receives exactly one report per success, processed strictly increasing and pointing at a succeeded line |
| ImageProcessor.ProcessFiles | services/imageProcessor.js:333-375 | the loop gives the first n lines, reports and disk writes after n turns, for every n up to the batch size |
| ImageProcessor.ProcessNext | services/imageProcessor.js:334-374 | one turn adds the next file's line, its report exactly when it rendered, and its output on the disk |
| ImageProcessor.ProcessOne | services/imageProcessor.js:11-62 | the line of the file at its target, with the output written at the target's path exactly when the image rendered (`toFile`) |
| ImageProcessor.BatchWritesAre | services/imageProcessor.js:333-375 | the loop's writes over the first n files are the outputs of their succeeded lines written in order, and the archives that survive are those at no written path |
| ImageProcessor.WrittenHas | services/imageProcessor.js:45 | after the writes a path exists exactly when it existed before or a succeeded line wrote it; an unwritten path keeps its size; every succeeded line's output exists, with its size when no later line wrote the same path |
| ImageProcessor.WrittenSnoc | services/imageProcessor.js:45 | one more line writes its output over the earlier writes |
| ImageProcessor.WrittenPathsSnoc | services/imageProcessor.js:45 | one more line adds its output path exactly when it succeeded |
| ImageProcessor.WrittenPathsHas | services/imageProcessor.js:45 | the written paths are exactly the output paths of the succeeded lines |
| ImageProcessor.BatchAt | services/imageProcessor.js:333-374 | a batch has one line per file, line i being file i's result at index i |
| ImageProcessor.BatchShape | services/imageProcessor.js:333-374 | the lines line up with the files, and every report names a succeeded line, in increasing order |
| ImageProcessor.Line | services/imageProcessor.js:338-373 | a line succeeds exactly when its image rendered |
| ImageProcessor.TargetFor | services/imageProcessor.js:335-336 | a file's output path is its output name in the processed directory beside its upload |
| ImageProcessor.Targets | services/imageProcessor.js:333-336 | one output target per file |
| ImageProcessor.OutputFilename | services/imageProcessor.js:296-313 | every output name ends in a dot and its format's extension |
| ImageProcessor.OutputFilenameOriginal | services/imageProcessor.js:298-303 | under original naming the output name is `path.parse(originalName).name`, a dot and the format's extension |
| ImageProcessor.OriginalJoinedName | services/imageProcessor.js:298-303 | under original naming an upload "base.ext" (base without '/', ext without '.' or '/') becomes "base." and the format's extension |
| ImageProcessor.DotExtEnds | services/imageProcessor.js:312 | a base, a dot and an extension end in that dot and extension |
| ImageProcessor.NumberLabel | services/imageProcessor.js:307 | the padded number is at least three characters long |
| ImageProcessor.OutputPath | services/imageProcessor.js:336 | the output path ends in "/../processed/" followed by the output name |
| ImageProcessor.FormatExtension | services/imageProcessor.js:315-326 | a validated format's extension is one of the five known extensions, at least three letters long |
| ImageProcessor.FormatExtensionAgrees | services/imageProcessor.js:315-326 | a validated format's extension is `getFileExtension` of its name |
| ZipService.BatchZipEntries | services/zipService.js:48-53 | the members are exactly the successful results whose output file exists, stored under their output names |
| ZipService.BatchZipEntriesInOrder | services/zipService.js:48-53 | the members are the zipped results' members in result order, one per zipped result, duplicates kept |
| ZipService.ExistingEntries | services/zipService.js:27-31 | the existence check keeps at most the members it is given, and only members whose file exists |
| ZipService.ExistingEntriesInOrder | services/zipService.js:27-31 | the existence check keeps the existing members in their order |
| ZipService.ExistingEntriesCount | services/zipService.js:27-31 | each member occurs after the existence test as often as before when its file exists, and not at all otherwise |
| ZipService.AllExisting | services/zipService.js:27-31 | when every member's file exists, the existence check keeps the whole list |
| ZipService.ExistingEntriesMembers | services/zipService.js:27-31 | the existence check keeps exactly the members whose file exists |
| ZipService.CreateZip | services/zipService.js:6-35 | on close, the archive holding exactly the existing members is on disk and its path and size are returned; on an archiver error, that error with the disk unchanged |
| ZipService.CreateBatchZip | services/zipService.js:37-60 | with nothing to archive, "No processed files available for download" with the disk unchanged; otherwise the archive of those members at the job's archive path |
| ZipService.ArchiveHoldsSuccesses | services/zipService.js:48-53 | an entry is in the job's archive exactly when some result succeeded with an existing output file |
| ZipService.NoSuccessNoArchive | services/zipService.js:55-57 | a batch without successes has nothing to archive |
| Strings.Basename | services/imageProcessor.js:302 | the base name holds no '/' and is no longer than the path |
| Strings.BasenameIsLastSegment | services/imageProcessor.js:302 | the base name ends the path, right after its last '/' |
| Strings.Extname | controllers/downloadController.js:99 | the extension is no longer than the name |
| Strings.ExtnameShape | controllers/downloadController.js:99 | an extension is empty or a dot followed by no other dot, and it ends a longer name |
| Strings.ParseName | services/imageProcessor.js:302 | the parsed name is no longer than the base name |
| Strings.ParseNameSplits | controllers/downloadController.js:179 | the parsed name followed by the extension is the base name |
| JsMath.RoundDiv | services/imageProcessor.js:275 | `Math.round(n / d)` is the nearest integer, a half rounding up |
| JsMath.Percent | controllers/processController.js:102-105 | the rounded percentage lies in 0..100 and is 100 when all files are processed |
| FileSystem.Disk.WriteFile | services/imageProcessor.js:45 | writing a file sets its size at the path and drops an archive there; nothing else changes |
| FileSystem.Disk.UnlinkEach | controllers/processController.js:420-433 | exactly the listed paths that are non-empty, exist and can be deleted are removed; an unlink that throws does not stop the loop |
| FileSystem.UnlinkedConcat | controllers/processController.js:377-410 | deleting one list and then another removes what deleting their concatenation does |
| Sorting.SortDesc | controllers/processController.js:262 | the sort is a permutation with non-increasing keys |
| Sorting.InsertStable | controllers/processController.js:262 | inserting an element puts it before the elements with its key and keeps their order |
| Sorting.SortDescStable | controllers/processController.js:262 | the sort is stable: the elements with any one key keep their relative order |
| Sorting.SliceEnd | controllers/processController.js:265 | `slice(0, parseInt(limit))` keeps min(limit, length) elements for a non-negative limit, length + limit (at least 0) for a negative one, and none for NaN |
| ProcessController.StartBatch | controllers/processController.js:33-75 | an empty upload is 400 with the store unchanged; otherwise a queued job with zero progress, no results, no link and no errors is stored under the fresh id, its run is queued, and the reply carries the id and file count; the store invariant is kept |
| ProcessController.Start | controllers/processController.js:86-93 | a missing or already active job ends the run and leaves the id inactive; otherwise the stored object, marked processing with a new start time, becomes the run's object and the id becomes active |
| ProcessController.Report | controllers/processController.js:101-108 | the run's object gets the processed and total counts with a percentage in 0..100 (100 at the end), and a copy of it replaces the stored entry; nothing else changes |
| ProcessController.NewJob | controllers/processController.js:45-61 | a new record has the id, files and settings, is queued with zero progress out of the file count and the start time, and has no results, errors, link, archive path or archive size |
| ProcessController.Finished | controllers/processController.js:111-139 | the finished record keeps id, files, settings and total; it holds the results, is completed exactly when one succeeded and failed otherwise, has success and failure counts adding up to the results, and gains a link only when the archive was written; the archive's path and size are recorded exactly when a file succeeded and the archive was written, and are kept otherwise |
| ProcessController.FinishedFromFresh | controllers/processController.js:111-139 | a record with no link, no errors and a start time ends with status, link, error, progress and duration as `RanThrough` states |
| ProcessController.OutputsZipped | services/zipService.js:48-53 | once the outputs are written, the batch archive holds every succeeded line's member |
| ProcessController.TotalOriginal | controllers/processController.js:357 | the summed original size is 0 exactly when every result's original size is 0 |
| ProcessController.TotalProcessed | controllers/processController.js:358 | the summed processed size is 0 exactly when every result's processed size is 0 |
| ProcessController.Selected | controllers/processController.js:254-262 | the selection is sorted newest first and no larger than the store |
| ProcessController.Successes | controllers/processController.js:116-117 | the number of successes is at most the number of results, and 0 exactly when none succeeded |
| ProcessController.Successful | controllers/processController.js:116 | exactly the succeeded results, as many as `Successes` counts |
| ProcessController.Finish | controllers/processController.js:111-147 | the stored job has the results and full progress; it is completed exactly when a file succeeded, else failed, whatever it was before; a link exactly when the archive was written, the archive error added exactly when archiving threw; the archive's path and size recorded when it was written and kept otherwise; the run ends and a cleanup timer is added |
| ProcessController.Crash | controllers/processController.js:149-161 | a stored job is marked failed with the message and an end time; the run ends and the id is inactive |
| ProcessController.Cancel | controllers/processController.js:211-249 | an unknown id is 404 and a completed or failed job 400, both changing nothing; any other job is marked cancelled with an end time in place, which a run still sharing the object sees, and becomes inactive |
| ProcessController.InputPaths | controllers/processController.js:422-431 | the upload path of every file, in order |
| ProcessController.Retry | controllers/processController.js:294-353 | an unknown id is 404 and a processing job 400, both changing nothing; otherwise a queued copy with reset progress, results, times, link and errors is stored under the fresh id, keeping files, settings, archive path, counts and crash message, and its run is queued |
| ProcessController.OutputPaths | controllers/processController.js:391-401 | the output path of every succeeded result, and an empty path for a failed one |
| ProcessController.Cleanup | controllers/processController.js:370-418 | an unknown id changes nothing; otherwise the job leaves the store and its insertion order, and nothing else changes |
| ProcessController.FireTimer | controllers/processController.js:364-368 | a firing timer is used up and removes its job from the store |
| ProcessController.CompressionRatio | controllers/processController.js:356-362 | 0 without original size; otherwise the integer nearest the saving in percent, in 0..100 when outputs are not larger, 100 for empty outputs and 0 for equal sizes |
| ProcessController.JobStatus | controllers/processController.js:165-209 | 404 exactly for an unknown id; otherwise the job's id, status name, progress, start and end times, duration, success and failure counts, link and errors, with a size summary exactly when it is completed |
| ProcessController.InOrder | controllers/processController.js:254 | the listed values are exactly the stored jobs |
| ProcessController.WithStatus | controllers/processController.js:257-259 | exactly the jobs with the requested status name |
| ProcessController.JobListing | controllers/processController.js:251-292 | the total is the number of stored jobs; the list is the selection, item by item, holding min(limit, selected) items for a non-negative limit, selected + limit (at least 0) for a negative one and none for NaN |
| ProcessController.SelectedJobs | controllers/processController.js:254-262 | the selection is sorted newest first and holds exactly the stored jobs with the requested status, or all of them when none is given |
| ProcessController.ListingComplete | controllers/processController.js:265 | a limit at least the number of jobs leaves no selected job out |
| ProcessController.SelectedBound | controllers/processController.js:254-262 | the selection is no larger than the store |
| ProcessController.CancelOverwrittenByFinish | controllers/processController.js:135-142 | a job cancelled during its run ends completed or failed when the run finishes |
| ProcessController.CancelThenReport | controllers/processController.js:101-108 | the next report keeps a cancellation made while the object is shared, and puts the run's status back once it has been copied |
| ProcessController.CancelBeforeStart | controllers/processController.js:88-93 | a queued job cancelled before its run begins is still marked processing and made active |
| ProcessController.CancelTwice | controllers/processController.js:223-230 | a second cancel of a cancelled job succeeds |
| ProcessController.ReportAll | controllers/processController.js:98-109 | a sequence of progress callbacks changes only the run's progress; after the last one the stored entry is a copy with that report's counts and a percentage in 0..100 |
| ProcessController.ReportsAdvance | controllers/processController.js:98-109 | while a batch's reports arrive, the stored count of processed files strictly increases and stays within the batch, with the percentage in 0..100 |
| ProcessController.SucceededSomewhere | controllers/processController.js:116-117 | a batch has a success exactly when the image library rendered one of its files |
| ProcessController.RunAlone | controllers/processController.js:33-147 | a batch started, begun, run through `batchProcess` with every success reporting its progress, and finished without interference is stored as the finished record of its fresh job with the batch's results, and a cleanup is pending |
| ProcessController.UninterruptedRun | controllers/processController.js:86-147 | (`RanThrough`) after an uninterrupted run the job holds one result per file in order; it is completed exactly when some file was rendered and failed otherwise; it has a link exactly when the archive was written, and then the archive's path and size, the path being among those its cleanup deletes, and no archive path otherwise; an error exactly when archiving threw; all files are processed at 100%; the success and failure counts add up to the files; the duration runs from its start; the pending cleanup removes it |
| ProcessController.RetryKeepsArchivePath | controllers/processController.js:315-332 | a retried job keeps the original's archive path, and its cleanup deletes that archive when the retry wrote none |
| ProcessController.ProcessController.StartBatchProcessing | controllers/processController.js:33-75 | performs `StartBatch` on the controller's fields and keeps the invariant |
| ProcessController.ProcessController.ProcessJobStart | controllers/processController.js:86-93 | performs `Start` |
| ProcessController.ProcessController.ReportProgress | controllers/processController.js:101-108 | performs `Report` |
| ProcessController.ProcessController.ReportEach | controllers/processController.js:98-109 | the progress callbacks, one per snapshot in order, perform `ReportAll` |
| ProcessController.ProcessController.ReportNext | controllers/processController.js:98-109 | the k-th callback takes the store from `ReportAll` of the first k snapshots to that of the first k + 1 |
| ProcessController.ProcessController.ProcessJobRun | controllers/processController.js:94-147 | `batchProcess` over the run's files gives one result per file in order and writes the rendered outputs to the disk; each success's report is applied; the run finishes with the new state `Finish` after `ReportAll` of the batch's reports; `createBatchZip` then sees every succeeded output, and the disk and the archive outcome are as `ArchiveEffect` states over the written disk; when some file rendered and the archiver closes, the outcome is the archive at the job's path with its size |
| ProcessController.ProcessController.ProcessJobBatch | controllers/processController.js:94-110 | `batchProcess` with its progress callbacks: one result per file, the store after `ReportAll` of its reports, the outputs written to the disk, and every succeeded output among the archive's members |
| ProcessController.ProcessController.ZippedWhenSucceeded | controllers/processController.js:115-132 | when a succeeded output is on the disk, the archiver alone decides: the archive at the job's path with its size when it closes, an error when it fails |
| ProcessController.ProcessController.Complete | controllers/processController.js:133-147 | stores the finished record, ends the run and schedules the cleanup: performs `Finish` |
| ProcessController.ProcessController.ArchiveSuccesses | controllers/processController.js:116-132 | an archive is attempted exactly when a file succeeded, and then the disk and the outcome are those of `createBatchZip` on the successful results |
| ProcessController.ProcessController.ProcessJobFinish | controllers/processController.js:111-147 | performs `Finish` with the archive outcome, and the disk and outcome are as `ArchiveEffect` states: nothing without a success; the fixed error without an existing output; otherwise the archive of the existing members at the job's path when the archiver closes, with that path and size as outcome, and an error with the disk unchanged when it fails |
| ProcessController.ProcessController.FinishRecord | controllers/processController.js:111-139 | the writes to the run's object give the `Finished` record |
| ProcessController.ProcessController.ProcessJobCrash | controllers/processController.js:149-161 | performs `Crash` |
| ProcessController.ProcessController.MarkCancelled | controllers/processController.js:230-235 | the writes of a successful cancel perform `Cancel` |
| ProcessController.ProcessController.CancelJob | controllers/processController.js:211-249 | performs `Cancel`; a successful cancel deletes exactly the job's deletable uploads, and a refused one touches no file |
| ProcessController.ProcessController.RetryJob | controllers/processController.js:294-353 | performs `Retry` |
| ProcessController.ProcessController.CleanupJob | controllers/processController.js:370-418 | performs `Cleanup`; deletes exactly the deletable uploads, outputs and archive of the job, and nothing for an unknown id |
| ProcessController.ProcessController.DeleteFiles | controllers/processController.js:377-410 | the three deletion loops together remove exactly the deletable paths of uploads, outputs and archive |
| ProcessController.ProcessController.FireCleanupTimer | controllers/processController.js:364-368 | performs `FireTimer` and the deletions of `CleanupJob` |
| DownloadController.ContentTypeOf | controllers/downloadController.js:99-109 | each of the six image extensions gets its image type, and exactly the other extensions get application/octet-stream |
| DownloadController.NumberedOutputDownloadable | controllers/downloadController.js:82-109 | a numbered output name with a sanitised prefix passes the filename guard and is served as its format's image type |
| DownloadController.OutputContentType | controllers/downloadController.js:99-109 | the extension of each format's files is served as that format's image type |
| DownloadController.OriginalBaseEndingInDot | controllers/downloadController.js:82-87 | an original-name output whose base ends in a dot is refused by the filename guard |
| DownloadController.DotEndingBaseExample | controllers/downloadController.js:82 | the upload "a..png" has the base name "a.", which ends in a dot |
| DownloadController.Unsafe | controllers/downloadController.js:82-87 | a name the guard lets through is its own base name and holds no backslash |
| DownloadController.ContentType | controllers/downloadController.js:99-109 | a file is served with an image type exactly when its lowercased extension is one of the six image extensions |
| DownloadController.SafeJoinedName | controllers/downloadController.js:82-87 | a name of allowed prefix characters, digits, one dot and a lower-case extension passes the guard |
| DownloadController.ItemFor | controllers/downloadController.js:176-188 | an item carries the entry's name and size, and an archive "id.zip" is listed under the job id "id" |
| DownloadController.ZipItemsStep | controllers/downloadController.js:175-190 | each entry adds an item exactly when its extension is .zip |
| DownloadController.ZipItemsListed | controllers/downloadController.js:175-190 | every item is a .zip name with the job id of its base name, that job's count and link |
| DownloadController.SortedListed | controllers/downloadController.js:192 | so is every item of the sorted listing |
| DownloadController.ListedExactlyArchives | controllers/downloadController.js:175-192 | the listing holds an item exactly when some directory entry is a .zip file and the item is made from it |
| DownloadController.DownloadController.DownloadZip | controllers/downloadController.js:16-76 | a missing archive is 404 with the counts unchanged; otherwise the archive is sent as "converted-images-id.zip" with its size, and the job's count rises by one, no other count changing |
| DownloadController.DownloadController.DownloadSingle | controllers/downloadController.js:78-125 | a name holding "..", "/" or "\\" is 400 before any lookup; a missing file is 404; otherwise the file is sent with the content type of its lowercased extension |
| DownloadController.DownloadController.GetDownloadInfo | controllers/downloadController.js:127-159 | 404 for a missing archive; otherwise its name, size, count, creation time and link |
| DownloadController.DownloadController.ListDownloads | controllers/downloadController.js:161-206 | no directory gives an empty list; otherwise the items of the .zip entries sorted newest first, each well formed |
| DownloadController.DownloadController.DeleteDownload | controllers/downloadController.js:208-235 | a missing archive is 404 and a failing unlink 500 with its message, both changing nothing; otherwise the archive is deleted and only that job's count is dropped |
| App.GeneralLimit | app.js:63-65 | the general limiter allows a positive number of requests per window, 100 in production and 500 otherwise |
| App.SkipRateLimit | app.js:73-77 | only the health check and paths holding "/api/process/" are ever skipped |
| App.Limited | app.js:73-77 | a counted request is a production request that is neither the health check nor a status poll |
| App.StatusPollNotLimited | app.js:73-77 | polls of any job's status are never counted |
| App.SystemStatusNotLimited | app.js:73-77 | any path holding the system status path is never counted |
| App.DevelopmentNotLimited | app.js:104-106 | outside production the general limiter counts nothing |
| App.BatchLimited | app.js:73-77 | in production a batch submission is counted |
| App.UploadLimited | app.js:73-77 | in production an upload is counted |
| App.NotFound | app.js:271-290 | an unmatched URL gets the JSON 404, naming the method and URL and listing the endpoints, exactly when it starts with "/api", and a redirect to "/" otherwise |
| App.ApiUrlsGet404 | app.js:272 | every unmatched URL under "/api/" gets the 404, for any method |
| App.ApiPrefixIsTextual | app.js:272 | "/apidocs" also counts as an API URL |
| App.PagesRedirect | app.js:271-290 | a URL "/" + rest is redirected exactly when rest does not start with "api" |
| App.UptimeParts | app.js:293-297 | hours < 24, minutes < 60, seconds < 60, and days·86400 + hours·3600 + minutes·60 + seconds is the uptime |
| App.UptimePartsUnique | app.js:293-297 | that is the only split into units with hours, minutes and seconds in range |
| App.FormatUptime | app.js:299-307 | the text is at least two characters and ends with the seconds' letter "s" |
| App.FormatUptimeLead | app.js:299-307 | the text opens with the numeral of its largest non-zero unit, which reads back as that unit, followed by d exactly from a day on, h exactly from an hour up to a day, m exactly from a minute up to an hour, and s below a minute |
| App.FormatUptimeSpaces | app.js:299-307 | the text holds three spaces exactly from a day on, two exactly from an hour up to a day, one exactly from a minute up to an hour, and none below |

## Left out

- Pixel work, encoding and compression: the image library and the archiving library are
  not modelled. Their outcomes are the parameters `SharpRun` and `ArchiverRun`. The bytes
  of archives and output files are not modelled.
- Streaming: `res` streams and headers are not modelled. The download handlers return the
  `Attachment` they would stream. Stream errors after the headers went out are not
  modelled.
- Floating point: the progress callback's `speed` and `eta`, watermark opacity, and font
  size estimation are left out.
- `FileValidation.Clamp` and similar helpers work on integers. `parseInt` and `parseFloat`
  are oracles: a numeric field arrives as what `parseInt` made of it, and None stands for
  NaN.
- JsMath.Percent: rounds the exact rational `100 * processed / total`. A floating-point
  product that lands just below a half is not modelled.
- ProcessController.CompressionRatio: rounds the exact rational as well, with the same
  caveat.
- App.FormatUptime: takes the uptime as whole seconds. `process.uptime()` returns a
  fraction, and every unit is a floor of it, so dropping the fraction first gives the same
  units.
- ProcessController.Finish: the archive creation (`await createBatchZip`) is one atomic
  step.
  - A status query or cancellation during that await is not modelled as coming between the
    results and the final status.
  - A cancellation there would write to the run's object only while the entry is still
    shared.
- The `progress` and `errors` objects are shared between the stored shallow copy and the
  run's object. In-place writes to them that a later reader of the copy would see
  (`job.progress.processed = ...`, `job.errors.push`) are not modelled. Their values are
  written again by the final copy.
- ProcessController.ProcessController.ProcessJobRun: runs the whole batch as one method, so nothing can come between its progress callbacks. The interleavings are covered by the store events `Report`, `Cancel` and the status queries.
- ProcessController.RunAlone: takes the archive outcome as a parameter, as a store transition. `ProcessController.ProcessJobRun` ties it to `createBatchZip` on the disk after the batch has written its outputs.
- `path.parse` and `path.basename` of a path ending in a separator are not modelled; `Strings.Basename` takes the part after the last '/'.
- The `progress` and `status` fields of the snapshot that `batchProcess` passes to the callback are dropped, like `speed` and `eta`. Only their processed and total counts, and the rounded percentage, are modelled.
- Timers: `setImmediate` and `setTimeout` callbacks are explicit events (`ProcessJobStart`,
  `FireCleanupTimer`). Their delays (30 minutes by default) and the `cleanupFile` and
  `cleanupDirectory` helpers of the archive service are not modelled.
- `path.join` normalisation is not modelled. `ImageProcessor.OutputPath` keeps
  "/../processed/" as written. Paths are relative to the application root. The output path
  and the path `downloadSingle` reads are not related.
- `toLowerCase` is modelled for ASCII letters only. Strings are sequences of characters,
  with no UTF-16 surrogates.
- Object prototype keys are not modelled. The maps of `getGravityFromPosition` and
  `getFileExtension` are only modelled on their own keys.
- `getSystemStatus`, memory usage, routes, helmet, compression, CORS, static files, the
  status and processing limiters' own windows, the upload controller, the error handler,
  graceful shutdown and the hosting configuration are not part of this model.
- A partial archive file left behind by a failing archiver is not modelled. On an archiver
  error the disk is unchanged.
- Fresh ids: `uuidv4` collisions are excluded by the `FreshId` precondition.
- The catch-all 500 answers of every handler (an exception in `statSync`, `JSON.parse`
  internals, the `try` around the job handlers) are not modelled. A throwing
  `fs.unlinkSync` is modelled only through the `locked` paths of the disk.
- `fs.readdirSync`, `stats.birthtime` and the unlink error message are inputs:
  - `ListDownloads` receives the directory listing as `Option<seq<DirEntry>>`.
  - `GetDownloadInfo` receives the creation time.
  - `DeleteDownload` receives the message.
- `mkdirSync` of the output and download directories is not modelled.
