/** The job store: batch jobs are created, run, observed, cancelled, retried and cleaned up.

    A job is processed by one asynchronous run. The run holds the job object it found in the
    store in a local variable; the store's entry stays that same object until some write puts
    a shallow copy in its place. `Store.runs` holds each run's local object and `Store.shared`
    the ids whose store entry is still that object, so that a write to one is a write to both.
    Deferred calls (`setImmediate`, `setTimeout`) are the pending events `scheduled` and
    `timers`; the clock is a `now` argument; fresh ids are arguments no part of the store
    knows. */
module ProcessController {

  import opened Wrappers
  import opened JsMath
  import opened Sorting
  import opened FileSystem
  import opened FileValidation
  import opened ImageProcessor
  import opened ZipService

  type JobId = string

  datatype Status = Queued | Processing | Completed | Failed | Cancelled

  function StatusName(st: Status): string {
    match st
    case Queued => "queued"
    case Processing => "processing"
    case Completed => "completed"
    case Failed => "failed"
    case Cancelled => "cancelled"
  }

  /** `job.progress`; the callback's speed and eta are left out. */
  datatype Progress = Progress(processed: nat, total: nat, percentage: int)

  /** A job record. An Option field is None while the record has no such property (or it is
      `null`). */
  datatype Job = Job(
    id: JobId,
    status: Status,
    files: seq<UploadedFile>,
    settings: Settings,
    startTime: Option<int>,
    endTime: Option<int>,
    duration: Option<int>,
    progress: Progress,
    results: seq<FileResult>,
    downloadUrl: Option<string>,
    errors: seq<string>,
    zipPath: Option<Path>,
    zipSize: Option<nat>,
    successCount: Option<nat>,
    failedCount: Option<nat>,
    error: Option<string>)

  /** The controller's state: `jobs` (a Map, whose insertion order is `order`), `activeJobs`,
      the local job object of every run in flight, the runs whose object is still the stored
      entry, the runs queued by `setImmediate` and the cleanups queued by `setTimeout`. */
  datatype Store = Store(
    jobs: map<JobId, Job>,
    order: seq<JobId>,
    active: set<JobId>,
    runs: map<JobId, Job>,
    shared: set<JobId>,
    scheduled: set<JobId>,
    timers: multiset<JobId>)

  function EmptyStore(): Store {
    Store(map[], [], {}, map[], {}, {}, multiset{})
  }

  predicate NoDuplicates(s: seq<JobId>) {
    forall i, j | 0 <= i < j < |s| :: s[i] != s[j]
  }

  /** What every reachable store satisfies: the insertion order lists each stored id once, an
      entry shared with a run is equal to the run's object, a job's id is its key, and only a
      run in flight is active. */
  ghost predicate Inv(s: Store) {
    && NoDuplicates(s.order)
    && (forall id :: id in s.order <==> id in s.jobs)
    && (forall id | id in s.shared :: id in s.runs && id in s.jobs && s.jobs[id] == s.runs[id])
    && (forall id | id in s.jobs :: s.jobs[id].id == id)
    && (forall id | id in s.runs :: s.runs[id].id == id)
    && s.active <= s.runs.Keys
  }

  /** An id that `uuidv4` may return: nothing in the store knows it. */
  predicate FreshId(s: Store, id: JobId) {
    id !in s.jobs && id !in s.runs && id !in s.scheduled && id !in s.active && id !in s.timers
  }

  /** Every key other than `id` has the same entry (or none) in `a` and `b`. */
  ghost predicate OthersKept(a: map<JobId, Job>, b: map<JobId, Job>, id: JobId) {
    forall k | k != id :: (k in a <==> k in b) && (k in a ==> a[k] == b[k])
  }

  /** `jobs.set(id, j)` with a new object: the entry is no longer any run's object. */
  function SetEntry(s: Store, id: JobId, j: Job): (r: Store)
    ensures r.jobs == s.jobs[id := j]
    ensures id !in r.shared
  {
    s.(jobs := s.jobs[id := j],
       order := if id in s.jobs then s.order else s.order + [id],
       shared := s.shared - {id})
  }

  lemma SetEntryInv(s: Store, id: JobId, j: Job)
    requires Inv(s) && j.id == id
    ensures Inv(SetEntry(s, id, j))
  {
    var r := SetEntry(s, id, j);
    if id !in s.jobs {
      assert id !in s.order;
      forall k | k in r.order
        ensures k in r.jobs
      {
        if k != id {
          assert k in s.order;
        }
      }
    }
  }

  /** A write to the fields of the stored object, which a run sharing it sees too. */
  function WriteEntry(s: Store, id: JobId, j: Job): Store
    requires id in s.jobs
  {
    s.(jobs := s.jobs[id := j], runs := if id in s.shared then s.runs[id := j] else s.runs)
  }

  lemma WriteEntryInv(s: Store, id: JobId, j: Job)
    requires Inv(s) && id in s.jobs && j.id == id
    ensures Inv(WriteEntry(s, id, j))
  {
  }

  /** `order` without `id`. */
  function Without(order: seq<JobId>, id: JobId): (r: seq<JobId>)
    ensures forall k :: k in r <==> k in order && k != id
    ensures NoDuplicates(order) ==> NoDuplicates(r)
  {
    if order == [] then []
    else
      var rest := Without(order[1..], id);
      assert forall k | k in order[1..] :: k in order;
      if order[0] == id then rest
      else
        assert NoDuplicates(order) ==> NoDuplicates([order[0]] + rest) by {
          if NoDuplicates(order) {
            assert order[0] !in order[1..];
            assert order[0] !in rest;
          }
        }
        [order[0]] + rest
  }

  /** `jobs.delete(id)`. */
  function DeleteEntry(s: Store, id: JobId): (r: Store)
    ensures r.jobs == s.jobs - {id}
  {
    s.(jobs := s.jobs - {id}, order := Without(s.order, id), shared := s.shared - {id})
  }

  // ---------------------------------------------------------------------------------------
  // Starting a batch (startBatchProcessing)

  datatype Started = Started(jobId: JobId, status: string, totalFiles: nat, message: string)

  /** The record a new batch is stored with. */
  function NewJob(id: JobId, files: seq<UploadedFile>, settings: Settings, now: int): (job: Job)
    ensures job.id == id && job.status == Queued && job.files == files && job.settings == settings
    ensures job.progress == Progress(0, |files|, 0) && job.startTime == Some(now)
    ensures job.results == [] && job.errors == [] && job.downloadUrl == None && job.zipPath == None && job.zipSize == None
  {
    Job(id, Queued, files, settings, Some(now), None, None, Progress(0, |files|, 0), [], None, [],
        None, None, None, None, None)
  }

  /** `startBatchProcessing`: rejects an empty upload and changes nothing; otherwise stores a
      queued job under the fresh id, queues its run, and answers with the id and file count. */
  function StartBatch(s: Store, files: seq<UploadedFile>, settings: Settings, id: JobId, now: int): (r: (Store, Reply<Started>))
    requires FreshId(s, id)
    ensures files == [] ==> r.0 == s && r.1 == Failure(400, "No files to process", "Please upload images first")
    ensures files != [] ==>
              && r.1 == Success(Started(id, "queued", |files|, "Processing started"))
              && id in r.0.jobs && r.0.jobs[id].id == id && r.0.jobs[id].status == Queued
              && r.0.jobs[id].files == files && r.0.jobs[id].settings == settings
              && r.0.jobs[id].startTime == Some(now)
              && r.0.jobs[id].progress == Progress(0, |files|, 0)
              && r.0.jobs[id].results == [] && r.0.jobs[id].errors == []
              && r.0.jobs[id].downloadUrl == None && r.0.jobs[id].zipPath == None
              && OthersKept(s.jobs, r.0.jobs, id)
              && r.0.order == s.order + [id]
              && r.0.scheduled == s.scheduled + {id}
              && r.0.runs == s.runs && r.0.active == s.active && r.0.timers == s.timers
    ensures Inv(s) ==> Inv(r.0)
  {
    if files == [] then
      (s, Failure(400, "No files to process", "Please upload images first"))
    else
      var job := NewJob(id, files, settings, now);
      assert Inv(s) ==> Inv(SetEntry(s, id, job)) by {
        if Inv(s) {
          SetEntryInv(s, id, job);
        }
      }
      (SetEntry(s, id, job).(scheduled := s.scheduled + {id}),
       Success(Started(id, "queued", |files|, "Processing started")))
  }

  // ---------------------------------------------------------------------------------------
  // A run (processJob), one event per step between its awaits

  /** The run queued for `id` begins. A missing job, or one already active, ends the run at
      once, and the `finally` block still removes the id from `activeJobs`. Otherwise the run
      takes the stored object as its own, marks it processing with a new start time, and
      becomes active. */
  function Start(s: Store, id: JobId, now: int): (r: Store)
    requires id in s.scheduled
    ensures r.scheduled == s.scheduled - {id}
    ensures id !in s.jobs || id in s.active ==>
              r == s.(scheduled := s.scheduled - {id}, active := s.active - {id})
    ensures id in s.jobs && id !in s.active ==>
              && id in r.active && r.active == s.active + {id}
              && id in r.jobs && id in r.runs && id in r.shared && r.runs[id] == r.jobs[id]
              && r.jobs[id].status == Processing && r.jobs[id].startTime == Some(now)
              && r.jobs[id] == s.jobs[id].(status := Processing, startTime := Some(now))
              && OthersKept(s.jobs, r.jobs, id) && OthersKept(s.runs, r.runs, id)
              && r.order == s.order && r.timers == s.timers
    ensures Inv(s) ==> Inv(r)
  {
    var s1 := s.(scheduled := s.scheduled - {id});
    if id !in s.jobs || id in s.active then
      s1.(active := s.active - {id})
    else
      var job := s.jobs[id].(status := Processing, startTime := Some(now));
      s1.(jobs := s.jobs[id := job], runs := s.runs[id := job], shared := s.shared + {id},
          active := s.active + {id})
  }

  /** The progress callback after `snap.processed` of `snap.total` files: the run's object gets
      a new progress record, rounded to a whole percentage, and a shallow copy of it replaces
      the stored entry, so the entry no longer is the run's object. */
  function Report(s: Store, id: JobId, snap: Snapshot): (r: Store)
    requires id in s.runs && snap.total > 0
    ensures id in r.runs && id in r.jobs && r.jobs[id] == r.runs[id] && id !in r.shared
    ensures r.runs[id] == s.runs[id].(progress := r.runs[id].progress)
    ensures r.runs[id].progress.processed == snap.processed
    ensures r.runs[id].progress.total == snap.total
    ensures snap.processed <= snap.total ==> 0 <= r.runs[id].progress.percentage <= 100
    ensures snap.processed == snap.total ==> r.runs[id].progress.percentage == 100
    ensures OthersKept(s.jobs, r.jobs, id) && OthersKept(s.runs, r.runs, id)
    ensures r.active == s.active && r.scheduled == s.scheduled && r.timers == s.timers
    ensures Inv(s) ==> Inv(r)
  {
    var job := s.runs[id].(progress := Progress(snap.processed, snap.total, Percent(snap.processed, snap.total)));
    var s1 := s.(runs := s.runs[id := job]);
    assert Inv(s) ==> Inv(SetEntry(s1, id, job)) by {
      if Inv(s) {
        SetEntryInv(s1.(shared := s.shared - {id}), id, job);
        assert SetEntry(s1.(shared := s.shared - {id}), id, job) == SetEntry(s1, id, job);
      }
    }
    SetEntry(s1, id, job)
  }

  /** The number of succeeded results. */
  function Successes(results: seq<FileResult>): (n: nat)
    ensures n <= |results|
    ensures n == 0 <==> forall i | 0 <= i < |results| :: !results[i].Succeeded?
  {
    if results == [] then 0
    else (if results[0].Succeeded? then 1 else 0) + Successes(results[1..])
  }

  /** `results.filter(r => r.success)`. */
  function Successful(results: seq<FileResult>): (r: seq<FileResult>)
    ensures |r| == Successes(results)
    ensures forall x :: x in r <==> x in results && x.Succeeded?
  {
    if results == [] then []
    else
      assert forall x | x in results[1..] :: x in results;
      (if results[0].Succeeded? then [results[0]] else []) + Successful(results[1..])
  }

  /** Once every succeeded line's output has been written to `files`, the batch archive holds
      every one of them. */
  lemma OutputsZipped(results: seq<FileResult>, files: map<Path, nat>)
    ensures var written := Written(files, results);
            forall i | 0 <= i < |results| && results[i].Succeeded? ::
              MemberOf(results[i]) in BatchZipEntries(Successful(results), written)
  {
    var written := Written(files, results);
    WrittenHas(files, results);
    var ok := Successful(results);
    forall i | 0 <= i < |results| && results[i].Succeeded?
      ensures MemberOf(results[i]) in BatchZipEntries(ok, written)
    {
      assert results[i] in ok;
      var j :| 0 <= j < |ok| && ok[j] == results[i];
      assert IsZipped(ok[j], written);
    }
  }

  /** What the run makes of `results` before storing it: the results and a full progress
      record, a download link or an error for the archive when something succeeded, and the
      final status, times and counts. `zip` is what creating the archive gave; it is None
      when the archive was not attempted. */
  function Finished(local: Job, id: JobId, results: seq<FileResult>, zip: Option<Result<ZipInfo>>, now: int): (job: Job)
    ensures job.id == local.id && job.files == local.files && job.settings == local.settings
    ensures job.results == results && job.progress.total == local.progress.total
    ensures job.status == (if Successes(results) > 0 then Completed else Failed)
    ensures job.successCount.Some? && job.failedCount.Some?
            && job.successCount.value + job.failedCount.value == |results|
    ensures job.downloadUrl != local.downloadUrl ==> Successes(results) > 0 && zip.Some? && zip.value.Ok?
    ensures if Successes(results) > 0 && zip.Some? && zip.value.Ok?
            then job.zipPath == Some(zip.value.value.path) && job.zipSize == Some(zip.value.value.size)
            else job.zipPath == local.zipPath && job.zipSize == local.zipSize
  {
    var ok := Successes(results);
    var done := local.(results := results, progress := local.progress.(processed := |results|, percentage := 100));
    var zipped :=
      if ok > 0 && zip.Some? then
        match zip.value
        case Ok(z) => done.(downloadUrl := Some("/api/download/zip/" + id), zipPath := Some(z.path), zipSize := Some(z.size))
        case Err(_) => done.(errors := done.errors + ["Failed to create download ZIP"])
      else done;
    zipped.(status := if ok > 0 then Completed else Failed,
            endTime := Some(now),
            duration := Some(now - local.startTime.GetOr(0)),
            successCount := Some(ok),
            failedCount := Some(|results| - ok))
  }

  /** The run has its results: the finished object is stored as a copy, cleanup is
      scheduled, and the run ends and is no longer active. A cancellation in between is
      overwritten: the stored status is completed or failed whatever it was. */
  function Finish(s: Store, id: JobId, results: seq<FileResult>, zip: Option<Result<ZipInfo>>, now: int): (r: Store)
    requires id in s.runs
    ensures id in r.jobs && id !in r.runs && id !in r.active && id !in r.shared
    ensures r.jobs[id].status == (if Successes(results) > 0 then Completed else Failed)
    ensures r.jobs[id].results == results
    ensures r.jobs[id].progress == s.runs[id].progress.(processed := |results|, percentage := 100)
    ensures r.jobs[id].successCount == Some(Successes(results))
    ensures r.jobs[id].failedCount == Some(|results| - Successes(results))
    ensures r.jobs[id].endTime == Some(now)
    ensures r.jobs[id].downloadUrl ==
              if Successes(results) > 0 && zip.Some? && zip.value.Ok? then Some("/api/download/zip/" + id)
              else s.runs[id].downloadUrl
    ensures r.jobs[id].errors ==
              s.runs[id].errors + (if Successes(results) > 0 && zip.Some? && zip.value.Err? then ["Failed to create download ZIP"] else [])
    ensures r.jobs[id].files == s.runs[id].files && r.jobs[id].settings == s.runs[id].settings
    ensures if Successes(results) > 0 && zip.Some? && zip.value.Ok?
            then r.jobs[id].zipPath == Some(zip.value.value.path) && r.jobs[id].zipSize == Some(zip.value.value.size)
            else r.jobs[id].zipPath == s.runs[id].zipPath && r.jobs[id].zipSize == s.runs[id].zipSize
    ensures OthersKept(s.jobs, r.jobs, id) && OthersKept(s.runs, r.runs, id)
    ensures r.active == s.active - {id} && r.timers == s.timers + multiset{id} && r.scheduled == s.scheduled
    ensures Inv(s) ==> Inv(r)
  {
    var job := Finished(s.runs[id], id, results, zip, now);
    var s1 := SetEntry(s, id, job);
    assert Inv(s) ==> Inv(s1) by {
      if Inv(s) {
        SetEntryInv(s, id, job);
      }
    }
    s1.(runs := s1.runs - {id}, active := s1.active - {id}, timers := s1.timers + multiset{id})
  }

  /** The run threw: a stored job is marked failed with the message and an end time, and
      stored as a copy; the run ends and is no longer active. */
  function Crash(s: Store, id: JobId, message: string, now: int): (r: Store)
    requires id in s.runs
    ensures id in s.jobs ==> id in r.jobs && r.jobs[id] == s.jobs[id].(status := Failed, error := Some(message), endTime := Some(now))
    ensures id !in s.jobs ==> r.jobs == s.jobs
    ensures OthersKept(s.jobs, r.jobs, id) && OthersKept(s.runs, r.runs, id)
    ensures id !in r.runs && id !in r.active && id !in r.shared
    ensures r.active == s.active - {id} && r.timers == s.timers && r.scheduled == s.scheduled
    ensures Inv(s) ==> Inv(r)
  {
    var s1 := if id in s.jobs then SetEntry(s, id, s.jobs[id].(status := Failed, error := Some(message), endTime := Some(now))) else s;
    assert Inv(s) ==> Inv(s1) by {
      if Inv(s) && id in s.jobs {
        SetEntryInv(s, id, s.jobs[id].(status := Failed, error := Some(message), endTime := Some(now)));
      }
    }
    s1.(runs := s1.runs - {id}, shared := s1.shared - {id}, active := s1.active - {id})
  }

  // ---------------------------------------------------------------------------------------
  // Cancelling and retrying

  function JobNotFound<T>(): Reply<T> {
    Failure(404, "Job not found", "The specified job ID does not exist")
  }

  predicate HasFinished(st: Status) {
    st == Completed || st == Failed
  }

  /** `cancelJob`: an unknown id is 404 and a completed or failed job 400, both changing
      nothing. Any other job, a cancelled one included, is marked cancelled with an end time
      in place (a run sharing the object sees it) and is no longer active; its uploads are
      deleted by the caller. The run itself goes on. */
  function Cancel(s: Store, id: JobId, now: int): (r: (Store, Reply<string>))
    ensures id !in s.jobs ==> r == (s, JobNotFound())
    ensures id in s.jobs && HasFinished(s.jobs[id].status) ==>
              r == (s, Failure(400, "Job already finished", "Cannot cancel a job that has already completed"))
    ensures id in s.jobs && !HasFinished(s.jobs[id].status) ==>
              && r.1 == Success("Job cancelled successfully")
              && id in r.0.jobs
              && r.0.jobs[id] == s.jobs[id].(status := Cancelled, endTime := Some(now))
              && (id in s.shared ==> id in r.0.runs && r.0.runs[id] == r.0.jobs[id])
              && (id !in s.shared ==> r.0.runs == s.runs)
              && OthersKept(s.jobs, r.0.jobs, id) && OthersKept(s.runs, r.0.runs, id)
              && r.0.active == s.active - {id} && r.0.shared == s.shared
              && r.0.scheduled == s.scheduled && r.0.timers == s.timers
    ensures Inv(s) ==> Inv(r.0)
  {
    if id !in s.jobs then
      (s, JobNotFound())
    else if HasFinished(s.jobs[id].status) then
      (s, Failure(400, "Job already finished", "Cannot cancel a job that has already completed"))
    else
      var job := s.jobs[id].(status := Cancelled, endTime := Some(now));
      assert Inv(s) ==> Inv(WriteEntry(s, id, job)) by {
        if Inv(s) {
          WriteEntryInv(s, id, job);
        }
      }
      (WriteEntry(s, id, job).(active := s.active - {id}), Success("Job cancelled successfully"))
  }

  /** The paths `cleanupJobFiles` deletes: the uploads of the job. */
  function InputPaths(files: seq<UploadedFile>): (p: seq<Path>)
    ensures |p| == |files| && forall i | 0 <= i < |files| :: p[i] == files[i].path
  {
    if files == [] then [] else [files[0].path] + InputPaths(files[1..])
  }

  datatype Retried = Retried(jobId: JobId, originalJobId: JobId, message: string)

  /** `retryJob`: an unknown id is 404 and a processing job 400, both changing nothing.
      Otherwise a spread copy of the job is stored under the fresh id, queued, with progress,
      results, link, errors and times reset, and its run is queued. Every other property the
      original had (archive path and size, counts, crash message) is carried over as it was. */
  function Retry(s: Store, id: JobId, newId: JobId): (r: (Store, Reply<Retried>))
    requires FreshId(s, newId)
    ensures id !in s.jobs ==> r == (s, JobNotFound())
    ensures id in s.jobs && s.jobs[id].status == Processing ==>
              r == (s, Failure(400, "Job is running", "Cannot retry a job that is currently processing"))
    ensures id in s.jobs && s.jobs[id].status != Processing ==>
              var old_ := s.jobs[id];
              && r.1 == Success(Retried(newId, id, "Job retry started"))
              && newId in r.0.jobs && id in r.0.jobs && r.0.jobs[id] == old_
              && (var new_ := r.0.jobs[newId];
                  && new_.id == newId && new_.status == Queued
                  && new_.files == old_.files && new_.settings == old_.settings
                  && new_.startTime == None && new_.endTime == None && new_.duration == None
                  && new_.progress == Progress(0, |old_.files|, 0)
                  && new_.results == [] && new_.downloadUrl == None && new_.errors == []
                  && new_.zipPath == old_.zipPath && new_.zipSize == old_.zipSize
                  && new_.successCount == old_.successCount && new_.failedCount == old_.failedCount
                  && new_.error == old_.error)
              && OthersKept(s.jobs, r.0.jobs, newId)
              && r.0.order == s.order + [newId]
              && r.0.scheduled == s.scheduled + {newId}
              && r.0.runs == s.runs && r.0.active == s.active && r.0.timers == s.timers
    ensures Inv(s) ==> Inv(r.0)
  {
    if id !in s.jobs then
      (s, JobNotFound())
    else if s.jobs[id].status == Processing then
      (s, Failure(400, "Job is running", "Cannot retry a job that is currently processing"))
    else
      var o := s.jobs[id];
      var job := o.(id := newId, status := Queued, startTime := None, endTime := None, duration := None,
                    progress := Progress(0, |o.files|, 0), results := [], downloadUrl := None, errors := []);
      assert Inv(s) ==> Inv(SetEntry(s, newId, job)) by {
        if Inv(s) {
          SetEntryInv(s, newId, job);
        }
      }
      (SetEntry(s, newId, job).(scheduled := s.scheduled + {newId}),
       Success(Retried(newId, id, "Job retry started")))
  }

  // ---------------------------------------------------------------------------------------
  // Cleanup (scheduleCleanup, cleanupJob)

  /** The output paths of the succeeded results; a failed result has none. */
  function OutputPaths(results: seq<FileResult>): (p: seq<Path>)
    ensures |p| == |results|
    ensures forall i | 0 <= i < |results| :: p[i] == if results[i].Succeeded? then results[i].outputPath else ""
  {
    if results == [] then []
    else [if results[0].Succeeded? then results[0].outputPath else ""] + OutputPaths(results[1..])
  }

  /** Every path `cleanupJob` deletes for `job`, in order: uploads, outputs, archive. */
  function CleanupPaths(job: Job): seq<Path> {
    InputPaths(job.files) + OutputPaths(job.results) + [job.zipPath.GetOr("")]
  }

  /** `cleanupJob`: an unknown id changes nothing; otherwise the job is deleted from the store
      (its files are deleted by the caller), and nothing else changes. */
  function Cleanup(s: Store, id: JobId): (r: Store)
    ensures id !in s.jobs ==> r == s
    ensures r.jobs == s.jobs - {id}
    ensures id in s.jobs ==> forall k :: k in r.order <==> k in s.order && k != id
    ensures r.runs == s.runs && r.active == s.active && r.scheduled == s.scheduled && r.timers == s.timers
    ensures Inv(s) ==> Inv(r)
  {
    if id !in s.jobs then s else DeleteEntry(s, id)
  }

  /** The cleanup timer for `id` fires. */
  function FireTimer(s: Store, id: JobId): (r: Store)
    requires id in s.timers
    ensures r.jobs == s.jobs - {id}
    ensures r.timers == s.timers - multiset{id}
    ensures Inv(s) ==> Inv(r)
  {
    Cleanup(s.(timers := s.timers - multiset{id}), id)
  }

  // ---------------------------------------------------------------------------------------
  // Observing jobs (getJobStatus, getJobList, calculateCompressionRatio)

  function OriginalSize(r: FileResult): nat {
    if r.Succeeded? then r.originalSize else 0
  }

  function ProcessedSize(r: FileResult): nat {
    if r.Succeeded? then r.processedSize else 0
  }

  /** The sum of the original sizes, a failed result counting 0. */
  function TotalOriginal(results: seq<FileResult>): (t: nat)
    ensures t == 0 <==> forall i | 0 <= i < |results| :: OriginalSize(results[i]) == 0
  {
    if results == [] then 0 else TotalOriginal(results[..|results| - 1]) + OriginalSize(results[|results| - 1])
  }

  /** The sum of the processed sizes, a failed result counting 0. */
  function TotalProcessed(results: seq<FileResult>): (t: nat)
    ensures t == 0 <==> forall i | 0 <= i < |results| :: ProcessedSize(results[i]) == 0
  {
    if results == [] then 0 else TotalProcessed(results[..|results| - 1]) + ProcessedSize(results[|results| - 1])
  }

  /** `calculateCompressionRatio`: the saving as a whole percentage of the original size, or 0
      when there is no original size. It is the integer nearest the exact ratio; it lies in
      0..100 when the outputs are no larger than the inputs, is 100 when they are empty and 0
      when they are as large; larger outputs give a negative ratio. */
  function CompressionRatio(results: seq<FileResult>): (r: int)
    ensures var o, p := TotalOriginal(results), TotalProcessed(results);
            && (o == 0 ==> r == 0)
            && (o > 0 ==> o * (2 * r - 1) <= 200 * (o - p) < o * (2 * r + 1))
            && (o > 0 && p <= o ==> 0 <= r <= 100)
            && (o > 0 && p == 0 ==> r == 100)
            && (o > 0 && p == o ==> r == 0)
  {
    var o, p := TotalOriginal(results), TotalProcessed(results);
    if o == 0 then 0
    else
      var r := Percent(o - p, o);
      assert p == o ==> r == 0 by {
        if p == o {
          if r > 0 {
            MulMonotone(o, 1, 2 * r - 1);
          } else if r < 0 {
            MulMonotone(o, 2 * r + 1, -1);
          }
        }
      }
      r
  }

  datatype Summary = Summary(totalSize: nat, processedSize: nat, compressionRatio: int)

  /** The answer of `getJobStatus`: no paths, and a size summary only for a completed job. */
  datatype JobView = JobView(
    jobId: JobId,
    status: string,
    progress: Progress,
    startTime: Option<int>,
    endTime: Option<int>,
    duration: Option<int>,
    successCount: Option<nat>,
    failedCount: Option<nat>,
    downloadUrl: Option<string>,
    errors: seq<string>,
    summary: Option<Summary>)

  /** `getJobStatus`: 404 for an unknown id; otherwise the job's public fields, with the size
      summary of its results exactly when it is completed. */
  function JobStatus(s: Store, id: JobId): (r: Reply<JobView>)
    ensures r.Failure? <==> id !in s.jobs
    ensures r.Failure? ==> r == JobNotFound()
    ensures r.Success? ==>
              var job := s.jobs[id];
              && r.body.jobId == job.id && r.body.status == StatusName(job.status)
              && r.body.progress == job.progress && r.body.downloadUrl == job.downloadUrl
              && r.body.errors == job.errors
              && r.body.startTime == job.startTime && r.body.endTime == job.endTime
              && r.body.duration == job.duration
              && r.body.successCount == job.successCount && r.body.failedCount == job.failedCount
              && (r.body.summary.Some? <==> job.status == Completed)
              && (r.body.summary.Some? ==>
                    r.body.summary.value == Summary(TotalOriginal(job.results), TotalProcessed(job.results), CompressionRatio(job.results)))
  {
    if id !in s.jobs then JobNotFound()
    else
      var job := s.jobs[id];
      Success(JobView(job.id, StatusName(job.status), job.progress, job.startTime, job.endTime,
                      job.duration, job.successCount, job.failedCount, job.downloadUrl, job.errors,
                      if job.status == Completed then
                        Some(Summary(TotalOriginal(job.results), TotalProcessed(job.results), CompressionRatio(job.results)))
                      else None))
  }

  /** The `limit` query parameter: absent (50), or what `parseInt` made of it (None for NaN). */
  datatype Limit = DefaultLimit | ParsedLimit(value: Option<int>)

  function LimitValue(limit: Limit): Option<int> {
    match limit
    case DefaultLimit => Some(50)
    case ParsedLimit(v) => v
  }

  datatype JobListItem = JobListItem(
    jobId: JobId,
    status: string,
    totalFiles: nat,
    progress: Progress,
    startTime: Option<int>,
    endTime: Option<int>,
    successCount: Option<nat>,
    failedCount: Option<nat>)

  datatype JobList = JobList(jobs: seq<JobListItem>, total: nat)

  function ListItem(job: Job): JobListItem {
    JobListItem(job.id, StatusName(job.status), |job.files|, job.progress, job.startTime,
                job.endTime, job.successCount, job.failedCount)
  }

  /** The stored jobs in insertion order (`Array.from(jobs.values())`). */
  function InOrder(jobs: map<JobId, Job>, order: seq<JobId>): (r: seq<Job>)
    ensures |r| <= |order|
    ensures forall j :: j in r <==> exists k | k in order :: k in jobs && jobs[k] == j
  {
    if order == [] then []
    else
      var rest := InOrder(jobs, order[1..]);
      assert forall k | k in order[1..] :: k in order;
      assert forall k | k in order :: k == order[0] || k in order[1..];
      if order[0] in jobs then [jobs[order[0]]] + rest else rest
  }

  /** The jobs whose status name is `name`. */
  function WithStatus(jobs: seq<Job>, name: string): (r: seq<Job>)
    ensures |r| <= |jobs|
    ensures forall j :: j in r <==> j in jobs && StatusName(j.status) == name
  {
    if jobs == [] then []
    else
      assert forall j | j in jobs[1..] :: j in jobs;
      (if StatusName(jobs[0].status) == name then [jobs[0]] else []) + WithStatus(jobs[1..], name)
  }

  /** The sort key `b.startTime - a.startTime` compares, a missing start time counting 0. */
  function StartKey(job: Job): int {
    job.startTime.GetOr(0)
  }

  /** The jobs `getJobList` selects, newest first, before the limit is applied. */
  function Selected(s: Store, status: Option<string>): (r: seq<Job>)
    ensures SortedDesc(r, StartKey)
    ensures |r| <= |s.order|
  {
    var all := InOrder(s.jobs, s.order);
    var chosen := if status.Some? && status.value != "" then WithStatus(all, status.value) else all;
    SortDesc(chosen, StartKey)
  }

  /** `getJobList`: the stored jobs, only those with the given status when one is given, newest
      first, cut to the limit, together with the number of all stored jobs. */
  function JobListing(s: Store, status: Option<string>, limit: Limit): (r: JobList)
    ensures r.total == |s.jobs|
    ensures var l := LimitValue(limit); l.Some? && l.value >= 0 ==> |r.jobs| <= l.value
    ensures |r.jobs| <= |Selected(s, status)|
    ensures forall i | 0 <= i < |r.jobs| :: r.jobs[i] == ListItem(Selected(s, status)[i])
    ensures var l, n := LimitValue(limit), |Selected(s, status)|;
            && (l.None? ==> r.jobs == [])
            && (l.Some? && l.value >= 0 ==> |r.jobs| == if l.value < n then l.value else n)
            && (l.Some? && l.value < 0 ==> |r.jobs| == if n + l.value < 0 then 0 else n + l.value)
  {
    var sorted := Selected(s, status);
    var k := SliceEnd(|sorted|, LimitValue(limit));
    JobList(seq(k, i requires 0 <= i < k => ListItem(sorted[i])), |s.jobs|)
  }

  /** The selection holds exactly the stored jobs with the requested status (all of them when
      none is requested), newest first. */
  lemma SelectedJobs(s: Store, status: Option<string>, job: Job)
    requires Inv(s)
    ensures SortedDesc(Selected(s, status), StartKey)
    ensures job in Selected(s, status) <==>
              (exists k | k in s.jobs :: s.jobs[k] == job)
              && (status.Some? && status.value != "" ==> StatusName(job.status) == status.value)
  {
    var all := InOrder(s.jobs, s.order);
    var chosen := if status.Some? && status.value != "" then WithStatus(all, status.value) else all;
    var sorted := SortDesc(chosen, StartKey);
    assert job in sorted <==> job in chosen by {
      assert job in multiset(sorted) <==> job in multiset(chosen);
    }
    assert (exists k | k in s.order :: k in s.jobs && s.jobs[k] == job) <==> (exists k | k in s.jobs :: s.jobs[k] == job);
  }

  /** With a limit at least the number of jobs, the listing misses no selected job. */
  lemma ListingComplete(s: Store, status: Option<string>, n: int)
    requires Inv(s) && n >= |s.jobs|
    ensures |JobListing(s, status, ParsedLimit(Some(n))).jobs| == |Selected(s, status)|
  {
    SelectedBound(s, status);
  }

  lemma SelectedBound(s: Store, status: Option<string>)
    requires Inv(s)
    ensures |Selected(s, status)| <= |s.jobs|
  {
    DistinctCount(s.order);
    assert (set k | k in s.order) == s.jobs.Keys;
  }

  /** A sequence without duplicates has as many elements as it has members. */
  lemma {:induction false} DistinctCount(q: seq<JobId>)
    requires NoDuplicates(q)
    ensures |(set k | k in q)| == |q|
  {
    if q != [] {
      DistinctCount(q[1..]);
      assert (set k | k in q) == (set k | k in q[1..]) + {q[0]};
      assert q[0] !in (set k | k in q[1..]);
    }
  }

  // ---------------------------------------------------------------------------------------
  // What the interleavings of these events do

  /** A job cancelled while its run is in flight does not stay cancelled: when the run
      finishes, the stored status is completed or failed. */
  lemma CancelOverwrittenByFinish(s: Store, id: JobId, t1: int, results: seq<FileResult>, zip: Option<Result<ZipInfo>>, t2: int)
    requires Inv(s) && id in s.runs && id in s.jobs && !HasFinished(s.jobs[id].status)
    ensures var (c, reply) := Cancel(s, id, t1);
            && reply.Success? && c.jobs[id].status == Cancelled && id in c.runs
            && Finish(c, id, results, zip, t2).jobs[id].status == (if Successes(results) > 0 then Completed else Failed)
  {
  }

  /** Between progress reports the cancellation also reaches the run's object, and the next
      report keeps it; once a report has copied the object, the next report puts the run's
      status back. */
  lemma CancelThenReport(s: Store, id: JobId, now: int, snap: Snapshot)
    requires Inv(s) && id in s.runs && id in s.jobs && !HasFinished(s.jobs[id].status) && snap.total > 0
    ensures var c := Cancel(s, id, now).0;
            && id in c.runs
            && var r := Report(c, id, snap);
               && (id in s.shared ==> r.jobs[id].status == Cancelled)
               && (id !in s.shared ==> r.jobs[id].status == s.runs[id].status)
  {
  }

  /** A queued job cancelled before its run begins is processed all the same: the run finds
      it, marks it processing and becomes active. */
  lemma CancelBeforeStart(s: Store, id: JobId, t1: int, t2: int)
    requires Inv(s) && id in s.scheduled && id in s.jobs && id !in s.active && s.jobs[id].status == Queued
    ensures var (c, reply) := Cancel(s, id, t1);
            && reply.Success? && id in c.scheduled
            && var r := Start(c, id, t2);
               && r.jobs[id].status == Processing && id in r.active
  {
  }

  /** Cancelling a job twice succeeds twice: a cancelled job is not finished. */
  lemma CancelTwice(s: Store, id: JobId, t1: int, t2: int)
    requires Cancel(s, id, t1).1.Success?
    ensures Cancel(Cancel(s, id, t1).0, id, t2).1 == Success("Job cancelled successfully")
  {
  }

  /** The first `n` progress callbacks of a run, one `Report` per snapshot, in order. Only
      the run's progress changes; after the last report the stored entry is a copy of the
      run's object with that report's counts. */
  function ReportAll(s: Store, id: JobId, reports: seq<Snapshot>, n: nat): (r: Store)
    requires id in s.runs && n <= |reports|
    requires forall k | 0 <= k < |reports| :: reports[k].total > 0
    ensures id in r.runs
    ensures r.runs[id] == s.runs[id].(progress := r.runs[id].progress)
    ensures n == 0 ==> r == s
    ensures n > 0 ==>
              var last := reports[n - 1];
              && id in r.jobs && r.jobs[id] == r.runs[id] && id !in r.shared
              && r.runs[id].progress.processed == last.processed
              && r.runs[id].progress.total == last.total
              && (last.processed <= last.total ==> 0 <= r.runs[id].progress.percentage <= 100)
    ensures r.active == s.active && r.scheduled == s.scheduled && r.timers == s.timers
    ensures Inv(s) ==> Inv(r)
  {
    if n == 0 then s
    else Report(ReportAll(s, id, reports, n - 1), id, reports[n - 1])
  }

  /** While the reports of a batch of `|outcomes|` files arrive, the stored progress after the
      k-th report counts fewer files than after any later one, never more than the batch
      holds, with a percentage in 0..100. */
  lemma ReportsAdvance(s: Store, id: JobId, outcomes: seq<SharpRun>, k: nat, l: nat)
    requires id in s.runs
    requires 0 < k < l <= |SuccessReports(outcomes, |outcomes|, |outcomes|)|
    ensures var reports := SuccessReports(outcomes, |outcomes|, |outcomes|);
            && (forall j | 0 <= j < |reports| :: reports[j].total > 0)
            && var a := ReportAll(s, id, reports, k);
               var b := ReportAll(s, id, reports, l);
               && id in a.jobs && id in b.jobs
               && a.jobs[id].progress.processed < b.jobs[id].progress.processed
               && b.jobs[id].progress.processed <= b.jobs[id].progress.total == |outcomes|
               && 0 <= a.jobs[id].progress.percentage <= 100
               && 0 <= b.jobs[id].progress.percentage <= 100
  {
    var reports := SuccessReports(outcomes, |outcomes|, |outcomes|);
    SuccessReportsShape(outcomes, |outcomes|, |outcomes|);
  }

  /** A batch has a success exactly when the image library rendered one of its files. */
  lemma SucceededSomewhere(files: seq<UploadedFile>, settings: Settings, outcomes: seq<SharpRun>)
    requires |outcomes| == |files|
    ensures Successes(Batch(files, settings, outcomes)) > 0 <==>
              exists i | 0 <= i < |files| :: outcomes[i].Rendered?
  {
    var results := Batch(files, settings, outcomes);
    BatchAt(files, settings, outcomes);
    assert forall i | 0 <= i < |files| :: results[i].Succeeded? <==> outcomes[i].Rendered?;
  }

  /** The reports of a batch leave the run's object as it was but for its progress, whose
      total stays the number of files. */
  lemma ReportedRun(s: Store, id: JobId, outcomes: seq<SharpRun>)
    requires id in s.runs && s.runs[id].progress.total == |outcomes| > 0
    ensures var reports := SuccessReports(outcomes, |outcomes|, |outcomes|);
            && (forall k | 0 <= k < |reports| :: reports[k].total > 0)
            && var r := ReportAll(s, id, reports, |reports|);
               r.runs[id] == s.runs[id].(progress := r.runs[id].progress) && r.runs[id].progress.total == |outcomes|
  {
    SuccessReportsShape(outcomes, |outcomes|, |outcomes|);
  }

  /** The record `Finish` stores depends on the run's progress only through its total. */
  lemma FinishRecordIs(s: Store, id: JobId, results: seq<FileResult>, zip: Option<Result<ZipInfo>>, now: int, local: Job)
    requires id in s.runs && s.runs[id] == local.(progress := s.runs[id].progress)
    requires s.runs[id].progress.total == local.progress.total
    ensures Finish(s, id, results, zip, now).jobs[id] == Finished(local, id, results, zip, now)
  {
    assert Finished(s.runs[id], id, results, zip, now) == Finished(local, id, results, zip, now);
  }

  /** A batch that nobody interferes with: it is started, its run begins, `batchProcess` runs
      over its files with the image library behaving as `outcomes`, every success reports its
      progress, and the run finishes with the batch's results. */
  function RunAlone(s: Store, files: seq<UploadedFile>, settings: Settings, id: JobId, outcomes: seq<SharpRun>,
                    t0: int, t1: int, zip: Option<Result<ZipInfo>>, t2: int): (r: Store)
    requires Inv(s) && FreshId(s, id) && files != [] && |outcomes| == |files|
    ensures id in r.jobs && id in r.timers && Inv(r)
    ensures r.jobs[id] == Finished(NewJob(id, files, settings, t0).(status := Processing, startTime := Some(t1)),
                                   id, Batch(files, settings, outcomes), zip, t2)
  {
    var s1 := StartBatch(s, files, settings, id, t0).0;
    assert id in s1.jobs && id !in s1.active && id in s1.scheduled && Inv(s1);
    assert s1.jobs[id] == NewJob(id, files, settings, t0);
    var s2 := Start(s1, id, t1);
    var local := NewJob(id, files, settings, t0).(status := Processing, startTime := Some(t1));
    assert s2.runs[id] == local;
    ReportedRun(s2, id, outcomes);
    var reports := SuccessReports(outcomes, |files|, |files|);
    var s3 := ReportAll(s2, id, reports, |reports|);
    var results := Batch(files, settings, outcomes);
    FinishRecordIs(s3, id, results, zip, t2, local);
    Finish(s3, id, results, zip, t2)
  }

  /** What a job that ran through `batchProcess` over `files` with the image library behaving
      as `outcomes`, from `t1` to `t2`, with `zip` as the archive's outcome, holds: one result
      per file in order; completed exactly when some file rendered, failed otherwise; a link
      exactly when the archive was written, and then the archive's path and size, the path
      being among those its cleanup deletes; no archive path otherwise; an error exactly when
      archiving threw; all files
      processed at 100%; counts of successes and failures adding up to the files; and the
      duration since its start. */
  ghost predicate RanThrough(job: Job, files: seq<UploadedFile>, settings: Settings, outcomes: seq<SharpRun>,
                             zip: Option<Result<ZipInfo>>, t1: int, t2: int)
  {
    var rendered := exists i | 0 <= i < |outcomes| :: outcomes[i].Rendered?;
    && |outcomes| == |files| && |job.results| == |files|
    && (forall i | 0 <= i < |files| :: job.results[i] == ResultFor(files[i], settings, i, outcomes[i]))
    && (job.status == Completed <==> rendered)
    && (job.status == Failed <==> !rendered)
    && (job.downloadUrl.Some? <==> rendered && zip.Some? && zip.value.Ok?)
    && (if rendered && zip.Some? && zip.value.Ok?
        then job.zipPath == Some(zip.value.value.path) && job.zipSize == Some(zip.value.value.size)
             && zip.value.value.path in CleanupPaths(job)
        else job.zipPath == None && job.zipSize == None)
    && (job.errors == [] <==> !(rendered && zip.Some? && zip.value.Err?))
    && job.progress == Progress(|files|, |files|, 100)
    && job.successCount.Some? && job.failedCount.Some?
    && job.successCount.value + job.failedCount.value == |files|
    && job.duration == Some(t2 - t1)
  }

  /** After an uninterrupted run the job holds one result per file, is completed exactly when
      the image library rendered some file and failed otherwise, has a download link exactly
      when the archive was created too, an error only for an archive that failed, all files
      processed, success and failure counts adding up to the files, its duration since its
      start, and a cleanup pending, which then removes it. */
  lemma UninterruptedRun(s: Store, files: seq<UploadedFile>, settings: Settings, id: JobId, outcomes: seq<SharpRun>,
                         t0: int, t1: int, zip: Option<Result<ZipInfo>>, t2: int)
    requires Inv(s) && FreshId(s, id) && files != [] && |outcomes| == |files|
    ensures var r := RunAlone(s, files, settings, id, outcomes, t0, t1, zip, t2);
            && id in r.jobs && id in r.timers && Inv(r)
            && RanThrough(r.jobs[id], files, settings, outcomes, zip, t1, t2)
            && id !in FireTimer(r, id).jobs
  {
    var r := RunAlone(s, files, settings, id, outcomes, t0, t1, zip, t2);
    var results := Batch(files, settings, outcomes);
    var local := NewJob(id, files, settings, t0).(status := Processing, startTime := Some(t1));
    assert local.progress == Progress(0, |files|, 0) && local.startTime.GetOr(0) == t1;
    BatchAt(files, settings, outcomes);
    SucceededSomewhere(files, settings, outcomes);
    FinishedFromFresh(local, id, results, zip, t1, t2);
    assert r.jobs[id] == Finished(local, id, results, zip, t2);
    var job := r.jobs[id];
    assert CleanupPaths(job)[|CleanupPaths(job)| - 1] == job.zipPath.GetOr("");
    assert FireTimer(r, id).jobs == r.jobs - {id};
  }

  /** A run that started from a fresh record (no link, no errors yet) ends completed exactly
      when a file succeeded and failed otherwise, has a link exactly when an archive was
      written, an error exactly when archiving threw, all files processed and its duration
      measured from its start. */
  lemma FinishedFromFresh(local: Job, id: JobId, results: seq<FileResult>, zip: Option<Result<ZipInfo>>, start: int, now: int)
    requires local.downloadUrl == None && local.errors == [] && local.startTime == Some(start)
    ensures var job := Finished(local, id, results, zip, now);
            && (job.status == Completed <==> Successes(results) > 0)
            && (job.status == Failed <==> Successes(results) == 0)
            && (job.downloadUrl.Some? <==> Successes(results) > 0 && zip.Some? && zip.value.Ok?)
            && (job.errors == [] <==> !(Successes(results) > 0 && zip.Some? && zip.value.Err?))
            && job.progress == local.progress.(processed := |results|, percentage := 100)
            && job.duration == Some(now - start)
  {
    if Successes(results) > 0 && zip.Some? {
      match zip.value
      case Ok(_) =>
      case Err(_) =>
    }
  }

  /** A retried job carries the original's archive path; if the retry produces no archive of
      its own, its cleanup deletes the original's archive. */
  lemma RetryKeepsArchivePath(s: Store, id: JobId, newId: JobId, t1: int, results: seq<FileResult>, zip: Option<Result<ZipInfo>>, t2: int)
    requires Inv(s) && FreshId(s, newId) && id in s.jobs && s.jobs[id].status != Processing && s.jobs[id].zipPath.Some?
    requires !(zip.Some? && zip.value.Ok?)
    ensures var s1 := Retry(s, id, newId).0;
            && newId in s1.scheduled && newId in s1.jobs && newId !in s1.active
            && var s2 := Start(s1, newId, t1);
               && newId in s2.runs
               && var job := Finish(s2, newId, results, zip, t2).jobs[newId];
                  && job.zipPath == s.jobs[id].zipPath
                  && s.jobs[id].zipPath.value in CleanupPaths(job)
  {
    var s1 := Retry(s, id, newId).0;
    var s2 := Start(s1, newId, t1);
    var job := Finish(s2, newId, results, zip, t2).jobs[newId];
    assert CleanupPaths(job)[|CleanupPaths(job)| - 1] == s.jobs[id].zipPath.value;
  }

  // ---------------------------------------------------------------------------------------
  // The controller object

  class ProcessController {
    var jobs: map<JobId, Job>
    var order: seq<JobId>
    var activeJobs: set<JobId>
    var runs: map<JobId, Job>
    var shared: set<JobId>
    var scheduled: set<JobId>
    var timers: multiset<JobId>
    const disk: Disk

    function Model(): Store
      reads this
    {
      Store(jobs, order, activeJobs, runs, shared, scheduled, timers)
    }

    ghost predicate Valid()
      reads this
    {
      Inv(Model())
    }

    constructor (disk: Disk)
      ensures Valid() && Model() == EmptyStore() && this.disk == disk
    {
      jobs := map[];
      order := [];
      activeJobs := {};
      runs := map[];
      shared := {};
      scheduled := {};
      timers := multiset{};
      this.disk := disk;
    }

    /** `this.jobs.set(id, job)` with an object no run holds. */
    method SetJob(id: JobId, job: Job)
      modifies this
      ensures Model() == SetEntry(old(Model()), id, job)
    {
      if id !in jobs {
        order := order + [id];
      }
      jobs := jobs[id := job];
      shared := shared - {id};
    }

    method StartBatchProcessing(files: seq<UploadedFile>, settings: Settings, newId: JobId, now: int)
      returns (reply: Reply<Started>)
      requires Valid() && FreshId(Model(), newId)
      modifies this
      ensures Valid()
      ensures (Model(), reply) == StartBatch(old(Model()), files, settings, newId, now)
    {
      if files == [] {
        return Failure(400, "No files to process", "Please upload images first");
      }
      var job := NewJob(newId, files, settings, now);
      SetJob(newId, job);
      scheduled := scheduled + {newId};
      reply := Success(Started(newId, "queued", |files|, "Processing started"));
    }

    /** The queued run for `id` begins (`processJob` up to its first await). */
    method ProcessJobStart(id: JobId, now: int)
      requires Valid() && id in scheduled
      modifies this
      ensures Valid()
      ensures Model() == Start(old(Model()), id, now)
    {
      scheduled := scheduled - {id};
      if id !in jobs || id in activeJobs {
        activeJobs := activeJobs - {id};
        return;
      }
      activeJobs := activeJobs + {id};
      var job := jobs[id].(status := Processing, startTime := Some(now));
      jobs := jobs[id := job];
      runs := runs[id := job];
      shared := shared + {id};
    }

    /** The progress callback of the run for `id`. */
    method ReportProgress(id: JobId, snap: Snapshot)
      requires Valid() && id in runs && snap.total > 0
      modifies this
      ensures Valid()
      ensures Model() == Report(old(Model()), id, snap)
    {
      var job := runs[id].(progress := Progress(snap.processed, snap.total, Percent(snap.processed, snap.total)));
      runs := runs[id := job];
      SetJob(id, job);
    }

    /** What archiving the successful `results` of the run for `id` does, from the disk
        `files0`/`archives0` to `files`/`archives`, when the archiver behaves as `run`: no
        archive is attempted when nothing succeeded; an error without touching the disk when
        none of the outputs is still there; otherwise the archive at `ArchivePath(id)` holding
        exactly the outputs still on the disk, with the size the archiver reports, or an error
        and an unchanged disk when the archiver fails. */
    static ghost predicate ArchiveEffect(id: JobId, results: seq<FileResult>, run: ArchiverRun, zip: Option<Result<ZipInfo>>,
                                         files0: map<Path, nat>, archives0: map<Path, seq<ZipEntry>>,
                                         files: map<Path, nat>, archives: map<Path, seq<ZipEntry>>)
    {
      var entries := BatchZipEntries(Successful(results), files0);
      && (zip.Some? <==> Successes(results) > 0)
      && (zip.None? ==> files == files0 && archives == archives0)
      && (zip.Some? && entries == [] ==> zip.value == Err("No processed files available for download")
                                         && files == files0 && archives == archives0)
      && (zip.Some? && entries != [] ==> (zip.value.Ok? <==> run.Closed?))
      && (zip.Some? && entries != [] && run.Closed? ==>
            && zip.value.value == ZipInfo(ArchivePath(id), run.size)
            && files == files0[ArchivePath(id) := run.size]
            && archives == archives0[ArchivePath(id) := entries])
      && (zip.Some? && entries != [] && run.ArchiverFailed? ==> files == files0 && archives == archives0)
    }

    /** Once a result succeeded and its output is still on the disk, the archiver's
        behaviour alone decides the outcome: the archive when it closes, an error when it
        fails. */
    static lemma ZippedWhenSucceeded(id: JobId, results: seq<FileResult>, run: ArchiverRun, zip: Option<Result<ZipInfo>>,
                                     files0: map<Path, nat>, archives0: map<Path, seq<ZipEntry>>,
                                     files: map<Path, nat>, archives: map<Path, seq<ZipEntry>>, i: nat)
      requires ArchiveEffect(id, results, run, zip, files0, archives0, files, archives)
      requires i < |results| && results[i].Succeeded?
      requires MemberOf(results[i]) in BatchZipEntries(Successful(results), files0)
      ensures run.Closed? ==> zip == Some(Ok(ZipInfo(ArchivePath(id), run.size)))
      ensures run.ArchiverFailed? ==> zip.Some? && zip.value.Err?
    {
    }

    /** Archives the successful results of the run for `id` when there is any (with `run` as
        the archiver's behaviour); `zip` is what that gave, None when nothing succeeded. */
    method ArchiveSuccesses(id: JobId, results: seq<FileResult>, run: ArchiverRun)
      returns (zip: Option<Result<ZipInfo>>)
      modifies disk
      ensures zip.Some? <==> Successes(results) > 0
      ensures zip.None? ==> disk.files == old(disk.files) && disk.archives == old(disk.archives)
      ensures zip.Some? ==>
                var entries := BatchZipEntries(Successful(results), old(disk.files));
                && (entries == [] ==> zip.value == Err("No processed files available for download")
                                      && disk.files == old(disk.files) && disk.archives == old(disk.archives))
                && (entries != [] ==> (zip.value.Ok? <==> run.Closed?))
                && (entries != [] && run.Closed? ==>
                      && zip.value.value == ZipInfo(ArchivePath(id), run.size)
                      && disk.files == old(disk.files)[ArchivePath(id) := run.size]
                      && disk.archives == old(disk.archives)[ArchivePath(id) := entries])
                && (entries != [] && run.ArchiverFailed? ==>
                      disk.files == old(disk.files) && disk.archives == old(disk.archives))
      ensures ArchiveEffect(id, results, run, zip, old(disk.files), old(disk.archives), disk.files, disk.archives)
    {
      var successful := Successful(results);
      if |successful| > 0 {
        var r := CreateBatchZip(successful, id, disk, run);
        zip := Some(r);
      } else {
        zip := None;
      }
    }

    /** The run for `id` gets its results: the archive of the successful ones is created when
        there is any, the job is finished and stored, and its cleanup is scheduled. The
        archive's outcome and the disk are as `ArchiveSuccesses` states. */
    method ProcessJobFinish(id: JobId, results: seq<FileResult>, run: ArchiverRun, now: int)
      returns (zip: Option<Result<ZipInfo>>)
      requires Valid() && id in runs
      modifies this, disk
      ensures Valid()
      ensures Model() == Finish(old(Model()), id, results, zip, now)
      ensures ArchiveEffect(id, results, run, zip, old(disk.files), old(disk.archives), disk.files, disk.archives)
    {
      zip := ArchiveSuccesses(id, results, run);
      Complete(id, results, zip, now);
    }

    /** The run for `id` stores its finished record, leaves the active set and schedules its
        cleanup. */
    method Complete(id: JobId, results: seq<FileResult>, zip: Option<Result<ZipInfo>>, now: int)
      requires Valid() && id in runs
      modifies this
      ensures Valid()
      ensures Model() == Finish(old(Model()), id, results, zip, now)
    {
      var job := FinishRecord(runs[id], id, results, zip, now);
      SetJob(id, job);
      runs := runs - {id};
      activeJobs := activeJobs - {id};
      timers := timers + multiset{id};
    }

    /** `processJob` from its first await on, without interruption: `batchProcess` over the
        run's files and settings with the image library behaving as `outcomes`, one progress
        callback per snapshot it reports, then the archive and the finished record. */
    method ProcessJobRun(id: JobId, outcomes: seq<SharpRun>, run: ArchiverRun, now: int)
      returns (results: seq<FileResult>, zip: Option<Result<ZipInfo>>)
      requires Valid() && id in runs && |outcomes| == |runs[id].files|
      modifies this, disk
      ensures Valid()
      ensures |results| == |outcomes|
      ensures forall i | 0 <= i < |outcomes| ::
                results[i] == ResultFor(old(runs[id]).files[i], old(runs[id]).settings, i, outcomes[i])
      ensures var reports := SuccessReports(outcomes, |outcomes|, |outcomes|);
              Model() == Finish(ReportAll(old(Model()), id, reports, |reports|), id, results, zip, now)
      ensures zip.Some? <==> Successes(results) > 0
      ensures forall i | 0 <= i < |results| && results[i].Succeeded? ::
                MemberOf(results[i]) in BatchZipEntries(Successful(results), Written(old(disk.files), results))
      ensures ArchiveEffect(id, results, run, zip, Written(old(disk.files), results), old(disk.archives) - WrittenPaths(results),
                            disk.files, disk.archives)
      ensures run.Closed? && (exists i | 0 <= i < |outcomes| :: outcomes[i].Rendered?) ==>
                zip == Some(Ok(ZipInfo(ArchivePath(id), run.size)))
    {
      ghost var files0, archives0 := disk.files, disk.archives;
      results := ProcessJobBatch(id, outcomes);
      ghost var written, kept := disk.files, disk.archives;
      zip := ProcessJobFinish(id, results, run, now);
      if run.Closed? && exists i | 0 <= i < |outcomes| :: outcomes[i].Rendered? {
        var i :| 0 <= i < |outcomes| && outcomes[i].Rendered?;
        assert results[i].Succeeded?;
        ZippedWhenSucceeded(id, results, run, zip, written, kept, disk.files, disk.archives, i);
      }
    }

    /** The first part of that run: `batchProcess` with its progress callbacks, which leaves
        the outputs it rendered on the disk. */
    method ProcessJobBatch(id: JobId, outcomes: seq<SharpRun>)
      returns (results: seq<FileResult>)
      requires Valid() && id in runs && |outcomes| == |runs[id].files|
      modifies this, disk
      ensures Valid() && id in runs
      ensures |results| == |outcomes|
      ensures forall i | 0 <= i < |outcomes| ::
                results[i] == ResultFor(old(runs[id]).files[i], old(runs[id]).settings, i, outcomes[i])
      ensures var reports := SuccessReports(outcomes, |outcomes|, |outcomes|);
              Model() == ReportAll(old(Model()), id, reports, |reports|)
      ensures disk.files == Written(old(disk.files), results)
      ensures disk.archives == old(disk.archives) - WrittenPaths(results)
      ensures forall i | 0 <= i < |results| && results[i].Succeeded? ::
                MemberOf(results[i]) in BatchZipEntries(Successful(results), disk.files)
    {
      var local := runs[id];
      var reports;
      results, reports := BatchProcess(local.files, local.settings, outcomes, disk);
      OutputsZipped(results, old(disk.files));
      ReportEach(id, reports);
    }

    /** The progress callback of the run for `id`, once per snapshot in order. */
    method ReportEach(id: JobId, reports: seq<Snapshot>)
      requires Valid() && id in runs
      requires forall k | 0 <= k < |reports| :: reports[k].total > 0
      modifies this
      ensures Valid()
      ensures Model() == ReportAll(old(Model()), id, reports, |reports|)
    {
      for k := 0 to |reports|
        invariant Valid() && id in runs
        invariant Model() == ReportAll(old(Model()), id, reports, k)
      {
        ReportNext(id, reports, k, old(Model()));
      }
    }

    /** The k-th progress callback of a run, on top of the earlier ones from `s0`. */
    method ReportNext(id: JobId, reports: seq<Snapshot>, k: nat, ghost s0: Store)
      requires Valid() && id in runs && id in s0.runs && k < |reports|
      requires forall j | 0 <= j < |reports| :: reports[j].total > 0
      requires Model() == ReportAll(s0, id, reports, k)
      modifies this
      ensures Valid() && id in runs
      ensures Model() == ReportAll(s0, id, reports, k + 1)
    {
      ReportProgress(id, reports[k]);
    }

    /** The writes the run makes to its own object once the results and the archive's outcome
        are known. */
    static method FinishRecord(local: Job, id: JobId, results: seq<FileResult>, zip: Option<Result<ZipInfo>>, now: int)
      returns (job: Job)
      ensures job == Finished(local, id, results, zip, now)
    {
      job := local.(results := results, progress := local.progress.(processed := |results|, percentage := 100));
      var succeeded := Successes(results);
      if succeeded > 0 && zip.Some? {
        match zip.value
        case Ok(z) =>
          job := job.(downloadUrl := Some("/api/download/zip/" + id), zipPath := Some(z.path), zipSize := Some(z.size));
        case Err(_) =>
          job := job.(errors := job.errors + ["Failed to create download ZIP"]);
      }
      job := job.(status := if succeeded > 0 then Completed else Failed,
                  endTime := Some(now),
                  duration := Some(now - local.startTime.GetOr(0)),
                  successCount := Some(succeeded),
                  failedCount := Some(|results| - succeeded));
    }

    /** The run for `id` threw `message`. */
    method ProcessJobCrash(id: JobId, message: string, now: int)
      requires Valid() && id in runs
      modifies this
      ensures Valid()
      ensures Model() == Crash(old(Model()), id, message, now)
    {
      if id in jobs {
        var job := jobs[id].(status := Failed, error := Some(message), endTime := Some(now));
        SetJob(id, job);
      }
      runs := runs - {id};
      shared := shared - {id};
      activeJobs := activeJobs - {id};
    }

    /** `cancelJob`, deleting the uploads of a cancelled job (`cleanupJobFiles`). */
    method CancelJob(id: JobId, now: int) returns (reply: Reply<string>)
      requires Valid()
      modifies this, disk
      ensures Valid()
      ensures (Model(), reply) == Cancel(old(Model()), id, now)
      ensures reply.Success? ==>
                var gone := Unlinked(InputPaths(old(jobs)[id].files), old(disk.files), disk.locked);
                disk.files == old(disk.files) - gone && disk.archives == old(disk.archives) - gone
      ensures reply.Failure? ==> disk.files == old(disk.files) && disk.archives == old(disk.archives)
    {
      if id !in jobs {
        return JobNotFound();
      }
      if HasFinished(jobs[id].status) {
        return Failure(400, "Job already finished", "Cannot cancel a job that has already completed");
      }
      var files := jobs[id].files;
      MarkCancelled(id, now);
      disk.UnlinkEach(InputPaths(files));
      reply := Success("Job cancelled successfully");
    }

    /** The writes `cancelJob` makes to a job that has not finished. */
    method MarkCancelled(id: JobId, now: int)
      requires Valid() && id in jobs && !HasFinished(jobs[id].status)
      modifies this
      ensures Valid()
      ensures (Model(), Success("Job cancelled successfully")) == Cancel(old(Model()), id, now)
    {
      var job := jobs[id].(status := Cancelled, endTime := Some(now));
      jobs := jobs[id := job];
      if id in shared {
        runs := runs[id := job];
      }
      activeJobs := activeJobs - {id};
    }

    /** `retryJob`. */
    method RetryJob(id: JobId, newId: JobId) returns (reply: Reply<Retried>)
      requires Valid() && FreshId(Model(), newId)
      modifies this
      ensures Valid()
      ensures (Model(), reply) == Retry(old(Model()), id, newId)
    {
      if id !in jobs {
        return JobNotFound();
      }
      var original := jobs[id];
      if original.status == Processing {
        return Failure(400, "Job is running", "Cannot retry a job that is currently processing");
      }
      var job := original.(id := newId, status := Queued, startTime := None, endTime := None, duration := None,
                           progress := Progress(0, |original.files|, 0), results := [], downloadUrl := None, errors := []);
      SetJob(newId, job);
      scheduled := scheduled + {newId};
      reply := Success(Retried(newId, id, "Job retry started"));
    }

    /** `cleanupJob`: deletes the job's uploads, outputs and archive, then the job. */
    method CleanupJob(id: JobId)
      requires Valid()
      modifies this, disk
      ensures Valid()
      ensures Model() == Cleanup(old(Model()), id)
      ensures id !in old(jobs) ==> disk.files == old(disk.files) && disk.archives == old(disk.archives)
      ensures id in old(jobs) ==>
                var gone := Unlinked(CleanupPaths(old(jobs)[id]), old(disk.files), disk.locked);
                disk.files == old(disk.files) - gone && disk.archives == old(disk.archives) - gone
    {
      if id !in jobs {
        return;
      }
      DeleteFiles(disk, jobs[id]);
      jobs := jobs - {id};
      order := Without(order, id);
      shared := shared - {id};
    }

    /** The three deletion loops of `cleanupJob`: uploads, then outputs, then the archive. */
    static method DeleteFiles(disk: Disk, job: Job)
      modifies disk
      ensures var gone := Unlinked(CleanupPaths(job), old(disk.files), disk.locked);
              disk.files == old(disk.files) - gone && disk.archives == old(disk.archives) - gone
    {
      var a, b, c := InputPaths(job.files), OutputPaths(job.results), [job.zipPath.GetOr("")];
      var f0, z0 := disk.files, disk.archives;
      var g1 := Unlinked(a, f0, disk.locked);
      disk.UnlinkEach(a);
      var g2 := Unlinked(b, f0 - g1, disk.locked);
      disk.UnlinkEach(b);
      UnlinkedConcat(a, b, f0, disk.locked);
      assert disk.files == f0 - Unlinked(a + b, f0, disk.locked) && disk.archives == z0 - Unlinked(a + b, f0, disk.locked) by {
        assert disk.files == (f0 - g1) - g2;
        assert disk.archives == (z0 - g1) - g2;
      }
      var g12 := Unlinked(a + b, f0, disk.locked);
      var g3 := Unlinked(c, f0 - g12, disk.locked);
      disk.UnlinkEach(c);
      UnlinkedConcat(a + b, c, f0, disk.locked);
      assert disk.files == (f0 - g12) - g3 && disk.archives == (z0 - g12) - g3;
      assert CleanupPaths(job) == a + b + c;
    }

    /** The cleanup timer of `id` fires. */
    method FireCleanupTimer(id: JobId)
      requires Valid() && id in timers
      modifies this, disk
      ensures Valid()
      ensures Model() == FireTimer(old(Model()), id)
      ensures id in old(jobs) ==>
                var gone := Unlinked(CleanupPaths(old(jobs)[id]), old(disk.files), disk.locked);
                disk.files == old(disk.files) - gone && disk.archives == old(disk.archives) - gone
    {
      timers := timers - multiset{id};
      CleanupJob(id);
    }
  }
}
