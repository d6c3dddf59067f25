/** The `DownloadManager` class of backend/downloadManager.js: a table of job
    records keyed by id. The fresh id (`uuidv4()`), the clock (`Date.now()`), the
    temp directory and `fs.existsSync` are parameters; file deletion is reported
    as the path whose removal is attempted. */
module DownloadManager {
  import opened Wrappers
  import opened Text

  /** One job record. Statuses are the strings the source stores; `updateJob`
      may store any string there. */
  datatype Job = Job(
    id: string,
    url: string,
    kind: Option<string>,
    quality: Option<string>,
    format: Option<string>,
    status: string,
    progress: int,
    speed: string,
    eta: int,
    createdAt: int,
    updatedAt: int,
    filePath: Option<string>,
    error: Option<string>)

  type Table = map<string, Job>

  /** The `options` argument of `createJob`; a missing property is `None`. */
  datatype JobOptions = JobOptions(kind: Option<string>, quality: Option<string>, format: Option<string>)

  /** The expiry `getFileExpiryTime()` returns when no environment override is set. */
  const DefaultFileExpiry: int := 3600000

  // ---------------------------------------------------------------------------
  // createJob / getJob
  // ---------------------------------------------------------------------------

  /** `createJob(url, options)` with the id `uuidv4()` returned and the two
      readings of `Date.now()`, taken for `createdAt` and then for `updatedAt`:
      the new table and the stored record. */
  function CreateJob(t: Table, freshId: string, url: string, options: JobOptions, created: int, updated: int): (r: (Table, Job))
    ensures r.0.Keys == t.Keys + {freshId}
    ensures r.0[freshId] == r.1
    ensures forall id :: id in t && id != freshId ==> r.0[id] == t[id]
  {
    var job := Job(freshId, url, options.kind, options.quality, options.format,
                   "pending", 0, "0 MB/s", 0, created, updated, None, None);
    (t[freshId := job], job)
  }

  /** A created job is pending with no progress, no file and no error, and
      carries the request's URL and options. Its two timestamps are the two
      clock readings, so `createdAt <= updatedAt` whenever the clock did not go
      back between them. */
  lemma CreateJobFresh(t: Table, freshId: string, url: string, options: JobOptions, created: int, updated: int)
    ensures var (t', job) := CreateJob(t, freshId, url, options, created, updated);
            && job.id == freshId && job.url == url
            && job.kind == options.kind && job.quality == options.quality && job.format == options.format
            && job.status == "pending" && job.progress == 0
            && job.filePath.None? && job.error.None?
            && job.createdAt == created && job.updatedAt == updated
            && (created <= updated ==> job.createdAt <= job.updatedAt)
            && GetJob(t', freshId) == Some(job)
  {
  }

  /** `getJob(id)`: the record, or `undefined`. */
  function GetJob(t: Table, id: string): (r: Option<Job>)
    ensures r.Some? <==> id in t
    ensures r.Some? ==> r.value == t[id]
  {
    if id in t then Some(t[id]) else None
  }

  // ---------------------------------------------------------------------------
  // updateJob
  // ---------------------------------------------------------------------------

  /** The `updates` object of `updateJob`: a field is `Some` when the object has
      that property. `filePath` and `error` may be set to null, hence the nested
      option. */
  datatype Patch = Patch(
    id: Option<string>,
    url: Option<string>,
    kind: Option<Option<string>>,
    quality: Option<Option<string>>,
    format: Option<Option<string>>,
    status: Option<string>,
    progress: Option<int>,
    speed: Option<string>,
    eta: Option<int>,
    createdAt: Option<int>,
    updatedAt: Option<int>,
    filePath: Option<Option<string>>,
    error: Option<Option<string>>)

  /** The patch with no property. */
  const EmptyPatch := Patch(None, None, None, None, None, None, None, None, None, None, None, None, None)

  /** `{ ...job, ...updates }`: each property present in the patch wins. */
  function Spread(job: Job, p: Patch): Job {
    Job(p.id.GetOr(job.id), p.url.GetOr(job.url), p.kind.GetOr(job.kind), p.quality.GetOr(job.quality),
        p.format.GetOr(job.format), p.status.GetOr(job.status), p.progress.GetOr(job.progress),
        p.speed.GetOr(job.speed), p.eta.GetOr(job.eta), p.createdAt.GetOr(job.createdAt),
        p.updatedAt.GetOr(job.updatedAt), p.filePath.GetOr(job.filePath), p.error.GetOr(job.error))
  }

  /** `{ ...p, ...q }` for two patches: q's properties win. */
  function Merge(p: Patch, q: Patch): Patch {
    Patch(if q.id.Some? then q.id else p.id, if q.url.Some? then q.url else p.url,
          if q.kind.Some? then q.kind else p.kind, if q.quality.Some? then q.quality else p.quality,
          if q.format.Some? then q.format else p.format, if q.status.Some? then q.status else p.status,
          if q.progress.Some? then q.progress else p.progress, if q.speed.Some? then q.speed else p.speed,
          if q.eta.Some? then q.eta else p.eta, if q.createdAt.Some? then q.createdAt else p.createdAt,
          if q.updatedAt.Some? then q.updatedAt else p.updatedAt,
          if q.filePath.Some? then q.filePath else p.filePath, if q.error.Some? then q.error else p.error)
  }

  /** `updateJob(id, updates)` at time `now`: the new table and the returned
      record, `null` for an unknown id. */
  function UpdateJob(t: Table, id: string, p: Patch, now: int): (r: (Table, Option<Job>))
    ensures id !in t ==> r.0 == t && r.1.None?
    ensures id in t ==> r.1.Some? && r.0 == t[id := r.1.value]
  {
    if id !in t then (t, None)
    else
      var updated := Spread(t[id], p).(updatedAt := now);
      (t[id := updated], Some(updated))
  }

  /** An update on a known id overrides exactly the supplied properties, keeps
      the others, and stamps `updatedAt` with the current time even when the
      patch supplies one. */
  lemma UpdateJobFields(t: Table, id: string, p: Patch, now: int)
    requires id in t
    ensures var j, u := t[id], UpdateJob(t, id, p, now).1.value;
            && u.updatedAt == now
            && (p.status.Some? ==> u.status == p.status.value) && (p.status.None? ==> u.status == j.status)
            && (p.progress.Some? ==> u.progress == p.progress.value) && (p.progress.None? ==> u.progress == j.progress)
            && (p.filePath.Some? ==> u.filePath == p.filePath.value) && (p.filePath.None? ==> u.filePath == j.filePath)
            && (p.error.Some? ==> u.error == p.error.value) && (p.error.None? ==> u.error == j.error)
            && (p.createdAt.None? ==> u.createdAt == j.createdAt)
            && u.(updatedAt := j.updatedAt) == Spread(j, p.(updatedAt := None))
  {
  }

  /** Updating with no properties only stamps the record. */
  lemma UpdateJobEmptyPatch(t: Table, id: string, now: int)
    requires id in t
    ensures UpdateJob(t, id, EmptyPatch, now).1 == Some(t[id].(updatedAt := now))
  {
  }

  /** Two updates of the same job are one update with the merged patch, stamped
      with the later time. */
  lemma UpdateJobComposes(t: Table, id: string, p: Patch, q: Patch, now1: int, now2: int)
    ensures UpdateJob(UpdateJob(t, id, p, now1).0, id, q, now2) == UpdateJob(t, id, Merge(p, q), now2)
  {
    if id in t {
      var j := t[id];
      var once := Spread(j, p).(updatedAt := now1);
      assert Spread(once, q).(updatedAt := now2) == Spread(j, Merge(p, q)).(updatedAt := now2);
      assert t[id := once][id := Spread(once, q).(updatedAt := now2)] == t[id := Spread(once, q).(updatedAt := now2)];
    }
  }

  /** An update never adds or drops an id and leaves every other job alone. */
  lemma UpdateJobLeavesOthers(t: Table, id: string, p: Patch, now: int)
    ensures UpdateJob(t, id, p, now).0.Keys == t.Keys
    ensures forall other :: other in t && other != id ==> UpdateJob(t, id, p, now).0[other] == t[other]
  {
  }

  // ---------------------------------------------------------------------------
  // removeJob
  // ---------------------------------------------------------------------------

  /** `removeJob(id)`: the new table and the file whose unlinking is attempted
      (a failed unlink is only logged). */
  function RemoveJob(t: Table, id: string, fileExists: string -> bool): (r: (Table, Option<string>))
    ensures id !in r.0
    ensures forall other :: other in t && other != id ==> other in r.0 && r.0[other] == t[other]
    ensures forall other :: other in r.0 ==> other in t
    ensures r.1.Some? ==> id in t && t[id].filePath == r.1
  {
    var unlink :=
      if id in t && t[id].filePath.Some? && t[id].filePath.value != "" && fileExists(t[id].filePath.value)
      then Some(t[id].filePath.value) else None;
    (t - {id}, unlink)
  }

  /** After removal the id is gone and every other entry is as it was, whatever
      happened to the file; a file is unlinked only for a present job whose
      truthy `filePath` exists. */
  lemma RemoveJobSpec(t: Table, id: string, fileExists: string -> bool)
    ensures var (t', unlink) := RemoveJob(t, id, fileExists);
            && id !in t'
            && t'.Keys == t.Keys - {id}
            && (forall other :: other in t' ==> t'[other] == t[other])
            && (unlink.Some? <==> id in t && Truthy(t[id].filePath) && fileExists(t[id].filePath.value))
            && (unlink.Some? ==> unlink.value == t[id].filePath.value)
  {
  }

  /** `getJob` sees the last write: a created job until it is updated, the
      updated record after `updateJob`, nothing after `removeJob`; every other
      id reads as before. */
  lemma GetJobSeesLastWrite(t: Table, id: string, other: string, url: string, options: JobOptions,
                            created: int, updated: int, p: Patch, now: int, fileExists: string -> bool)
    requires other != id
    ensures GetJob(CreateJob(t, id, url, options, created, updated).0, id) == Some(CreateJob(t, id, url, options, created, updated).1)
    ensures GetJob(CreateJob(t, id, url, options, created, updated).0, other) == GetJob(t, other)
    ensures GetJob(UpdateJob(t, id, p, now).0, id) == UpdateJob(t, id, p, now).1
    ensures GetJob(UpdateJob(t, id, p, now).0, other) == GetJob(t, other)
    ensures GetJob(RemoveJob(t, id, fileExists).0, id) == None
    ensures GetJob(RemoveJob(t, id, fileExists).0, other) == GetJob(t, other)
  {
  }

  /** Removing a job that was just created under a fresh id gives back the
      table as it was before. */
  lemma RemoveUndoesCreate(t: Table, freshId: string, url: string, options: JobOptions,
                           created: int, updated: int, fileExists: string -> bool)
    requires freshId !in t
    ensures RemoveJob(CreateJob(t, freshId, url, options, created, updated).0, freshId, fileExists).0 == t
    ensures RemoveJob(CreateJob(t, freshId, url, options, created, updated).0, freshId, fileExists).1 == None
  {
    var t' := RemoveJob(CreateJob(t, freshId, url, options, created, updated).0, freshId, fileExists).0;
    assert t'.Keys == t.Keys;
  }

  // ---------------------------------------------------------------------------
  // cleanupExpired
  // ---------------------------------------------------------------------------

  /** The sweep's test: completed, and last updated strictly more than `expiry`
      milliseconds ago. */
  predicate Expired(job: Job, now: int, expiry: int) {
    job.status == "completed" && now - job.updatedAt > expiry
  }

  /** The table the sweep leaves. */
  function Sweep(t: Table, now: int, expiry: int): (r: Table)
    ensures forall id :: id in r <==> id in t && !Expired(t[id], now, expiry)
    ensures forall id :: id in r ==> r[id] == t[id]
  {
    map id | id in t && !Expired(t[id], now, expiry) :: t[id]
  }

  /** The files the sweep's `removeJob` calls try to unlink. */
  function SweptFiles(t: Table, now: int, expiry: int, fileExists: string -> bool): set<string> {
    set id | id in t && Expired(t[id], now, expiry) && Truthy(t[id].filePath) && fileExists(t[id].filePath.value)
      :: t[id].filePath.value
  }

  /** `cleanupExpired()` at time `now`: the entry loop calling `removeJob` on each
      expired job. It gives the table the sweep describes, and the files unlinked. */
  method CleanupExpired(t: Table, now: int, expiry: int, fileExists: string -> bool)
    returns (r: Table, unlinked: set<string>)
    ensures r == Sweep(t, now, expiry)
    ensures unlinked == SweptFiles(t, now, expiry, fileExists)
  {
    r := t;
    unlinked := {};
    var todo := t.Keys;
    while todo != {}
      invariant todo <= t.Keys
      invariant r.Keys <= t.Keys
      invariant forall id :: id in t ==> (id in r <==> id in todo || !Expired(t[id], now, expiry))
      invariant forall id :: id in r ==> r[id] == t[id]
      invariant unlinked == set id | id in t.Keys - todo && Expired(t[id], now, expiry) && Truthy(t[id].filePath) && fileExists(t[id].filePath.value)
                              :: t[id].filePath.value
      decreases todo
    {
      var id :| id in todo;
      if Expired(r[id], now, expiry) {
        var removed := RemoveJob(r, id, fileExists);
        if removed.1.Some? {
          unlinked := unlinked + {removed.1.value};
        }
        r := removed.0;
      }
      todo := todo - {id};
    }
  }

  /** Pending, processing and failed jobs survive the sweep at any age, and a
      completed job survives exactly while it is at most `expiry` old. */
  lemma SweepKeepsUnfinished(t: Table, now: int, expiry: int)
    ensures forall id :: id in t && t[id].status != "completed" ==> id in Sweep(t, now, expiry)
    ensures forall id :: id in t && t[id].status == "completed" ==>
              (id in Sweep(t, now, expiry) <==> now - t[id].updatedAt <= expiry)
  {
  }

  /** Sweeping twice at the same time is sweeping once; a sweep at a later time
      removes at least what an earlier one did. */
  lemma SweepIdempotent(t: Table, now: int, later: int, expiry: int)
    requires now <= later
    ensures Sweep(Sweep(t, now, expiry), now, expiry) == Sweep(t, now, expiry)
    ensures Sweep(t, later, expiry).Keys <= Sweep(t, now, expiry).Keys
  {
  }

  // ---------------------------------------------------------------------------
  // getActiveDownloads / generateFilePath
  // ---------------------------------------------------------------------------

  predicate IsActive(job: Job) {
    job.status == "processing" || job.status == "pending"
  }

  /** `getActiveDownloads()`: the records whose status is processing or pending,
      one per such id (`ids[k]` is the id of `jobs[k]`). */
  method ActiveDownloads(t: Table) returns (jobs: seq<Job>, ids: seq<string>)
    ensures |jobs| == |ids|
    ensures forall k :: 0 <= k < |ids| ==> ids[k] in t && jobs[k] == t[ids[k]] && IsActive(jobs[k])
    ensures forall id :: id in t && IsActive(t[id]) ==> id in ids
    ensures forall k, m :: 0 <= k < m < |ids| ==> ids[k] != ids[m]
  {
    jobs, ids := [], [];
    var todo := t.Keys;
    while todo != {}
      invariant todo <= t.Keys
      invariant |jobs| == |ids|
      invariant forall k :: 0 <= k < |ids| ==> ids[k] in t && ids[k] !in todo && jobs[k] == t[ids[k]] && IsActive(jobs[k])
      invariant forall id :: id in t && id !in todo && IsActive(t[id]) ==> id in ids
      invariant forall k, m :: 0 <= k < m < |ids| ==> ids[k] != ids[m]
      decreases todo
    {
      var id :| id in todo;
      if IsActive(t[id]) {
        jobs, ids := jobs + [t[id]], ids + [id];
      }
      todo := todo - {id};
    }
  }

  /** `generateFilePath(jobId, extension)` under the temp directory. */
  function GenerateFilePath(tempPath: string, jobId: string, extension: string): string {
    JoinPath(tempPath, jobId + "." + extension)
  }

  /** The generated path sits directly in the temp directory, is named after the
      job and ends with the extension. */
  lemma GenerateFilePathSpec(tempPath: string, jobId: string, extension: string)
    requires |tempPath| > 0 && tempPath[|tempPath| - 1] != '/'
    requires '/' !in jobId && '/' !in extension
    ensures var p := GenerateFilePath(tempPath, jobId, extension);
            && DirName(p) == tempPath
            && BaseName(p) == jobId + "." + extension
            && EndsWith(p, "." + extension)
  {
    var name := jobId + "." + extension;
    FileNameHasNoSlash(jobId, extension);
    JoinPathSplits(tempPath, name);
    EndsWithAppended(jobId, "." + extension);
    assert name == jobId + ("." + extension);
    EndsWithTransitive(GenerateFilePath(tempPath, jobId, extension), name, "." + extension);
  }

  /** Joining two names without '/' around a '.' gives a name without '/'. */
  lemma FileNameHasNoSlash(jobId: string, extension: string)
    requires '/' !in jobId && '/' !in extension
    ensures '/' !in jobId + "." + extension
  {
    var name := jobId + "." + extension;
    forall i | 0 <= i < |name|
      ensures name[i] != '/'
    {
      if i < |jobId| { assert name[i] == jobId[i]; }
      else if i > |jobId| { assert name[i] == extension[i - |jobId| - 1]; }
    }
  }
}
