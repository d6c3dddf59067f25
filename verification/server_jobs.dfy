/** The download-job lifecycle of backend/server.js: the `activeDownloads` map
    that the `/api/download`, `/api/download/progress/:jobId` and
    `/api/download/file/:jobId` handlers share, with every handler written as a
    pure decision or a pure transition of the map. The fresh id, the clock and
    the file system are parameters. */
module ServerJobs {
  import opened Wrappers
  import opened Text

  /** The statuses the server stores. */
  datatype Status = Processing | Completed | Failed {
    function Name(): string {
      match this
      case Processing => "processing"
      case Completed => "completed"
      case Failed => "failed"
    }
  }

  /** A property of the parsed JSON request body as JavaScript sees it:
      `Absent` is a missing property (`undefined`) and `Compound` an array or an
      object. */
  datatype JsValue = Absent | Null | Bool(b: bool) | Number(x: real) | Str(s: string) | Compound {
    /** JavaScript truthiness: `undefined`, `null`, `false`, `0` and `""` are
        falsy; every other value, arrays and objects included, is truthy. */
    predicate IsTruthy() {
      match this
      case Absent => false
      case Null => false
      case Bool(b) => b
      case Number(x) => x != 0.0
      case Str(s) => s != ""
      case Compound => true
    }
  }

  /** One entry of `activeDownloads`; the request's properties are stored as
      they came. */
  datatype ActiveJob = ActiveJob(
    status: Status,
    progress: int,
    url: JsValue,
    kind: JsValue,
    quality: JsValue,
    format: JsValue,
    startTime: int,
    filePath: Option<string>,
    error: Option<string>)

  type Jobs = map<string, ActiveJob>

  /** The four properties the download handler destructures from the body. */
  datatype DownloadRequest = DownloadRequest(url: JsValue, kind: JsValue, quality: JsValue, format: JsValue)

  // ---------------------------------------------------------------------------
  // POST /api/download
  // ---------------------------------------------------------------------------

  datatype StartReply = MissingParameters | Started(jobId: string)

  /** The status code of a start reply. */
  function StartCode(r: StartReply): int {
    if r.MissingParameters? then 400 else 200
  }

  predicate Complete(req: DownloadRequest) {
    req.url.IsTruthy() && req.kind.IsTruthy() && req.quality.IsTruthy() && req.format.IsTruthy()
  }

  /** The download handler up to the reply: validate, then store a processing job
      under the fresh id. The asynchronous download it starts ends in
      `OnSuccess` or `OnFailure`. */
  function StartDownload(t: Jobs, freshId: string, req: DownloadRequest, now: int): (r: (Jobs, StartReply))
    ensures !Complete(req) <==> r.1 == MissingParameters
  {
    if !Complete(req) then (t, MissingParameters)
    else
      var job := ActiveJob(Processing, 0, req.url, req.kind, req.quality, req.format, now, None, None);
      (t[freshId := job], Started(freshId))
  }

  /** A request missing any of url, type, quality and format is answered 400
      and creates nothing; a complete one creates a processing job with
      progress 0 and no file under the fresh id, and changes nothing else. */
  lemma StartDownloadSpec(t: Jobs, freshId: string, req: DownloadRequest, now: int)
    ensures var (t', reply) := StartDownload(t, freshId, req, now);
            && (!Complete(req) ==> StartCode(reply) == 400 && t' == t)
            && (Complete(req) ==>
                  && StartCode(reply) == 200 && reply == Started(freshId)
                  && t'.Keys == t.Keys + {freshId}
                  && t'[freshId].status == Processing && t'[freshId].progress == 0
                  && t'[freshId].filePath.None? && t'[freshId].error.None?
                  && t'[freshId].startTime == now
                  && t'[freshId].url == req.url && t'[freshId].kind == req.kind
                  && t'[freshId].quality == req.quality && t'[freshId].format == req.format
                  && (forall id :: id in t && id != freshId ==> t'[id] == t[id]))
  {
  }

  /** The check is truthiness only, not type: a numeric quality such as 720 is
      accepted and stored as it came, while 0, `false`, `null`, `""` and a
      missing property are each refused. */
  lemma StartDownloadTruthiness(t: Jobs, freshId: string, now: int, v: JsValue)
    ensures var req := DownloadRequest(Str("https://youtu.be/x"), Str("video"), Number(720.0), Str("mp4"));
            && StartCode(StartDownload(t, freshId, req, now).1) == 200
            && StartDownload(t, freshId, req, now).0[freshId].quality == Number(720.0)
    ensures var req := DownloadRequest(Str("https://youtu.be/x"), Str("video"), v, Str("mp4"));
            (StartCode(StartDownload(t, freshId, req, now).1) == 400 <==> v in {Absent, Null, Bool(false), Number(0.0), Str("")})
  {
  }

  /** The download promise resolved with the file's path. */
  function OnSuccess(t: Jobs, id: string, filePath: string): Jobs {
    if id in t then t[id := t[id].(status := Completed, progress := 100, filePath := Some(filePath))] else t
  }

  /** The download promise rejected with a message. */
  function OnFailure(t: Jobs, id: string, message: string): Jobs {
    if id in t then t[id := t[id].(status := Failed, error := Some(message))] else t
  }

  /** Success completes a present job at 100% with its file and touches nothing
      else; failure marks it failed with the message and keeps its progress; on
      an id no longer present both do nothing. */
  lemma OutcomeSpec(t: Jobs, id: string, filePath: string, message: string)
    ensures id !in t ==> OnSuccess(t, id, filePath) == t && OnFailure(t, id, message) == t
    ensures id in t ==>
              var j, s := t[id], OnSuccess(t, id, filePath)[id];
              s.status == Completed && s.progress == 100 && s.filePath == Some(filePath)
              && s.(status := j.status, progress := j.progress, filePath := j.filePath) == j
    ensures id in t ==>
              var j, f := t[id], OnFailure(t, id, message)[id];
              f.status == Failed && f.error == Some(message) && f.progress == j.progress
              && f.(status := j.status, error := j.error) == j
    ensures OnSuccess(t, id, filePath).Keys == t.Keys && OnFailure(t, id, message).Keys == t.Keys
    ensures forall other :: other in t && other != id ==>
              OnSuccess(t, id, filePath)[other] == t[other] && OnFailure(t, id, message)[other] == t[other]
  {
  }

  // ---------------------------------------------------------------------------
  // GET /api/download/progress/:jobId
  // ---------------------------------------------------------------------------

  datatype ProgressReply =
    | JobNotFound
    | ProgressOf(jobId: string, status: string, progress: int, downloadSpeed: string, eta: int, error: Option<string>)

  function ProgressCode(r: ProgressReply): int {
    if r.JobNotFound? then 404 else 200
  }

  /** `Math.floor(ms / 1000)`; Dafny's division by a positive divisor rounds
      toward negative infinity, as `Math.floor` does. */
  function ElapsedSeconds(now: int, startTime: int): int {
    (now - startTime) / 1000
  }

  /** The progress handler at time `now`. */
  function ProgressQuery(t: Jobs, id: string, now: int): ProgressReply {
    if id !in t then JobNotFound
    else
      var j := t[id];
      var eta := 10 - ElapsedSeconds(now, j.startTime);
      ProgressOf(id, j.status.Name(), j.progress, "2.5 MB/s", if eta > 0 then eta else 0,
                 if Truthy(j.error) then j.error else None)
  }

  /** Unknown ids get 404. Known ids get the stored status and progress, the
      stored error only when it is non-empty, and an estimate that is never
      negative, is the whole seconds left of a ten-second guess, and is 0 from
      ten seconds on. */
  lemma ProgressQuerySpec(t: Jobs, id: string, now: int)
    ensures ProgressCode(ProgressQuery(t, id, now)) == 404 <==> id !in t
    ensures id in t ==>
              var r, j := ProgressQuery(t, id, now), t[id];
              && r.status == j.status.Name() && r.progress == j.progress
              && (r.error.Some? <==> Truthy(j.error)) && (r.error.Some? ==> r.error == j.error)
              && r.eta >= 0
              && (now - j.startTime >= 10000 ==> r.eta == 0)
              && (0 <= now - j.startTime < 10000 ==>
                    (10 - r.eta) * 1000 <= now - j.startTime < (11 - r.eta) * 1000)
  {
  }

  // ---------------------------------------------------------------------------
  // GET /api/download/file/:jobId
  // ---------------------------------------------------------------------------

  datatype FileReply = FileJobNotFound | NotReady(message: string) | FileNotFound | SendFile(path: string)

  function FileCode(r: FileReply): int {
    match r
    case FileJobNotFound => 404
    case NotReady(_) => 400
    case FileNotFound => 404
    case SendFile(_) => 200
  }

  /** The 400 message for a job that has not completed. */
  function NotReadyMessage(status: string): string {
    "Download is " + status + ". Cannot retrieve file."
  }

  /** The file handler; `fileExists` stands for `fs.existsSync`. */
  function FileRequest(t: Jobs, id: string, fileExists: string -> bool): FileReply {
    if id !in t then FileJobNotFound
    else if t[id].status != Completed then NotReady(NotReadyMessage(t[id].status.Name()))
    else if !Truthy(t[id].filePath) || !fileExists(t[id].filePath.value) then FileNotFound
    else SendFile(t[id].filePath.value)
  }

  /** The checks run in order: unknown id (404), not completed (400), missing
      path or file (404); a file is sent only for a completed job whose stored
      path exists. */
  lemma FileRequestSpec(t: Jobs, id: string, fileExists: string -> bool)
    ensures var r := FileRequest(t, id, fileExists);
            && (id !in t <==> r == FileJobNotFound)
            && (id in t && t[id].status != Completed <==> FileCode(r) == 400)
            && (r.SendFile? <==> id in t && t[id].status == Completed && Truthy(t[id].filePath) && fileExists(t[id].filePath.value))
            && (r.SendFile? ==> r.path == t[id].filePath.value)
  {
  }

  /** A job still downloading is refused with its status in the message. */
  lemma FileRequestWhileProcessing(t: Jobs, id: string, fileExists: string -> bool)
    requires id in t && t[id].status == Processing
    ensures FileRequest(t, id, fileExists) == NotReady(NotReadyMessage("processing"))
  {
  }

  /** The callback of `res.download` one second later: the job's directory is
      removed and the job deleted only when the transfer succeeded, the file
      still exists and `rmSync` did not throw. Returns the table and the
      directory whose removal was attempted. */
  function AfterTransfer(t: Jobs, id: string, filePath: string, transferOk: bool, stillExists: bool, rmOk: bool): (Jobs, Option<string>) {
    if !transferOk || !stillExists then (t, None)
    else (if rmOk then t - {id} else t, Some(DirName(filePath)))
  }

  /** The job leaves the table exactly when the transfer, the existence check and
      the removal all succeed; a failed transfer leaves the table as it was, and
      no other job is ever touched. */
  lemma AfterTransferSpec(t: Jobs, id: string, filePath: string, transferOk: bool, stillExists: bool, rmOk: bool)
    ensures var (t', dir) := AfterTransfer(t, id, filePath, transferOk, stillExists, rmOk);
            && (id in t ==> (id !in t' <==> transferOk && stillExists && rmOk))
            && (!transferOk ==> t' == t && dir.None?)
            && (dir.Some? <==> transferOk && stillExists)
            && (forall other :: other != id ==> (other in t' <==> other in t))
            && (forall other :: other in t' ==> t'[other] == t[other])
  {
  }

  /** The directory removed is the job's own download directory
      `join(tempDir, jobId)`, when the file was downloaded straight into it. */
  lemma AfterTransferRemovesJobDir(tempDir: string, jobId: string, name: string)
    requires |tempDir| > 0 && tempDir[|tempDir| - 1] != '/'
    requires |jobId| > 0 && '/' !in jobId
    requires '/' !in name
    ensures DirName(JoinPath(JoinPath(tempDir, jobId), name)) == JoinPath(tempDir, jobId)
  {
    var out := JoinPath(tempDir, jobId);
    assert out[|out| - 1] == jobId[|jobId| - 1];
    JoinPathSplits(out, name);
  }

  // ---------------------------------------------------------------------------
  // The lifecycle
  // ---------------------------------------------------------------------------

  /** Everything that changes the map. */
  datatype Event =
    | StartEvent(freshId: string, req: DownloadRequest, now: int)
    | SuccessEvent(id: string, filePath: string)
    | FailureEvent(id: string, message: string)
    | TransferEvent(id: string, transferOk: bool, stillExists: bool, rmOk: bool)

  function Apply(t: Jobs, e: Event): Jobs {
    match e
    case StartEvent(freshId, req, now) => StartDownload(t, freshId, req, now).0
    case SuccessEvent(id, p) => OnSuccess(t, id, p)
    case FailureEvent(id, m) => OnFailure(t, id, m)
    case TransferEvent(id, ok, ex, rm) =>
      if id in t && FileRequest(t, id, _ => ex).SendFile? then AfterTransfer(t, id, t[id].filePath.value, ok, ex, rm).0 else t
  }

  function RunEvents(t: Jobs, events: seq<Event>): Jobs
    decreases |events|
  {
    if |events| == 0 then t else RunEvents(Apply(t, events[0]), events[1..])
  }

  /** The shape a job has in each status: processing at 0% without a file,
      completed at 100% with a file, failed with an error message. */
  predicate WellFormedJob(j: ActiveJob) {
    && (j.status == Processing ==> j.progress == 0 && j.filePath.None? && j.error.None?)
    && (j.status == Completed ==> j.progress == 100 && j.filePath.Some?)
    && (j.status == Failed ==> j.error.Some?)
    && (j.progress == 0 || j.progress == 100)
  }

  predicate WellFormed(t: Jobs) {
    forall id :: id in t ==> WellFormedJob(t[id])
  }

  lemma ApplyKeepsWellFormed(t: Jobs, e: Event)
    requires WellFormed(t)
    ensures WellFormed(Apply(t, e))
  {
  }

  /** Every job stays well formed whatever the handlers do: progress is only ever
      0 or 100 (it is never streamed), a processing job has no file, and a
      completed job has one. */
  lemma {:induction false} RunKeepsWellFormed(t: Jobs, events: seq<Event>)
    requires WellFormed(t)
    ensures WellFormed(RunEvents(t, events))
    decreases |events|
  {
    if |events| > 0 {
      ApplyKeepsWellFormed(t, events[0]);
      RunKeepsWellFormed(Apply(t, events[0]), events[1..]);
    }
  }

  /** The events the server can produce: a fresh id per start, and an outcome
      only for a job still processing (each download settles once). */
  predicate Admissible(t: Jobs, e: Event) {
    match e
    case StartEvent(freshId, _, _) => freshId !in t
    case SuccessEvent(id, _) => id in t ==> t[id].status == Processing
    case FailureEvent(id, _) => id in t ==> t[id].status == Processing
    case TransferEvent(_, _, _, _) => true
  }

  /** Under admissible events a job's progress never goes down and a finished
      job keeps its status and file until it is deleted. */
  lemma ApplyIsMonotone(t: Jobs, e: Event)
    requires WellFormed(t) && Admissible(t, e)
    ensures forall id :: id in t && id in Apply(t, e) ==>
              && Apply(t, e)[id].progress >= t[id].progress
              && (t[id].status != Processing ==> Apply(t, e)[id] == t[id])
  {
  }
}
