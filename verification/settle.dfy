/** The promise wrappers of `getVideoInfo` and `downloadVideo` in
    backend/ytdlpHelper.js. Each registers three handlers on the child process
    (a timer, the spawn `error` event and the `close` event) and a shared
    `finished` flag makes the first of them to run settle the promise; the
    others find the flag set and do nothing. The process and the timer are left
    out: what remains is the order in which the handlers run. */
module Settle {
  import opened Wrappers
  import opened Text
  import opened Metadata

  /** One handler run. `code` is the exit code; `None` is the null code of a
      process ended by a signal. */
  datatype ProcEvent<C> = TimerFired | SpawnError(message: string) | Closed(code: Option<int>, detail: C)

  datatype Settlement<T> = Pending | Resolved(value: T) | Rejected(reason: string)

  /** The promise state and the `finished` flag after a run of handlers. */
  datatype State<T> = State(finished: bool, settlement: Settlement<T>)

  /** One handler: it does nothing once the flag is set, and otherwise sets the
      flag and settles the promise with what the event decides. */
  function Step<C, T>(s: State<T>, e: ProcEvent<C>, decide: ProcEvent<C> -> Settlement<T>): State<T>
  {
    if s.finished then s else State(true, decide(e))
  }

  /** The handlers run in order from the initial state. */
  function Run<C, T>(events: seq<ProcEvent<C>>, decide: ProcEvent<C> -> Settlement<T>): State<T>
    decreases |events|
  {
    if |events| == 0 then State(false, Pending)
    else Step(Run(events[..|events| - 1], decide), events[|events| - 1], decide)
  }

  /** The promise is settled by the first handler and by nothing after it: with no
      event it is pending, otherwise it is what the first event decides, and the
      flag is set exactly when an event has run. */
  lemma {:induction false} RunSettlesOnce<C, T>(events: seq<ProcEvent<C>>, decide: ProcEvent<C> -> Settlement<T>)
    ensures Run(events, decide).finished <==> |events| > 0
    ensures |events| == 0 ==> Run(events, decide).settlement == Pending
    ensures |events| > 0 ==> Run(events, decide).settlement == decide(events[0])
    decreases |events|
  {
    if |events| > 1 {
      RunSettlesOnce(events[..|events| - 1], decide);
      assert events[..|events| - 1][0] == events[0];
    }
  }

  /** Later handlers cannot change a settled promise. */
  lemma RunIgnoresLaterEvents<C, T>(events: seq<ProcEvent<C>>, later: seq<ProcEvent<C>>, decide: ProcEvent<C> -> Settlement<T>)
    requires |events| > 0
    ensures Run(events + later, decide) == Run(events, decide)
  {
    RunSettlesOnce(events, decide);
    RunSettlesOnce(events + later, decide);
    assert (events + later)[0] == events[0];
  }

  // ---------------------------------------------------------------------------
  // getVideoInfo
  // ---------------------------------------------------------------------------

  /** What the `close` handler of `getVideoInfo` sees: the collected stderr and
      the outcome of `JSON.parse` on the collected stdout. */
  datatype InfoClose = InfoClose(stderr: string, parsed: Result<RawInfo, string>)

  /** The settlement each handler of `getVideoInfo` decides. */
  function InfoDecision(url: string, nowIso: string, e: ProcEvent<InfoClose>): Settlement<VideoInfo> {
    match e
    case TimerFired => Rejected("yt-dlp timeout: took too long to fetch video info")
    case SpawnError(m) => Rejected("Failed to spawn yt-dlp: " + m)
    case Closed(code, c) =>
      if code != Some(0) then Rejected("Failed to fetch video info: " + c.stderr)
      else
        match c.parsed
        case Failure(m) => Rejected("Failed to parse video info: " + m)
        case Success(raw) => Resolved(NormalizeInfo(raw, url, nowIso))
  }

  /** `getVideoInfo(url)` after the given handler runs. */
  function VideoInfoOutcome(url: string, nowIso: string, events: seq<ProcEvent<InfoClose>>): Settlement<VideoInfo> {
    Run(events, e => InfoDecision(url, nowIso, e)).settlement
  }

  /** The info promise resolves exactly when the first handler is a `close` with
      exit code 0 and stdout that parses, and then with the normalised record;
      a timeout, a spawn error, a non-zero or null exit code and a parse error
      each reject with their own message. */
  lemma VideoInfoOutcomeSpec(url: string, nowIso: string, events: seq<ProcEvent<InfoClose>>)
    ensures |events| == 0 <==> VideoInfoOutcome(url, nowIso, events) == Pending
    ensures VideoInfoOutcome(url, nowIso, events).Resolved? <==>
              |events| > 0 && events[0].Closed? && events[0].code == Some(0) && events[0].detail.parsed.Success?
    ensures VideoInfoOutcome(url, nowIso, events).Resolved? ==>
              VideoInfoOutcome(url, nowIso, events).value == NormalizeInfo(events[0].detail.parsed.value, url, nowIso)
    ensures |events| > 0 && events[0].TimerFired? ==>
              VideoInfoOutcome(url, nowIso, events) == Rejected("yt-dlp timeout: took too long to fetch video info")
    ensures |events| > 0 && events[0].Closed? && events[0].code != Some(0) ==>
              VideoInfoOutcome(url, nowIso, events) == Rejected("Failed to fetch video info: " + events[0].detail.stderr)
    ensures |events| > 0 && events[0].SpawnError? ==>
              VideoInfoOutcome(url, nowIso, events) == Rejected("Failed to spawn yt-dlp: " + events[0].message)
    ensures |events| > 0 && events[0].Closed? && events[0].code == Some(0) && events[0].detail.parsed.Failure? ==>
              VideoInfoOutcome(url, nowIso, events) == Rejected("Failed to parse video info: " + events[0].detail.parsed.error)
  {
    RunSettlesOnce(events, e => InfoDecision(url, nowIso, e));
  }

  // ---------------------------------------------------------------------------
  // downloadVideo
  // ---------------------------------------------------------------------------

  /** What the `close` handler of `downloadVideo` sees: the collected stderr and
      the outcome of listing the output directory. */
  datatype DownloadClose = DownloadClose(stderr: string, listing: Result<seq<string>, string>)

  /** The settlement each handler of `downloadVideo` decides; `fileExists` stands for
      `fs.existsSync`. The last name of the listing is taken as the download. */
  function DownloadDecision(outputPath: string, fileExists: string -> bool, e: ProcEvent<DownloadClose>): Settlement<string> {
    match e
    case TimerFired => Rejected("Download timeout")
    case SpawnError(m) => Rejected("Failed to spawn yt-dlp: " + m)
    case Closed(code, c) =>
      if code != Some(0) then Rejected("Download failed: " + c.stderr)
      else
        match c.listing
        case Failure(m) => Rejected("Failed to locate downloaded file: " + m)
        case Success(files) =>
          if |files| == 0 then Rejected("No files were downloaded")
          else
            var filePath := LastListedPath(outputPath, files);
            if !fileExists(filePath) then Rejected("Downloaded file does not exist")
            else Resolved(filePath)
  }

  /** `downloadVideo(url, quality, format, outputPath)` after the given handlers run. */
  function DownloadOutcome(outputPath: string, fileExists: string -> bool, events: seq<ProcEvent<DownloadClose>>): Settlement<string> {
    Run(events, e => DownloadDecision(outputPath, fileExists, e)).settlement
  }

  /** The path `downloadVideo` settles on for a clean close: the last listed
      name joined to the output directory. */
  function LastListedPath(outputPath: string, files: seq<string>): string
    requires |files| > 0
  {
    JoinPath(outputPath, files[|files| - 1])
  }

  /** The download promise resolves exactly when the first handler is a clean
      exit whose directory listing is non-empty and whose last listed file exists,
      and then with the path of that file in the output directory; a timeout, a
      spawn error, a non-zero or null exit code, a failed listing, an empty
      directory and a missing file each reject with their own message. */
  lemma DownloadOutcomeSpec(outputPath: string, fileExists: string -> bool, events: seq<ProcEvent<DownloadClose>>)
    ensures |events| == 0 <==> DownloadOutcome(outputPath, fileExists, events) == Pending
    ensures DownloadOutcome(outputPath, fileExists, events).Resolved? <==>
              && |events| > 0 && events[0].Closed? && events[0].code == Some(0)
              && events[0].detail.listing.Success? && |events[0].detail.listing.value| > 0
              && fileExists(LastListedPath(outputPath, events[0].detail.listing.value))
    ensures DownloadOutcome(outputPath, fileExists, events).Resolved? ==>
              DownloadOutcome(outputPath, fileExists, events).value == LastListedPath(outputPath, events[0].detail.listing.value)
    ensures |events| > 0 && events[0].TimerFired? ==> DownloadOutcome(outputPath, fileExists, events) == Rejected("Download timeout")
    ensures |events| > 0 && events[0].SpawnError? ==>
              DownloadOutcome(outputPath, fileExists, events) == Rejected("Failed to spawn yt-dlp: " + events[0].message)
    ensures |events| > 0 && events[0].Closed? && events[0].code != Some(0) ==>
              DownloadOutcome(outputPath, fileExists, events) == Rejected("Download failed: " + events[0].detail.stderr)
    ensures |events| > 0 && events[0].Closed? && events[0].code == Some(0) && events[0].detail.listing.Failure? ==>
              DownloadOutcome(outputPath, fileExists, events)
                == Rejected("Failed to locate downloaded file: " + events[0].detail.listing.error)
    ensures |events| > 0 && events[0].Closed? && events[0].code == Some(0) && events[0].detail.listing == Success([]) ==>
              DownloadOutcome(outputPath, fileExists, events) == Rejected("No files were downloaded")
    ensures |events| > 0 && events[0].Closed? && events[0].code == Some(0)
            && events[0].detail.listing.Success? && |events[0].detail.listing.value| > 0
            && !fileExists(LastListedPath(outputPath, events[0].detail.listing.value)) ==>
              DownloadOutcome(outputPath, fileExists, events) == Rejected("Downloaded file does not exist")
  {
    RunSettlesOnce(events, e => DownloadDecision(outputPath, fileExists, e));
  }

  /** A resolved download lies directly inside the output directory: its
      directory is the output path and its name is the last listed file. */
  lemma DownloadedFileInOutputDir(outputPath: string, fileExists: string -> bool, events: seq<ProcEvent<DownloadClose>>)
    requires |outputPath| > 0 && outputPath[|outputPath| - 1] != '/'
    requires forall i :: 0 <= i < |events| && events[i].Closed? && events[i].detail.listing.Success? ==>
               forall j :: 0 <= j < |events[i].detail.listing.value| ==> '/' !in events[i].detail.listing.value[j]
    ensures DownloadOutcome(outputPath, fileExists, events).Resolved? ==>
              DirName(DownloadOutcome(outputPath, fileExists, events).value) == outputPath
  {
    DownloadOutcomeSpec(outputPath, fileExists, events);
    if DownloadOutcome(outputPath, fileExists, events).Resolved? {
      var files := events[0].detail.listing.value;
      assert DownloadOutcome(outputPath, fileExists, events).value == JoinPath(outputPath, files[|files| - 1]);
      JoinPathSplits(outputPath, files[|files| - 1]);
    }
  }
}
