/** The video-info record `getVideoInfo` builds from the extractor's parsed JSON
    (backend/ytdlpHelper.js), and the response the `/api/video/info` handler of
    backend/server.js wraps around it. Every field is defaulted with JavaScript's
    `||`, so an absent field, an empty string and a zero all take the default. */
module Metadata {
  import opened Wrappers
  import opened Text
  import opened Platforms
  import opened Display
  import opened MediaFormats

  /** The fields of the extractor's JSON the backend reads; absent or null is `None`. */
  datatype RawInfo = RawInfo(
    id: Option<string>,
    kind: Option<string>,
    title: Option<string>,
    description: Option<string>,
    thumbnail: Option<string>,
    duration: Option<nat>,
    uploader: Option<string>,
    channel: Option<string>,
    uploadDate: Option<string>,
    viewCount: Option<int>,
    likeCount: Option<int>,
    width: Option<nat>,
    height: Option<nat>,
    formats: Option<seq<MediaFormat>>)

  /** The record `getVideoInfo` resolves with. */
  datatype VideoInfo = VideoInfo(
    id: string,
    platform: string,
    kind: string,
    title: string,
    description: string,
    thumbnail: string,
    duration: nat,
    durationFormatted: string,
    uploader: string,
    uploadDate: string,
    viewCount: int,
    likeCount: int,
    width: nat,
    height: nat,
    originalUrl: string,
    video: seq<FormatOption>,
    audio: seq<FormatOption>)

  /** `n || fallback` for an optional count: absent and 0 take the fallback. */
  function OrCount(n: Option<int>, fallback: int): int {
    if n.Some? && n.value != 0 then n.value else fallback
  }

  /** `n || fallback` for an optional size. */
  function OrSize(n: Option<nat>, fallback: nat): nat {
    if n.Some? && n.value != 0 then n.value else fallback
  }

  /** The record built from the parsed JSON, the requested URL and the current
      time as an ISO string (`new Date().toISOString()`). */
  function NormalizeInfo(raw: RawInfo, url: string, nowIso: string): VideoInfo {
    var duration := OrSize(raw.duration, 0);
    var formats := raw.formats.GetOr([]);
    VideoInfo(
      id := OrString(raw.id, "unknown"),
      platform := PlatformFromUrl(url).Name(),
      kind := OrString(raw.kind, "video"),
      title := OrString(raw.title, "Untitled"),
      description := OrString(raw.description, ""),
      thumbnail := OrString(raw.thumbnail, ""),
      duration := duration,
      durationFormatted := HelperFormatDuration(duration),
      uploader := OrString(raw.uploader, OrString(raw.channel, "Unknown")),
      uploadDate := OrString(raw.uploadDate, nowIso),
      viewCount := OrCount(raw.viewCount, 0),
      likeCount := OrCount(raw.likeCount, 0),
      width := OrSize(raw.width, 1920),
      height := OrSize(raw.height, 1080),
      originalUrl := url,
      video := ExtractVideoFormats(formats),
      audio := ExtractAudioFormats(formats))
  }

  /** Each defaulted field keeps a truthy source value and otherwise takes its
      default: 'unknown', 'video', 'Untitled', '' and '', 0, uploader then channel
      then 'Unknown', the current time, 0, 0, 1920 and 1080. */
  lemma NormalizeInfoDefaults(raw: RawInfo, url: string, nowIso: string)
    ensures var v := NormalizeInfo(raw, url, nowIso);
            && (v.id == if Truthy(raw.id) then raw.id.value else "unknown")
            && (v.kind == if Truthy(raw.kind) then raw.kind.value else "video")
            && (v.title == if Truthy(raw.title) then raw.title.value else "Untitled")
            && (v.description == if Truthy(raw.description) then raw.description.value else "")
            && (v.thumbnail == if Truthy(raw.thumbnail) then raw.thumbnail.value else "")
            && (v.duration == if raw.duration.Some? then raw.duration.value else 0)
            && (v.uploader == if Truthy(raw.uploader) then raw.uploader.value
                              else if Truthy(raw.channel) then raw.channel.value else "Unknown")
            && (v.uploadDate == if Truthy(raw.uploadDate) then raw.uploadDate.value else nowIso)
            && (v.viewCount == if raw.viewCount.Some? then raw.viewCount.value else 0)
            && (v.likeCount == if raw.likeCount.Some? then raw.likeCount.value else 0)
            && (v.width == if raw.width.Some? && raw.width.value != 0 then raw.width.value else 1920)
            && (v.height == if raw.height.Some? && raw.height.value != 0 then raw.height.value else 1080)
            && v.originalUrl == url
  {
  }

  /** The fields the frontend shows are never falsy: id, kind, title and uploader
      are non-empty and the dimensions are non-zero; the upload date is
      non-empty whenever the clock string is. */
  lemma NormalizeInfoFieldsTruthy(raw: RawInfo, url: string, nowIso: string)
    ensures var v := NormalizeInfo(raw, url, nowIso);
            && v.id != "" && v.kind != "" && v.title != "" && v.uploader != ""
            && v.width != 0 && v.height != 0
            && (nowIso != "" ==> v.uploadDate != "")
  {
  }

  /** The formatted duration reads back as the duration, and the platform is the
      one the URL names; the two format lists are those of the `formats` array,
      an absent array counting as empty. */
  lemma NormalizeInfoDerived(raw: RawInfo, url: string, nowIso: string)
    ensures var v := NormalizeInfo(raw, url, nowIso);
            && ParseClock(v.durationFormatted) == Some(v.duration)
            && v.platform == Classify(HelperRules, url).Name()
            && |v.video| <= 5
            && (raw.formats.None? ==> v.video == [] && v.audio == [UnknownAudio])
  {
    var v := NormalizeInfo(raw, url, nowIso);
    FormatDurationCopiesAgree(v.duration);
    FormatDurationShape(v.duration);
    ChainIsFirstMatchingRule(url);
    if raw.formats.None? {
      assert SortByRank([]) == [];
      assert UniqueQualities([], CompanionAudioSize([])) == [];
    }
  }

  /** The record as a parsed JSON object again, with the original format array. */
  function Reraw(v: VideoInfo, formats: Option<seq<MediaFormat>>): RawInfo {
    RawInfo(Some(v.id), Some(v.kind), Some(v.title), Some(v.description), Some(v.thumbnail),
            Some(v.duration), Some(v.uploader), None, Some(v.uploadDate),
            Some(v.viewCount), Some(v.likeCount), Some(v.width), Some(v.height), formats)
  }

  /** Defaulting is idempotent: normalising the normalised record again, at any
      later time, changes nothing, because every default is itself truthy (the
      clock string being non-empty) or the falsy value it replaces. */
  lemma NormalizeInfoIdempotent(raw: RawInfo, url: string, nowIso: string, laterIso: string)
    requires nowIso != ""
    ensures var v := NormalizeInfo(raw, url, nowIso);
            NormalizeInfo(Reraw(v, raw.formats), url, laterIso) == v
  {
  }

  /** The `creator`, `stats` and `dimensions` parts of the info response. */
  datatype InfoResponse = InfoResponse(
    info: VideoInfo,
    id: string,
    username: string,
    displayName: string,
    viewsFormatted: string,
    likesFormatted: string,
    width: nat,
    height: nat)

  /** The `/api/video/info` response for a resolved record, with a fresh id for
      the `videoInfo.id || uuidv4()` fallback. */
  function InfoResponseOf(v: VideoInfo, freshId: string): InfoResponse {
    InfoResponse(
      v,
      if v.id != "" then v.id else freshId,
      if v.uploader != "" then v.uploader else "Unknown",
      if v.uploader != "" then v.uploader else "Unknown",
      FormatCount(v.viewCount),
      FormatCount(v.likeCount),
      if v.width != 0 then v.width else 1920,
      if v.height != 0 then v.height else 1080)
  }

  /** The handler's second round of fallbacks never fires on a record
      `getVideoInfo` built: the fresh id is never used, and the creator and
      dimensions are the record's own. */
  lemma InfoResponseFallbacksUnused(raw: RawInfo, url: string, nowIso: string, freshId: string)
    ensures var v := NormalizeInfo(raw, url, nowIso);
            var r := InfoResponseOf(v, freshId);
            && r.id == v.id && r.username == v.uploader && r.displayName == v.uploader
            && r.width == v.width && r.height == v.height
  {
    NormalizeInfoFieldsTruthy(raw, url, nowIso);
  }
}
