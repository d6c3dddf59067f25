# VidVault backend — a Dafny model

VidVault is a video-download web service. Its backend asks the `yt-dlp` tool for a
video's metadata and formats, starts downloads as background jobs, reports their
progress, hands over the finished file and rate-limits its clients. This project
models the decision logic of that backend as pure Dafny functions over immutable
data and proves what the code promises. The clock, fresh ids, the filesystem and
the child process become parameters or abstract events.

| file | module | models |
|---|---|---|
| `wrappers.dfy` | `Wrappers` | `Option` and `Result` |
| `text.dfy` | `Text` | JavaScript string helpers: `||` truthiness, `String(n)`, `parseInt`, `padStart`, `includes`, `endsWith`, ASCII `toLowerCase`, `split`, `path.join`, `dirname`, `basename` |
| `platforms.dfy` | `Platforms` | the three platform if-chains (`detectPlatform`, the URL-validation handler, `getPlatformFromUrl`) and one rule table they all read first-match-wins |
| `display.dfy` | `Display` | `formatNumber`, both copies of `formatDuration`, `formatCount` |
| `formats.dfy` | `MediaFormats` | `extractVideoFormats` (filter, first-wins dedup by height, size with companion audio, sort, top five) and `extractAudioFormats` |
| `metadata.dfy` | `Metadata` | the defaulting of the parsed `yt-dlp` record in `getVideoInfo`, and the second round of fallbacks in the `/api/video/info` handler |
| `command.dfy` | `Command` | `buildFormatString`, `buildAudioQuality` and the argument lists of `getVideoInfo` and `downloadVideo` |
| `settle.dfy` | `Settle` | the `finished` flag that lets the first of timer, spawn error and close settle each promise |
| `download_manager.dfy` | `DownloadManager` | the `DownloadManager` class: create, get, update, remove, expiry sweep, active list, file path |
| `server_jobs.dfy` | `ServerJobs` | the `activeDownloads` job table of backend/server.js: start, success, failure, progress query, file request, cleanup after transfer |
| `rate_limiter.dfy` | `RateLimiter` | `createRateLimiter`'s request step and the `startRateLimitCleanup` sweep |

Modelling choices:

- JavaScript `a || b` is written with `Truthy`. The values `0`, `""`, `null` and a missing
  property count as false, so a width of 0 becomes 1920.
- `Math.floor` on non-negative operands is Dafny's `/`. `Math.round(c / unit)` is
  `floor((2c + unit) / (2 unit))`, computed exactly. `Math.floor(size * 0.6)` is `size * 6 / 10`.
- The child process is reduced to the order in which its handlers fire (`Settle.ProcEvent`).
- `Date.now()`, `uuidv4()`, `fs.existsSync` and the directory listing are parameters.
- The job table of `DownloadManager` and the table in server.js are separate maps, as in the source.
- Behaviour of the code worth knowing, which the model keeps:
  - the first format of each height is kept (backend/ytdlpHelper.js:232);
  - `progress` stays 0 until a success sets it to 100: the `onProgress` callback passed at
    backend/server.js:271 is never called, because `downloadVideo` takes four parameters;
  - `buildAudioQuality` maps by substring: 320 and 256 give 192, 192 and 128 give 128,
    96 and 64 give themselves, and anything else gives 192;
  - an `opus` request gets the `bestaudio` selector but no `-x` extraction;
  - a format whose `vcodec` is the string `'none'` is not audio-only
    (backend/ytdlpHelper.js:236, :265);
  - the download handler checks its four body properties for truthiness only, so a
    numeric `quality` such as 720 is accepted and stored as it came (backend/server.js:232).
- Two quirks of the code are kept and shown by lemmas:
  - `formatCount(999500)` is `"1000K"` (`Display.FormatCountJustUnderAMillion`);
  - `"dropbox.com"` classifies as Twitter because of the `x.com` substring test
    (`Platforms.DropboxIsTwitter`).

## Model

| member | source | states |
|---|---|---|
| Text.NatToString | backend/server.js:396 | `count.toString()` of a natural number: one or more decimal digits, a single digit exactly below 10, no leading zero |
| Text.DigitsValueOfNatToString | backend/server.js:396 | the decimal string of n reads back as n |
| Text.NatToStringInjective | backend/server.js:396 | different numbers have different decimal strings |
| Text.IntToString | backend/server.js:396 | `toString()` of an integer is non-empty, starts with '-' exactly when the integer is negative, and is otherwise all digits |
| Text.IntToStringReadsBack | backend/server.js:396 | the rendering reads back: the digits after the sign denote the absolute value |
| Text.LeadingDigits | backend/ytdlpHelper.js:255 | the digit prefix `parseInt` reads is the longest prefix of digits: the next character, if any, is not a digit |
| Text.ParseLeadingNatOfRendered | backend/ytdlpHelper.js:255 | `parseInt(String(n) + suffix)` is n whenever the suffix does not start with a digit |
| Text.PadStart2 | backend/utils.js:72-74 | `padStart(2, '0')` leaves strings of two or more characters alone and left-fills shorter ones with '0' to length 2, keeping the original as suffix |
| Text.Pad2TwoDigits | backend/utils.js:72-74 | below 100 the padded field is exactly two digits that read back as the number |
| Text.ToLower | backend/utils.js:20 | `toLowerCase` keeps the length, leaves no upper-case letter, keeps every other character, and maps each upper-case letter to the same letter of the lower-case alphabet |
| Text.ToLowerKeepsLower | backend/utils.js:20 | a string without upper-case letters is unchanged |
| Text.ToLowerIdempotent | backend/utils.js:20 | lower-casing twice is lower-casing once |
| Text.MissingCharNotContained | backend/utils.js:22-35 | `includes` is false when the needle has a character the string lacks |
| Text.ContainsMiddle | backend/utils.js:22-35 | a string includes every piece it is built from |
| Text.SplitNoSep | backend/utils.js:72-74 | splitting a string without the separator gives that string alone |
| Text.SplitAtFirstSep | backend/utils.js:72-74 | splitting at the first separator gives the part before it, then the split of the rest |
| Text.LastIndexOf | backend/server.js:367 | the index found holds the character and no later index does; -1 means it does not occur |
| Text.JoinPath | backend/downloadManager.js:118 | `path.join(dir, name)` ends with the name |
| Text.JoinPathSplits | backend/server.js:367 | `dirname` of `path.join(dir, name)` is dir and `basename` is name, for a plain file name |
| Platforms.DetectPlatform | backend/utils.js:19-39 | `detectPlatform`: the lower-cased URL's platform by the ordered `includes` tests; its promises are stated by `Platforms.DetectPlatformIsFirstMatchingRule` and `Platforms.DetectPlatformIgnoresCase` |
| Platforms.ValidatedUrlPlatform | backend/server.js:154-161 | the validation handler's case-sensitive if-chain; stated as the first-match table reading by `Platforms.ValidatedChainIsClassify` |
| Platforms.PlatformFromUrl | backend/ytdlpHelper.js:194-202 | `getPlatformFromUrl`; stated by `Platforms.HelperChainIsClassify` and `Platforms.HelperChainDropsDailymotion` |
| Platforms.ClassifyFromIsFirstMatch | backend/utils.js:22-38 | the rule table read first-match-wins gives the platform of the first rule that matches, and `unknown` exactly when none does |
| Platforms.RuleMatchesChainTest | backend/utils.js:22-35 | each table row matches exactly when the corresponding `includes` test of the chain succeeds |
| Platforms.ValidatedChainIsClassify | backend/server.js:154-161 | the validation handler's if-chain is the first-match reading of the seven-row table |
| Platforms.HelperChainIsClassify | backend/ytdlpHelper.js:194-202 | `getPlatformFromUrl` is the first-match reading of the table without its Dailymotion row |
| Platforms.ChainIsFirstMatchingRule | backend/server.js:154-161 | both case-sensitive chains are first-match readings of the table |
| Platforms.DetectPlatformIsFirstMatchingRule | backend/utils.js:19-39 | `detectPlatform` is the platform of the first rule matching the lower-cased URL, and `unknown` exactly when no rule matches |
| Platforms.DetectPlatformIgnoresCase | backend/utils.js:20 | two URLs that agree after lower-casing get the same platform |
| Platforms.DetectPlatformIsValidatedChainOfLowercase | backend/utils.js:19-39 | `detectPlatform` is the validation handler's chain on the lower-cased URL, and the same chain on an already lower-case URL |
| Platforms.HelperChainDropsDailymotion | backend/ytdlpHelper.js:194-202 | `getPlatformFromUrl` agrees with the validation chain except that Dailymotion URLs are `unknown` |
| Platforms.DropboxIsTwitter | backend/server.js:159 | the substring test makes `dropbox.com` a Twitter URL |
| Display.FormatNumber | backend/utils.js:57-59 | `formatNumber` of a whole number; stated by `Display.FormatNumberGroupsDecimal` (grouped by threes, and reads back to the decimal digits) |
| Display.StripCommas | backend/utils.js:58 | deleting commas leaves a string without commas |
| Display.StripCommasAppend | backend/utils.js:58 | deleting commas distributes over concatenation |
| Display.RenderSplitsLastGroup | backend/utils.js:58 | the comma insertion of a number with more than three digits is the insertion for all but its last three digits, a comma, and those three digits |
| Display.RenderedDigitsAreGrouped | backend/utils.js:58 | for any digit string the insertion is grouped (a leading group of 1-3 digits, then groups of exactly 3) and deleting its commas gives the digits back |
| Display.FormatNumberGroupsDecimal | backend/utils.js:57-59 | deleting the commas from `formatNumber(n)` gives the decimal digits of n, and the groups are 1-3 digits then exactly 3 |
| Display.FormatNumberExample | backend/utils.js:57-59 | `formatNumber(1234567)` is "1,234,567" |
| Display.FormatDuration | backend/utils.js:64-75 | `formatDuration` of backend/utils.js; stated by `Display.FormatDurationShape` (fields in range that read back as the input) |
| Display.HelperFormatDuration | backend/ytdlpHelper.js:207-216 | the `formatDuration` copy in backend/ytdlpHelper.js; `Display.FormatDurationCopiesAgree` proves it equal to the other copy on every whole number |
| Display.FormatDurationCopiesAgree | backend/utils.js:64-75 | the utils.js copy and the ytdlpHelper.js copy agree on every whole number of seconds |
| Display.SplitTwoFields | backend/utils.js:74 | "M:SS" with colon-free fields splits back into its two fields |
| Display.SplitThreeFields | backend/utils.js:72 | "H:MM:SS" with colon-free fields splits back into its three fields |
| Display.FormatDurationHours | backend/utils.js:67-72 | from one hour on the fields are the hours, the padded minutes and the padded seconds |
| Display.FormatDurationMinutes | backend/utils.js:67-74 | below one hour the fields are the minutes and the padded seconds |
| Display.ClockFieldsRecombine | backend/utils.js:67-69 | hours, minutes and seconds recombine to the input, with minutes and seconds below 60 |
| Display.FormatDurationShapeHours | backend/utils.js:71-72 | from one hour on: three fields, the last two in 00-59, reading back as the input |
| Display.FormatDurationShapeMinutes | backend/utils.js:74 | between zero and one hour: two fields, the second in 00-59, reading back as the input |
| Display.FormatDurationShapeZero | backend/utils.js:65 | zero gives "0:00", which reads back as zero |
| Display.FormatDurationShape | backend/utils.js:64-75 | "0:00" for zero, three fields exactly from one hour on, two below, MM and SS in 00-59, and the fields read back as the input |
| Display.FormatCount | backend/server.js:392-397 | `formatCount`; stated by `Display.FormatCountRoundsToNearest` and `Display.FormatCountJustUnderAMillion` |
| Display.RoundedQuotientIsNearest | backend/server.js:394-395 | `Math.round(c / unit)` is within half a unit of c / unit |
| Display.FormatCountRoundsToNearest | backend/server.js:392-397 | "0" for zero, the plain decimal below 1000, and from 1000 (resp. 1,000,000) on a number plus "K" (resp. "M") that reads back to within half a thousand (resp. half a million) of the count |
| Display.FormatCountJustUnderAMillion | backend/server.js:394-395 | 999,500 is shown as "1000K" and 999,499 as "999K" |
| MediaFormats.QualityKeyRank | backend/ytdlpHelper.js:231 | the key `height + 'p'` reads back through `parseInt` as the height |
| MediaFormats.AudioStreams | backend/ytdlpHelper.js:235-237 | the audio-only filter keeps exactly the audio-only formats |
| MediaFormats.AudioPositionsSpec | backend/ytdlpHelper.js:235-237 | the audio-only positions of the input are listed once each, in increasing order |
| MediaFormats.AudioStreamsInOrder | backend/ytdlpHelper.js:235-237 | the filter keeps input order: its k-th element is the format at the k-th audio-only position |
| MediaFormats.AudioStreamsHead | backend/ytdlpHelper.js:235-238 | the filtered list is empty exactly when no format is audio-only, and otherwise starts with the first audio-only format of the input |
| MediaFormats.CompanionAudioSizeIsFirstAudio | backend/ytdlpHelper.js:238-239 | the audio size added to each video choice is that of the first audio-only format of the input (0 when it has no size), and 0 when there is none |
| MediaFormats.VideoOptionWellKeyed | backend/ytdlpHelper.js:241-247 | each choice's quality is "<height>p" of the format it came from |
| MediaFormats.UniqueQualitiesStep | backend/ytdlpHelper.js:229-250 | one more format keeps every choice so far and adds its own exactly when it is listed and its height is new |
| MediaFormats.UniqueQualitiesCover | backend/ytdlpHelper.js:222-232 | every listed format's height has a choice in the map |
| MediaFormats.UniqueQualitiesDistinct | backend/ytdlpHelper.js:227-232 | no quality occurs twice in the map and each is "<rank>p" |
| MediaFormats.UniqueQualitiesFirstWins | backend/ytdlpHelper.js:229-248 | each choice is built from the first listed format of its height |
| MediaFormats.InsertByRankSplits | backend/ytdlpHelper.js:254-256 | one insertion step of the descending sort puts the choice between two parts of the list |
| MediaFormats.InsertPosBounds | backend/ytdlpHelper.js:254-256 | the choices before the insertion point rank at least as high and the next one ranks lower |
| MediaFormats.InsertByRankIndex | backend/ytdlpHelper.js:254-256 | after insertion, the elements before the point are unchanged and those after it are shifted by one |
| MediaFormats.InsertByRankElements | backend/ytdlpHelper.js:254-256 | insertion adds exactly the new choice to the multiset |
| MediaFormats.InsertByRankDescending | backend/ytdlpHelper.js:254-256 | inserting into a descending list keeps it descending |
| MediaFormats.InsertByRankDistinct | backend/ytdlpHelper.js:254-256 | inserting a new quality into distinct qualities keeps them distinct |
| MediaFormats.SortByRankElements | backend/ytdlpHelper.js:253-256 | sorting is a permutation: same length, same multiset, same members |
| MediaFormats.SortByRankDescending | backend/ytdlpHelper.js:254-256 | the sorted list is in descending height order |
| MediaFormats.SortByRankDistinct | backend/ytdlpHelper.js:253-256 | sorting keeps qualities distinct |
| MediaFormats.DistinctKeysStrict | backend/ytdlpHelper.js:253-256 | a descending list of distinct "<rank>p" qualities is strictly descending |
| MediaFormats.SortedQualitiesOrder | backend/ytdlpHelper.js:227-256 | the sorted choices are strictly descending and keyed by their heights |
| MediaFormats.SortedQualitiesFirstWins | backend/ytdlpHelper.js:229-256 | every sorted choice is built from the first listed format of its height |
| MediaFormats.SortedQualitiesCover | backend/ytdlpHelper.js:222-256 | every listed height has a sorted choice keyed by it |
| MediaFormats.ExtractVideoFormats | backend/ytdlpHelper.js:253-257 | at most five choices are returned |
| MediaFormats.ExtractVideoFormatsPrefix | backend/ytdlpHelper.js:257 | the result is the first min(5, n) sorted choices |
| MediaFormats.ExtractVideoFormatsOrder | backend/ytdlpHelper.js:227-257 | the returned qualities are strictly descending and each is "<height>p" |
| MediaFormats.ExtractVideoFormatsFirstWins | backend/ytdlpHelper.js:229-247 | each returned choice is the first listed format of its height, sized with the companion audio |
| MediaFormats.ExtractVideoFormatsTopFive | backend/ytdlpHelper.js:253-257 | a listed height missing from the result is below all five returned heights, and the list is full |
| MediaFormats.ExtractVideoFormatsSpec | backend/ytdlpHelper.js:221-258 | at most five choices, strictly descending and distinct "<height>p" keys, each from the first format of its height plus the companion audio size, and the five highest heights kept |
| MediaFormats.ExtractAudioFormats | backend/ytdlpHelper.js:263-298 | `extractAudioFormats`; stated by `MediaFormats.ExtractAudioFormatsSpec`, `MediaFormats.ExtractAudioFormatsLabels` and `MediaFormats.ExtractAudioFormatsPicksFirstHighest` |
| MediaFormats.BestAudioIndex | backend/ytdlpHelper.js:278-282 | the `reduce` picks a stream with the highest bitrate (missing counting as 0), and the first such stream |
| MediaFormats.BestAudioIsFirstHighestInInput | backend/ytdlpHelper.js:263-282 | the stream the `reduce` picks is, in the input list, the first audio-only format with the highest bitrate |
| MediaFormats.ExtractAudioFormatsPicksFirstHighest | backend/ytdlpHelper.js:263-290 | when an audio-only format exists, the first choice is sized as the input's first audio-only format with the highest bitrate |
| MediaFormats.ExtractAudioFormatsSpec | backend/ytdlpHelper.js:263-298 | with no audio-only stream the single sentinel entry ("best", mp3, 0, "Unknown"); otherwise two mp3 entries labelled "high (320kbps)" and "medium (192kbps)", the first sized as the first highest-bitrate stream, the second at floor(0.6 ×) that, never larger |
| MediaFormats.ExtractAudioFormatsLabels | backend/ytdlpHelper.js:268-298 | the quality labels offered: "best" alone without an audio-only stream, otherwise "high (320kbps)" then "medium (192kbps)" |
| Metadata.NormalizeInfo | backend/ytdlpHelper.js:63-83 | the record `getVideoInfo` builds from the parsed output; stated by `Metadata.NormalizeInfoDefaults`, `Metadata.NormalizeInfoDerived` and `Metadata.NormalizeInfoIdempotent` |
| Metadata.InfoResponseOf | backend/server.js:197-216 | the `/api/video/info` reply built from the record; `Metadata.InfoResponseFallbacksUnused` proves its fallbacks never fire on a normalised record |
| Metadata.NormalizeInfoDefaults | backend/ytdlpHelper.js:63-83 | each field keeps a truthy value and otherwise takes its default; uploader falls back to channel, then 'Unknown'; zero width and height become 1920 and 1080 |
| Metadata.NormalizeInfoFieldsTruthy | backend/ytdlpHelper.js:63-83 | id, type, title and uploader are never empty and the dimensions never zero |
| Metadata.NormalizeInfoDerived | backend/ytdlpHelper.js:65-82 | the formatted duration reads back as the duration, the platform is the URL's, at most five video choices, and a missing formats array gives no video choices and the sentinel audio entry |
| Metadata.NormalizeInfoIdempotent | backend/ytdlpHelper.js:63-83 | defaulting an already defaulted record again, at any later time, changes nothing |
| Metadata.InfoResponseFallbacksUnused | backend/server.js:195-217 | the handler's fallbacks (fresh id, 'Unknown' creator, 1920×1080) never fire on a record `getVideoInfo` built |
| Command.FormatString | backend/ytdlpHelper.js:314-337 | `buildFormatString`; stated by `Command.FormatStringIsFallbackChain`, `Command.FormatStringCapsHeight` and `Command.FormatStringFallsBack` |
| Command.HeightCapSpec | backend/ytdlpHelper.js:320-336 | a quality gets a height cap exactly when it is one of 2160p … 240p, and then that row's cap |
| Command.CappedQualitiesAreLabels | backend/ytdlpHelper.js:320-334 | each capped quality is its cap followed by 'p' |
| Command.HeightCapUnrolled | backend/ytdlpHelper.js:320-336 | the cap lookup tests the qualities in the switch's order |
| Command.CappedChainIsAlternatives | backend/ytdlpHelper.js:321-334 | each capped literal of the switch is the three-step fallback chain of its cap joined by '/' |
| Command.DefaultChainIsAlternatives | backend/ytdlpHelper.js:336 | the default literal is the uncapped fallback chain |
| Command.FormatStringByCap | backend/ytdlpHelper.js:314-337 | a video format takes the capped literal of its quality's cap, or the default literal |
| Command.FormatStringIsFallbackChain | backend/ytdlpHelper.js:314-337 | 'bestaudio' for mp3, wav, m4a and opus; otherwise the fallback chain of the quality's cap |
| Command.ChainFallsBack | backend/ytdlpHelper.js:322-336 | every chain ends with "/best[ext=mp4]" |
| Command.ChainNamesCap | backend/ytdlpHelper.js:322-336 | a capped chain contains "height<=N" for its cap N; the uncapped one has no height filter |
| Command.FormatStringFallsBack | backend/ytdlpHelper.js:319-337 | every video selector ends with the plain mp4 fallback |
| Command.FormatStringCapsHeight | backend/ytdlpHelper.js:319-337 | for Np in the listed qualities the selector contains "height<=N"; for any other quality it has no height filter |
| Command.AudioQuality | backend/ytdlpHelper.js:343-351 | `buildAudioQuality`; stated by `Command.AudioQualityIsTableLookup` |
| Command.LookupFromIsFirstMatch | backend/ytdlpHelper.js:343-351 | the bitrate lookup gives the value of the first row whose key the quality contains, and the default when none does |
| Command.AudioQualityIsTableLookup | backend/ytdlpHelper.js:343-351 | `buildAudioQuality` is the first-match table lookup and only ever returns 192, 128, 96 or 64 |
| Command.AudioQualityOfChoiceLabels | backend/ytdlpHelper.js:286-292 | the labels of the two audio choices select 192 kbps ("high (320kbps)") and 128 kbps ("medium (192kbps)") |
| Command.AudioChoicesSelectBitrate | backend/ytdlpHelper.js:116-119 | the audio choices the info reply offers select `--audio-quality` 192 for "high (320kbps)", 128 for "medium (192kbps)" and the default 192 for the sentinel "best" |
| Command.SentinelLabelBitrate | backend/ytdlpHelper.js:343-351 | the label "best" names no bitrate and takes the default 192 |
| Command.DownloadArgs | backend/ytdlpHelper.js:104-122 | the argument list of `downloadVideo`; stated by `Command.DownloadArgsReadBack` and `Command.OpusIsNotExtracted` |
| Command.InfoArgs | backend/ytdlpHelper.js:12-18 | the argument list of `getVideoInfo`; stated by `Command.InfoArgsReadBack` |
| Command.OptionValueAt | backend/ytdlpHelper.js:107-122 | the value read for a flag is the argument after its first occurrence |
| Command.CommonArgsReadBack | backend/ytdlpHelper.js:107-113 | the common options read back as socket timeout 30, the selector, the template and merge container mp4 |
| Command.ExtractArgsReadBack | backend/ytdlpHelper.js:116-120 | with extraction, `-x` is passed and the audio format and quality read back |
| Command.PlainArgsReadBack | backend/ytdlpHelper.js:107-122 | without extraction no `-x`, `--audio-format` or `--audio-quality` is passed |
| Command.SelectorIsNoFlag | backend/ytdlpHelper.js:109 | the selector cannot be mistaken for an option name |
| Command.TemplateIsNoFlag | backend/ytdlpHelper.js:104-110 | the output template cannot be mistaken for an option name |
| Command.DownloadArgsReadBack | backend/ytdlpHelper.js:102-122 | the selector, template, timeout and merge container read back, the URL is last, and exactly mp3, m4a and wav get `-x` with the format and the mapped bitrate |
| Command.OpusIsNotExtracted | backend/ytdlpHelper.js:315-316 | opus selects 'bestaudio' but is not extracted |
| Command.InfoArgsReadBack | backend/ytdlpHelper.js:12-18 | the info command asks for the JSON dump with a 30 s socket timeout and the URL last |
| Settle.RunSettlesOnce | backend/ytdlpHelper.js:24-50 | the first handler to run settles the promise with its own decision and no later handler changes it |
| Settle.RunIgnoresLaterEvents | backend/ytdlpHelper.js:155-157 | events after the first leave the settled state unchanged |
| Settle.VideoInfoOutcome | backend/ytdlpHelper.js:10-92 | the settlement of `getVideoInfo` after the handlers run; stated by `Settle.VideoInfoOutcomeSpec` |
| Settle.VideoInfoOutcomeSpec | backend/ytdlpHelper.js:10-92 | the info promise resolves exactly on a first `close` with code 0 and parseable output, with the normalised record; a timeout, a spawn error, a non-zero exit and a parse error reject with their messages |
| Settle.DownloadOutcome | backend/ytdlpHelper.js:102-189 | the settlement of `downloadVideo` after the handlers run; stated by `Settle.DownloadOutcomeSpec` and `Settle.DownloadedFileInOutputDir` |
| Settle.DownloadOutcomeSpec | backend/ytdlpHelper.js:102-189 | the download resolves exactly on a clean first `close` whose listing is non-empty and whose last listed file exists, to that file's path; a timeout, a spawn error, a non-zero or null exit, a failed listing, an empty directory and a missing file reject with their messages |
| Settle.DownloadedFileInOutputDir | backend/ytdlpHelper.js:173-174 | a resolved download lies directly inside the output directory |
| DownloadManager.CreateJob | backend/downloadManager.js:30-50 | the table gains exactly the fresh id, holding the returned record, and every other entry is unchanged |
| DownloadManager.CreateJobFresh | backend/downloadManager.js:32-46 | the new job is pending at progress 0 with no file and no error, carries the request's URL and options, takes `createdAt` and `updatedAt` from the two clock readings, and has `createdAt <= updatedAt` when the clock did not go back |
| DownloadManager.GetJob | backend/downloadManager.js:55-57 | `getJob`: the stored record for a known id and `undefined` otherwise; how it answers after create, update and remove is `DownloadManager.GetJobSeesLastWrite` |
| DownloadManager.GetJobSeesLastWrite | backend/downloadManager.js:30-89 | `getJob` returns the created record after `createJob`, the returned record after `updateJob`, nothing after `removeJob`, and the old answer for every other id |
| DownloadManager.UpdateJob | backend/downloadManager.js:62-74 | an unknown id gives null and an unchanged table; a known id stores and returns the updated record |
| DownloadManager.UpdateJobFields | backend/downloadManager.js:66-70 | exactly the supplied properties are overridden, the others kept, and `updatedAt` is now even when supplied |
| DownloadManager.UpdateJobEmptyPatch | backend/downloadManager.js:66-70 | an update with no properties only stamps the time |
| DownloadManager.UpdateJobComposes | backend/downloadManager.js:62-74 | two updates of one job are one update with the merged properties at the later time |
| DownloadManager.UpdateJobLeavesOthers | backend/downloadManager.js:72 | an update leaves the set of ids and every other job unchanged |
| DownloadManager.RemoveJob | backend/downloadManager.js:79-89 | the id is gone after removal whatever happens to the file, every other id keeps its job, no id is added, and a file is unlinked only from the removed job's own path |
| DownloadManager.RemoveUndoesCreate | backend/downloadManager.js:30-89 | removing a job just created under a fresh id gives back the earlier table and unlinks nothing |
| DownloadManager.RemoveJobSpec | backend/downloadManager.js:79-89 | the id is gone and all other entries are kept; a file is unlinked exactly for a known job whose truthy path exists |
| DownloadManager.Sweep | backend/downloadManager.js:94-103 | a job survives the sweep exactly when it is not expired, unchanged |
| DownloadManager.CleanupExpired | backend/downloadManager.js:94-103 | the loop calling `removeJob` on each expired job leaves the swept table and unlinks the swept files |
| DownloadManager.SweepKeepsUnfinished | backend/downloadManager.js:99 | non-completed jobs survive at any age; a completed one survives exactly while `now - updatedAt <= expiry` |
| DownloadManager.SweepIdempotent | backend/downloadManager.js:94-103 | sweeping twice at one time is sweeping once, and a later sweep removes at least as much |
| DownloadManager.ActiveDownloads | backend/downloadManager.js:108-111 | the result lists exactly the processing and pending jobs, one per id |
| DownloadManager.GenerateFilePath | backend/downloadManager.js:116-119 | `generateFilePath`; stated by `DownloadManager.GenerateFilePathSpec` |
| DownloadManager.GenerateFilePathSpec | backend/downloadManager.js:116-119 | the path lies directly in the temp directory, is named "<jobId>.<extension>" and ends with the extension |
| ServerJobs.StartDownload | backend/server.js:229-237 | the request is refused with missing parameters exactly when url, type, quality or format is falsy in the JavaScript sense |
| ServerJobs.StartDownloadSpec | backend/server.js:229-297 | an incomplete request gets 400 and creates nothing; a complete one gets 200 with the fresh id, which holds a processing job at progress 0 without a file and with the four body properties as sent, and nothing else changes |
| ServerJobs.StartDownloadTruthiness | backend/server.js:230-237 | a numeric quality of 720 is accepted and stored; a quality is refused exactly when it is missing, null, false, 0 or "" |
| ServerJobs.OnSuccess | backend/server.js:271-279 | the success branch of the download task; stated by `ServerJobs.OutcomeSpec` |
| ServerJobs.OnFailure | backend/server.js:280-287 | the failure branch of the download task; stated by `ServerJobs.OutcomeSpec` |
| ServerJobs.OutcomeSpec | backend/server.js:273-286 | success completes a present job at 100 with its file; failure marks it failed with the message and keeps its progress; an absent id and all other jobs are untouched |
| ServerJobs.ProgressQuery | backend/server.js:307-330 | the progress handler; stated by `ServerJobs.ProgressQuerySpec` |
| ServerJobs.ProgressQuerySpec | backend/server.js:307-330 | 404 exactly for an unknown id; otherwise stored status and progress, the error only when truthy, and an estimate that is never negative, 0 from ten seconds on, and the whole seconds left of ten before |
| ServerJobs.FileRequest | backend/server.js:333-359 | the file handler's checks; stated by `ServerJobs.FileRequestSpec` and `ServerJobs.FileRequestWhileProcessing` |
| ServerJobs.FileRequestSpec | backend/server.js:333-359 | 404 for an unknown id, 400 exactly for a known job that is not completed, and the file is sent only for a completed job whose stored path exists |
| ServerJobs.FileRequestWhileProcessing | backend/server.js:345-350 | a job still processing is refused with "Download is processing. Cannot retrieve file." |
| ServerJobs.AfterTransfer | backend/server.js:359-377 | the cleanup after a transfer; stated by `ServerJobs.AfterTransferSpec` and `ServerJobs.AfterTransferRemovesJobDir` |
| ServerJobs.AfterTransferSpec | backend/server.js:359-377 | the job leaves the table exactly when transfer, existence check and removal all succeed; a failed transfer changes nothing; no other job is touched |
| ServerJobs.AfterTransferRemovesJobDir | backend/server.js:367-368 | the directory removed is the job's own download directory |
| ServerJobs.ApplyKeepsWellFormed | backend/server.js:244-378 | each handler keeps progress in {0, 100}, processing jobs without a file and completed jobs with one |
| ServerJobs.RunKeepsWellFormed | backend/server.js:244-378 | any sequence of handler runs keeps the table well formed |
| ServerJobs.ApplyIsMonotone | backend/server.js:273-286 | progress never goes down and a finished job is never changed again until deleted |
| RateLimiter.PruneMembers | backend/middleware.js:26 | the filter keeps exactly the timestamps inside the window |
| RateLimiter.PruneCountsRecent | backend/middleware.js:26 | the kept list is as long as the number of timestamps inside the window |
| RateLimiter.PruneAppend | backend/middleware.js:26 | filtering distributes over concatenation |
| RateLimiter.PruneLater | backend/middleware.js:26 | filtering at an earlier time, then at a later one, is filtering at the later one |
| RateLimiter.Request | backend/middleware.js:15-36 | one request to the limiter; stated by `RateLimiter.RequestSpec` and, over runs, `RateLimiter.ServeIsSlidingWindowLog` |
| RateLimiter.RequestSpec | backend/middleware.js:15-36 | 429 exactly when at least `max` timestamps lie in the window; a refused request stores the pruned list, an allowed one appends now; no other key changes |
| RateLimiter.RequestKeepsBound | backend/middleware.js:26-36 | no stored list grows beyond `max` |
| RateLimiter.ServeKeepsBound | backend/middleware.js:15-36 | the bound holds across any run of requests to one limiter |
| RateLimiter.RequestTracks | backend/middleware.js:26-36 | after a request, each key's list holds the same in-window timestamps as its allowed requests |
| RateLimiter.ServeTracks | backend/middleware.js:15-36 | a chronological run logs one verdict per request and keeps that correspondence |
| RateLimiter.StoredMatchesAllowed | backend/middleware.js:26-36 | before a request, the stored list and the allowed requests so far agree inside the window |
| RateLimiter.ServeIsSlidingWindowLog | backend/middleware.js:26-36 | the last request is allowed exactly when fewer than `max` earlier allowed requests of its key lie in the window ending at its time |
| RateLimiter.ServeLength | backend/middleware.js:15-36 | one verdict per request |
| RateLimiter.Sweep | backend/middleware.js:47-53 | the cleanup sweep; stated by `RateLimiter.SweepSpec` and `RateLimiter.SweepPreservesVerdicts` |
| RateLimiter.SweepSpec | backend/middleware.js:47-53 | a key survives exactly when one of its timestamps is under an hour old, and keeps only those |
| RateLimiter.PruneEmptyIffNoneRecent | backend/middleware.js:48-50 | the filtered list is empty exactly when no timestamp is inside the window |
| RateLimiter.SweepPreservesVerdicts | backend/middleware.js:47-53 | for a window of at most an hour, the sweep never changes a later verdict |
| RateLimiter.PruneWider | backend/middleware.js:48 | filtering to an hour and later to a shorter window is filtering to that window |

## Left out

- Process spawning, stdout and stderr collection, `kill` and the timers in backend/ytdlpHelper.js are left out. They appear only as the abstract events of `Settle`.
- The `setInterval` schedules of backend/downloadManager.js:125-127 and backend/middleware.js:45 are left out. Only the body of each sweep is modelled.
- Express routing, `res.*` and CORS are left out. Each handler is modelled as the reply it decides.
- The thumbnail proxy of backend/server.js:63-114 is left out, because it only forwards a network fetch.
- The 500 reply of `/api/download` (backend/server.js:298-303) is left out. It fires only when `uuidv4` or `Date.now` throws.
- `formatFileSize` (backend/utils.js:44-52, backend/ytdlpHelper.js:303-309) is left out, because it is floating-point `Math.log`/`Math.pow`. A choice records the byte count the label would be formatted from.
- `validateURLFormat` and `new URL` are left out, because they depend on the WHATWG URL parser.
- `JSON.parse` is left out. The model starts from the parsed record with optional fields, or from the parse error.
- backend/platformHandler.js, backend/config.js and the frontend are not part of this model. The temp directory and the expiry time are parameters.
- The rate-limit store is one map shared by every limiter in backend/middleware.js:6. The model gives each run its own store.
- The limiter options read from the environment at backend/server.js:44-47 are left out. `RateLimiter.DefaultOptions` holds the defaults of backend/middleware.js:10-11.
- `Text.ToLower` lower-cases ASCII letters only, because JavaScript's Unicode case mapping is not modelled.
- `Text.JoinPath` does not model `path.join`'s normalisation of '.', '..' and repeated '/'.
- MediaFormats.ExtractAudioFormatsSpec: states `Math.floor(size * 0.6)` as the exact `size * 6 / 10`, because the binary rounding of the floating-point product is not modelled.
- Heights, sizes and durations are whole numbers, so fractional values and `NaN` from `parseInt` are not modelled.
- `DownloadManager.ActiveDownloads` lists the active jobs in an unspecified order, not in the `Map`'s insertion order.
- Command.DownloadArgs / Settle.DownloadOutcomeSpec: `downloadVideo` is modelled for string arguments only. The download handler also accepts other truthy body values (see `ServerJobs.StartDownloadTruthiness`). A numeric `quality` with format mp3, m4a or wav makes `quality.includes` throw a TypeError inside the promise executor, so the download rejects with that message before any process event. A numeric `quality` with a video format matches no `case` of the strict `switch` and gets the default selector with no height cap. A non-string `url` makes `spawn` throw in the same way. None of these paths is modelled.
- DownloadManager.CreateJobFresh: `createdAt <= updatedAt` is stated only when the second clock reading is not earlier than the first, because `Date.now()` follows the system clock, which may be set back.
- `DownloadManager.UpdateJob` takes a patch of the known job fields. Properties outside the record are not modelled.
- `ServerJobs` never updates progress through the `onProgress` callback, because the code never invokes it.
