/** The yt-dlp command lines built by backend/ytdlpHelper.js: the format
    selector of `buildFormatString`, the bitrate of `buildAudioQuality`, and the
    argument lists `getVideoInfo` and `downloadVideo` hand to `python -m yt_dlp`. */
module Command {
  import opened Text
  import opened Wrappers
  import MediaFormats

  // ---------------------------------------------------------------------------
  // buildFormatString
  // ---------------------------------------------------------------------------

  /** The formats for which only the audio stream is selected. */
  predicate IsAudioFormat(format: string) {
    format == "mp3" || format == "wav" || format == "m4a" || format == "opus"
  }

  /** `buildFormatString(quality, format)`, written as the source writes it; each
      case of its switch is the same template with the height filled in. */
  function FormatString(quality: string, format: string): string {
    if IsAudioFormat(format) then "bestaudio"
    else if quality == "2160p" then CappedChain("2160")
    else if quality == "1440p" then CappedChain("1440")
    else if quality == "1080p" then CappedChain("1080")
    else if quality == "720p" then CappedChain("720")
    else if quality == "480p" then CappedChain("480")
    else if quality == "360p" then CappedChain("360")
    else if quality == "240p" then CappedChain("240")
    else "best[ext=mp4]+bestaudio[ext=m4a]/best[ext=mp4]+bestaudio/best[ext=mp4]"
  }

  /** The selector string of a capped case of the switch. */
  function CappedChain(h: string): string {
    "best[height<=" + h + "][ext=mp4]+bestaudio[ext=m4a]/best[height<=" + h + "][ext=mp4]+bestaudio/best[ext=mp4]"
  }

  /** The qualities for which the selector carries a height cap, each with its
      cap, in the order the switch tests them. */
  const CappedQualities: seq<(string, string)> :=
    [("2160p", "2160"), ("1440p", "1440"), ("1080p", "1080"), ("720p", "720"),
     ("480p", "480"), ("360p", "360"), ("240p", "240")]

  /** The cap of the first listed quality equal to `quality`, from row i on. */
  function CapFrom(quality: string, i: nat): Option<string>
    requires i <= |CappedQualities|
    decreases |CappedQualities| - i
  {
    if i == |CappedQualities| then None
    else if CappedQualities[i].0 == quality then Some(CappedQualities[i].1)
    else CapFrom(quality, i + 1)
  }

  /** The height cap a quality selects, if it is one of the listed ones. */
  function HeightCap(quality: string): Option<string> {
    CapFrom(quality, 0)
  }

  /** The video part of the selector: best mp4, capped in height when a cap is given. */
  function Selector(cap: Option<string>): string {
    match cap
    case Some(c) => "best[height<=" + c + "][ext=mp4]"
    case None => "best[ext=mp4]"
  }

  /** The fallback chain: the capped video with an m4a audio track, then with any
      audio track, then the best single mp4 file. */
  function Alternatives(cap: Option<string>): seq<string> {
    [Selector(cap) + "+bestaudio[ext=m4a]", Selector(cap) + "+bestaudio", "best[ext=mp4]"]
  }

  /** The parts joined with one separator between neighbours. */
  function JoinWith(parts: seq<string>, sep: char): string
    decreases |parts|
  {
    if |parts| == 0 then ""
    else if |parts| == 1 then parts[0]
    else parts[0] + [sep] + JoinWith(parts[1..], sep)
  }

  lemma {:induction false} JoinWithEndsWithLast(parts: seq<string>, sep: char)
    requires |parts| >= 2
    ensures EndsWith(JoinWith(parts, sep), [sep] + parts[|parts| - 1])
    decreases |parts|
  {
    if |parts| > 2 {
      JoinWithEndsWithLast(parts[1..], sep);
    }
  }

  /** A quality has a cap exactly when it is one of the listed qualities, and
      then it is that row's cap. */
  lemma HeightCapSpec(quality: string)
    ensures HeightCap(quality).Some? <==> exists k :: 0 <= k < |CappedQualities| && CappedQualities[k].0 == quality
    ensures forall k :: 0 <= k < |CappedQualities| && CappedQualities[k].0 == quality ==>
              HeightCap(quality) == Some(CappedQualities[k].1)
  {
    var c := i requires 0 <= i <= 7 => CapFrom(quality, i);
    assert c(7) == None;
    assert c(6) == if quality == "240p" then Some("240") else None;
    assert c(5) == if quality == "360p" then Some("360") else c(6);
    assert c(4) == if quality == "480p" then Some("480") else c(5);
    assert c(3) == if quality == "720p" then Some("720") else c(4);
    assert c(2) == if quality == "1080p" then Some("1080") else c(3);
    assert c(1) == if quality == "1440p" then Some("1440") else c(2);
    assert c(0) == if quality == "2160p" then Some("2160") else c(1);
  }

  /** Each listed quality is its cap followed by 'p'. */
  lemma CappedQualitiesAreLabels()
    ensures forall k :: 0 <= k < |CappedQualities| ==> CappedQualities[k].0 == CappedQualities[k].1 + "p"
  {
    forall k | 0 <= k < |CappedQualities|
      ensures CappedQualities[k].0 == CappedQualities[k].1 + "p"
    {
      LabelOfCap(k);
    }
  }

  lemma LabelOfCap(k: nat)
    requires k < |CappedQualities|
    ensures CappedQualities[k].0 == CappedQualities[k].1 + "p"
  {
    var name, cap := CappedQualities[k].0, CappedQualities[k].1;
    assert |name| == |cap| + 1;
    assert name[..|cap|] == cap && name[|cap|] == 'p';
  }

  /** The chain of three alternatives joined by '/'. */
  lemma JoinAlternatives(cap: Option<string>)
    ensures var a := Alternatives(cap);
            JoinWith(a, '/') == a[0] + "/" + a[1] + "/" + a[2]
  {
    var a := Alternatives(cap);
    assert JoinWith(a[2..], '/') == a[2];
    assert JoinWith(a[1..], '/') == a[1] + "/" + a[2];
  }

  // How the literals of the switch split into the pieces of the chain; each step
  // takes one piece off the right end.
  lemma CappedPiece1()
    ensures "][ext=mp4]+bestaudio[ext=m4a]/best[height<=" == "][ext=mp4]+bestaudio[ext=m4a]/" + "best[height<="
  {
  }

  lemma CappedPiece2()
    ensures "][ext=mp4]+bestaudio[ext=m4a]/" == "][ext=mp4]+bestaudio[ext=m4a]" + "/"
  {
  }

  lemma CappedPiece3()
    ensures "][ext=mp4]+bestaudio[ext=m4a]" == "][ext=mp4]" + "+bestaudio[ext=m4a]"
  {
  }

  lemma CappedPiece4()
    ensures "][ext=mp4]+bestaudio/best[ext=mp4]" == "][ext=mp4]+bestaudio/" + "best[ext=mp4]"
  {
  }

  lemma CappedPiece5()
    ensures "][ext=mp4]+bestaudio/" == "][ext=mp4]+bestaudio" + "/"
  {
  }

  lemma CappedPiece6()
    ensures "][ext=mp4]+bestaudio" == "][ext=mp4]" + "+bestaudio"
  {
  }

  lemma FallbackPiece()
    ensures "/best[ext=mp4]" == "/" + "best[ext=mp4]"
  {
  }

  lemma DefaultPiece1()
    ensures "best[ext=mp4]+bestaudio[ext=m4a]/best[ext=mp4]+bestaudio/best[ext=mp4]" == "best[ext=mp4]+bestaudio[ext=m4a]/best[ext=mp4]+bestaudio/" + "best[ext=mp4]"
  {
  }

  lemma DefaultPiece2()
    ensures "best[ext=mp4]+bestaudio[ext=m4a]/best[ext=mp4]+bestaudio/" == "best[ext=mp4]+bestaudio[ext=m4a]/best[ext=mp4]+bestaudio" + "/"
  {
  }

  lemma DefaultPiece3()
    ensures "best[ext=mp4]+bestaudio[ext=m4a]/best[ext=mp4]+bestaudio" == "best[ext=mp4]+bestaudio[ext=m4a]/best[ext=mp4]" + "+bestaudio"
  {
  }

  lemma DefaultPiece4()
    ensures "best[ext=mp4]+bestaudio[ext=m4a]/best[ext=mp4]" == "best[ext=mp4]+bestaudio[ext=m4a]/" + "best[ext=mp4]"
  {
  }

  lemma DefaultPiece5()
    ensures "best[ext=mp4]+bestaudio[ext=m4a]/" == "best[ext=mp4]+bestaudio[ext=m4a]" + "/"
  {
  }

  lemma DefaultPiece6()
    ensures "best[ext=mp4]+bestaudio[ext=m4a]" == "best[ext=mp4]" + "+bestaudio[ext=m4a]"
  {
  }

  lemma CappedPieces()
    ensures "][ext=mp4]+bestaudio[ext=m4a]/best[height<=" == "][ext=mp4]" + "+bestaudio[ext=m4a]" + "/" + "best[height<="
    ensures "][ext=mp4]+bestaudio/best[ext=mp4]" == "][ext=mp4]" + "+bestaudio" + "/" + "best[ext=mp4]"
  {
    CappedPiece1();
    CappedPiece2();
    CappedPiece3();
    CappedPiece4();
    CappedPiece5();
    CappedPiece6();
  }

  lemma DefaultPieces()
    ensures "best[ext=mp4]+bestaudio[ext=m4a]/best[ext=mp4]+bestaudio/best[ext=mp4]"
         == "best[ext=mp4]" + "+bestaudio[ext=m4a]" + "/" + "best[ext=mp4]" + "+bestaudio" + "/" + "best[ext=mp4]"
  {
    DefaultPiece1();
    DefaultPiece2();
    DefaultPiece3();
    DefaultPiece4();
    DefaultPiece5();
    DefaultPiece6();
  }

  /** The regrouping that turns the switch's template into the joined chain. */
  lemma RegroupCapped(open: string, h: string, close: string, m4a: string, sep: string, any: string, last: string)
    ensures open + h + (close + m4a + sep + open) + h + (close + any + sep + last)
         == (open + h + close) + m4a + sep + ((open + h + close) + any) + sep + last
  {
  }

  /** A capped case of the switch is the chain of its cap. */
  lemma CappedChainIsAlternatives(h: string)
    ensures CappedChain(h) == JoinWith(Alternatives(Some(h)), '/')
  {
    JoinAlternatives(Some(h));
    CappedPieces();
    RegroupCapped("best[height<=", h, "][ext=mp4]", "+bestaudio[ext=m4a]", "/", "+bestaudio", "best[ext=mp4]");
  }

  /** The default case of the switch is the uncapped chain. */
  lemma DefaultChainIsAlternatives()
    ensures "best[ext=mp4]+bestaudio[ext=m4a]/best[ext=mp4]+bestaudio/best[ext=mp4]" == JoinWith(Alternatives(None), '/')
  {
    JoinAlternatives(None);
    DefaultPieces();
  }

  /** The table lookup unrolled into the tests of the switch, in its order. */
  lemma HeightCapUnrolled(quality: string)
    ensures HeightCap(quality) ==
              if quality == "2160p" then Some("2160")
              else if quality == "1440p" then Some("1440")
              else if quality == "1080p" then Some("1080")
              else if quality == "720p" then Some("720")
              else if quality == "480p" then Some("480")
              else if quality == "360p" then Some("360")
              else if quality == "240p" then Some("240")
              else None
  {
    var c := i requires 0 <= i <= 7 => CapFrom(quality, i);
    assert c(7) == None;
    assert c(6) == if quality == "240p" then Some("240") else None;
    assert c(5) == if quality == "360p" then Some("360") else c(6);
    assert c(4) == if quality == "480p" then Some("480") else c(5);
    assert c(3) == if quality == "720p" then Some("720") else c(4);
    assert c(2) == if quality == "1080p" then Some("1080") else c(3);
    assert c(1) == if quality == "1440p" then Some("1440") else c(2);
    assert c(0) == if quality == "2160p" then Some("2160") else c(1);
  }

  /** Which case of the switch a video format takes: the capped template of the
      quality's cap, or the default literal. */
  lemma FormatStringByCap(quality: string, format: string)
    requires !IsAudioFormat(format)
    ensures HeightCap(quality).Some? ==> FormatString(quality, format) == CappedChain(HeightCap(quality).value)
    ensures HeightCap(quality).None? ==>
              FormatString(quality, format) == "best[ext=mp4]+bestaudio[ext=m4a]/best[ext=mp4]+bestaudio/best[ext=mp4]"
  {
    HeightCapUnrolled(quality);
    if quality == "2160p" {
    } else if quality == "1440p" {
    } else if quality == "1080p" {
    } else if quality == "720p" {
    } else if quality == "480p" {
    } else if quality == "360p" {
    } else if quality == "240p" {
    }
  }

  /** For a video format the selector is the fallback chain of the quality's cap
      joined by '/'; for an audio format it is the bare audio stream. */
  lemma FormatStringIsFallbackChain(quality: string, format: string)
    ensures IsAudioFormat(format) ==> FormatString(quality, format) == "bestaudio"
    ensures !IsAudioFormat(format) ==>
              FormatString(quality, format) == JoinWith(Alternatives(HeightCap(quality)), '/')
  {
    if !IsAudioFormat(format) {
      FormatStringByCap(quality, format);
      match HeightCap(quality)
      case Some(c) =>
        CappedChainIsAlternatives(c);
      case None =>
        DefaultChainIsAlternatives();
    }
  }

  /** Every chain ends with the plain mp4 fallback. */
  lemma ChainFallsBack(cap: Option<string>)
    ensures EndsWith(JoinWith(Alternatives(cap), '/'), "/best[ext=mp4]")
  {
    JoinWithEndsWithLast(Alternatives(cap), '/');
    FallbackPiece();
  }

  lemma CapPiece()
    ensures "best[height<=" == "best[" + "height<="
  {
  }

  /** A capped selector names its cap. */
  lemma SelectorNamesCap(c: string)
    ensures Contains(Selector(Some(c)), "height<=" + c)
  {
    CapPiece();
    assert Selector(Some(c)) == "best[" + ("height<=" + c) + "][ext=mp4]";
    ContainsMiddle("best[", "height<=" + c, "][ext=mp4]");
  }

  /** What the first part contains, the joined parts contain. */
  lemma ContainsInJoinHead(parts: seq<string>, sep: char, sub: string)
    requires |parts| > 0 && Contains(parts[0], sub)
    ensures Contains(JoinWith(parts, sep), sub)
  {
    if |parts| > 1 {
      assert JoinWith(parts, sep) == parts[0] + ([sep] + JoinWith(parts[1..], sep));
      ContainsInPrefix(parts[0], [sep] + JoinWith(parts[1..], sep), sub);
    }
  }

  /** A capped chain names its cap. */
  lemma CappedChainNamesCap(c: string)
    ensures Contains(JoinWith(Alternatives(Some(c)), '/'), "height<=" + c)
  {
    var a := Alternatives(Some(c));
    SelectorNamesCap(c);
    ContainsInPrefix(Selector(Some(c)), "+bestaudio[ext=m4a]", "height<=" + c);
    ContainsInJoinHead(a, '/', "height<=" + c);
  }

  /** The uncapped chain has no height filter. */
  lemma DefaultChainHasNoCap()
    ensures !Contains(JoinWith(Alternatives(None), '/'), "height<=")
  {
    var r := "best[ext=mp4]+bestaudio[ext=m4a]/best[ext=mp4]+bestaudio/best[ext=mp4]";
    DefaultChainIsAlternatives();
    DefaultChainHasNoH();
    MissingCharNotContained(r, "height<=", 'h');
  }

  lemma DefaultChainHasNoH()
    ensures 'h' !in "best[ext=mp4]+bestaudio[ext=m4a]/best[ext=mp4]+bestaudio/best[ext=mp4]"
  {
    DefaultPieces();
    assert 'h' !in "best[ext=mp4]";
    assert 'h' !in "+bestaudio[ext=m4a]";
    assert 'h' !in "+bestaudio";
    assert 'h' !in "/";
  }

  /** A capped chain names its cap; the uncapped chain has no height filter. */
  lemma ChainNamesCap(cap: Option<string>)
    ensures cap.Some? ==> Contains(JoinWith(Alternatives(cap), '/'), "height<=" + cap.value)
    ensures cap.None? ==> !Contains(JoinWith(Alternatives(cap), '/'), "height<=")
  {
    match cap
    case Some(c) => CappedChainNamesCap(c);
    case None => DefaultChainHasNoCap();
  }

  /** Every video selector ends with the plain mp4 fallback. */
  lemma FormatStringFallsBack(quality: string, format: string)
    requires !IsAudioFormat(format)
    ensures EndsWith(FormatString(quality, format), "/best[ext=mp4]")
  {
    FormatStringIsFallbackChain(quality, format);
    ChainFallsBack(HeightCap(quality));
  }

  /** A listed quality "<N>p" puts the cap `height<=N` into the selector; any other
      quality puts no height cap in it at all. */
  lemma FormatStringCapsHeight(quality: string, format: string)
    requires !IsAudioFormat(format)
    ensures forall k :: 0 <= k < |CappedQualities| && quality == CappedQualities[k].0 ==>
              Contains(FormatString(quality, format), "height<=" + CappedQualities[k].1)
    ensures HeightCap(quality).None? ==> !Contains(FormatString(quality, format), "height<=")
  {
    FormatStringIsFallbackChain(quality, format);
    HeightCapSpec(quality);
    ChainNamesCap(HeightCap(quality));
  }

  // ---------------------------------------------------------------------------
  // buildAudioQuality
  // ---------------------------------------------------------------------------

  /** `buildAudioQuality(quality)`, written as the source writes it. */
  function AudioQuality(quality: string): string {
    if Contains(quality, "320") then "192"
    else if Contains(quality, "256") then "192"
    else if Contains(quality, "192") then "128"
    else if Contains(quality, "128") then "128"
    else if Contains(quality, "96") then "96"
    else if Contains(quality, "64") then "64"
    else "192"
  }

  /** The bitrate mapping as a table: a substring of the quality and the
      `--audio-quality` value it selects, checked in order. */
  const BitrateTable: seq<(string, string)> :=
    [("320", "192"), ("256", "192"), ("192", "128"), ("128", "128"), ("96", "96"), ("64", "64")]

  /** The value this model falls back to when no row matches. */
  const DefaultBitrate := "192"

  /** First-match lookup in the table from row i on. */
  function LookupFrom(quality: string, i: nat): string
    requires i <= |BitrateTable|
    decreases |BitrateTable| - i
  {
    if i == |BitrateTable| then DefaultBitrate
    else if Contains(quality, BitrateTable[i].0) then BitrateTable[i].1
    else LookupFrom(quality, i + 1)
  }

  /** The lookup returns the value of the first row whose key occurs in the
      quality, or the default when none does. */
  lemma {:induction false} LookupFromIsFirstMatch(quality: string, i: nat)
    requires i <= |BitrateTable|
    ensures (forall j :: i <= j < |BitrateTable| ==> !Contains(quality, BitrateTable[j].0)) ==>
              LookupFrom(quality, i) == DefaultBitrate
    ensures forall j :: i <= j < |BitrateTable| && Contains(quality, BitrateTable[j].0)
                        && (forall m :: i <= m < j ==> !Contains(quality, BitrateTable[m].0)) ==>
              LookupFrom(quality, i) == BitrateTable[j].1
    decreases |BitrateTable| - i
  {
    if i < |BitrateTable| {
      LookupFromIsFirstMatch(quality, i + 1);
    }
  }

  /** `buildAudioQuality` is the first-match reading of the table, and it only
      ever asks for 192, 128, 96 or 64 kbps. */
  lemma AudioQualityIsTableLookup(quality: string)
    ensures AudioQuality(quality) == LookupFrom(quality, 0)
    ensures AudioQuality(quality) in {"192", "128", "96", "64"}
  {
    var c := i requires 0 <= i <= 6 => LookupFrom(quality, i);
    assert c(6) == "192";
    assert c(5) == if Contains(quality, "64") then "64" else c(6);
    assert c(4) == if Contains(quality, "96") then "96" else c(5);
    assert c(3) == if Contains(quality, "128") then "128" else c(4);
    assert c(2) == if Contains(quality, "192") then "128" else c(3);
    assert c(1) == if Contains(quality, "256") then "192" else c(2);
    assert c(0) == if Contains(quality, "320") then "192" else c(1);
  }

  /** The labels the audio choices carry select 192 and 128 kbps. */
  lemma AudioQualityOfChoiceLabels()
    ensures AudioQuality("high (320kbps)") == "192"
    ensures AudioQuality("medium (192kbps)") == "128"
  {
    HighLabelBitrate();
    MediumLabelBitrate();
  }

  /** The audio choices the info endpoint offers, sent back as `quality`, select
      the bitrate passed to `--audio-quality`: the "high" choice downloads at
      192 kbps and the "medium" one at 128 kbps; the sentinel "best" falls to
      the default 192. */
  lemma AudioChoicesSelectBitrate(formats: seq<MediaFormats.MediaFormat>)
    ensures var r := MediaFormats.ExtractAudioFormats(formats);
            (exists i :: 0 <= i < |formats| && MediaFormats.IsAudioOnly(formats[i])) ==>
              |r| == 2 && AudioQuality(r[0].quality) == "192" && AudioQuality(r[1].quality) == "128"
    ensures var r := MediaFormats.ExtractAudioFormats(formats);
            (forall i :: 0 <= i < |formats| ==> !MediaFormats.IsAudioOnly(formats[i])) ==>
              |r| == 1 && AudioQuality(r[0].quality) == "192"
  {
    MediaFormats.ExtractAudioFormatsLabels(formats);
    AudioQualityOfChoiceLabels();
    SentinelLabelBitrate();
  }

  /** The sentinel label "best" names no bitrate, so it takes the default. */
  lemma SentinelLabelBitrate()
    ensures AudioQuality("best") == "192"
  {
    MissingCharNotContained("best", "320", '3');
    MissingCharNotContained("best", "256", '2');
    MissingCharNotContained("best", "192", '1');
    MissingCharNotContained("best", "128", '1');
    MissingCharNotContained("best", "96", '9');
    MissingCharNotContained("best", "64", '6');
  }


  lemma HighLabelBitrate()
    ensures AudioQuality("high (320kbps)") == "192"
  {
    assert "high (320kbps)" == "high (" + "320" + "kbps)";
    ContainsMiddle("high (", "320", "kbps)");
  }

  lemma MediumLabelBitrate()
    ensures AudioQuality("medium (192kbps)") == "128"
  {
    assert "medium (192kbps)" == "medium (" + "192" + "kbps)";
    ContainsMiddle("medium (", "192", "kbps)");
    MissingCharNotContained("medium (192kbps)", "320", '3');
    MissingCharNotContained("medium (192kbps)", "256", '5');
  }

  // ---------------------------------------------------------------------------
  // Argument lists
  // ---------------------------------------------------------------------------

  /** The formats that are extracted to an audio file with `-x`. */
  predicate ExtractsAudio(format: string) {
    format == "mp3" || format == "m4a" || format == "wav"
  }

  /** `path.join(outputPath, '%(title)s.%(ext)s')`. */
  function OutputTemplate(outputPath: string): string {
    JoinPath(outputPath, "%(title)s.%(ext)s")
  }

  /** The options every download passes, with the selector `fs` and the output
      template `t`. */
  function CommonArgs(fs: string, t: string): seq<string> {
    [ "--socket-timeout", "30",
      "-f", fs,
      "-o", t,
      "--no-warnings",
      "--merge-output-format", "mp4" ]
  }

  /** The arguments after `-m yt_dlp` of `downloadVideo`. */
  function DownloadArgs(url: string, quality: string, format: string, outputPath: string): seq<string> {
    var base := CommonArgs(FormatString(quality, format), OutputTemplate(outputPath));
    var audio := if ExtractsAudio(format) then ["-x", "--audio-format", format, "--audio-quality", AudioQuality(quality)] else [];
    base + audio + [url]
  }

  /** The arguments after `-m yt_dlp` of `getVideoInfo`. */
  function InfoArgs(url: string): seq<string> {
    ["--dump-json", "--no-warnings", "--socket-timeout", "30", url]
  }

  /** How a command-line reader finds an option's value: the argument after the
      first occurrence of the flag. */
  function OptionValue(args: seq<string>, flag: string): Option<string>
    decreases |args|
  {
    if |args| < 2 then None
    else if args[0] == flag then Some(args[1])
    else OptionValue(args[1..], flag)
  }

  /** The flag occurs among the arguments. */
  predicate HasFlag(args: seq<string>, flag: string) {
    exists i | 0 <= i < |args| :: args[i] == flag
  }

  lemma {:induction false} OptionValueAfterPrefix(pre: seq<string>, flag: string, v: string, rest: seq<string>)
    requires forall i :: 0 <= i < |pre| ==> pre[i] != flag
    ensures OptionValue(pre + [flag, v] + rest, flag) == Some(v)
    decreases |pre|
  {
    if |pre| > 0 {
      assert (pre + [flag, v] + rest)[1..] == pre[1..] + [flag, v] + rest;
      OptionValueAfterPrefix(pre[1..], flag, v, rest);
    }
  }

  /** The value read for a flag is the argument after its first occurrence. */
  lemma {:induction false} OptionValueAt(args: seq<string>, flag: string, i: nat)
    requires i + 1 < |args| && args[i] == flag
    requires forall j :: 0 <= j < i ==> args[j] != flag
    ensures OptionValue(args, flag) == Some(args[i + 1])
    decreases i
  {
    if i > 0 {
      OptionValueAt(args[1..], flag, i - 1);
    }
  }

  lemma {:induction false} OptionValueAbsent(args: seq<string>, flag: string)
    requires |args| > 0
    requires forall i :: 0 <= i < |args| - 1 ==> args[i] != flag
    ensures OptionValue(args, flag) == None
    decreases |args|
  {
    if |args| >= 2 {
      OptionValueAbsent(args[1..], flag);
    }
  }

  /** No selector starts like a flag. */
  lemma FormatStringStartsWithB(quality: string, format: string)
    ensures |FormatString(quality, format)| > 0 && FormatString(quality, format)[0] == 'b'
  {
    FormatStringIsFallbackChain(quality, format);
    if !IsAudioFormat(format) {
      var a := Alternatives(HeightCap(quality));
      JoinAlternatives(HeightCap(quality));
      assert a[0][0] == 'b';
    }
  }

  /** The output template ends with the extension placeholder. */
  lemma OutputTemplateEnds(outputPath: string)
    ensures |OutputTemplate(outputPath)| >= 2
    ensures OutputTemplate(outputPath)[|OutputTemplate(outputPath)| - 1] == 's'
  {
    var t := OutputTemplate(outputPath);
    var n := "%(title)s.%(ext)s";
    assert t[|t| - |n|..] == n;
    assert t[|t| - 1] == t[|t| - |n|..][|n| - 1];
  }

  /** The option names of the download command. */
  const Flags: set<string> := {"--socket-timeout", "-f", "-o", "--no-warnings", "--merge-output-format",
                               "-x", "--audio-format", "--audio-quality"}

  /** The common options read back from any argument list that starts with them,
      as long as neither value looks like an option name. */
  lemma CommonArgsReadBack(fs: string, t: string, rest: seq<string>)
    requires fs !in Flags && t !in Flags
    ensures OptionValue(CommonArgs(fs, t) + rest, "--socket-timeout") == Some("30")
    ensures OptionValue(CommonArgs(fs, t) + rest, "-f") == Some(fs)
    ensures OptionValue(CommonArgs(fs, t) + rest, "-o") == Some(t)
    ensures OptionValue(CommonArgs(fs, t) + rest, "--merge-output-format") == Some("mp4")
  {
    var args := CommonArgs(fs, t) + rest;
    OptionValueAt(args, "--socket-timeout", 0);
    OptionValueAt(args, "-f", 2);
    OptionValueAt(args, "-o", 4);
    OptionValueAt(args, "--merge-output-format", 7);
  }

  /** With extraction, the audio options follow the common ones and `-x` is passed. */
  lemma ExtractArgsReadBack(fs: string, t: string, format: string, bitrate: string, url: string)
    requires fs !in Flags && t !in Flags && format !in Flags
    ensures var args := CommonArgs(fs, t) + ["-x", "--audio-format", format, "--audio-quality", bitrate] + [url];
            && HasFlag(args[..|args| - 1], "-x")
            && OptionValue(args, "--audio-format") == Some(format)
            && OptionValue(args, "--audio-quality") == Some(bitrate)
  {
    var args := CommonArgs(fs, t) + ["-x", "--audio-format", format, "--audio-quality", bitrate] + [url];
    assert args[..|args| - 1][9] == "-x";
    OptionValueAt(args, "--audio-format", 10);
    OptionValueAt(args, "--audio-quality", 12);
  }

  /** Without extraction no audio option is passed at all. */
  lemma PlainArgsReadBack(fs: string, t: string, url: string)
    requires fs !in Flags && t !in Flags
    ensures var args := CommonArgs(fs, t) + [url];
            && !HasFlag(args[..|args| - 1], "-x")
            && OptionValue(args, "--audio-format") == None
            && OptionValue(args, "--audio-quality") == None
  {
    var args := CommonArgs(fs, t) + [url];
    OptionValueAbsent(args, "--audio-format");
    OptionValueAbsent(args, "--audio-quality");
    assert args[..|args| - 1] == CommonArgs(fs, t);
  }

  /** The selector cannot be mistaken for an option name. */
  lemma SelectorIsNoFlag(quality: string, format: string)
    ensures FormatString(quality, format) !in Flags
  {
    FormatStringStartsWithB(quality, format);
    var fs := FormatString(quality, format);
    assert fs[0] != '-';
  }

  /** Nor can the output template. */
  lemma TemplateIsNoFlag(outputPath: string)
    ensures OutputTemplate(outputPath) !in Flags
  {
    OutputTemplateEnds(outputPath);
    var t := OutputTemplate(outputPath);
    assert t[|t| - 1] == 's';
  }

  /** What yt-dlp reads from the download arguments: the selector after `-f`, the
      output template after `-o`, mp4 as merge container, the URL last, and for
      mp3/m4a/wav an extraction to that format at the mapped bitrate, which no
      other format gets. */
  lemma DownloadArgsReadBack(url: string, quality: string, format: string, outputPath: string)
    ensures var args := DownloadArgs(url, quality, format, outputPath);
            && |args| == (if ExtractsAudio(format) then 15 else 10)
            && args[|args| - 1] == url
            && OptionValue(args, "--socket-timeout") == Some("30")
            && OptionValue(args, "-f") == Some(FormatString(quality, format))
            && OptionValue(args, "-o") == Some(OutputTemplate(outputPath))
            && OptionValue(args, "--merge-output-format") == Some("mp4")
    ensures var args := DownloadArgs(url, quality, format, outputPath);
            ExtractsAudio(format) ==>
              && HasFlag(args[..|args| - 1], "-x")
              && OptionValue(args, "--audio-format") == Some(format)
              && OptionValue(args, "--audio-quality") == Some(AudioQuality(quality))
              && FormatString(quality, format) == "bestaudio"
    ensures var args := DownloadArgs(url, quality, format, outputPath);
            !ExtractsAudio(format) ==>
              && !HasFlag(args[..|args| - 1], "-x")
              && OptionValue(args, "--audio-format") == None
              && OptionValue(args, "--audio-quality") == None
  {
    var fs := FormatString(quality, format);
    var t := OutputTemplate(outputPath);
    SelectorIsNoFlag(quality, format);
    TemplateIsNoFlag(outputPath);
    if ExtractsAudio(format) {
      var audio := ["-x", "--audio-format", format, "--audio-quality", AudioQuality(quality)];
      CommonArgsReadBack(fs, t, audio + [url]);
      ExtractArgsReadBack(fs, t, format, AudioQuality(quality), url);
      assert CommonArgs(fs, t) + audio + [url] == CommonArgs(fs, t) + (audio + [url]);
    } else {
      CommonArgsReadBack(fs, t, [url]);
      PlainArgsReadBack(fs, t, url);
      assert CommonArgs(fs, t) + [] + [url] == CommonArgs(fs, t) + [url];
    }
  }

  /** An opus request selects the bare audio stream but, unlike mp3, m4a and wav,
      asks for no extraction: yt-dlp keeps the stream's own container. */
  lemma OpusIsNotExtracted(url: string, quality: string, outputPath: string)
    ensures FormatString(quality, "opus") == "bestaudio"
    ensures !HasFlag(DownloadArgs(url, quality, "opus", outputPath)[..10 - 1], "-x")
    ensures OptionValue(DownloadArgs(url, quality, "opus", outputPath), "--audio-format") == None
  {
    DownloadArgsReadBack(url, quality, "opus", outputPath);
  }

  /** The info command asks for the JSON dump of the URL, which comes last. */
  lemma InfoArgsReadBack(url: string)
    ensures var args := InfoArgs(url);
            && args[|args| - 1] == url
            && HasFlag(args[..|args| - 1], "--dump-json")
            && OptionValue(args, "--socket-timeout") == Some("30")
  {
    var args := InfoArgs(url);
    assert args == ["--dump-json", "--no-warnings"] + ["--socket-timeout", "30"] + [url];
    OptionValueAfterPrefix(["--dump-json", "--no-warnings"], "--socket-timeout", "30", [url]);
    assert args[..|args| - 1][0] == "--dump-json";
  }
}
