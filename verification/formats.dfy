/** The format lists of a video-info record: `extractVideoFormats` and
    `extractAudioFormats` in backend/ytdlpHelper.js, which turn the extractor's
    `formats` array into at most five video choices and one or two audio
    choices. */
module MediaFormats {
  import opened Text
  import opened Wrappers

  /** One entry of the extractor's `formats` array, with the fields the backend
      reads. A field that is absent or null is `None`. */
  datatype MediaFormat = MediaFormat(
    formatId: Option<string>,
    ext: Option<string>,
    vcodec: Option<string>,
    acodec: Option<string>,
    height: Option<nat>,
    filesize: Option<nat>,
    abr: Option<real>)

  /** `n || 0` for an optional count: absent and 0 both give 0. */
  function OrZero(n: Option<nat>): nat {
    match n
    case Some(v) => v
    case None => 0
  }

  /** `f.abr || 0`. */
  function Abr(f: MediaFormat): real {
    match f.abr
    case Some(v) => v
    case None => 0.0
  }

  /** The display label of a size: a fixed text, or what `formatFileSize` makes of
      a byte count (that floating-point rendering is not part of this model). */
  datatype SizeLabel = Literal(text: string) | FormattedBytes(bytes: nat)

  /** One downloadable choice offered to the client. */
  datatype FormatOption = FormatOption(
    quality: string,
    container: string,
    fileSize: nat,
    sizeLabel: SizeLabel,
    formatId: Option<string>)

  // ---------------------------------------------------------------------------
  // Classification of formats
  // ---------------------------------------------------------------------------

  /** The video filter: a real video codec in an mp4, mkv or webm container. */
  predicate IsVideoCandidate(f: MediaFormat) {
    && Truthy(f.vcodec) && f.vcodec.value != "none"
    && (f.ext == Some("mp4") || f.ext == Some("mkv") || f.ext == Some("webm"))
  }

  /** `f.height` read as a number; absent reads as 0, which is falsy. */
  function HeightOf(f: MediaFormat): nat {
    OrZero(f.height)
  }

  /** A format that yields a video choice: it passes the video filter and its
      height is truthy. */
  predicate IsListed(f: MediaFormat) {
    IsVideoCandidate(f) && HeightOf(f) != 0
  }

  /** The audio-only filter: a real audio codec and a falsy `vcodec`. A format
      whose `vcodec` is the string "none" is therefore not audio-only. */
  predicate IsAudioOnly(f: MediaFormat) {
    Truthy(f.acodec) && f.acodec.value != "none" && !Truthy(f.vcodec)
  }

  /** The quality key of a height: `height + 'p'`. */
  function QualityKey(h: nat): string {
    NatToString(h) + "p"
  }

  /** `parseInt(option.quality)`, the sort key. */
  function QualityRank(e: FormatOption): nat {
    ParseLeadingNat(e.quality)
  }

  /** A quality key reads back as its height. */
  lemma QualityKeyRank(h: nat)
    ensures ParseLeadingNat(QualityKey(h)) == h
  {
    ParseLeadingNatOfRendered(h, "p");
  }

  // ---------------------------------------------------------------------------
  // Audio-only streams
  // ---------------------------------------------------------------------------

  /** Every position of the list moved one place to the right. */
  function ShiftPositions(ix: seq<nat>): (r: seq<nat>)
    ensures |r| == |ix|
    ensures forall k :: 0 <= k < |ix| ==> r[k] == ix[k] + 1
  {
    seq(|ix|, k requires 0 <= k < |ix| => ix[k] + 1)
  }

  /** The positions of the audio-only formats of the list, in increasing order. */
  function AudioPositions(formats: seq<MediaFormat>): (ix: seq<nat>)
    ensures forall k :: 0 <= k < |ix| ==> ix[k] < |formats|
    decreases |formats|
  {
    if |formats| == 0 then []
    else (if IsAudioOnly(formats[0]) then [0] else []) + ShiftPositions(AudioPositions(formats[1..]))
  }

  /** The list of positions is its head position, if the first format is
      audio-only, followed by the positions of the tail shifted by one. */
  lemma AudioPositionsUnfold(formats: seq<MediaFormat>)
    requires |formats| > 0
    ensures AudioPositions(formats)
              == (if IsAudioOnly(formats[0]) then [0] else []) + ShiftPositions(AudioPositions(formats[1..]))
  {
  }

  /** Every listed position holds an audio-only format. */
  lemma {:induction false} AudioPositionsAreAudio(formats: seq<MediaFormat>)
    ensures forall k :: 0 <= k < |AudioPositions(formats)| ==> IsAudioOnly(formats[AudioPositions(formats)[k]])
    decreases |formats|
  {
    if |formats| > 0 {
      var tail := formats[1..];
      var rest := AudioPositions(tail);
      AudioPositionsAreAudio(tail);
      var shifted := ShiftPositions(rest);
      AudioPositionsUnfold(formats);
      forall k | 0 <= k < |shifted|
        ensures IsAudioOnly(formats[shifted[k]])
      {
        assert formats[shifted[k]] == tail[rest[k]];
      }
    }
  }

  /** The positions are listed in strictly increasing order. */
  lemma {:induction false} AudioPositionsIncreasing(formats: seq<MediaFormat>)
    ensures forall p, q :: 0 <= p < q < |AudioPositions(formats)| ==> AudioPositions(formats)[p] < AudioPositions(formats)[q]
    decreases |formats|
  {
    if |formats| > 0 {
      AudioPositionsIncreasing(formats[1..]);
      AudioPositionsUnfold(formats);
    }
  }

  /** Every audio-only position is listed. */
  lemma {:induction false} AudioPositionsComplete(formats: seq<MediaFormat>)
    ensures forall i :: 0 <= i < |formats| && IsAudioOnly(formats[i]) ==> i in AudioPositions(formats)
    decreases |formats|
  {
    if |formats| > 0 {
      var tail := formats[1..];
      var rest := AudioPositions(tail);
      AudioPositionsComplete(tail);
      var shifted := ShiftPositions(rest);
      AudioPositionsUnfold(formats);
      forall i | 1 <= i < |formats| && IsAudioOnly(formats[i])
        ensures i in shifted
      {
        assert tail[i - 1] == formats[i];
        var k :| 0 <= k < |rest| && rest[k] == i - 1;
        assert shifted[k] == i;
      }
    }
  }

  /** The positions are exactly the audio-only positions, each listed once, in
      increasing order. */
  lemma AudioPositionsSpec(formats: seq<MediaFormat>)
    ensures var ix := AudioPositions(formats);
            && (forall k :: 0 <= k < |ix| ==> IsAudioOnly(formats[ix[k]]))
            && (forall p, q :: 0 <= p < q < |ix| ==> ix[p] < ix[q])
            && (forall i :: 0 <= i < |formats| && IsAudioOnly(formats[i]) ==> i in ix)
  {
    AudioPositionsAreAudio(formats);
    AudioPositionsIncreasing(formats);
    AudioPositionsComplete(formats);
  }

  /** `formats.filter(IsAudioOnly)`. */
  function AudioStreams(formats: seq<MediaFormat>): (a: seq<MediaFormat>)
    ensures |a| <= |formats|
    ensures forall x :: x in a <==> x in formats && IsAudioOnly(x)
  {
    if |formats| == 0 then []
    else (if IsAudioOnly(formats[0]) then [formats[0]] else []) + AudioStreams(formats[1..])
  }

  /** The filter keeps one element per audio-only position. */
  lemma {:induction false} AudioStreamsLength(formats: seq<MediaFormat>)
    ensures |AudioStreams(formats)| == |AudioPositions(formats)|
    decreases |formats|
  {
    if |formats| > 0 {
      AudioStreamsLength(formats[1..]);
      AudioPositionsUnfold(formats);
    }
  }

  /** The filtered list is the head, if it is audio-only, followed by the
      filtered tail. */
  lemma AudioStreamsUnfold(formats: seq<MediaFormat>)
    requires |formats| > 0
    ensures AudioStreams(formats) == (if IsAudioOnly(formats[0]) then [formats[0]] else []) + AudioStreams(formats[1..])
  {
  }

  /** The k-th filtered element is the format at the k-th audio-only position. */
  lemma {:induction false} AudioStreamAt(formats: seq<MediaFormat>, k: nat)
    requires k < |AudioStreams(formats)| && k < |AudioPositions(formats)|
    ensures AudioStreams(formats)[k] == formats[AudioPositions(formats)[k]]
    decreases |formats|
  {
    var tail := formats[1..];
    var a, rest := AudioStreams(tail), AudioPositions(tail);
    AudioStreamsLength(tail);
    AudioStreamsUnfold(formats);
    AudioPositionsUnfold(formats);
    var shifted := ShiftPositions(rest);
    if IsAudioOnly(formats[0]) {
      if k > 0 {
        assert AudioStreams(formats)[k] == a[k - 1];
        assert AudioPositions(formats)[k] == shifted[k - 1] == rest[k - 1] + 1;
        AudioStreamAt(tail, k - 1);
        assert formats[rest[k - 1] + 1] == tail[rest[k - 1]];
      }
    } else {
      assert AudioStreams(formats)[k] == a[k];
      assert AudioPositions(formats)[k] == shifted[k] == rest[k] + 1;
      AudioStreamAt(tail, k);
      assert formats[rest[k] + 1] == tail[rest[k]];
    }
  }

  /** The filter keeps the input order: its k-th element is the format at the
      k-th audio-only position. */
  lemma AudioStreamsInOrder(formats: seq<MediaFormat>)
    ensures |AudioStreams(formats)| == |AudioPositions(formats)|
    ensures forall k :: 0 <= k < |AudioStreams(formats)| ==>
              AudioStreams(formats)[k] == formats[AudioPositions(formats)[k]]
  {
    AudioStreamsLength(formats);
    forall k | 0 <= k < |AudioStreams(formats)|
      ensures AudioStreams(formats)[k] == formats[AudioPositions(formats)[k]]
    {
      AudioStreamAt(formats, k);
    }
  }

  /** Index i holds the first audio-only format of the list. */
  predicate IsFirstAudio(formats: seq<MediaFormat>, i: int) {
    0 <= i < |formats| && IsAudioOnly(formats[i]) && forall j :: 0 <= j < i ==> !IsAudioOnly(formats[j])
  }

  lemma {:induction false} AudioStreamsHead(formats: seq<MediaFormat>)
    ensures |AudioStreams(formats)| == 0 <==> forall i :: 0 <= i < |formats| ==> !IsAudioOnly(formats[i])
    ensures |AudioStreams(formats)| > 0 ==>
              exists i :: IsFirstAudio(formats, i) && AudioStreams(formats)[0] == formats[i]
    decreases |formats|
  {
    if |formats| > 0 {
      var rest := formats[1..];
      AudioStreamsHead(rest);
      if !IsAudioOnly(formats[0]) {
        assert AudioStreams(formats) == AudioStreams(rest);
        if |AudioStreams(rest)| > 0 {
          var i :| IsFirstAudio(rest, i) && AudioStreams(rest)[0] == rest[i];
          assert IsFirstAudio(formats, i + 1);
        }
        forall i | 0 <= i < |formats| && IsAudioOnly(formats[i])
          ensures |AudioStreams(rest)| > 0
        {
          assert rest[i - 1] == formats[i];
        }
      } else {
        assert IsFirstAudio(formats, 0);
      }
    }
  }

  /** The size of the audio track added to every video choice:
      `audioFormats[0]?.filesize || 0`. */
  function CompanionAudioSize(formats: seq<MediaFormat>): nat {
    var a := AudioStreams(formats);
    if |a| > 0 then OrZero(a[0].filesize) else 0
  }

  /** The companion audio size is the size of the first audio-only format of the
      list (0 when its size is missing), and 0 when there is none. */
  lemma CompanionAudioSizeIsFirstAudio(formats: seq<MediaFormat>)
    ensures (forall i :: 0 <= i < |formats| ==> !IsAudioOnly(formats[i])) ==> CompanionAudioSize(formats) == 0
    ensures forall i :: IsFirstAudio(formats, i) ==> CompanionAudioSize(formats) == OrZero(formats[i].filesize)
  {
    AudioStreamsHead(formats);
    forall i | IsFirstAudio(formats, i)
      ensures CompanionAudioSize(formats) == OrZero(formats[i].filesize)
    {
      var k :| IsFirstAudio(formats, k) && AudioStreams(formats)[0] == formats[k];
      assert k == i;
    }
  }

  // ---------------------------------------------------------------------------
  // extractVideoFormats
  // ---------------------------------------------------------------------------

  /** The choice built for a listed format: its quality key, its container, and
      its size plus the companion audio size. */
  function VideoOption(f: MediaFormat, audioSize: nat): FormatOption {
    var size := OrZero(f.filesize) + audioSize;
    FormatOption(QualityKey(HeightOf(f)), OrString(f.ext, "mp4"), size, FormattedBytes(size), f.formatId)
  }

  predicate HasQuality(opts: seq<FormatOption>, q: string) {
    exists k | 0 <= k < |opts| :: opts[k].quality == q
  }

  /** The values of the `uniqueQualities` map in insertion order. The source
      filters with `IsVideoCandidate` and then, inside `forEach`, skips a falsy
      height; both tests are applied here to each format in turn, which keeps
      the same formats in the same order. A quality already present is never
      replaced, so the first format of each height wins. */
  function UniqueQualities(formats: seq<MediaFormat>, audioSize: nat): seq<FormatOption>
    decreases |formats|
  {
    if |formats| == 0 then []
    else
      var acc := UniqueQualities(formats[..|formats| - 1], audioSize);
      var f := formats[|formats| - 1];
      if IsListed(f) && !HasQuality(acc, QualityKey(HeightOf(f))) then acc + [VideoOption(f, audioSize)]
      else acc
  }

  /** Index i holds the first listed format of its height. */
  predicate FirstOfHeight(formats: seq<MediaFormat>, i: int) {
    && 0 <= i < |formats| && IsListed(formats[i])
    && forall j :: 0 <= j < i && IsListed(formats[j]) ==> HeightOf(formats[j]) != HeightOf(formats[i])
  }

  predicate DistinctQualities(s: seq<FormatOption>) {
    forall k, m :: 0 <= k < m < |s| ==> s[k].quality != s[m].quality
  }

  /** Every choice's quality is "<rank>p". */
  predicate WellKeyed(s: seq<FormatOption>) {
    forall k :: 0 <= k < |s| ==> s[k].quality == QualityKey(QualityRank(s[k]))
  }

  lemma VideoOptionWellKeyed(f: MediaFormat, audioSize: nat)
    ensures VideoOption(f, audioSize).quality == QualityKey(QualityRank(VideoOption(f, audioSize)))
    ensures QualityRank(VideoOption(f, audioSize)) == HeightOf(f)
  {
    QualityKeyRank(HeightOf(f));
  }

  /** The choice `e` is the one built from the first listed format of some height. */
  ghost predicate BuiltFromFirst(formats: seq<MediaFormat>, audioSize: nat, e: FormatOption) {
    exists i :: FirstOfHeight(formats, i) && e == VideoOption(formats[i], audioSize)
  }

  /** Appending a format keeps what the map already holds and adds at most the
      new format's choice. */
  lemma UniqueQualitiesStep(formats: seq<MediaFormat>, audioSize: nat)
    requires |formats| > 0
    ensures var acc := UniqueQualities(formats[..|formats| - 1], audioSize);
            var r := UniqueQualities(formats, audioSize);
            var f := formats[|formats| - 1];
            && r[..|acc|] == acc
            && (IsListed(f) && !HasQuality(acc, QualityKey(HeightOf(f))) ==> r == acc + [VideoOption(f, audioSize)])
            && (!(IsListed(f) && !HasQuality(acc, QualityKey(HeightOf(f)))) ==> r == acc)
  {
  }

  /** Every listed height has a value in the map. */
  lemma {:induction false} UniqueQualitiesCover(formats: seq<MediaFormat>, audioSize: nat)
    ensures forall i :: 0 <= i < |formats| && IsListed(formats[i]) ==>
              HasQuality(UniqueQualities(formats, audioSize), QualityKey(HeightOf(formats[i])))
    decreases |formats|
  {
    if |formats| > 0 {
      var n := |formats|;
      var prefix := formats[..n - 1];
      var acc := UniqueQualities(prefix, audioSize);
      var r := UniqueQualities(formats, audioSize);
      UniqueQualitiesCover(prefix, audioSize);
      UniqueQualitiesStep(formats, audioSize);
      forall i | 0 <= i < n && IsListed(formats[i])
        ensures HasQuality(r, QualityKey(HeightOf(formats[i])))
      {
        if i < n - 1 {
          assert prefix[i] == formats[i];
          var k :| 0 <= k < |acc| && acc[k].quality == QualityKey(HeightOf(prefix[i]));
          assert r[k] == acc[k];
        } else if HasQuality(acc, QualityKey(HeightOf(formats[i]))) {
          var k :| 0 <= k < |acc| && acc[k].quality == QualityKey(HeightOf(formats[i]));
          assert r[k] == acc[k];
        } else {
          assert r[|acc|].quality == QualityKey(HeightOf(formats[i]));
        }
      }
    }
  }

  /** No quality appears twice in the map, and each is "<rank>p". */
  lemma {:induction false} UniqueQualitiesDistinct(formats: seq<MediaFormat>, audioSize: nat)
    ensures DistinctQualities(UniqueQualities(formats, audioSize))
    ensures WellKeyed(UniqueQualities(formats, audioSize))
    decreases |formats|
  {
    if |formats| > 0 {
      var n := |formats|;
      var prefix := formats[..n - 1];
      var f := formats[n - 1];
      var acc := UniqueQualities(prefix, audioSize);
      var r := UniqueQualities(formats, audioSize);
      UniqueQualitiesDistinct(prefix, audioSize);
      UniqueQualitiesStep(formats, audioSize);
      if IsListed(f) && !HasQuality(acc, QualityKey(HeightOf(f))) {
        VideoOptionWellKeyed(f, audioSize);
        forall k, m | 0 <= k < m < |r|
          ensures r[k].quality != r[m].quality
        {
          if m < |acc| {
            assert r[k] == acc[k] && r[m] == acc[m];
          } else {
            assert r[k] == acc[k];
          }
        }
        forall k | 0 <= k < |r|
          ensures r[k].quality == QualityKey(QualityRank(r[k]))
        {
          if k < |acc| {
            assert r[k] == acc[k];
          }
        }
      }
    }
  }

  /** Each value of the map is the choice of the first listed format of its height. */
  lemma {:induction false} UniqueQualitiesFirstWins(formats: seq<MediaFormat>, audioSize: nat)
    ensures var r := UniqueQualities(formats, audioSize);
            forall k :: 0 <= k < |r| ==> BuiltFromFirst(formats, audioSize, r[k])
    decreases |formats|
  {
    if |formats| > 0 {
      var n := |formats|;
      var prefix := formats[..n - 1];
      var f := formats[n - 1];
      var acc := UniqueQualities(prefix, audioSize);
      var r := UniqueQualities(formats, audioSize);
      UniqueQualitiesFirstWins(prefix, audioSize);
      UniqueQualitiesStep(formats, audioSize);
      forall k | 0 <= k < |r|
        ensures BuiltFromFirst(formats, audioSize, r[k])
      {
        if k < |acc| {
          assert r[k] == acc[k];
          assert BuiltFromFirst(prefix, audioSize, acc[k]);
          var i :| FirstOfHeight(prefix, i) && acc[k] == VideoOption(prefix[i], audioSize);
          assert forall j :: 0 <= j <= i ==> prefix[j] == formats[j];
          assert FirstOfHeight(formats, i);
        } else {
          assert IsListed(f) && !HasQuality(acc, QualityKey(HeightOf(f)));
          UniqueQualitiesCover(prefix, audioSize);
          forall j | 0 <= j < n - 1 && IsListed(formats[j])
            ensures HeightOf(formats[j]) != HeightOf(f)
          {
            assert prefix[j] == formats[j];
          }
          assert FirstOfHeight(formats, n - 1);
        }
      }
    }
  }

  /** Descending by sort key. */
  predicate Descending(s: seq<FormatOption>) {
    forall i, j :: 0 <= i < j < |s| ==> QualityRank(s[i]) >= QualityRank(s[j])
  }

  /** Inserts x after every element whose key is at least its own. */
  function InsertByRank(x: FormatOption, s: seq<FormatOption>): seq<FormatOption>
    decreases |s|
  {
    if |s| == 0 then [x]
    else if QualityRank(x) > QualityRank(s[0]) then [x] + s
    else [s[0]] + InsertByRank(x, s[1..])
  }

  /** `sort((a, b) => parseInt(b.quality) - parseInt(a.quality))`: a stable sort,
      highest key first. The keys handed to it are pairwise distinct, so every
      correct sort gives the same order. */
  function SortByRank(s: seq<FormatOption>): seq<FormatOption>
    decreases |s|
  {
    if |s| == 0 then [] else InsertByRank(s[|s| - 1], SortByRank(s[..|s| - 1]))
  }

  /** Where `InsertByRank` puts x: after every element whose key is at least its own. */
  function InsertPos(x: FormatOption, s: seq<FormatOption>): (p: nat)
    ensures p <= |s|
    decreases |s|
  {
    if |s| == 0 || QualityRank(x) > QualityRank(s[0]) then 0 else 1 + InsertPos(x, s[1..])
  }

  /** Insertion splits the list at `InsertPos`. */
  lemma {:induction false} InsertByRankSplits(x: FormatOption, s: seq<FormatOption>)
    ensures var p := InsertPos(x, s); InsertByRank(x, s) == s[..p] + [x] + s[p..]
    decreases |s|
  {
    if |s| > 0 && QualityRank(x) <= QualityRank(s[0]) {
      var t := s[1..];
      var q := InsertPos(x, t);
      InsertByRankSplits(x, t);
      assert t[..q] == s[1..q + 1] && t[q..] == s[q + 1..];
      assert [s[0]] + s[1..q + 1] == s[..q + 1];
    } else {
      assert s[..0] == [] && s[0..] == s;
    }
  }

  /** Everything before x has a key at least x's, and the element right after x
      has a smaller key. */
  lemma {:induction false} InsertPosBounds(x: FormatOption, s: seq<FormatOption>)
    ensures var p := InsertPos(x, s);
            && (forall i :: 0 <= i < p ==> QualityRank(s[i]) >= QualityRank(x))
            && (p < |s| ==> QualityRank(x) > QualityRank(s[p]))
    decreases |s|
  {
    if |s| > 0 && QualityRank(x) <= QualityRank(s[0]) {
      var t := s[1..];
      InsertPosBounds(x, t);
      forall i | 0 < i < InsertPos(x, s)
        ensures QualityRank(s[i]) >= QualityRank(x)
      {
        assert s[i] == t[i - 1];
      }
    }
  }

  /** The element at each index of an insertion. */
  lemma InsertByRankIndex(x: FormatOption, s: seq<FormatOption>)
    ensures var r, p := InsertByRank(x, s), InsertPos(x, s);
            && |r| == |s| + 1
            && r[p] == x
            && (forall k :: 0 <= k < p ==> r[k] == s[k])
            && (forall k :: p < k < |r| ==> r[k] == s[k - 1])
  {
    InsertByRankSplits(x, s);
  }

  /** Insertion adds exactly x. */
  lemma InsertByRankElements(x: FormatOption, s: seq<FormatOption>)
    ensures |InsertByRank(x, s)| == |s| + 1
    ensures multiset(InsertByRank(x, s)) == multiset(s) + multiset{x}
    ensures forall y :: y in InsertByRank(x, s) <==> y == x || y in s
  {
    InsertByRankMultiset(x, s);
    InsertByRankMembers(x, s);
  }

  lemma {:induction false} InsertByRankMultiset(x: FormatOption, s: seq<FormatOption>)
    ensures |InsertByRank(x, s)| == |s| + 1
    ensures multiset(InsertByRank(x, s)) == multiset(s) + multiset{x}
    decreases |s|
  {
    if |s| > 0 && QualityRank(x) <= QualityRank(s[0]) {
      var t := s[1..];
      InsertByRankMultiset(x, t);
      assert multiset(InsertByRank(x, s)) == multiset{s[0]} + multiset(InsertByRank(x, t));
      assert multiset(s) == multiset{s[0]} + multiset(t) by {
        assert s == [s[0]] + t;
      }
    }
  }

  lemma InsertByRankMembers(x: FormatOption, s: seq<FormatOption>)
    ensures forall y :: y in InsertByRank(x, s) <==> y == x || y in s
  {
    var r, p := InsertByRank(x, s), InsertPos(x, s);
    InsertByRankIndex(x, s);
    forall y | y in r
      ensures y == x || y in s
    {
      var k :| 0 <= k < |r| && r[k] == y;
      if k < p {
        assert y == s[k];
      } else if k > p {
        assert y == s[k - 1];
      }
    }
    forall y | y in s
      ensures y in r
    {
      var m :| 0 <= m < |s| && s[m] == y;
      if m < p {
        assert r[m] == y;
      } else {
        assert r[m + 1] == y;
      }
    }
  }

  /** Insertion into a descending list keeps it descending. */
  lemma InsertByRankDescending(x: FormatOption, s: seq<FormatOption>)
    requires Descending(s)
    ensures Descending(InsertByRank(x, s))
  {
    var r, p := InsertByRank(x, s), InsertPos(x, s);
    InsertPosBounds(x, s);
    InsertByRankIndex(x, s);
    forall i, j | 0 <= i < j < |r|
      ensures QualityRank(r[i]) >= QualityRank(r[j])
    {
      if j < p {
        assert r[i] == s[i] && r[j] == s[j];
      } else if j == p {
        assert r[i] == s[i];
      } else if i < p {
        assert r[i] == s[i] && r[j] == s[j - 1];
        assert QualityRank(s[i]) >= QualityRank(x) > QualityRank(s[p]) >= QualityRank(s[j - 1]);
      } else if i == p {
        assert r[j] == s[j - 1];
        assert QualityRank(x) > QualityRank(s[p]) >= QualityRank(s[j - 1]);
      } else {
        assert r[i] == s[i - 1] && r[j] == s[j - 1];
      }
    }
  }

  /** Insertion of a new quality into a list of distinct qualities keeps them distinct. */
  lemma InsertByRankDistinct(x: FormatOption, s: seq<FormatOption>)
    requires DistinctQualities(s) && !HasQuality(s, x.quality)
    ensures DistinctQualities(InsertByRank(x, s))
  {
    var r, p := InsertByRank(x, s), InsertPos(x, s);
    InsertByRankIndex(x, s);
    forall i, j | 0 <= i < j < |r|
      ensures r[i].quality != r[j].quality
    {
      if i == p {
        assert r[j].quality == s[j - 1].quality;
      } else if j == p {
        assert r[i].quality == s[i].quality;
      }
    }
  }

  lemma MultisetSnoc<T>(s: seq<T>)
    requires |s| > 0
    ensures multiset(s) == multiset(s[..|s| - 1]) + multiset{s[|s| - 1]}
  {
    assert s == s[..|s| - 1] + [s[|s| - 1]];
  }

  lemma {:induction false} SortByRankMultiset(s: seq<FormatOption>)
    ensures |SortByRank(s)| == |s|
    ensures multiset(SortByRank(s)) == multiset(s)
    decreases |s|
  {
    if |s| > 0 {
      var init := s[..|s| - 1];
      var x := s[|s| - 1];
      var sortedInit := SortByRank(init);
      SortByRankMultiset(init);
      InsertByRankMultiset(x, sortedInit);
      assert SortByRank(s) == InsertByRank(x, sortedInit);
      MultisetSnoc(s);
      calc {
        multiset(SortByRank(s));
        multiset(sortedInit) + multiset{x};
        multiset(init) + multiset{x};
        multiset(s);
      }
    }
  }

  /** Sorting rearranges the choices: same length, same multiset. */
  lemma SortByRankElements(s: seq<FormatOption>)
    ensures |SortByRank(s)| == |s|
    ensures multiset(SortByRank(s)) == multiset(s)
    ensures forall y :: y in SortByRank(s) <==> y in s
  {
    SortByRankMultiset(s);
    forall y
      ensures y in SortByRank(s) <==> y in s
    {
      assert y in SortByRank(s) <==> y in multiset(SortByRank(s));
      assert y in s <==> y in multiset(s);
    }
  }

  /** Sorting puts the choices in descending key order. */
  lemma {:induction false} SortByRankDescending(s: seq<FormatOption>)
    ensures Descending(SortByRank(s))
    decreases |s|
  {
    if |s| > 0 {
      var init := s[..|s| - 1];
      SortByRankDescending(init);
      InsertByRankDescending(s[|s| - 1], SortByRank(init));
    }
  }

  /** Sorting choices of pairwise distinct quality keeps them distinct. */
  lemma {:induction false} SortByRankDistinct(s: seq<FormatOption>)
    requires DistinctQualities(s)
    ensures DistinctQualities(SortByRank(s))
    decreases |s|
  {
    if |s| > 0 {
      var init := s[..|s| - 1];
      var x := s[|s| - 1];
      assert DistinctQualities(init);
      SortByRankDistinct(init);
      var sorted := SortByRank(init);
      forall m | 0 <= m < |sorted|
        ensures sorted[m].quality != x.quality
      {
        SortByRankElements(init);
        assert sorted[m] in init;
        var p :| 0 <= p < |init| && init[p] == sorted[m];
        assert s[p] == init[p];
      }
      InsertByRankDistinct(x, sorted);
    }
  }

  /** The video choices offered for a format list: one per listed height (the
      first format of that height), highest first, at most five. */
  function ExtractVideoFormats(formats: seq<MediaFormat>): (r: seq<FormatOption>)
    ensures |r| <= 5
  {
    var sorted := SortByRank(UniqueQualities(formats, CompanionAudioSize(formats)));
    if |sorted| <= 5 then sorted else sorted[..5]
  }

  ghost predicate StrictlyDescending(s: seq<FormatOption>) {
    forall k, m :: 0 <= k < m < |s| ==> QualityRank(s[k]) > QualityRank(s[m])
  }

  /** Every sorted choice comes from the unsorted list. */
  lemma SortByRankSource(u: seq<FormatOption>, k: int)
    requires 0 <= k < |SortByRank(u)|
    ensures exists p :: 0 <= p < |u| && u[p] == SortByRank(u)[k]
  {
    SortByRankElements(u);
    assert SortByRank(u)[k] in u;
  }

  /** Every choice of the unsorted list is somewhere in the sorted one. */
  lemma SortByRankTarget(u: seq<FormatOption>, p: int)
    requires 0 <= p < |u|
    ensures exists k :: 0 <= k < |SortByRank(u)| && SortByRank(u)[k] == u[p]
  {
    SortByRankElements(u);
    assert u[p] in SortByRank(u);
  }

  /** Descending keys with distinct "<rank>p" qualities are strictly descending. */
  lemma DistinctKeysStrict(s: seq<FormatOption>)
    requires Descending(s) && DistinctQualities(s) && WellKeyed(s)
    ensures StrictlyDescending(s)
  {
    forall k, m | 0 <= k < m < |s|
      ensures QualityRank(s[k]) > QualityRank(s[m])
    {
      assert s[k].quality != s[m].quality;
    }
  }

  lemma SortedQualitiesWellKeyed(formats: seq<MediaFormat>, a: nat)
    ensures WellKeyed(SortByRank(UniqueQualities(formats, a)))
  {
    var u := UniqueQualities(formats, a);
    var sorted := SortByRank(u);
    UniqueQualitiesDistinct(formats, a);
    forall k | 0 <= k < |sorted|
      ensures sorted[k].quality == QualityKey(QualityRank(sorted[k]))
    {
      SortByRankSource(u, k);
      var p :| 0 <= p < |u| && u[p] == sorted[k];
    }
  }

  /** The sorted map values are strictly descending and well keyed. */
  lemma SortedQualitiesOrder(formats: seq<MediaFormat>, a: nat)
    ensures var sorted := SortByRank(UniqueQualities(formats, a));
            StrictlyDescending(sorted) && WellKeyed(sorted)
  {
    var u := UniqueQualities(formats, a);
    UniqueQualitiesDistinct(formats, a);
    SortedQualitiesWellKeyed(formats, a);
    SortByRankDescending(u);
    SortByRankDistinct(u);
    DistinctKeysStrict(SortByRank(u));
  }

  /** Each sorted value is built from the first listed format of its height. */
  lemma SortedQualitiesFirstWins(formats: seq<MediaFormat>, a: nat)
    ensures var sorted := SortByRank(UniqueQualities(formats, a));
            forall k :: 0 <= k < |sorted| ==> BuiltFromFirst(formats, a, sorted[k])
  {
    var u := UniqueQualities(formats, a);
    var sorted := SortByRank(u);
    UniqueQualitiesFirstWins(formats, a);
    forall k | 0 <= k < |sorted|
      ensures BuiltFromFirst(formats, a, sorted[k])
    {
      SortByRankSource(u, k);
      var p :| 0 <= p < |u| && u[p] == sorted[k];
      assert BuiltFromFirst(formats, a, u[p]);
    }
  }

  /** Index q of s holds the choice of height h, keyed "<h>p". */
  predicate KeyedAt(s: seq<FormatOption>, q: int, h: nat) {
    0 <= q < |s| && QualityRank(s[q]) == h && s[q].quality == QualityKey(h)
  }

  /** Every listed height of `formats` has a choice in s keyed by it. */
  ghost predicate CoversListed(formats: seq<MediaFormat>, s: seq<FormatOption>) {
    forall i :: 0 <= i < |formats| && IsListed(formats[i]) ==> exists q :: KeyedAt(s, q, HeightOf(formats[i]))
  }

  /** Every listed height has a sorted value keyed by it. */
  lemma SortedQualitiesCover(formats: seq<MediaFormat>, a: nat)
    ensures CoversListed(formats, SortByRank(UniqueQualities(formats, a)))
  {
    var u := UniqueQualities(formats, a);
    var sorted := SortByRank(u);
    UniqueQualitiesCover(formats, a);
    forall i | 0 <= i < |formats| && IsListed(formats[i])
      ensures exists q :: KeyedAt(SortByRank(UniqueQualities(formats, a)), q, HeightOf(formats[i]))
    {
      var h := HeightOf(formats[i]);
      assert HasQuality(u, QualityKey(h));
      var p :| 0 <= p < |u| && u[p].quality == QualityKey(h);
      SortByRankTarget(u, p);
      var q :| 0 <= q < |sorted| && sorted[q] == u[p];
      QualityKeyRank(h);
      assert KeyedAt(sorted, q, h);
    }
  }

  /** The kept choices are the first ones of the sorted list. */
  lemma ExtractVideoFormatsPrefix(formats: seq<MediaFormat>)
    ensures var sorted := SortByRank(UniqueQualities(formats, CompanionAudioSize(formats)));
            var r := ExtractVideoFormats(formats);
            && |r| == (if |sorted| <= 5 then |sorted| else 5)
            && forall k :: 0 <= k < |r| ==> r[k] == sorted[k]
  {
  }

  lemma ExtractVideoFormatsOrder(formats: seq<MediaFormat>)
    ensures var r := ExtractVideoFormats(formats);
            && StrictlyDescending(r)
            && (forall k :: 0 <= k < |r| ==> r[k].quality == QualityKey(QualityRank(r[k])))
  {
    var r := ExtractVideoFormats(formats);
    SortedQualitiesOrder(formats, CompanionAudioSize(formats));
    ExtractVideoFormatsPrefix(formats);
  }

  lemma ExtractVideoFormatsFirstWins(formats: seq<MediaFormat>)
    ensures var r := ExtractVideoFormats(formats);
            forall k :: 0 <= k < |r| ==> BuiltFromFirst(formats, CompanionAudioSize(formats), r[k])
  {
    SortedQualitiesFirstWins(formats, CompanionAudioSize(formats));
    ExtractVideoFormatsPrefix(formats);
  }

  /** A listed height left out is lower than all five kept ones. */
  lemma ExtractVideoFormatsTopFive(formats: seq<MediaFormat>)
    ensures var r := ExtractVideoFormats(formats);
            forall i :: 0 <= i < |formats| && IsListed(formats[i]) && !HasQuality(r, QualityKey(HeightOf(formats[i]))) ==>
              |r| == 5 && forall k :: 0 <= k < 5 ==> QualityRank(r[k]) > HeightOf(formats[i])
  {
    var sorted := SortByRank(UniqueQualities(formats, CompanionAudioSize(formats)));
    var r := ExtractVideoFormats(formats);
    SortedQualitiesOrder(formats, CompanionAudioSize(formats));
    SortedQualitiesCover(formats, CompanionAudioSize(formats));
    ExtractVideoFormatsPrefix(formats);
    forall i | 0 <= i < |formats| && IsListed(formats[i]) && !HasQuality(r, QualityKey(HeightOf(formats[i])))
      ensures |r| == 5 && forall k :: 0 <= k < 5 ==> QualityRank(r[k]) > HeightOf(formats[i])
    {
      var h := HeightOf(formats[i]);
      var q :| KeyedAt(sorted, q, h);
      assert 5 <= q;
    }
  }

  /** The properties the video list promises:
      at most five choices; ranks strictly descending, hence quality keys
      pairwise distinct; each quality the "<height>p" of its choice; each
      choice built from the first listed format of its height (its size is
      that format's size plus the companion audio size); and the top five
      heights kept: a listed height that is missing is lower than every kept
      one and the list is full. */
  lemma ExtractVideoFormatsSpec(formats: seq<MediaFormat>)
    ensures var r := ExtractVideoFormats(formats);
            && |r| <= 5
            && StrictlyDescending(r)
            && (forall k :: 0 <= k < |r| ==> r[k].quality == QualityKey(QualityRank(r[k])))
            && (forall k :: 0 <= k < |r| ==> BuiltFromFirst(formats, CompanionAudioSize(formats), r[k]))
            && (forall i :: 0 <= i < |formats| && IsListed(formats[i]) && !HasQuality(r, QualityKey(HeightOf(formats[i]))) ==>
                  |r| == 5 && forall k :: 0 <= k < 5 ==> QualityRank(r[k]) > HeightOf(formats[i]))
  {
    ExtractVideoFormatsOrder(formats);
    ExtractVideoFormatsFirstWins(formats);
    ExtractVideoFormatsTopFive(formats);
  }

  // ---------------------------------------------------------------------------
  // extractAudioFormats
  // ---------------------------------------------------------------------------

  /** `audioFormats.reduce((best, cur) => (cur.abr || 0) > (best.abr || 0) ? cur : best)`:
      the index of the first stream with the highest bitrate. */
  function BestAudioIndex(a: seq<MediaFormat>): (k: nat)
    requires |a| > 0
    ensures k < |a|
    ensures forall j :: 0 <= j < |a| ==> Abr(a[j]) <= Abr(a[k])
    ensures forall j :: 0 <= j < k ==> Abr(a[j]) < Abr(a[k])
    decreases |a|
  {
    if |a| == 1 then 0
    else
      var b := BestAudioIndex(a[..|a| - 1]);
      if Abr(a[|a| - 1]) > Abr(a[b]) then |a| - 1 else b
  }

  /** The sentinel offered when the list has no audio-only stream. */
  const UnknownAudio := FormatOption("best", "mp3", 0, Literal("Unknown"), None)

  /** `Math.floor(size * 0.6)`, in exact arithmetic. */
  function MediumSize(size: nat): nat {
    size * 6 / 10
  }

  /** `extractAudioFormats(formats)`. */
  function ExtractAudioFormats(formats: seq<MediaFormat>): seq<FormatOption> {
    var a := AudioStreams(formats);
    if |a| == 0 then [UnknownAudio]
    else
      var best := a[BestAudioIndex(a)];
      var high := OrZero(best.filesize);
      var medium := if high != 0 then MediumSize(high) else 0;
      [ FormatOption("high (320kbps)", "mp3", high, FormattedBytes(high), None),
        FormatOption("medium (192kbps)", "mp3", medium, FormattedBytes(medium), None) ]
  }

  /** Index k holds the first stream with the highest bitrate. */
  predicate IsFirstHighestBitrate(a: seq<MediaFormat>, k: int) {
    && 0 <= k < |a|
    && (forall j :: 0 <= j < |a| ==> Abr(a[j]) <= Abr(a[k]))
    && (forall j :: 0 <= j < k ==> Abr(a[j]) < Abr(a[k]))
  }

  /** Position i of the input list holds the first audio-only format with the
      highest bitrate among the audio-only formats. */
  predicate IsFirstHighestAudio(formats: seq<MediaFormat>, i: int) {
    && 0 <= i < |formats| && IsAudioOnly(formats[i])
    && (forall j :: 0 <= j < |formats| && IsAudioOnly(formats[j]) ==> Abr(formats[j]) <= Abr(formats[i]))
    && (forall j :: 0 <= j < i && IsAudioOnly(formats[j]) ==> Abr(formats[j]) < Abr(formats[i]))
  }

  /** The k-th filtered stream, seen at its position in the input list. */
  lemma AudioStreamAtPosition(formats: seq<MediaFormat>, j: int) returns (m: nat)
    requires 0 <= j < |formats| && IsAudioOnly(formats[j])
    ensures m < |AudioStreams(formats)| && m < |AudioPositions(formats)|
    ensures AudioPositions(formats)[m] == j && AudioStreams(formats)[m] == formats[j]
  {
    AudioStreamsInOrder(formats);
    AudioPositionsComplete(formats);
    var ix := AudioPositions(formats);
    m :| 0 <= m < |ix| && ix[m] == j;
  }

  /** The picked stream's bitrate bounds that of every audio-only format of the
      input list, strictly for those before it. */
  lemma BestAudioBeats(formats: seq<MediaFormat>, j: int)
    requires |AudioStreams(formats)| > 0
    requires 0 <= j < |formats| && IsAudioOnly(formats[j])
    ensures |AudioPositions(formats)| == |AudioStreams(formats)|
    ensures var k := BestAudioIndex(AudioStreams(formats));
            && Abr(formats[j]) <= Abr(AudioStreams(formats)[k])
            && (j < AudioPositions(formats)[k] ==> Abr(formats[j]) < Abr(AudioStreams(formats)[k]))
  {
    AudioStreamsLength(formats);
    var k := BestAudioIndex(AudioStreams(formats));
    var m := AudioStreamAtPosition(formats, j);
    if j < AudioPositions(formats)[k] {
      AudioPositionsIncreasing(formats);
      assert m < k;
    }
  }

  /** The stream the `reduce` picks is, in the input list, the first audio-only
      format with the highest bitrate: ties go to the earlier format. */
  lemma BestAudioIsFirstHighestInInput(formats: seq<MediaFormat>)
    requires |AudioStreams(formats)| > 0
    ensures |AudioPositions(formats)| == |AudioStreams(formats)|
    ensures var k := BestAudioIndex(AudioStreams(formats));
            && AudioStreams(formats)[k] == formats[AudioPositions(formats)[k]]
            && IsFirstHighestAudio(formats, AudioPositions(formats)[k])
  {
    AudioStreamsLength(formats);
    var k := BestAudioIndex(AudioStreams(formats));
    var i := AudioPositions(formats)[k];
    AudioStreamAt(formats, k);
    AudioPositionsAreAudio(formats);
    assert IsAudioOnly(formats[i]);
    forall j | 0 <= j < |formats| && IsAudioOnly(formats[j])
      ensures Abr(formats[j]) <= Abr(formats[i])
      ensures j < i ==> Abr(formats[j]) < Abr(formats[i])
    {
      BestAudioBeats(formats, j);
    }
  }

  /** The first choice is sized as the format the `reduce` picks from the input
      list: the first audio-only format with the highest bitrate. */
  lemma ExtractAudioFormatsPicksFirstHighest(formats: seq<MediaFormat>)
    ensures (exists i :: 0 <= i < |formats| && IsAudioOnly(formats[i])) ==>
              exists i :: IsFirstHighestAudio(formats, i)
                && ExtractAudioFormats(formats)[0].fileSize == OrZero(formats[i].filesize)
  {
    AudioStreamsHead(formats);
    if |AudioStreams(formats)| > 0 {
      BestAudioIsFirstHighestInInput(formats);
      var k := BestAudioIndex(AudioStreams(formats));
      assert IsFirstHighestAudio(formats, AudioPositions(formats)[k]);
    }
  }

  /** The quality labels of the audio choices: the sentinel "best" without an
      audio-only stream, otherwise "high (320kbps)" then "medium (192kbps)". */
  lemma ExtractAudioFormatsLabels(formats: seq<MediaFormat>)
    ensures var r := ExtractAudioFormats(formats);
            (forall i :: 0 <= i < |formats| ==> !IsAudioOnly(formats[i])) ==> |r| == 1 && r[0].quality == "best"
    ensures var r := ExtractAudioFormats(formats);
            (exists i :: 0 <= i < |formats| && IsAudioOnly(formats[i])) ==>
              |r| == 2 && r[0].quality == "high (320kbps)" && r[1].quality == "medium (192kbps)"
  {
    AudioStreamsHead(formats);
  }

  /** Without an audio-only stream the list is the single sentinel (quality
      "best", mp3, size 0, label "Unknown"); otherwise it is two mp3 choices,
      the first sized as the first highest-bitrate audio-only stream, the second
      at floor(0.6 x) of that, never larger. */
  lemma ExtractAudioFormatsSpec(formats: seq<MediaFormat>)
    ensures var r := ExtractAudioFormats(formats);
            (forall i :: 0 <= i < |formats| ==> !IsAudioOnly(formats[i])) ==>
              r == [FormatOption("best", "mp3", 0, Literal("Unknown"), None)]
    ensures var r := ExtractAudioFormats(formats);
            var a := AudioStreams(formats);
            (exists i :: 0 <= i < |formats| && IsAudioOnly(formats[i])) ==>
              && |r| == 2 && r[0].container == "mp3" && r[1].container == "mp3"
              && r[0].quality == "high (320kbps)" && r[1].quality == "medium (192kbps)"
              && (exists k :: IsFirstHighestBitrate(a, k) && r[0].fileSize == OrZero(a[k].filesize))
              && r[1].fileSize == r[0].fileSize * 6 / 10
              && r[1].fileSize <= r[0].fileSize
  {
    AudioStreamsHead(formats);
    var a := AudioStreams(formats);
    if |a| > 0 {
      var k := BestAudioIndex(a);
      assert IsFirstHighestBitrate(a, k);
    }
  }
}
