/** Platform classification of a URL by substring tests. The backend has three
    copies of the same if-chain: `detectPlatform` in backend/utils.js (lower-cases
    first, knows Dailymotion), the inline chain of the URL-validation handler in
    backend/server.js (case-sensitive, knows Dailymotion) and `getPlatformFromUrl`
    in backend/ytdlpHelper.js (case-sensitive, no Dailymotion). Each is written
    here as the source writes it and then proved equal to one ordered rule
    table read first-match-wins. */
module Platforms {
  import opened Text

  datatype Platform = YouTube | Instagram | TikTok | Facebook | Twitter | Vimeo | Dailymotion | Unknown {

    /** The string the source returns for this platform. */
    function Name(): string {
      match this
      case YouTube => "youtube"
      case Instagram => "instagram"
      case TikTok => "tiktok"
      case Facebook => "facebook"
      case Twitter => "twitter"
      case Vimeo => "vimeo"
      case Dailymotion => "dailymotion"
      case Unknown => "unknown"
    }
  }

  /** `detectPlatform(url)`: the tests run on the lower-cased URL. */
  function DetectPlatform(url: string): Platform {
    var u := ToLower(url);
    if Contains(u, "youtube.com") || Contains(u, "youtu.be") then YouTube
    else if Contains(u, "instagram.com") then Instagram
    else if Contains(u, "tiktok.com") then TikTok
    else if Contains(u, "facebook.com") then Facebook
    else if Contains(u, "twitter.com") || Contains(u, "x.com") then Twitter
    else if Contains(u, "vimeo.com") then Vimeo
    else if Contains(u, "dailymotion.com") then Dailymotion
    else Unknown
  }

  /** The platform chain of the URL-validation handler: case-sensitive. */
  function ValidatedUrlPlatform(url: string): Platform {
    if Contains(url, "youtube.com") || Contains(url, "youtu.be") then YouTube
    else if Contains(url, "instagram.com") then Instagram
    else if Contains(url, "tiktok.com") then TikTok
    else if Contains(url, "facebook.com") then Facebook
    else if Contains(url, "twitter.com") || Contains(url, "x.com") then Twitter
    else if Contains(url, "vimeo.com") then Vimeo
    else if Contains(url, "dailymotion.com") then Dailymotion
    else Unknown
  }

  /** `getPlatformFromUrl(url)`: case-sensitive and without the Dailymotion test. */
  function PlatformFromUrl(url: string): Platform {
    if Contains(url, "youtube.com") || Contains(url, "youtu.be") then YouTube
    else if Contains(url, "instagram.com") then Instagram
    else if Contains(url, "tiktok.com") then TikTok
    else if Contains(url, "facebook.com") then Facebook
    else if Contains(url, "twitter.com") || Contains(url, "x.com") then Twitter
    else if Contains(url, "vimeo.com") then Vimeo
    else Unknown
  }

  /** One test of the chain: the platform and the substrings that select it. */
  datatype Rule = Rule(platform: Platform, needles: seq<string>)

  /** The tests in the order the source runs them. */
  const Rules: seq<Rule> := [
    Rule(YouTube, ["youtube.com", "youtu.be"]),
    Rule(Instagram, ["instagram.com"]),
    Rule(TikTok, ["tiktok.com"]),
    Rule(Facebook, ["facebook.com"]),
    Rule(Twitter, ["twitter.com", "x.com"]),
    Rule(Vimeo, ["vimeo.com"]),
    Rule(Dailymotion, ["dailymotion.com"])
  ]

  /** The ytdlpHelper.js chain stops before the Dailymotion test. */
  const HelperRules: seq<Rule> := Rules[..6]

  predicate Matches(rule: Rule, s: string) {
    exists k | 0 <= k < |rule.needles| :: Contains(s, rule.needles[k])
  }

  /** First-match-wins classification from rule `i` on. */
  function ClassifyFrom(rules: seq<Rule>, s: string, i: nat): Platform
    requires i <= |rules|
    decreases |rules| - i
  {
    if i == |rules| then Unknown
    else if Matches(rules[i], s) then rules[i].platform
    else ClassifyFrom(rules, s, i + 1)
  }

  function Classify(rules: seq<Rule>, s: string): Platform {
    ClassifyFrom(rules, s, 0)
  }

  /** The classification is the platform of the first matching rule, and
      `unknown` exactly when no rule matches. */
  lemma {:induction false} ClassifyFromIsFirstMatch(rules: seq<Rule>, s: string, i: nat)
    requires i <= |rules|
    requires forall j :: 0 <= j < |rules| ==> rules[j].platform != Unknown
    ensures ClassifyFrom(rules, s, i) == Unknown <==> forall j :: i <= j < |rules| ==> !Matches(rules[j], s)
    ensures ClassifyFrom(rules, s, i) != Unknown ==>
              exists j :: i <= j < |rules| && Matches(rules[j], s) && ClassifyFrom(rules, s, i) == rules[j].platform
                          && forall m :: i <= m < j ==> !Matches(rules[m], s)
    decreases |rules| - i
  {
    if i < |rules| && !Matches(rules[i], s) {
      ClassifyFromIsFirstMatch(rules, s, i + 1);
    }
  }

  /** Each rule matches exactly when one of the chain's tests for it succeeds. */
  lemma RuleMatchesChainTest(s: string)
    ensures Matches(Rules[0], s) <==> Contains(s, "youtube.com") || Contains(s, "youtu.be")
    ensures Matches(Rules[1], s) <==> Contains(s, "instagram.com")
    ensures Matches(Rules[2], s) <==> Contains(s, "tiktok.com")
    ensures Matches(Rules[3], s) <==> Contains(s, "facebook.com")
    ensures Matches(Rules[4], s) <==> Contains(s, "twitter.com") || Contains(s, "x.com")
    ensures Matches(Rules[5], s) <==> Contains(s, "vimeo.com")
    ensures Matches(Rules[6], s) <==> Contains(s, "dailymotion.com")
  {
    var n0, n4 := Rules[0].needles, Rules[4].needles;
    assert n0 == ["youtube.com", "youtu.be"] && n4 == ["twitter.com", "x.com"];
    if Contains(s, "youtube.com") { assert Contains(s, n0[0]); }
    if Contains(s, "youtu.be") { assert Contains(s, n0[1]); }
    if Contains(s, "twitter.com") { assert Contains(s, n4[0]); }
    if Contains(s, "x.com") { assert Contains(s, n4[1]); }
    if Contains(s, "instagram.com") { assert Contains(s, Rules[1].needles[0]); }
    if Contains(s, "tiktok.com") { assert Contains(s, Rules[2].needles[0]); }
    if Contains(s, "facebook.com") { assert Contains(s, Rules[3].needles[0]); }
    if Contains(s, "vimeo.com") { assert Contains(s, Rules[5].needles[0]); }
    if Contains(s, "dailymotion.com") { assert Contains(s, Rules[6].needles[0]); }
  }

  /** Reading the rule table first-match-wins is the if-chain. */
  lemma ChainIsFirstMatchingRule(s: string)
    ensures ValidatedUrlPlatform(s) == Classify(Rules, s)
    ensures PlatformFromUrl(s) == Classify(HelperRules, s)
  {
    ValidatedChainIsClassify(s);
    HelperChainIsClassify(s);
  }

  /** The validation handler's chain is the full table. */
  lemma ValidatedChainIsClassify(s: string)
    ensures ValidatedUrlPlatform(s) == Classify(Rules, s)
  {
    RuleMatchesChainTest(s);
    var c := i requires 0 <= i <= 7 => ClassifyFrom(Rules, s, i);
    assert c(7) == Unknown;
    assert c(6) == if Matches(Rules[6], s) then Dailymotion else Unknown;
    assert c(5) == if Matches(Rules[5], s) then Vimeo else c(6);
    assert c(4) == if Matches(Rules[4], s) then Twitter else c(5);
    assert c(3) == if Matches(Rules[3], s) then Facebook else c(4);
    assert c(2) == if Matches(Rules[2], s) then TikTok else c(3);
    assert c(1) == if Matches(Rules[1], s) then Instagram else c(2);
    assert c(0) == if Matches(Rules[0], s) then YouTube else c(1);
  }

  /** The helper's chain is the table without its last rule. */
  lemma HelperChainIsClassify(s: string)
    ensures PlatformFromUrl(s) == Classify(HelperRules, s)
  {
    RuleMatchesChainTest(s);
    var h := i requires 0 <= i <= 6 => ClassifyFrom(HelperRules, s, i);
    assert forall j :: 0 <= j < 6 ==> HelperRules[j] == Rules[j];
    assert h(6) == Unknown;
    assert h(5) == if Matches(Rules[5], s) then Vimeo else h(6);
    assert h(4) == if Matches(Rules[4], s) then Twitter else h(5);
    assert h(3) == if Matches(Rules[3], s) then Facebook else h(4);
    assert h(2) == if Matches(Rules[2], s) then TikTok else h(3);
    assert h(1) == if Matches(Rules[1], s) then Instagram else h(2);
    assert h(0) == if Matches(Rules[0], s) then YouTube else h(1);
  }

  /** `detectPlatform` returns the platform of the first rule one of whose
      substrings occurs in the lower-cased URL, and `unknown` when none does. */
  lemma DetectPlatformIsFirstMatchingRule(url: string)
    ensures DetectPlatform(url) == Classify(Rules, ToLower(url))
    ensures DetectPlatform(url) == Unknown <==> forall j :: 0 <= j < |Rules| ==> !Matches(Rules[j], ToLower(url))
  {
    ChainIsFirstMatchingRule(ToLower(url));
    ClassifyFromIsFirstMatch(Rules, ToLower(url), 0);
  }

  /** Changing the letter case of a URL never changes what `detectPlatform` says. */
  lemma DetectPlatformIgnoresCase(u: string, v: string)
    requires ToLower(u) == ToLower(v)
    ensures DetectPlatform(u) == DetectPlatform(v)
  {
  }

  /** `detectPlatform` is the validation handler's chain run on the lower-cased URL;
      on a URL with no upper-case ASCII letters the two agree. */
  lemma DetectPlatformIsValidatedChainOfLowercase(url: string)
    ensures DetectPlatform(url) == ValidatedUrlPlatform(ToLower(url))
    ensures ToLower(url) == url ==> DetectPlatform(url) == ValidatedUrlPlatform(url)
  {
  }

  /** `getPlatformFromUrl` agrees with the validation handler's chain except that
      a Dailymotion URL is `unknown` to it. */
  lemma HelperChainDropsDailymotion(url: string)
    ensures PlatformFromUrl(url) == (if ValidatedUrlPlatform(url) == Dailymotion then Unknown else ValidatedUrlPlatform(url))
  {
  }

  /** Substring matching makes a host ending in "x.com" a Twitter URL. */
  lemma DropboxIsTwitter(u: string)
    requires u == "dropbo" + "x.com"
    ensures ValidatedUrlPlatform(u) == Twitter
  {
    ContainsMiddle("dropbo", "x.com", "");
    assert u == "dropbo" + "x.com" + "";
    NoEarlierRuleInDropbox(u);
  }

  /** None of the substrings checked before Twitter's occurs in "dropbox.com",
      each because it holds a letter the host lacks. */
  lemma NoEarlierRuleInDropbox(u: string)
    requires u == "dropbox.com"
    ensures !Contains(u, "youtube.com") && !Contains(u, "youtu.be")
    ensures !Contains(u, "instagram.com") && !Contains(u, "tiktok.com")
    ensures !Contains(u, "facebook.com")
  {
    assert 'y' !in u && 'g' !in u && 'k' !in u && 'f' !in u;
    MissingCharNotContained(u, "youtube.com", 'y');
    MissingCharNotContained(u, "youtu.be", 'y');
    MissingCharNotContained(u, "instagram.com", 'g');
    MissingCharNotContained(u, "tiktok.com", 'k');
    MissingCharNotContained(u, "facebook.com", 'f');
  }
}
