/** The small display formatters: `formatNumber` and `formatDuration` in
    backend/utils.js, the `formatDuration` copy in backend/ytdlpHelper.js and
    `formatCount` in backend/server.js. */
module Display {
  import opened Text
  import opened Wrappers

  // ---------------------------------------------------------------------------
  // formatNumber: num.toString().replace(/\B(?=(\d{3})+(?!\d))/g, ',')
  // ---------------------------------------------------------------------------

  /** Where the regex inserts a comma in a string of digits: at a non-boundary
      (interior) position that is followed by a positive number of complete
      three-digit groups running to the end of the string. */
  predicate CommaBefore(s: string, i: int) {
    0 < i < |s| && (|s| - i) % 3 == 0
  }

  /** The first `n` characters of `s` with the regex's commas inserted. */
  function Render(s: string, n: nat): string
    requires n <= |s|
  {
    if n == 0 then ""
    else Render(s, n - 1) + (if CommaBefore(s, n - 1) then "," else "") + [s[n - 1]]
  }

  /** `formatNumber(n)` for a natural number n. */
  function FormatNumber(n: nat): string {
    var d := NatToString(n);
    Render(d, |d|)
  }

  /** A digit string split into comma-separated groups: the first group has one
      to three digits and every later group exactly three. */
  predicate Grouped(r: string)
    decreases |r|
  {
    || (1 <= |r| <= 3 && AllDigits(r))
    || (|r| > 4 && r[|r| - 4] == ',' && AllDigits(r[|r| - 3..]) && Grouped(r[..|r| - 4]))
  }

  /** The string with every ',' deleted. */
  function StripCommas(r: string): (t: string)
    ensures ',' !in t
  {
    if |r| == 0 then ""
    else StripCommas(r[..|r| - 1]) + (if r[|r| - 1] == ',' then "" else [r[|r| - 1]])
  }

  lemma {:induction false} StripCommasAppend(a: string, b: string)
    ensures StripCommas(a + b) == StripCommas(a) + StripCommas(b)
    decreases |b|
  {
    if |b| > 0 {
      var ab := a + b;
      var c := b[|b| - 1];
      var tail := if c == ',' then "" else [c];
      assert ab[..|ab| - 1] == a + b[..|b| - 1];
      assert ab[|ab| - 1] == c;
      assert StripCommas(ab) == StripCommas(a + b[..|b| - 1]) + tail;
      StripCommasAppend(a, b[..|b| - 1]);
      assert StripCommas(b) == StripCommas(b[..|b| - 1]) + tail;
    } else {
      assert a + b == a;
    }
  }

  lemma {:induction false} StripCommasOfDigits(s: string)
    requires AllDigits(s)
    ensures StripCommas(s) == s
    decreases |s|
  {
    if |s| > 0 {
      var init, c := s[..|s| - 1], s[|s| - 1];
      assert AllDigits(init) by {
        forall i | 0 <= i < |init|
          ensures IsDigit(init[i])
        {
          assert init[i] == s[i];
        }
      }
      assert c != ',' by {
        assert IsDigit(c);
      }
      calc {
        StripCommas(s);
        StripCommas(init) + [c];
        { StripCommasOfDigits(init); }
        init + [c];
        { assert s == init + [c]; }
        s;
      }
    }
  }

  /** Below the last three characters, the commas are placed as they would be in
      the string without its last group. */
  lemma {:induction false} RenderDropLastGroup(s: string, k: nat)
    requires |s| > 3 && k <= |s| - 3
    ensures Render(s, k) == Render(s[..|s| - 3], k)
    decreases k
  {
    if k > 0 {
      RenderDropLastGroup(s, k - 1);
      var i := k - 1;
      assert s[i] == s[..|s| - 3][i];
      assert (|s| - i) % 3 == (|s| - 3 - i) % 3;
    }
  }

  lemma {:induction false} RenderShort(s: string, k: nat)
    requires |s| <= 3 && k <= |s|
    ensures Render(s, k) == s[..k]
    decreases k
  {
    if k > 0 {
      RenderShort(s, k - 1);
      assert s[..k] == s[..k - 1] + [s[k - 1]];
    }
  }

  /** A rendered string of more than three digits is the rendering of all but
      the last three digits, a comma, and the last three digits. */
  lemma RenderSplitsLastGroup(s: string)
    requires |s| > 3
    ensures Render(s, |s|) == Render(s[..|s| - 3], |s| - 3) + "," + s[|s| - 3..]
  {
    var n := |s|;
    RenderDropLastGroup(s, n - 3);
    RenderLastThreeSteps(s);
    LastThree(s);
    AppendThree(Render(s, n - 3) + ",", s[n - 3], s[n - 2], s[n - 1]);
  }

  lemma RenderLastThreeSteps(s: string)
    requires |s| > 3
    ensures var n := |s|; Render(s, n) == Render(s, n - 3) + "," + [s[n - 3]] + [s[n - 2]] + [s[n - 1]]
  {
    var n := |s|;
    RenderCommaStep(s, n - 3);
    RenderPlainStep(s, n - 2);
    RenderPlainStep(s, n - 1);
  }

  lemma RenderCommaStep(s: string, k: nat)
    requires 0 < k < |s| && (|s| - k) % 3 == 0
    ensures Render(s, k + 1) == Render(s, k) + "," + [s[k]]
  {
  }

  lemma RenderPlainStep(s: string, k: nat)
    requires 0 < k < |s| && (|s| - k) % 3 != 0
    ensures Render(s, k + 1) == Render(s, k) + [s[k]]
  {
    assert !CommaBefore(s, k);
    assert Render(s, k) + "" == Render(s, k);
  }

  lemma LastThree(s: string)
    requires |s| >= 3
    ensures s[|s| - 3..] == [s[|s| - 3]] + [s[|s| - 2]] + [s[|s| - 1]]
  {
  }

  lemma AppendThree(p: string, x: char, y: char, z: char)
    ensures p + [x] + [y] + [z] == p + ([x] + [y] + [z])
  {
  }

  /** A group of three digits after a comma extends a grouped string. */
  lemma GroupedAppend(rt: string, last: string)
    requires Grouped(rt) && |last| == 3 && AllDigits(last)
    ensures Grouped(rt + "," + last)
  {
    var r := rt + "," + last;
    assert r[|r| - 4] == ',';
    assert r[|r| - 3..] == last;
    assert r[..|r| - 4] == rt;
  }

  lemma StripCommasAppendGroup(rt: string, last: string)
    requires AllDigits(last)
    ensures StripCommas(rt + "," + last) == StripCommas(rt) + last
  {
    calc {
      StripCommas(rt + "," + last);
      { StripCommasAppend(rt + ",", last); }
      StripCommas(rt + ",") + StripCommas(last);
      { StripCommasOfDigits(last); }
      StripCommas(rt + ",") + last;
      { StripCommasAppend(rt, ","); StripCommasOfComma(); }
      StripCommas(rt) + last;
    }
  }

  lemma StripCommasOfComma()
    ensures StripCommas(",") == ""
  {
    assert ","[..0] == "";
  }

  lemma RenderedShortIsGrouped(s: string)
    requires 1 <= |s| <= 3 && AllDigits(s)
    ensures Grouped(Render(s, |s|)) && StripCommas(Render(s, |s|)) == s
  {
    RenderShort(s, |s|);
    assert s[..|s|] == s;
    StripCommasOfDigits(s);
  }

  /** The inductive step: the rendering of all but the last three digits is
      grouped and strips back, so the whole rendering is and does. */
  lemma RenderedGroupStep(s: string)
    requires |s| > 3 && AllDigits(s)
    requires var t := s[..|s| - 3]; Grouped(Render(t, |t|)) && StripCommas(Render(t, |t|)) == t
    ensures Grouped(Render(s, |s|)) && StripCommas(Render(s, |s|)) == s
  {
    var t := s[..|s| - 3];
    var last := s[|s| - 3..];
    RenderSplitsLastGroup(s);
    var rt := Render(t, |t|);
    GroupedAppend(rt, last);
    StripCommasAppendGroup(rt, last);
    assert s == t + last;
  }

  lemma {:induction false} RenderedDigitsAreGrouped(s: string)
    requires 1 <= |s| && AllDigits(s)
    ensures Grouped(Render(s, |s|))
    ensures StripCommas(Render(s, |s|)) == s
    decreases |s|
  {
    if |s| <= 3 {
      RenderedShortIsGrouped(s);
    } else {
      RenderedDigitsAreGrouped(s[..|s| - 3]);
      RenderedGroupStep(s);
    }
  }

  /** Deleting the commas from `formatNumber(n)` gives the decimal digits of n,
      and the commas split those digits into a leading group of one to three
      digits followed by groups of exactly three. */
  lemma FormatNumberGroupsDecimal(n: nat)
    ensures StripCommas(FormatNumber(n)) == NatToString(n)
    ensures Grouped(FormatNumber(n))
  {
    RenderedDigitsAreGrouped(NatToString(n));
  }

  lemma FormatNumberExample()
    ensures FormatNumber(1234567) == "1,234,567"
  {
    DecimalOf1234567();
    RenderOf1234567();
  }

  lemma DecimalOf1234567()
    ensures NatToString(1234567) == "1234567"
  {
    assert NatToString(1) == "1";
    assert NatToString(12) == "12";
    assert NatToString(123) == "123";
    assert NatToString(1234) == "1234";
    assert NatToString(12345) == "12345";
    assert NatToString(123456) == "123456";
  }

  lemma RenderOf1234567()
    ensures Render("1234567", 7) == "1,234,567"
  {
    var d := "1234567";
    RenderSplitsLastGroup(d);
    assert d[..4] == "1234" && d[4..] == "567";
    RenderSplitsLastGroup("1234");
    assert "1234"[..1] == "1" && "1234"[1..] == "234";
    RenderShort("1", 1);
    assert "1"[..1] == "1";
    assert Render("1234", 4) == "1,234";
  }

  // ---------------------------------------------------------------------------
  // formatDuration
  // ---------------------------------------------------------------------------

  /** `formatDuration(seconds)` of backend/utils.js for a whole number of seconds. */
  function FormatDuration(seconds: nat): string {
    if seconds == 0 then "0:00"
    else
      var hours := seconds / 3600;
      var minutes := (seconds % 3600) / 60;
      var secs := seconds % 60;
      if hours > 0 then NatToString(hours) + ":" + Pad2(minutes) + ":" + Pad2(secs)
      else NatToString(minutes) + ":" + Pad2(secs)
  }

  /** `formatDuration(seconds)` of backend/ytdlpHelper.js: the same fields, without
      the early return for a falsy argument. */
  function HelperFormatDuration(seconds: nat): string {
    var hours := seconds / 3600;
    var minutes := (seconds % 3600) / 60;
    var secs := seconds % 60;
    if hours > 0 then NatToString(hours) + ":" + Pad2(minutes) + ":" + Pad2(secs)
    else NatToString(minutes) + ":" + Pad2(secs)
  }

  /** The two copies agree on every whole number of seconds: the early return of
      the utils.js copy yields the same "0:00" the fields would. */
  lemma FormatDurationCopiesAgree(seconds: nat)
    ensures FormatDuration(seconds) == HelperFormatDuration(seconds)
  {
    if seconds == 0 {
      assert NatToString(0) == "0";
      assert Pad2(0) == "00";
    }
  }

  /** A clock field: one or more digits. */
  predicate IsField(f: string) {
    1 <= |f| && AllDigits(f)
  }

  /** A two-digit minutes or seconds field with a value in 00-59. */
  predicate IsSexagesimalField(f: string) {
    |f| == 2 && AllDigits(f) && DigitsValue(f) < 60
  }

  /** Reads "M:SS" or "H:MM:SS" back into a number of seconds. */
  function ParseClock(r: string): Option<nat> {
    var parts := Split(r, ':');
    if |parts| == 2 && IsField(parts[0]) && IsSexagesimalField(parts[1]) then
      Some(DigitsValue(parts[0]) * 60 + DigitsValue(parts[1]))
    else if |parts| == 3 && IsField(parts[0]) && IsSexagesimalField(parts[1]) && IsSexagesimalField(parts[2]) then
      Some(DigitsValue(parts[0]) * 3600 + DigitsValue(parts[1]) * 60 + DigitsValue(parts[2]))
    else None
  }

  lemma DigitsHaveNoColon(s: string)
    requires AllDigits(s)
    ensures ':' !in s
  {
    forall i | 0 <= i < |s|
      ensures s[i] != ':'
    {
      assert IsDigit(s[i]);
    }
  }

  lemma SplitClockFields(a: string, b: string, c: string)
    requires AllDigits(a) && AllDigits(b) && AllDigits(c)
    ensures Split(a + ":" + b, ':') == [a, b]
    ensures Split(a + ":" + b + ":" + c, ':') == [a, b, c]
  {
    DigitsHaveNoColon(a);
    DigitsHaveNoColon(b);
    DigitsHaveNoColon(c);
    SplitTwoFields(a, b);
    SplitThreeFields(a, b, c);
  }

  /** Two colon-free fields joined by ':' split back into those fields. */
  lemma SplitTwoFields(a: string, b: string)
    requires ':' !in a && ':' !in b
    ensures Split(a + ":" + b, ':') == [a, b]
  {
    calc {
      Split(a + ":" + b, ':');
      { SplitAtFirstSep(a, ':', b); }
      [a] + Split(b, ':');
      { SplitNoSep(b, ':'); }
      [a, b];
    }
  }

  /** Three colon-free fields joined by ':' split back into those fields. */
  lemma SplitThreeFields(a: string, b: string, c: string)
    requires ':' !in a && ':' !in b && ':' !in c
    ensures Split(a + ":" + b + ":" + c, ':') == [a, b, c]
  {
    calc {
      Split(a + ":" + b + ":" + c, ':');
      { assert a + ":" + b + ":" + c == a + [':'] + (b + ":" + c); }
      Split(a + [':'] + (b + ":" + c), ':');
      { SplitAtFirstSep(a, ':', b + ":" + c); }
      [a] + Split(b + ":" + c, ':');
      { SplitTwoFields(b, c); }
      [a, b, c];
    }
  }

  /** From one hour on, `formatDuration` gives three fields H, MM and SS. */
  lemma FormatDurationHours(seconds: nat)
    requires seconds >= 3600
    ensures var h, m, sec := seconds / 3600, (seconds % 3600) / 60, seconds % 60;
            Split(FormatDuration(seconds), ':') == [NatToString(h), Pad2(m), Pad2(sec)]
  {
    var hours := seconds / 3600;
    var minutes := (seconds % 3600) / 60;
    var secs := seconds % 60;
    Pad2TwoDigits(minutes);
    Pad2TwoDigits(secs);
    SplitClockFields(NatToString(hours), Pad2(minutes), Pad2(secs));
  }

  /** Below one hour (and above zero), `formatDuration` gives two fields M and SS. */
  lemma FormatDurationMinutes(seconds: nat)
    requires 0 < seconds < 3600
    ensures var m, sec := seconds / 60, seconds % 60;
            Split(FormatDuration(seconds), ':') == [NatToString(m), Pad2(sec)]
  {
    var minutes := (seconds % 3600) / 60;
    var secs := seconds % 60;
    Pad2TwoDigits(secs);
    SplitClockFields(NatToString(minutes), Pad2(secs), "");
  }

  /** The hours, minutes and seconds fields recombine to the number of seconds,
      and the minutes and seconds fields are below 60. */
  lemma ClockFieldsRecombine(seconds: nat)
    ensures (seconds % 3600) / 60 < 60 && seconds % 60 < 60
    ensures (seconds / 3600) * 3600 + ((seconds % 3600) / 60) * 60 + seconds % 60 == seconds
  {
    var q, r := seconds / 3600, seconds % 3600;
    var m, sec := r / 60, r % 60;
    assert seconds == (q * 60 + m) * 60 + sec;
    DivModUnique(seconds, q * 60 + m, sec);
  }

  lemma DivModUnique(n: nat, q: nat, r: nat)
    requires r < 60 && n == q * 60 + r
    ensures n % 60 == r
  {
  }

  /** From one hour on: three fields, and they read back. */
  lemma FormatDurationShapeHours(seconds: nat)
    requires seconds >= 3600
    ensures var parts := Split(FormatDuration(seconds), ':');
            && |parts| == 3
            && IsField(parts[0]) && IsSexagesimalField(parts[1]) && IsSexagesimalField(parts[2])
            && ParseClock(FormatDuration(seconds)) == Some(seconds)
  {
    var h, m, sec := seconds / 3600, (seconds % 3600) / 60, seconds % 60;
    ClockFieldsRecombine(seconds);
    FormatDurationHours(seconds);
    Pad2TwoDigits(m);
    Pad2TwoDigits(sec);
    DigitsValueOfNatToString(h);
  }

  /** Below one hour: two fields, and they read back. */
  lemma FormatDurationShapeMinutes(seconds: nat)
    requires 0 < seconds < 3600
    ensures var parts := Split(FormatDuration(seconds), ':');
            && |parts| == 2
            && IsField(parts[0]) && IsSexagesimalField(parts[1])
            && ParseClock(FormatDuration(seconds)) == Some(seconds)
  {
    var m, sec := seconds / 60, seconds % 60;
    FormatDurationMinutes(seconds);
    Pad2TwoDigits(sec);
    DigitsValueOfNatToString(m);
  }

  /** Zero: "0:00", two fields reading back as zero. */
  lemma FormatDurationShapeZero()
    ensures FormatDuration(0) == "0:00"
    ensures var parts := Split(FormatDuration(0), ':');
            && |parts| == 2
            && IsField(parts[0]) && IsSexagesimalField(parts[1])
            && ParseClock(FormatDuration(0)) == Some(0)
  {
    SplitZeroClock();
    ZeroZeroField();
    assert IsField("0") && DigitsValue("0") == 0;
  }

  lemma SplitZeroClock()
    ensures Split("0:00", ':') == ["0", "00"]
  {
    SplitClockFields("0", "00", "");
    assert "0:00" == "0" + ":" + "00";
  }

  lemma ZeroZeroField()
    ensures IsSexagesimalField("00") && DigitsValue("00") == 0
  {
    assert "00"[..1] == "0";
  }

  /** `formatDuration` gives "0:00" for zero, "H:MM:SS" from one hour on and
      "M:SS" below, with MM and SS two-digit fields in 00-59, and the fields
      read back as the number of seconds formatted. */
  lemma FormatDurationShape(seconds: nat)
    ensures FormatDuration(0) == "0:00"
    ensures seconds >= 3600 <==> |Split(FormatDuration(seconds), ':')| == 3
    ensures seconds < 3600 <==> |Split(FormatDuration(seconds), ':')| == 2
    ensures var parts := Split(FormatDuration(seconds), ':');
            IsField(parts[0]) && forall k :: 1 <= k < |parts| ==> IsSexagesimalField(parts[k])
    ensures ParseClock(FormatDuration(seconds)) == Some(seconds)
  {
    FormatDurationShapeZero();
    if seconds >= 3600 {
      FormatDurationShapeHours(seconds);
    } else if seconds > 0 {
      FormatDurationShapeMinutes(seconds);
    }
  }

  // ---------------------------------------------------------------------------
  // formatCount (backend/server.js)
  // ---------------------------------------------------------------------------

  /** `Math.round(c / unit)` for c >= 0, in exact arithmetic: floor(c/unit + 1/2). */
  function RoundedQuotient(c: nat, unit: nat): nat
    requires unit > 0
  {
    (2 * c + unit) / (2 * unit)
  }

  /** `formatCount(count)`. */
  function FormatCount(count: int): string {
    if count == 0 then "0"
    else if count >= 1000000 then NatToString(RoundedQuotient(count, 1000000)) + "M"
    else if count >= 1000 then NatToString(RoundedQuotient(count, 1000)) + "K"
    else IntToString(count)
  }

  lemma RoundedQuotientIsNearest(c: nat, unit: nat)
    requires unit > 0 && unit % 2 == 0
    ensures var k := RoundedQuotient(c, unit);
            k * unit - unit / 2 <= c < k * unit + unit / 2
  {
    var k := RoundedQuotient(c, unit);
    var q := 2 * c + unit;
    assert k * (2 * unit) <= q < k * (2 * unit) + 2 * unit;
  }

  /** `formatCount` gives "0" for zero and the plain decimal below 1000; from
      1000 on it gives the count rounded to the nearest thousand (ties upward)
      with a "K", and from 1,000,000 on rounded to the nearest million with an
      "M": the number before the suffix reads back to within half a unit. */
  lemma FormatCountRoundsToNearest(count: int)
    ensures count == 0 ==> FormatCount(count) == "0"
    ensures count != 0 && count < 1000 ==> FormatCount(count) == IntToString(count)
    ensures 1000 <= count < 1000000 ==>
              var r := FormatCount(count);
              var k := ParseLeadingNat(r);
              EndsWith(r, "K") && r == NatToString(k) + "K" && k * 1000 - 500 <= count < k * 1000 + 500
    ensures count >= 1000000 ==>
              var r := FormatCount(count);
              var k := ParseLeadingNat(r);
              EndsWith(r, "M") && r == NatToString(k) + "M" && k * 1000000 - 500000 <= count < k * 1000000 + 500000
  {
    if count >= 1000000 {
      RoundedQuotientIsNearest(count, 1000000);
      ParseLeadingNatOfRendered(RoundedQuotient(count, 1000000), "M");
    } else if count >= 1000 {
      RoundedQuotientIsNearest(count, 1000);
      ParseLeadingNatOfRendered(RoundedQuotient(count, 1000), "K");
    }
  }

  /** A count just under a million rounds up to "1000K", not to "1M". */
  lemma FormatCountJustUnderAMillion()
    ensures FormatCount(999500) == "1000K"
    ensures FormatCount(999499) == "999K"
  {
    assert RoundedQuotient(999500, 1000) == 1000;
    assert RoundedQuotient(999499, 1000) == 999;
    assert NatToString(1000) == "1000" by {
      assert NatToString(1) == "1";
      assert NatToString(10) == "10";
      assert NatToString(100) == "100";
    }
    assert NatToString(999) == "999" by {
      assert NatToString(9) == "9";
      assert NatToString(99) == "99";
    }
  }
}
