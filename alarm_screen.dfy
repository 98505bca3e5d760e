/** The alarm command screen (components/setAlarm.jsx): an utterance holding
    "set alarm" sets an alarm at the first time written in it, and one
    holding "open alarm" opens the clock app. The device calls are modelled
    as the effect the handler chooses: nothing, an alert, or a URL to open. */
module AlarmScreen {
  import opened Wrappers
  import opened Text

  /* ---------------------------------------------------------------- data */

  /** What handling one utterance asks of the device. */
  datatype Effect =
    | NoEffect
    | ShowAlert(message: string)
    | OpenUrl(url: string)

  const SetAlarmPhrase: string := "set alarm"
  const OpenAlarmPhrase: string := "open alarm"
  const NoTimeMessage: string := "Could not find a valid time in your command."
  const ClockAppUrl: string := "clock://alarm"
  /** The fixed text of the alarm intent URL before the hours. */
  const IntentPrefix: string := "intent: #Intent; action = android.intent.action.SET_ALARM; S.hours = "
  /** The fixed text between the hours and the minutes, and after them. */
  const MinutesKey: string := "; S.minutes = "
  const IntentEnd: string := ";end"
  /** The value of `Platform.OS` on which the URLs are opened. */
  const Android: string := "android"

  /** Hours and minutes as `split(':').map(Number)` reads them. */
  datatype ClockTime = ClockTime(hours: nat, minutes: nat)

  /** A match of the time pattern: where it starts and how long it is. */
  datatype Span = Span(start: nat, len: nat)

  /* ---------------------------------------------------------------- the pattern */

  /** `t` as a whole has the form `\d{1,2}:\d{2}`. */
  predicate IsTimeText(t: string) {
    (|t| == 4 && IsDigit(t[0]) && t[1] == ':' && IsDigit(t[2]) && IsDigit(t[3])) ||
    (|t| == 5 && IsDigit(t[0]) && IsDigit(t[1]) && t[2] == ':' && IsDigit(t[3]) && IsDigit(t[4]))
  }

  /** The `len` characters of `s` from `i` have the time form. */
  predicate TimeAt(s: string, i: nat, len: nat) {
    i + len <= |s| && IsTimeText(s[i..i + len])
  }

  /** Some time starts at index `i`. */
  predicate MatchesAt(s: string, i: nat) {
    TimeAt(s, i, 4) || TimeAt(s, i, 5)
  }

  /** The match `/(\d{1,2}:\d{2})/` finds: it starts at the leftmost index
      where a time starts, and there the greedy `\d{1,2}` takes two digits
      whenever that still lets the rest match. */
  predicate IsRegexMatch(s: string, m: Span) {
    TimeAt(s, m.start, m.len) &&
    (forall j: nat :: j < m.start ==> !MatchesAt(s, j)) &&
    (m.len == 4 ==> !TimeAt(s, m.start, 5))
  }

  function MatchedText(s: string, m: Span): string
    requires m.start + m.len <= |s|
  {
    s[m.start..m.start + m.len]
  }

  /** One attempt of the backtracking matcher at index `i`: two hour digits
      first, then one; the length matched, if any. */
  function TryAt(s: string, i: nat): (r: Option<nat>)
    ensures r.Some? ==> (r.value == 4 || r.value == 5) && TimeAt(s, i, r.value)
    ensures r == Some(4) ==> !TimeAt(s, i, 5)
    ensures r.None? ==> !MatchesAt(s, i)
  {
    if i + 5 <= |s| && IsDigit(s[i]) && IsDigit(s[i + 1]) && s[i + 2] == ':' &&
       IsDigit(s[i + 3]) && IsDigit(s[i + 4])
    then Some(5)
    else if i + 4 <= |s| && IsDigit(s[i]) && s[i + 1] == ':' && IsDigit(s[i + 2]) &&
            IsDigit(s[i + 3])
    then Some(4)
    else None
  }

  /** The scan of the matcher over the start indices from `from` on. */
  function FindTimeFrom(s: string, from: nat): (r: Option<Span>)
    requires from <= |s|
    ensures r.Some? ==> from <= r.value.start && TimeAt(s, r.value.start, r.value.len)
    ensures r.Some? ==> r.value.len == 4 || r.value.len == 5
    ensures r.Some? ==> (r.value.len == 4 ==> !TimeAt(s, r.value.start, 5))
    ensures r.Some? ==> forall j: nat :: from <= j < r.value.start ==> !MatchesAt(s, j)
    ensures r.None? ==> forall j: nat :: from <= j ==> !MatchesAt(s, j)
    decreases |s| - from
  {
    if from == |s| then None
    else
      match TryAt(s, from)
      case Some(len) => Some(Span(from, len))
      case None => FindTimeFrom(s, from + 1)
  }

  /** `command.match(/(\d{1,2}:\d{2})/)`: the match, or none when no time
      occurs anywhere. */
  function FindTime(s: string): (r: Option<Span>)
    ensures r.Some? ==> IsRegexMatch(s, r.value)
    ensures r.None? <==> forall j: nat :: !MatchesAt(s, j)
  {
    var r := FindTimeFrom(s, 0);
    assert r.Some? ==> MatchesAt(s, r.value.start);
    r
  }

  /** The regular-expression match is unique, and the scan finds exactly it. */
  lemma FindTimeIsRegexMatch(s: string, m: Span)
    ensures FindTime(s) == Some(m) <==> IsRegexMatch(s, m)
  {
    if IsRegexMatch(s, m) {
      IsTimeTextLength(s[m.start..m.start + m.len]);
      assert MatchesAt(s, m.start);
      var k := FindTime(s).value;
      assert MatchesAt(s, k.start);
      assert k.start == m.start by {
        assert !(k.start < m.start) && !(m.start < k.start);
      }
    }
  }

  lemma IsTimeTextLength(t: string)
    requires IsTimeText(t)
    ensures |t| == 4 || |t| == 5
  {
  }

  /** "123:45" gives "23:45": the leftmost time starts inside "123". */
  lemma LeftmostInsideLongerNumber(s: string)
    requires s == "123:45"
    ensures FindTime(s) == Some(Span(1, 5)) && MatchedText(s, Span(1, 5)) == "23:45"
  {
    assert s[1..6] == "23:45";
    assert !MatchesAt(s, 0) by {
      assert s[0..4][1] == '2' && s[0..5][2] == '3';
    }
    FindTimeIsRegexMatch(s, Span(1, 5));
  }

  /** "7:305" gives "7:30": the minutes are exactly two digits. */
  lemma MinutesTakeTwoDigits(s: string)
    requires s == "7:305"
    ensures FindTime(s) == Some(Span(0, 4)) && MatchedText(s, Span(0, 4)) == "7:30"
  {
    assert s[0..4] == "7:30";
    assert !TimeAt(s, 0, 5) by {
      assert s[0..5][1] == ':';
    }
    FindTimeIsRegexMatch(s, Span(0, 4));
  }

  /* ---------------------------------------------------------------- hours and minutes */

  /** The two sides of a time text: `split(':')` gives exactly these. */
  lemma TimeTextSplits(time: string)
    requires IsTimeText(time)
    ensures Split(time, ':') == [time[..|time| - 3], time[|time| - 2..]]
    ensures AllDigits(time[..|time| - 3]) && 1 <= |time[..|time| - 3]| <= 2
    ensures AllDigits(time[|time| - 2..]) && |time[|time| - 2..]| == 2
  {
    var h, m := time[..|time| - 3], time[|time| - 2..];
    assert time == h + [':'] + m;
    SplitOnce(h, m, ':');
  }

  /** `const [hours, minutes] = time.split(':').map(Number)`: the decimal
      values of the two digit groups, each below 100 and unchecked against
      a clock. */
  function ParseTime(time: string): (t: ClockTime)
    requires IsTimeText(time)
    ensures t.hours < 100 && t.minutes < 100
  {
    TimeTextSplits(time);
    var parts := Split(time, ':');
    ClockTime(DecimalValue(parts[0]), DecimalValue(parts[1]))
  }

  /** A number below 100 written with two digits, a leading zero if needed. */
  function TwoDigits(n: nat): (s: string)
    requires n < 100
  {
    [DigitChar(n / 10), DigitChar(n % 10)]
  }

  /** Reading a time back: two-digit hours and minutes, or one-digit hours,
      give the numbers they were written from; a leading zero is dropped. */
  lemma ParseTimeRoundTrip(hours: nat, minutes: nat)
    requires hours < 100 && minutes < 100
    ensures IsTimeText(TwoDigits(hours) + ":" + TwoDigits(minutes))
    ensures ParseTime(TwoDigits(hours) + ":" + TwoDigits(minutes)) == ClockTime(hours, minutes)
    ensures hours < 10 ==> IsTimeText([DigitChar(hours)] + ":" + TwoDigits(minutes))
    ensures hours < 10 ==> ParseTime([DigitChar(hours)] + ":" + TwoDigits(minutes)) == ClockTime(hours, minutes)
  {
    var hh, mm := TwoDigits(hours), TwoDigits(minutes);
    TwoDigitsValue(hours);
    TwoDigitsValue(minutes);
    var long := hh + ":" + mm;
    assert long[..2] == hh && long[3..] == mm;
    TimeTextSplits(long);
    if hours < 10 {
      var h := [DigitChar(hours)];
      var short := h + ":" + mm;
      assert short[..1] == h && short[2..] == mm;
      assert DecimalValue(h) == hours by {
        assert h[..0] == [];
      }
      TimeTextSplits(short);
    }
  }

  lemma TwoDigitsValue(n: nat)
    requires n < 100
    ensures AllDigits(TwoDigits(n)) && DecimalValue(TwoDigits(n)) == n
  {
    var s := TwoDigits(n);
    assert DecimalValue(s[..1]) == n / 10 by {
      assert s[..1][..0] == [];
    }
    assert DecimalValue(s) == 10 * (n / 10) + n % 10;
  }

  /** "07:05" gives 7 hours and 5 minutes. */
  lemma LeadingZerosDropped(time: string)
    requires time == "07:05"
    ensures IsTimeText(time) && ParseTime(time) == ClockTime(7, 5)
  {
    ParseTimeRoundTrip(7, 5);
    assert TwoDigits(7) + ":" + TwoDigits(5) == time;
  }

  /* ---------------------------------------------------------------- the URLs */

  /** The Android intent URL `setAlarm` opens: the SET_ALARM intent prefix,
      then the hours and the minutes; never the clock-app URL. */
  function AlarmIntentUrl(t: ClockTime): (url: string)
    ensures |url| > |IntentPrefix| && url[..|IntentPrefix|] == IntentPrefix
    ensures url != ClockAppUrl
  {
    var url := IntentPrefix + (NatToString(t.hours) + MinutesPart(t.minutes));
    assert |url| > |IntentPrefix| > |ClockAppUrl|;
    url
  }

  /** The hours sit in the `S.hours` slot and the minutes in the `S.minutes`
      slot: decoding the intent URL gives back exactly the time. */
  lemma IntentTimeRoundTrip(t: ClockTime)
    ensures IntentTime(AlarmIntentUrl(t)) == Some(t)
  {
    var hs, ms := NatToString(t.hours), NatToString(t.minutes);
    var url := AlarmIntentUrl(t);
    var rest := url[|IntentPrefix|..];
    assert rest == hs + MinutesPart(t.minutes);
    DigitPrefixOf(hs, MinutesPart(t.minutes));
    var rest2 := rest[|hs|..];
    assert rest2 == MinutesKey + (ms + IntentEnd);
    var rest3 := rest2[|MinutesKey|..];
    assert rest3 == ms + IntentEnd;
    DigitPrefixOf(ms, IntentEnd);
    assert rest3[|ms|..] == IntentEnd;
    DecimalValueOfNatToString(t.hours);
    DecimalValueOfNatToString(t.minutes);
  }

  /** The part of the intent URL after the hours. */
  function MinutesPart(minutes: nat): (r: string)
    ensures r != [] && !IsDigit(r[0])
  {
    MinutesKey + (NatToString(minutes) + IntentEnd)
  }

  /** Reads the hours and minutes back out of an intent URL: the prefix, a
      non-empty run of digits, the minutes key, a non-empty run of digits
      and the end marker, and nothing else. */
  function IntentTime(url: string): Option<ClockTime> {
    if |url| < |IntentPrefix| || url[..|IntentPrefix|] != IntentPrefix then None
    else
      var rest := url[|IntentPrefix|..];
      var h := DigitPrefix(rest);
      var rest2 := rest[|h|..];
      if h == [] || |rest2| < |MinutesKey| || rest2[..|MinutesKey|] != MinutesKey then None
      else
        var rest3 := rest2[|MinutesKey|..];
        var m := DigitPrefix(rest3);
        if m == [] || rest3[|m|..] != IntentEnd then None
        else Some(ClockTime(DecimalValue(h), DecimalValue(m)))
  }

  /** Distinct times give distinct intent URLs: no other time has the
      intent URL of `a`. */
  lemma AlarmIntentUrlInjective(a: ClockTime)
    ensures forall b :: AlarmIntentUrl(b) == AlarmIntentUrl(a) ==> b == a
  {
    IntentTimeRoundTrip(a);
    forall b | AlarmIntentUrl(b) == AlarmIntentUrl(a)
      ensures b == a
    {
      IntentTimeRoundTrip(b);
    }
  }

  /* ---------------------------------------------------------------- the handler */

  /** `setAlarm(time)`: on Android, open the intent URL whose slots hold
      exactly the parsed time; elsewhere, nothing. No alert is raised. */
  function SetAlarm(time: string, os: string): (r: Effect)
    requires IsTimeText(time)
    ensures r == NoEffect || r.OpenUrl?
    ensures r.OpenUrl? <==> os == Android
    ensures r.OpenUrl? ==> r.url != ClockAppUrl
    ensures r.OpenUrl? ==> forall t :: r.url == AlarmIntentUrl(t) <==> t == ParseTime(time)
  {
    AlarmIntentUrlInjective(ParseTime(time));
    if os == Android then OpenUrl(AlarmIntentUrl(ParseTime(time))) else NoEffect
  }

  /** `openAlarmApp()`: on Android, open the clock app; elsewhere, nothing. */
  function OpenAlarmApp(os: string): (r: Effect)
    ensures r == NoEffect || r == OpenUrl(ClockAppUrl)
    ensures r.OpenUrl? <==> os == Android
  {
    if os == Android then OpenUrl(ClockAppUrl) else NoEffect
  }

  /** `processCommand(command)` on the platform `os`: the case-sensitive
      "set alarm" test first, then "open alarm". A URL is opened only on
      Android; the only alert is the missing-time one, and only after
      "set alarm"; an utterance with neither phrase does nothing. */
  function ProcessCommand(command: string, os: string): (r: Effect)
    ensures r.OpenUrl? ==> os == Android
    ensures r.ShowAlert? ==> r.message == NoTimeMessage && Contains(command, SetAlarmPhrase)
    ensures !Contains(command, SetAlarmPhrase) && !Contains(command, OpenAlarmPhrase) ==> r == NoEffect
    ensures os == Android && (Contains(command, SetAlarmPhrase) || Contains(command, OpenAlarmPhrase)) ==> r != NoEffect
  {
    if Contains(command, SetAlarmPhrase) then
      match FindTime(command)
      case Some(m) => SetAlarm(MatchedText(command, m), os)
      case None => ShowAlert(NoTimeMessage)
    else if Contains(command, OpenAlarmPhrase) then
      OpenAlarmApp(os)
    else
      NoEffect
  }

  /** The alert is shown exactly when "set alarm" occurs but no time does,
      and it is always the same sentence. */
  lemma AlertExactlyWithoutTime(command: string, os: string)
    ensures ProcessCommand(command, os).ShowAlert? <==>
      Contains(command, SetAlarmPhrase) && forall j: nat :: !MatchesAt(command, j)
    ensures ProcessCommand(command, os).ShowAlert? ==>
      ProcessCommand(command, os).message == NoTimeMessage
  {
  }

  /** An alarm is set for time `t` exactly when "set alarm" occurs, the
      platform is Android, and `t` is read from the leftmost time. */
  lemma AlarmSetAtLeftmostTime(command: string, os: string, t: ClockTime)
    ensures ProcessCommand(command, os) == OpenUrl(AlarmIntentUrl(t)) <==>
      Contains(command, SetAlarmPhrase) && os == Android &&
      exists m :: IsRegexMatch(command, m) && ParseTime(MatchedText(command, m)) == t
  {
    if ProcessCommand(command, os) == OpenUrl(AlarmIntentUrl(t)) {
      AlarmSetOnlyAtLeftmostTime(command, os, t);
      var m := FindTime(command).value;
      assert IsRegexMatch(command, m) && ParseTime(MatchedText(command, m)) == t;
    }
    if Contains(command, SetAlarmPhrase) && os == Android &&
       exists m :: IsRegexMatch(command, m) && ParseTime(MatchedText(command, m)) == t
    {
      var m :| IsRegexMatch(command, m) && ParseTime(MatchedText(command, m)) == t;
      AlarmSetAtMatch(command, m);
    }
  }

  lemma AlarmSetAtMatch(command: string, m: Span)
    requires Contains(command, SetAlarmPhrase) && IsRegexMatch(command, m)
    ensures ProcessCommand(command, Android) == OpenUrl(AlarmIntentUrl(ParseTime(MatchedText(command, m))))
  {
    FindTimeIsRegexMatch(command, m);
  }

  lemma AlarmSetOnlyAtLeftmostTime(command: string, os: string, t: ClockTime)
    requires ProcessCommand(command, os) == OpenUrl(AlarmIntentUrl(t))
    ensures Contains(command, SetAlarmPhrase) && os == Android
    ensures FindTime(command).Some? && ParseTime(MatchedText(command, FindTime(command).value)) == t
  {
    var r := FindTime(command);
    assert Contains(command, SetAlarmPhrase) && r.Some?;
    var time := MatchedText(command, r.value);
    assert SetAlarm(time, os) == OpenUrl(AlarmIntentUrl(t));
  }

  /** "set alarm" takes priority: the clock app is opened exactly when
      "open alarm" occurs, "set alarm" does not, and the platform is
      Android. */
  lemma ClockAppOnlyWithoutSetAlarm(command: string, os: string)
    ensures ProcessCommand(command, os) == OpenUrl(ClockAppUrl) <==>
      !Contains(command, SetAlarmPhrase) && Contains(command, OpenAlarmPhrase) && os == Android
  {
  }

  /** Nothing happens exactly when neither phrase occurs, or when the
      platform is not Android and no alert is due. */
  lemma NoEffectCases(command: string, os: string)
    ensures ProcessCommand(command, os) == NoEffect <==>
      (!Contains(command, SetAlarmPhrase) && !Contains(command, OpenAlarmPhrase)) ||
      (os != Android && !(Contains(command, SetAlarmPhrase) && FindTime(command).None?))
  {
  }

  /** The phrase test is case-sensitive: "Set Alarm 7:30" takes neither
      branch. */
  lemma PhrasesAreCaseSensitive(command: string)
    requires command == "Set Alarm 7:30"
    ensures ProcessCommand(command, Android) == NoEffect
  {
    NotContainsWithoutFirstChar(command, SetAlarmPhrase);
    NotContainsWithoutFirstChar(command, OpenAlarmPhrase);
  }

  /** No clock-range check: "set alarm HH:MM" sets an alarm for any two-digit
      hours and minutes, 99:99 included. */
  lemma NoClockRangeCheck(hours: nat, minutes: nat)
    requires hours < 100 && minutes < 100
    ensures var time := TwoDigits(hours) + ":" + TwoDigits(minutes);
      ProcessCommand(SetAlarmPhrase + " " + time, Android) == OpenUrl(AlarmIntentUrl(ClockTime(hours, minutes)))
  {
    var time := TwoDigits(hours) + ":" + TwoDigits(minutes);
    var prefix := SetAlarmPhrase + " ";
    var command := prefix + time;
    assert OccursAt(command, SetAlarmPhrase, 0) by {
      assert command[..|SetAlarmPhrase|] == SetAlarmPhrase;
    }
    ParseTimeRoundTrip(hours, minutes);
    var m := Span(|prefix|, 5);
    assert MatchedText(command, m) == time;
    forall j: nat | j < |prefix|
      ensures !MatchesAt(command, j)
    {
      assert command[j] == prefix[j] && !IsDigit(prefix[j]);
      if j + 4 <= |command| {
        assert command[j..j + 4][0] == command[j];
      }
      if j + 5 <= |command| {
        assert command[j..j + 5][0] == command[j];
      }
    }
    FindTimeIsRegexMatch(command, m);
  }
}
