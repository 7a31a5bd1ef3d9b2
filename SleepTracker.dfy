/** The sleep-entry logic of the `SleepTracker` component: the date and time
    shape checks, the overnight-aware duration, and the submission gate that
    appends a validated entry to the in-memory log and clears the form. */
module SleepTracker {
  import opened JsStrings

  datatype Option<T> = None | Some(value: T)

  const MinutesPerHour := 60
  const MinutesPerDay := 24 * 60

  // ---------------------------------------------------------------------------
  // Date shape: /^\d{4}-\d{2}-\d{2}$/
  // ---------------------------------------------------------------------------

  /** Four digits, `-`, two digits, `-`, two digits, and nothing else.
      No month or day range is checked. */
  predicate IsValidDateFormat(date: string) {
    |date| == 10
    && AllDigits(date[..4]) && date[4] == '-'
    && AllDigits(date[5..7]) && date[7] == '-'
    && AllDigits(date[8..])
  }

  /** Reference reading of the date shape: split on `-`, exactly three
      all-digit groups of lengths 4, 2 and 2. */
  predicate IsDigitGroupsDate(date: string) {
    var groups := Split(date, '-');
    |groups| == 3
    && |groups[0]| == 4 && AllDigits(groups[0])
    && |groups[1]| == 2 && AllDigits(groups[1])
    && |groups[2]| == 2 && AllDigits(groups[2])
  }

  /** The date check accepts exactly the strings made of three digit groups of
      lengths 4, 2 and 2 joined by dashes. */
  lemma DateFormatIsDigitGroups(date: string)
    ensures IsValidDateFormat(date) <==> IsDigitGroupsDate(date)
  {
    if IsValidDateFormat(date) {
      var y, m, d := date[..4], date[5..7], date[8..];
      DigitsExclude(y, '-');
      DigitsExclude(m, '-');
      DigitsExclude(d, '-');
      assert date == y + ['-'] + (m + ['-'] + d);
      SplitAtFirstSeparator(y, m + ['-'] + d, '-');
      SplitInTwo(m, d, '-');
    }
    if IsDigitGroupsDate(date) {
      var groups := Split(date, '-');
      SplitJoin(date, '-');
      assert Join(groups, '-') == groups[0] + ['-'] + Join(groups[1..], '-');
      assert Join(groups[1..], '-') == groups[1] + ['-'] + Join(groups[1..][1..], '-');
      assert groups[1..][1..] == [groups[2]];
      assert date == groups[0] + ['-'] + (groups[1] + ['-'] + groups[2]);
      assert date[..4] == groups[0];
      assert date[5..7] == groups[1];
      assert date[8..] == groups[2];
    }
  }

  /** The check is about shape only: a thirteenth month and a 99th day pass. */
  lemma DateFormatIgnoresCalendar()
    ensures IsValidDateFormat("2024-13-99")
    ensures IsValidDateFormat("2024-12-21")
    ensures !IsValidDateFormat("2024/12/21")
    ensures !IsValidDateFormat("24-12-21")
  {
  }

  // ---------------------------------------------------------------------------
  // Time shape: /^([0-1]?\d|2[0-3]):([0-5]?\d)$/
  // ---------------------------------------------------------------------------

  /** The hour group `[0-1]?\d|2[0-3]`. */
  predicate IsHourGroup(h: string) {
    (|h| == 1 && IsDigit(h[0]))
    || (|h| == 2 && '0' <= h[0] <= '1' && IsDigit(h[1]))
    || (|h| == 2 && h[0] == '2' && '0' <= h[1] <= '3')
  }

  /** The minute group `[0-5]?\d`. */
  predicate IsMinuteGroup(m: string) {
    (|m| == 1 && IsDigit(m[0]))
    || (|m| == 2 && '0' <= m[0] <= '5' && IsDigit(m[1]))
  }

  /** The pattern matched with the hour group ending just before index `k`. */
  predicate MatchesWithColonAt(time: string, k: nat) {
    k < |time| && time[k] == ':' && IsHourGroup(time[..k]) && IsMinuteGroup(time[k + 1..])
  }

  /** The whole pattern: the hour group is one or two characters long, so the
      colon is at index 1 or 2. */
  predicate IsValidTimeFormat(time: string) {
    MatchesWithColonAt(time, 1) || MatchesWithColonAt(time, 2)
  }

  /** A clock field: one or two decimal digits whose value is below `bound`. */
  predicate IsClockField(p: string, bound: nat) {
    1 <= |p| <= 2 && AllDigits(p) && NumberOf(p) < bound
  }

  /** Reference reading of the time shape: split on `:`, exactly an hour field
      below 24 and a minute field below 60. */
  predicate IsClockTime(time: string) {
    var fields := Split(time, ':');
    |fields| == 2 && IsClockField(fields[0], 24) && IsClockField(fields[1], 60)
  }

  lemma NumberOfOneDigit(s: string)
    requires |s| == 1 && IsDigit(s[0])
    ensures AllDigits(s) && NumberOf(s) == DigitValue(s[0])
  {
  }

  lemma NumberOfTwoDigits(s: string)
    requires |s| == 2 && IsDigit(s[0]) && IsDigit(s[1])
    ensures AllDigits(s) && NumberOf(s) == 10 * DigitValue(s[0]) + DigitValue(s[1])
  {
    NumberOfOneDigit(s[..1]);
  }

  /** The hour group accepts exactly the one- or two-digit fields below 24. */
  lemma HourGroupIsClockField(h: string)
    ensures IsHourGroup(h) <==> IsClockField(h, 24)
  {
    if |h| == 1 && IsDigit(h[0]) {
      NumberOfOneDigit(h);
    } else if |h| == 2 && IsDigit(h[0]) && IsDigit(h[1]) {
      NumberOfTwoDigits(h);
    }
  }

  /** The minute group accepts exactly the one- or two-digit fields below 60. */
  lemma MinuteGroupIsClockField(m: string)
    ensures IsMinuteGroup(m) <==> IsClockField(m, 60)
  {
    if |m| == 1 && IsDigit(m[0]) {
      NumberOfOneDigit(m);
    } else if |m| == 2 && IsDigit(m[0]) && IsDigit(m[1]) {
      NumberOfTwoDigits(m);
    }
  }

  /** A time that matches, split on its colon, gives the two groups. */
  lemma SplitMatchedTime(time: string, k: nat)
    requires MatchesWithColonAt(time, k)
    ensures Split(time, ':') == [time[..k], time[k + 1..]]
    ensures IsClockField(time[..k], 24) && IsClockField(time[k + 1..], 60)
  {
    HourGroupIsClockField(time[..k]);
    MinuteGroupIsClockField(time[k + 1..]);
    DigitsExclude(time[..k], ':');
    DigitsExclude(time[k + 1..], ':');
    assert time == time[..k] + [':'] + time[k + 1..];
    SplitInTwo(time[..k], time[k + 1..], ':');
  }

  /** The time check accepts exactly `H:M` with an hour field below 24 and a
      minute field below 60, each one or two digits: "9:5" and "23:59" pass,
      "24:00" does not. */
  lemma TimeFormatIsClockTime(time: string)
    ensures IsValidTimeFormat(time) <==> IsClockTime(time)
  {
    if IsValidTimeFormat(time) {
      SplitMatchedTime(time, if MatchesWithColonAt(time, 1) then 1 else 2);
    }
    if IsClockTime(time) {
      var fields := Split(time, ':');
      SplitJoin(time, ':');
      var k := |fields[0]|;
      assert time == fields[0] + [':'] + fields[1];
      assert time[..k] == fields[0] && time[k + 1..] == fields[1];
      HourGroupIsClockField(fields[0]);
      MinuteGroupIsClockField(fields[1]);
      assert MatchesWithColonAt(time, k);
    }
  }

  lemma TimeFormatExamples()
    ensures IsValidTimeFormat("23:59")
    ensures IsValidTimeFormat("9:5")
    ensures !IsValidTimeFormat("24:00")
  {
  }

  // ---------------------------------------------------------------------------
  // Duration: calculateDuration(sleep, wake)
  // ---------------------------------------------------------------------------

  /** `time.split(':').map(Number)` for a time that passed the check: its hour
      and minute. */
  function ParseTime(time: string): (hm: (nat, nat))
    requires IsValidTimeFormat(time)
    ensures hm.0 < 24 && hm.1 < 60
  {
    SplitMatchedTime(time, if MatchesWithColonAt(time, 1) then 1 else 2);
    var fields := Split(time, ':');
    (NumberOf(fields[0]), NumberOf(fields[1]))
  }

  /** Parsing reads the hour and minute fields on either side of the colon,
      whatever their width. */
  lemma ParseTimeReadsFields(h: string, m: string)
    requires IsClockField(h, 24) && IsClockField(m, 60)
    ensures IsValidTimeFormat(h + [':'] + m)
    ensures ParseTime(h + [':'] + m) == (NumberOf(h), NumberOf(m))
  {
    var time := h + [':'] + m;
    DigitsExclude(h, ':');
    DigitsExclude(m, ':');
    SplitInTwo(h, m, ':');
    TimeFormatIsClockTime(time);
  }

  /** Minutes since midnight. */
  function MinuteOfDay(hm: (nat, nat)): nat {
    hm.0 * MinutesPerHour + hm.1
  }

  /** The raw difference `wake - sleep` in minutes, before any adjustment. */
  function RawDifference(sleep: string, wake: string): (diff: int)
    requires IsValidTimeFormat(sleep) && IsValidTimeFormat(wake)
    ensures -MinutesPerDay < diff < MinutesPerDay
  {
    MinuteOfDay(ParseTime(wake)) - MinuteOfDay(ParseTime(sleep))
  }

  /** `totalSleepMinutes` after the overnight adjustment: the minutes from
      sleep to the next wake time, a value in [0, 1440) congruent to the raw
      difference modulo a day. */
  function SleepMinutes(sleep: string, wake: string): (total: nat)
    requires IsValidTimeFormat(sleep) && IsValidTimeFormat(wake)
    ensures total < MinutesPerDay
    ensures (total - RawDifference(sleep, wake)) % MinutesPerDay == 0
  {
    var diff := RawDifference(sleep, wake);
    if diff < 0 then diff + MinutesPerDay else diff
  }

  /** When wake is at or after sleep there is no wraparound: equal times give
      zero minutes, not a full day. */
  lemma SameDaySleep(sleep: string, wake: string)
    requires IsValidTimeFormat(sleep) && IsValidTimeFormat(wake)
    requires MinuteOfDay(ParseTime(sleep)) <= MinuteOfDay(ParseTime(wake))
    ensures SleepMinutes(sleep, wake) == MinuteOfDay(ParseTime(wake)) - MinuteOfDay(ParseTime(sleep))
    ensures sleep == wake ==> SleepMinutes(sleep, wake) == 0
  {
  }

  /** When wake is before sleep the session crosses midnight: one day is added. */
  lemma OvernightSleep(sleep: string, wake: string)
    requires IsValidTimeFormat(sleep) && IsValidTimeFormat(wake)
    requires MinuteOfDay(ParseTime(wake)) < MinuteOfDay(ParseTime(sleep))
    ensures SleepMinutes(sleep, wake) == MinuteOfDay(ParseTime(wake)) - MinuteOfDay(ParseTime(sleep)) + MinutesPerDay
  {
  }

  /** The sleep minutes are the only value in [0, 1440) that differs from the
      raw difference by a whole number of days. */
  lemma SleepMinutesIsUnique(sleep: string, wake: string, t: int)
    requires IsValidTimeFormat(sleep) && IsValidTimeFormat(wake)
    requires 0 <= t < MinutesPerDay && (t - RawDifference(sleep, wake)) % MinutesPerDay == 0
    ensures t == SleepMinutes(sleep, wake)
  {
  }

  /** The template `${hours}h ${minutes}m` with `hours = floor(total / 60)` and
      `minutes = total % 60`. */
  function FormatDuration(total: nat): string {
    NumberToString(total / MinutesPerHour) + "h " + NumberToString(total % MinutesPerHour) + "m"
  }

  /** Reads `{h}h {m}m` back into its hours and minutes. */
  function ParseDuration(text: string): Option<(nat, nat)> {
    var i := LeadingDigits(text);
    var rest := text[i..];
    if i == 0 || |rest| < 2 || rest[..2] != "h " then None
    else
      var mins := rest[2..];
      var j := LeadingDigits(mins);
      if j == 0 || mins[j..] != "m" then None
      else Some((NumberOf(text[..i]), NumberOf(mins[..j])))
  }

  /** The rendered duration decodes to `floor(total / 60)` hours and
      `total % 60` minutes, so distinct totals render differently. */
  lemma FormatDurationRoundTrip(total: nat)
    ensures ParseDuration(FormatDuration(total)) == Some((total / MinutesPerHour, total % MinutesPerHour))
  {
    var hs, ms := NumberToString(total / MinutesPerHour), NumberToString(total % MinutesPerHour);
    var text := FormatDuration(total);
    assert text == hs + ("h " + ms + "m");
    LeadingDigitsOfDigitsThen(hs, "h " + ms + "m");
    assert text[..|hs|] == hs;
    var rest := text[|hs|..];
    assert rest == "h " + ms + "m";
    assert rest[2..] == ms + "m";
    LeadingDigitsOfDigitsThen(ms, "m");
    assert (ms + "m")[..|ms|] == ms;
    NumberToStringRoundTrip(total / MinutesPerHour);
    NumberToStringRoundTrip(total % MinutesPerHour);
  }

  /** `calculateDuration(sleep, wake)`: the text decodes to hours and minutes
      with `hours * 60 + minutes` equal to the sleep minutes, minutes below 60
      and hours below 24. */
  function CalculateDuration(sleep: string, wake: string): (text: string)
    requires IsValidTimeFormat(sleep) && IsValidTimeFormat(wake)
    ensures ParseDuration(text).Some?
    ensures var (h, m) := ParseDuration(text).value;
      h * MinutesPerHour + m == SleepMinutes(sleep, wake) && m < MinutesPerHour && h < 24
  {
    var total := SleepMinutes(sleep, wake);
    FormatDurationRoundTrip(total);
    FormatDuration(total)
  }

  /** Sleeping at 23:30 and waking at 07:15 crosses midnight: 7h 45m. */
  lemma OvernightExample()
    ensures IsValidTimeFormat("23:30") && IsValidTimeFormat("07:15")
    ensures CalculateDuration("23:30", "07:15") == "7h 45m"
  {
    ClockTimeExample("23", "30", 23, 30);
    ClockTimeExample("07", "15", 7, 15);
    assert "23" + [':'] + "30" == "23:30";
    assert "07" + [':'] + "15" == "07:15";
    assert SleepMinutes("23:30", "07:15") == 465;
    assert NumberToString(45) == NumberToString(4) + [DigitChar(5)];
    assert FormatDuration(465) == "7h 45m";
  }

  /** Equal sleep and wake times give zero, not a full day. */
  lemma EqualTimesExample()
    ensures IsValidTimeFormat("08:00")
    ensures CalculateDuration("08:00", "08:00") == "0h 0m"
  {
    ClockTimeExample("08", "00", 8, 0);
    assert "08" + [':'] + "00" == "08:00";
    assert SleepMinutes("08:00", "08:00") == 0;
    assert FormatDuration(0) == "0h 0m";
  }

  /** From 22:00 to 07:00 is nine hours. */
  lemma NineHoursExample()
    ensures IsValidTimeFormat("22:00") && IsValidTimeFormat("07:00")
    ensures CalculateDuration("22:00", "07:00") == "9h 0m"
  {
    ClockTimeExample("22", "00", 22, 0);
    ClockTimeExample("07", "00", 7, 0);
    assert "22" + [':'] + "00" == "22:00";
    assert "07" + [':'] + "00" == "07:00";
    assert SleepMinutes("22:00", "07:00") == 540;
    assert FormatDuration(540) == "9h 0m";
  }

  lemma ClockTimeExample(h: string, m: string, hv: nat, mv: nat)
    requires |h| == 2 && |m| == 2 && IsDigit(h[0]) && IsDigit(h[1]) && IsDigit(m[0]) && IsDigit(m[1])
    requires 10 * DigitValue(h[0]) + DigitValue(h[1]) == hv < 24
    requires 10 * DigitValue(m[0]) + DigitValue(m[1]) == mv < 60
    ensures IsValidTimeFormat(h + [':'] + m)
    ensures ParseTime(h + [':'] + m) == (hv, mv)
  {
    NumberOfTwoDigits(h);
    NumberOfTwoDigits(m);
    ParseTimeReadsFields(h, m);
  }

  // ---------------------------------------------------------------------------
  // Submission gate: handleAddEntry
  // ---------------------------------------------------------------------------

  /** The three reasons a submission is refused, in the order they are checked. */
  datatype ValidationError = MissingField | InvalidDateFormat | InvalidTimeFormat

  /** One recorded sleep session; `id` is the identifier the caller drew for it. */
  datatype Entry = Entry(id: string, date: string, sleepTime: string, wakeTime: string, duration: string)

  /** What one press of "Add Entry" does: append an entry, or refuse with a reason. */
  datatype Submission = Added(entry: Entry) | Rejected(error: ValidationError)

  /** The checks of the gate in their order; the first that fails is the one reported. */
  function FirstFailure(date: string, sleepTime: string, wakeTime: string): Option<ValidationError> {
    if date == "" || sleepTime == "" || wakeTime == "" then Some(MissingField)
    else if !IsValidDateFormat(date) then Some(InvalidDateFormat)
    else if !IsValidTimeFormat(sleepTime) || !IsValidTimeFormat(wakeTime) then Some(InvalidTimeFormat)
    else None
  }

  /** The gate lets through exactly a date of digit groups 4-2-2 and two clock
      times; an empty field is caught by the date and time shapes anyway. */
  lemma GateAcceptsExactly(date: string, sleepTime: string, wakeTime: string)
    ensures FirstFailure(date, sleepTime, wakeTime) == None
        <==> IsDigitGroupsDate(date) && IsClockTime(sleepTime) && IsClockTime(wakeTime)
  {
    DateFormatIsDigitGroups(date);
    TimeFormatIsClockTime(sleepTime);
    TimeFormatIsClockTime(wakeTime);
  }

  /** Each error is reported exactly when its check is the first to fail:
      missing fields before the date, the date before the times. */
  lemma GateReportsFirstFailure(date: string, sleepTime: string, wakeTime: string)
    ensures FirstFailure(date, sleepTime, wakeTime) == Some(MissingField)
        <==> date == "" || sleepTime == "" || wakeTime == ""
    ensures FirstFailure(date, sleepTime, wakeTime) == Some(InvalidDateFormat)
        <==> date != "" && sleepTime != "" && wakeTime != "" && !IsDigitGroupsDate(date)
    ensures FirstFailure(date, sleepTime, wakeTime) == Some(InvalidTimeFormat)
        <==> date != "" && sleepTime != "" && wakeTime != "" && IsDigitGroupsDate(date)
             && (!IsClockTime(sleepTime) || !IsClockTime(wakeTime))
  {
    DateFormatIsDigitGroups(date);
    TimeFormatIsClockTime(sleepTime);
    TimeFormatIsClockTime(wakeTime);
  }

  /** An entry as the gate builds it: valid date and times, and the duration
      computed from its own times. */
  predicate IsWellFormedEntry(e: Entry) {
    IsValidDateFormat(e.date) && IsValidTimeFormat(e.sleepTime) && IsValidTimeFormat(e.wakeTime)
    && e.duration == CalculateDuration(e.sleepTime, e.wakeTime)
  }

  /** The component's state: the in-memory log and the three form fields. */
  class Tracker {
    var sleepEntries: seq<Entry>
    var date: string
    var sleepTime: string
    var wakeTime: string

    /** Every logged entry went through the gate. */
    ghost predicate Valid()
      reads this`sleepEntries
    {
      forall i :: 0 <= i < |sleepEntries| ==> IsWellFormedEntry(sleepEntries[i])
    }

    /** The initial state: an empty log and empty fields. */
    constructor ()
      ensures Valid()
      ensures sleepEntries == [] && date == "" && sleepTime == "" && wakeTime == ""
    {
      sleepEntries := [];
      date := "";
      sleepTime := "";
      wakeTime := "";
    }

    /** Typing into the date field. */
    method SetDate(text: string)
      modifies this`date
      ensures date == text
    {
      date := text;
    }

    /** Typing into the sleep-time field. */
    method SetSleepTime(text: string)
      modifies this`sleepTime
      ensures sleepTime == text
    {
      sleepTime := text;
    }

    /** Typing into the wake-time field. */
    method SetWakeTime(text: string)
      modifies this`wakeTime
      ensures wakeTime == text
    {
      wakeTime := text;
    }

    /** Pressing "Add Entry", with `id` the identifier drawn for a new entry.
        A refusal reports the first failing check and changes nothing; an
        acceptance appends one entry built from the fields verbatim, keeps every
        earlier entry in place, and clears the three fields. */
    method AddEntry(id: string) returns (outcome: Submission)
      requires Valid()
      modifies this
      ensures Valid()
      ensures outcome.Rejected? <==> FirstFailure(old(date), old(sleepTime), old(wakeTime)).Some?
      ensures outcome.Rejected? ==>
        Some(outcome.error) == FirstFailure(old(date), old(sleepTime), old(wakeTime))
        && sleepEntries == old(sleepEntries)
        && date == old(date) && sleepTime == old(sleepTime) && wakeTime == old(wakeTime)
      ensures outcome.Added? ==>
        IsValidTimeFormat(old(sleepTime)) && IsValidTimeFormat(old(wakeTime))
        && outcome.entry == Entry(id, old(date), old(sleepTime), old(wakeTime),
                                  CalculateDuration(old(sleepTime), old(wakeTime)))
        && sleepEntries == old(sleepEntries) + [outcome.entry]
        && date == "" && sleepTime == "" && wakeTime == ""
    {
      if date == "" || sleepTime == "" || wakeTime == "" {
        return Rejected(MissingField);
      }
      if !IsValidDateFormat(date) {
        return Rejected(InvalidDateFormat);
      }
      if !IsValidTimeFormat(sleepTime) || !IsValidTimeFormat(wakeTime) {
        return Rejected(InvalidTimeFormat);
      }
      var duration := CalculateDuration(sleepTime, wakeTime);
      var newEntry := Entry(id, date, sleepTime, wakeTime, duration);
      sleepEntries := sleepEntries + [newEntry];
      date := "";
      sleepTime := "";
      wakeTime := "";
      outcome := Added(newEntry);
    }
  }

  /** A caller's view of the gate: an empty date is refused without touching
      the log, then a complete overnight entry is appended with "9h 0m". */
  method SubmissionExample(id: string) {
    var tracker := new Tracker();
    tracker.SetSleepTime("22:00");
    tracker.SetWakeTime("07:00");
    assert FirstFailure(tracker.date, tracker.sleepTime, tracker.wakeTime) == Some(MissingField);
    var first := tracker.AddEntry(id);
    assert first == Rejected(MissingField);
    assert tracker.sleepEntries == [];
    tracker.SetDate("2024-12-21");
    NineHoursExample();
    DateFormatIgnoresCalendar();
    assert FirstFailure(tracker.date, tracker.sleepTime, tracker.wakeTime) == None;
    var second := tracker.AddEntry(id);
    assert second.Added?;
    assert second.entry.duration == "9h 0m";
    assert |tracker.sleepEntries| == 1;
  }
}
