# Sleep tracker: entry validation and duration

This project models the only logic in the `SleepTracker` React Native component: the
pipeline that runs when the user presses "Add Entry". It has four parts:

- the date shape check `isValidDateFormat`. It is `/^\d{4}-\d{2}-\d{2}$/` and does no calendar check.
- the time shape check `isValidTimeFormat`. It is `/^([0-1]?\d|2[0-3]):([0-5]?\d)$/` and accepts one-digit hours and minutes.
- `calculateDuration`. It splits both times on `:`, takes minutes since midnight, and adds one day only when the difference is negative. It renders the result as `"{h}h {m}m"`.
- the gate `handleAddEntry`. It rejects with the first failing check: a missing field, then the date, then the times. On success it appends one entry to the in-memory log and clears the three form fields.

Files:

- `JsStrings.dfy` (module `JsStrings`) models the JavaScript built-ins the component uses, on the inputs it gives them:
  - `String.prototype.split` with a one-character separator (`Split`, with its inverse `Join`);
  - `Number(...)` on a string of ASCII digits (`NumberOf`);
  - the decimal rendering of a non-negative integer in a template literal (`NumberToString`).
- `SleepTracker.dfy` (module `SleepTracker`) holds the rest:
  - the two regular expressions as character-level predicates: `IsValidDateFormat`, and `IsValidTimeFormat` built from `IsHourGroup` and `IsMinuteGroup`;
  - the duration (`ParseTime`, `SleepMinutes`, `FormatDuration`, `CalculateDuration`);
  - the gate's check order (`FirstFailure`);
  - the component state as the class `Tracker`. Its fields are `sleepEntries`, `date`, `sleepTime` and `wakeTime`. `AddEntry` changes them in place.

Each regex predicate has an independent reference reading, and a lemma proves the two agree in both directions:

- the date is three all-digit groups of lengths 4, 2 and 2 after splitting on `-`;
- a time is an hour field below 24 and a minute field below 60, each one or two digits, after splitting on `:`.

The duration text has a decoder, `ParseDuration`. The round-trip lemma shows that the text gives back `floor(total / 60)` hours and `total % 60` minutes.

## Model

| member | source | states |
|---|---|---|
| `JsStrings.Split` | App.js:19-20 | `split(':')` returns at least one piece, and no piece contains the separator |
| `JsStrings.SplitJoin` | App.js:19-20 | joining the pieces with the separator gives back the original string |
| `JsStrings.SplitInTwo` | App.js:19-20 | a string with exactly one separator splits into the text before it and the text after it |
| `JsStrings.SplitAtFirstSeparator` | App.js:19-20 | the first occurrence of the separator ends the first piece |
| `JsStrings.SplitWithoutSeparator` | App.js:19-20 | a string without the separator is a single piece |
| `JsStrings.NumberOf` | App.js:19-20 | `Number` of a k-digit string is a natural number below 10^k |
| `JsStrings.NumberToString` | App.js:28 | `${n}` is a non-empty string of digits with no leading zero |
| `JsStrings.NumberToStringRoundTrip` | App.js:28 | reading the rendered digits back gives the same number |
| `SleepTracker.DateFormatIsDigitGroups` | App.js:36-39 | the date check accepts a string if and only if it splits on `-` into exactly three all-digit groups of lengths 4, 2 and 2 |
| `SleepTracker.DateFormatIgnoresCalendar` | App.js:36-39 | "2024-13-99" and "2024-12-21" pass; "2024/12/21" and "24-12-21" fail |
| `SleepTracker.HourGroupIsClockField` | App.js:32 | the hour group `[0-1]?\d\|2[0-3]` accepts exactly the one- or two-digit strings whose value is below 24 |
| `SleepTracker.MinuteGroupIsClockField` | App.js:32 | the minute group `[0-5]?\d` accepts exactly the one- or two-digit strings whose value is below 60 |
| `SleepTracker.TimeFormatIsClockTime` | App.js:31-34 | the time check accepts a string if and only if it splits on `:` into an hour field below 24 and a minute field below 60, each one or two digits |
| `SleepTracker.TimeFormatExamples` | App.js:31-34 | "23:59" and "9:5" pass; "24:00" fails |
| `SleepTracker.ParseTime` | App.js:19-20 | a time that passed the check parses to an hour below 24 and a minute below 60 |
| `SleepTracker.ParseTimeReadsFields` | App.js:19-20 | for clock fields `h` and `m` of any width, `h:m` is valid and parses to `(Number(h), Number(m))` |
| `SleepTracker.RawDifference` | App.js:22-23 | the raw difference, wake minutes minus sleep minutes, lies strictly between -1440 and 1440 |
| `SleepTracker.SleepMinutes` | App.js:22-24 | the adjusted total lies in [0, 1440) and differs from the raw difference by a whole number of days |
| `SleepTracker.SleepMinutesIsUnique` | App.js:22-24 | the adjusted total is the only value in [0, 1440) that differs from the raw difference by a whole number of days |
| `SleepTracker.SameDaySleep` | App.js:22-24 | if wake is at or after sleep, the total is wake minus sleep, and equal times give 0 rather than 1440 |
| `SleepTracker.OvernightSleep` | App.js:22-24 | if wake is before sleep, the total is wake minus sleep plus 1440 |
| `SleepTracker.FormatDurationRoundTrip` | App.js:26-28 | `"{h}h {m}m"` decodes back to `floor(total / 60)` and `total % 60`, so different totals render differently |
| `SleepTracker.CalculateDuration` | App.js:18-29 | the text decodes to hours and minutes with `hours * 60 + minutes` equal to the adjusted total, minutes below 60 and hours below 24 |
| `SleepTracker.OvernightExample` | App.js:18-29 | from "23:30" to "07:15" is "7h 45m" |
| `SleepTracker.EqualTimesExample` | App.js:18-29 | from "08:00" to "08:00" is "0h 0m" |
| `SleepTracker.NineHoursExample` | App.js:18-29 | from "22:00" to "07:00" is "9h 0m" |
| `SleepTracker.GateAcceptsExactly` | App.js:41-55 | the gate passes if and only if the date is three digit groups 4-2-2 and both times are clock times |
| `SleepTracker.GateReportsFirstFailure` | App.js:41-55 | each error is reported if and only if its check is the first to fail. The order is missing field, then date, then either time |
| `SleepTracker.Tracker.constructor` | App.js:13-16 | the component starts with an empty log and three empty fields |
| `SleepTracker.Tracker.SetDate` | App.js:80 | typing in the date field replaces `date` and nothing else |
| `SleepTracker.Tracker.SetSleepTime` | App.js:87 | typing in the sleep-time field replaces `sleepTime` and nothing else |
| `SleepTracker.Tracker.SetWakeTime` | App.js:95 | typing in the wake-time field replaces `wakeTime` and nothing else |
| `SleepTracker.Tracker.AddEntry` | App.js:41-70 | A refusal reports the first failing check and leaves the log and fields unchanged. An acceptance does three things. It appends exactly one entry at the end and keeps the earlier entries as they were. The new entry holds the caller's id, the three fields verbatim, and `calculateDuration(sleepTime, wakeTime)`. The three fields are then cleared. Every logged entry stays well formed |

## Left out

- JSX rendering, `FlatList`, `StyleSheet` and the `keyboardType` hints (App.js:72-146): layout with no logic.
- The `alert(...)` messages (App.js:43, 48, 53): each one is the `Rejected` variant of `AddEntry`'s result.
- `Math.random().toString()` (App.js:59): a floating-point random value. `AddEntry` takes the new entry's id as a parameter, and the model makes no uniqueness claim about ids.
- React `useState` (App.js:13-16): the state is the fields of the class `Tracker`. Re-rendering and the asynchronous batching of state updates are not modelled.
- The JavaScript regular-expression engine: each pattern is written out as character predicates.
- `Number(...)` on text that has not passed the time check. `calculateDuration` is only reached after validation, so `ParseTime` and `CalculateDuration` require valid times.
- `SleepTracker.ParseTime`: its own contract gives only the ranges of the hour and minute. Which digits they are read from is stated by `ParseTimeReadsFields`.
