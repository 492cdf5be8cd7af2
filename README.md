# RHMIConfig admission checks

An `RHMIConfig` names three things an operator may choose:
- the weekly maintenance window, `spec.maintenance.applyFrom`: a weekday and a time of day, such as `sun 23:00`;
- the daily backup time, `spec.backup.applyOn`: a time of day, such as `20:00`;
- when an upgrade is applied: one of two flags, or a date written in the layout `2 Jan 2006 15:04`.

The admission hooks check these values, and this project models those checks:

- **Backup and maintenance windows.** `ValidateBackupAndMaintenance` requires both values, in this order: maintenance first, then backup. It then:
  - reads the backup time with the layout `15:04`;
  - splits the maintenance value on single spaces;
  - looks up the first piece, lower-cased, among the seven weekday names;
  - reads the second piece as a time.

  Each time then opens a one-hour block, and the two blocks must not overlap.
- **The overlap test.** `timeBlockOverlaps` is a strict comparison of two intervals.
- **Update.** `ValidateUpdate` checks the windows first. It then checks the upgrade date:
  - an empty date is fine;
  - a date beside either flag is refused;
  - otherwise the date must read in `DateFormat` and lie strictly after the current time.
- **Create and delete.** `ValidateCreate` and `ValidateDelete` admit everything.

The model has seven modules, one per file.

| module | file | contents |
|---|---|---|
| `Options` | `options.dfy` | the optional value used for results that can fail |
| `GoStrings` | `gostrings.dfy` | the two Go string functions the checks call: `strings.Split` on `" "` and `strings.ToLower` |
| `GoTime` | `gotime.dfy` | `time.Parse` and `Time.Format`, for the layout elements these layouts use (`2`, `Jan`, `2006`, `15`, `04` and literals), and `DateFormat` |
| `Clock` | `clock.dfy` | a time of day read with `15:04`, and the text of a one-hour window |
| `Calendar` | `calendar.dfy` | dates read and written in `DateFormat`, and the instant a date stands for |
| `RhmiConfig` | `rhmiconfig.dfy` | the validators |
| `Examples` | `examples.dfy` | worked cases on concrete values |

Conventions:
- **Outcomes are tags.** An error is a tag (`ConfigError`), not an English message.
- **Backup and maintenance results.** `ValidateBackupAndMaintenance` ends in one of three results:
  - `Accepted(backup, maintenance)`, for Go's `(backup, maintenance, nil)`;
  - `Rejected(error)`, for Go's `("", "", err)`;
  - `Panicked`, when Go would index past the end of the split.
- **Admission hooks.** A hook ends in `Allow`, `Deny(error)` or `Panic`.
- **The clock.** The current time is a parameter, `now`, in nanoseconds since the Unix epoch.

The functions `BackupAndMaintenance`, `UpgradeVerdict` and `UpdateVerdict` state each outcome, and the lemmas are about them. The methods `ValidateBackupAndMaintenance` and `ValidateUpdate` exist for the statement-by-statement form of the Go code: they return early as it does, and they look up the weekday with the `contains` loop where the functions use membership. Each method is proved equal to its function.

Times of day and windows:
- A time read with `15:04` lands on the parse's first day, so a time of day is its minutes after midnight: `60 * hour + minute`, below 1440.
- Adding an hour moves along the same time line, so each block is `[t, t + 60]` and never wraps.
- The text of a window, by contrast, shows the hour and minute of its end, so it wraps past midnight: `23:30-00:30`.

## Model

| member | source | states |
|---|---|---|
| GoTime.DateFormatIsReferenceTime | pkg/apis/integreatly/v1alpha1/rhmiconfig_types.go:62 | The layout `DateFormat`, read as a layout, has the elements day, month name, four-digit year, hour and zero-padded minute. Writing Go's reference time (2 January 2006, 15:04) in that layout gives the layout string back. |
| GoTime.ClockFormatIsReferenceTime | pkg/apis/integreatly/v1alpha1/rhmiconfig_types.go:166-188 | Writing Go's reference time in the element layout `ClockLayout` gives `15:04`, the layout string the backup and maintenance times are parsed with. |
| Calendar.ReferenceTimeRoundTrip | pkg/apis/integreatly/v1alpha1/rhmiconfig_types.go:62 | `DateFormat` itself reads, in its own layout, as 2 January 2006 15:04. |
| GoTime.Parse | pkg/apis/integreatly/v1alpha1/rhmiconfig_types.go:132 | Go's `time.Parse`: every time it returns is a valid date and time, and the day is checked against the length of its month. |
| GoTime.ParseLayout | pkg/apis/integreatly/v1alpha1/rhmiconfig_types.go:132 | Reading a layout element by element keeps every field in its range; text left over is an error. |
| GoTime.ParseElement | pkg/apis/integreatly/v1alpha1/rhmiconfig_types.go:166 | One layout element read from a value keeps the fields in range. An hour of 24 or more, or a minute of 60 or more, is refused. |
| GoTime.GetNum | pkg/apis/integreatly/v1alpha1/rhmiconfig_types.go:166 | Go's one-or-two-digit number reader: it fails exactly when the value does not start with a digit, or when the fixed-width form lacks a second digit. The number read is below 100, and it takes one or two characters, always two in the fixed-width form. |
| GoTime.FindMonth | pkg/apis/integreatly/v1alpha1/rhmiconfig_types.go:132 | A month name is matched ignoring ASCII case, and the first match wins. A result is a month whose name matches the next three characters, with the text after them. When any month from the starting point matches, the lookup finds one. |
| GoTime.FoundFrom | pkg/apis/integreatly/v1alpha1/rhmiconfig_types.go:132 | The name of a month in any mix of ASCII cases is found as that month, with the text after its three letters, because no earlier month matches it. |
| GoTime.Year4 | pkg/apis/integreatly/v1alpha1/rhmiconfig_types.go:132 | A year is read exactly when the value starts with four digits. Their value is at most 9999, and reading stops after the fourth. |
| GoTime.DropSpaces | pkg/apis/integreatly/v1alpha1/rhmiconfig_types.go:132 | The leading run of spaces is removed: what is left is a suffix of the value and does not start with a space, and everything removed is a space. |
| GoTime.SkipSpace | pkg/apis/integreatly/v1alpha1/rhmiconfig_types.go:132 | Go's `skip` for a space in the layout fails exactly when the value is non-empty and does not start with a space. Otherwise it consumes the whole leading run of spaces. |
| GoTime.DaysIn | pkg/apis/integreatly/v1alpha1/rhmiconfig_types.go:132 | A month has 28 to 31 days. It has 29 exactly when it is February of a leap year. |
| GoTime.RenderThenParse | pkg/apis/integreatly/v1alpha1/rhmiconfig_types.go:138 | Each element that `Format` writes is read back by `Parse` as the field it came from, with the text after it left over. |
| GoTime.Render | pkg/apis/integreatly/v1alpha1/rhmiconfig_types.go:138 | `Time.Format` of one element: a literal is written as itself, a month as three letters without a space, a day as one or two digits, a year as four digits, and an hour or minute as two digits. |
| GoTime.Format | pkg/apis/integreatly/v1alpha1/rhmiconfig_types.go:138 | `Time.Format` writes at least one character per layout element. Its partner is `FormatThenParseLayout`. |
| GoTime.DateLayoutText | pkg/apis/integreatly/v1alpha1/rhmiconfig_types.go:138 | `Format(DateFormat)` writes the day, month name, four-digit year, hour and minute, in that order, separated by the layout's spaces and colon. |
| GoTime.ReferenceFields | pkg/apis/integreatly/v1alpha1/rhmiconfig_types.go:62 | The fields of 2 January 2006 15:04, spelled as the date layout spells them, make the string `2 Jan 2006 15:04`. |
| GoTime.FormatThenParseLayout | pkg/apis/integreatly/v1alpha1/rhmiconfig_types.go:138 | In a layout whose elements are separated, parsing what `Format` writes gives back every field the layout mentions and keeps the others. |
| Calendar.ParseDate | pkg/apis/integreatly/v1alpha1/rhmiconfig_types.go:132 | `time.Parse(DateFormat, …)`: a date read is always valid. |
| Calendar.DateLayoutComplete | pkg/apis/integreatly/v1alpha1/rhmiconfig_types.go:62 | `DateFormat` is a separated layout that mentions every field. |
| Calendar.FormatThenParse | pkg/apis/integreatly/v1alpha1/rhmiconfig_types.go:138 | A date written with `Format(DateFormat)` reads back as the same date. |
| Calendar.FormatDate | pkg/apis/integreatly/v1alpha1/rhmiconfig_types.go:138 | `applyOn.Format(DateFormat)`: what it writes reads back, with `time.Parse(DateFormat, …)`, as the same date. |
| Calendar.UnixMinutesOrdered | pkg/apis/integreatly/v1alpha1/rhmiconfig_types.go:137 | The instant of a date orders dates as the calendar does: one date is earlier exactly when its instant is smaller, and two dates are equal exactly when their instants are equal. |
| Calendar.EarlierInstant | pkg/apis/integreatly/v1alpha1/rhmiconfig_types.go:137 | A calendar-earlier date has a smaller instant. |
| Calendar.YearsAdd | pkg/apis/integreatly/v1alpha1/rhmiconfig_types.go:137 | A whole year lies before the start of every later year. |
| Calendar.YearLength | pkg/apis/integreatly/v1alpha1/rhmiconfig_types.go:137 | The day count of the next year's start is this year's start plus this year's length. |
| Calendar.MonthsAdd | pkg/apis/integreatly/v1alpha1/rhmiconfig_types.go:137 | A whole month lies before the start of every later month of the same year. |
| Calendar.MonthEnds | pkg/apis/integreatly/v1alpha1/rhmiconfig_types.go:137 | Every month ends within its year. |
| Calendar.EpochIsZero | pkg/apis/integreatly/v1alpha1/rhmiconfig_types.go:137 | The instant of 1 January 1970 00:00 UTC, the zero of the clock `now` is read from, is 0. |
| Calendar.NextDay | pkg/apis/integreatly/v1alpha1/rhmiconfig_types.go:137 | The same time on the next calendar day is a valid date, and later in the calendar. |
| Calendar.NextDayIsADayLater | pkg/apis/integreatly/v1alpha1/rhmiconfig_types.go:137 | Consecutive calendar days are exactly 1440 minutes apart, including across the end of a month and of a year. |
| Calendar.SameDayMinutes | pkg/apis/integreatly/v1alpha1/rhmiconfig_types.go:137 | Two times on the same day are as many minutes apart as their clock readings. |
| Calendar.UnixNanosOrdered | pkg/apis/integreatly/v1alpha1/rhmiconfig_types.go:137 | The nanosecond instant compared with `now` orders dates as the calendar does, in both directions. Equal instants mean equal dates, and the epoch is nanosecond 0. |
| GoStrings.SplitOnSpace | pkg/apis/integreatly/v1alpha1/rhmiconfig_types.go:173 | `strings.Split(s, " ")`: there is always at least one piece, and no piece holds a space. |
| GoStrings.SpaceSplits | pkg/apis/integreatly/v1alpha1/rhmiconfig_types.go:173 | There are at least two pieces exactly when the value holds a space. |
| GoStrings.JoinSplit | pkg/apis/integreatly/v1alpha1/rhmiconfig_types.go:173 | Joining the pieces with single spaces gives back the value, empty pieces included. |
| GoStrings.SplitJoin | pkg/apis/integreatly/v1alpha1/rhmiconfig_types.go:173 | Splitting a join of space-free pieces gives back those pieces. |
| GoStrings.SplitAfterWord | pkg/apis/integreatly/v1alpha1/rhmiconfig_types.go:173 | A space-free word followed by a space is the first piece, and what follows splits on its own. |
| GoStrings.SplitWord | pkg/apis/integreatly/v1alpha1/rhmiconfig_types.go:173 | A space-free value is its only piece. |
| GoStrings.ToLowerIdempotent | pkg/apis/integreatly/v1alpha1/rhmiconfig_types.go:184 | Lowering twice is lowering once. |
| GoStrings.LowerRune | pkg/apis/integreatly/v1alpha1/rhmiconfig_types.go:184 | `unicode.ToLower` gives an ASCII lower-case letter exactly for ASCII letters and for U+0130 and U+212A. The model returns every other rune unchanged. Go also lowers other non-ASCII letters, but none of them to ASCII. |
| GoStrings.LowerRuneTo | pkg/apis/integreatly/v1alpha1/rhmiconfig_types.go:184 | A rune lowers to the ASCII letter `l` exactly when it is `l`, its ASCII capital, U+0130 for `i`, or U+212A for `k`. |
| GoStrings.LowerEquals | pkg/apis/integreatly/v1alpha1/rhmiconfig_types.go:184 | `strings.ToLower(d)` equals a lower-case ASCII word exactly when `d` has the same length and spells that word, rune by rune, in any mix of cases. |
| Clock.ParseClock | pkg/apis/integreatly/v1alpha1/rhmiconfig_types.go:166 | Reading a time of day with `15:04` gives a minute of the day below 1440. |
| Clock.ClockLayoutParse | pkg/apis/integreatly/v1alpha1/rhmiconfig_types.go:166 | `time.Parse("15:04", s)` succeeds exactly when `s` is one or two digits, a colon and two digits, with hour below 24 and minute below 60. It then returns the first day of year 0 at that hour and minute. |
| Clock.ParseClockIsLayoutParse | pkg/apis/integreatly/v1alpha1/rhmiconfig_types.go:188 | The time-of-day reader agrees with Go's layout parse on every input. |
| Clock.ClockValue | pkg/apis/integreatly/v1alpha1/rhmiconfig_types.go:166 | The minute of the day of a well-formed time is below 1440. |
| Clock.HourMinuteText | pkg/apis/integreatly/v1alpha1/rhmiconfig_types.go:201-202 | `%02d:%02d` of the hour and minute of an instant is a well-formed time of day, naming that instant's minute of the day. |
| Clock.ParseHourMinute | pkg/apis/integreatly/v1alpha1/rhmiconfig_types.go:201-202 | Reading back the written hour and minute gives the minute of the day. |
| Clock.MinuteOfDay | pkg/apis/integreatly/v1alpha1/rhmiconfig_types.go:201-202 | The hour and minute of an instant, taken mod 24 hours, give its minute of the day. |
| Clock.ParseWindowText | pkg/apis/integreatly/v1alpha1/rhmiconfig_types.go:201-202 | A window's text is 11 characters with a dash in the middle. Its two halves read back as the start and the end, each as a time of day. |
| Clock.HourMinute | pkg/apis/integreatly/v1alpha1/rhmiconfig_types.go:201-202 | `%02d:%02d` is five characters: two digits, a colon and two digits. |
| Clock.WindowText | pkg/apis/integreatly/v1alpha1/rhmiconfig_types.go:201-202 | `%02d:%02d-%02d:%02d` is 11 characters. The start's hour and minute come before the dash, and the end's after it. |
| RhmiConfig.TimeBlockOverlaps | pkg/apis/integreatly/v1alpha1/rhmiconfig_types.go:215-217 | Two one-hour blocks overlap exactly when their starts are less than 60 minutes apart. Blocks that only touch do not overlap. Only a block that ends after it starts can overlap. |
| RhmiConfig.Contains | pkg/apis/integreatly/v1alpha1/rhmiconfig_types.go:219-226 | `contains` answers true exactly when the string is in the list. |
| RhmiConfig.KnownWeekday | pkg/apis/integreatly/v1alpha1/rhmiconfig_types.go:175-186 | The weekday check is case-insensitive: the lower case of the first piece is a weekday name exactly when that piece spells one of the seven names in some mix of cases. |
| RhmiConfig.BackupAndMaintenance | pkg/apis/integreatly/v1alpha1/rhmiconfig_types.go:156-213 | An empty maintenance value is reported first, then an empty backup value, and a missing-value error means one of the two is empty. Once both are set, the backup error arises exactly when the backup is not a time of day. An accepted pair is returned unchanged. |
| RhmiConfig.ValidateBackupAndMaintenance | pkg/apis/integreatly/v1alpha1/rhmiconfig_types.go:156-213 | The step-by-step check, using the `contains` loop, ends as `BackupAndMaintenance` says. |
| RhmiConfig.NoSpaceMaintenance | pkg/apis/integreatly/v1alpha1/rhmiconfig_types.go:173-191 | A maintenance value without a space is refused when it is not a weekday in any case. When it is one, reading its time index panics. |
| RhmiConfig.SpacedNeverPanics | pkg/apis/integreatly/v1alpha1/rhmiconfig_types.go:173-188 | A maintenance value holding a space never panics. |
| RhmiConfig.SpacedMaintenance | pkg/apis/integreatly/v1alpha1/rhmiconfig_types.go:173-212 | Take a valid backup time and a maintenance value of the form `day time rest`, where `rest` is empty or begins with a space. The value is refused on its day when the lower-cased day is no weekday, and on its time when the time is malformed. It is refused as an overlap exactly when the two times are less than an hour apart, and accepted otherwise. |
| RhmiConfig.MaintenanceSegments | pkg/apis/integreatly/v1alpha1/rhmiconfig_types.go:173 | `day time rest` splits into `day`, then `time`, then the pieces of `rest`. |
| RhmiConfig.DecidedBySegments | pkg/apis/integreatly/v1alpha1/rhmiconfig_types.go:184-212 | With a valid backup time, the outcome depends only on the first two pieces of the maintenance value. |
| RhmiConfig.OverlapWindows | pkg/apis/integreatly/v1alpha1/rhmiconfig_types.go:196-211 | An overlap error names the backup window and the maintenance window. Each window starts at its parsed time and lasts one hour, and the two starts are less than an hour apart. |
| RhmiConfig.UpgradeVerdict | pkg/apis/integreatly/v1alpha1/rhmiconfig_types.go:124-141 | An empty date is admitted. A date set beside either flag is refused for the flags, before the date is read. Then, the date is refused as unreadable exactly when `time.Parse(DateFormat)` fails. A readable date is refused as not in the future, showing the date in `DateFormat`, when its instant is at or before `now`, and admitted otherwise. The upgrade check never panics. |
| RhmiConfig.UpdateVerdict | pkg/apis/integreatly/v1alpha1/rhmiconfig_types.go:119-142 | A panic or an error from the window check is the update's outcome. Once the windows are accepted, the upgrade check's outcome is the update's, refusals included. The update is admitted exactly when both pass. |
| RhmiConfig.ValidateUpdate | pkg/apis/integreatly/v1alpha1/rhmiconfig_types.go:119-142 | The step-by-step update check ends as `UpdateVerdict` says. |
| RhmiConfig.ValidateCreate | pkg/apis/integreatly/v1alpha1/rhmiconfig_types.go:115-117 | Every creation is admitted. |
| RhmiConfig.ValidateDelete | pkg/apis/integreatly/v1alpha1/rhmiconfig_types.go:144-146 | Every deletion is admitted. |
| RhmiConfig.UpgradeAllowsExactly | pkg/apis/integreatly/v1alpha1/rhmiconfig_types.go:124-141 | An upgrade date is admitted exactly when it is empty, or when it is set without either flag and reads as an instant after `now`. |
| RhmiConfig.NotFutureEchoesDate | pkg/apis/integreatly/v1alpha1/rhmiconfig_types.go:137-139 | The date shown in a not-in-the-future error reads back as the requested date, and that date is not after `now`. |
| RhmiConfig.NotFutureDate | pkg/apis/integreatly/v1alpha1/rhmiconfig_types.go:137-139 | A not-in-the-future error shows the parsed date written in `DateFormat`, and that date is not after `now`. |
| RhmiConfig.DueNowIsRefused | pkg/apis/integreatly/v1alpha1/rhmiconfig_types.go:137-139 | A date equal to the current instant is refused: it must be strictly after. |
| RhmiConfig.AdmittedEarlier | pkg/apis/integreatly/v1alpha1/rhmiconfig_types.go:137 | An upgrade date admitted now was admitted at every earlier time. |
| RhmiConfig.LaterDateAdmitted | pkg/apis/integreatly/v1alpha1/rhmiconfig_types.go:137 | Moving an admitted date to a later calendar date keeps it admitted. |
| RhmiConfig.OverlapIsSymmetric | pkg/apis/integreatly/v1alpha1/rhmiconfig_types.go:215-217 | The overlap test does not depend on which block comes first. |
| Examples.MissingValues | pkg/apis/integreatly/v1alpha1/rhmiconfig_types.go:158-163 | An empty backup gives the backup error. An empty maintenance gives the maintenance error, including when both are empty. |
| Examples.NotATime | pkg/apis/integreatly/v1alpha1/rhmiconfig_types.go:166-169 | `not-a-time`, `24:00` and `9:60` are refused as backup times. |
| Examples.HalfHourApart | pkg/apis/integreatly/v1alpha1/rhmiconfig_types.go:196-211 | A backup at 23:00 and maintenance on Sunday at 23:30 overlap. The windows are minutes 1380-1440 and 1410-1470. |
| Examples.BackupWindowText | pkg/apis/integreatly/v1alpha1/rhmiconfig_types.go:202 | The backup window from 23:00 reads `23:00-00:00`. |
| Examples.MaintenanceWindowText | pkg/apis/integreatly/v1alpha1/rhmiconfig_types.go:201 | The maintenance window from 23:30 reads `23:30-00:30`. |
| Examples.TouchingWindows | pkg/apis/integreatly/v1alpha1/rhmiconfig_types.go:209-212 | Backup at 22:00 and maintenance at 23:00 only touch, and are accepted. |
| Examples.NoWrapAcrossMidnight | pkg/apis/integreatly/v1alpha1/rhmiconfig_types.go:196-212 | Backup at 00:00 and maintenance at 23:30 are accepted, because the blocks do not wrap around midnight. |
| Examples.UpperCaseWeekday | pkg/apis/integreatly/v1alpha1/rhmiconfig_types.go:184 | `SUN 23:00` is accepted. |
| Examples.UnknownWeekday | pkg/apis/integreatly/v1alpha1/rhmiconfig_types.go:184-186 | `funday 23:00` is refused on its weekday. |
| Examples.WeekdayAlone | pkg/apis/integreatly/v1alpha1/rhmiconfig_types.go:188 | `sun` alone panics when its time is read. |
| Examples.DoubleSpace | pkg/apis/integreatly/v1alpha1/rhmiconfig_types.go:188-191 | In `sun  23:00` the second piece is empty, so it is refused on its time. |
| Examples.TrailingWords | pkg/apis/integreatly/v1alpha1/rhmiconfig_types.go:173-212 | In `sun 23:00 x` the third piece is ignored, and the value is accepted. |
| Examples.FlagWithDate | pkg/apis/integreatly/v1alpha1/rhmiconfig_types.go:124-130 | A date beside either flag is refused. Both flags with no date are admitted. |
| Examples.PastDate | pkg/apis/integreatly/v1alpha1/rhmiconfig_types.go:132-139 | `12 Jan 1980 23:00` reads as that date. At any `now` at or after it, the date is refused as not in the future, with the date shown as given. |
| Examples.Date1980Text | pkg/apis/integreatly/v1alpha1/rhmiconfig_types.go:138 | `Format(DateFormat)` of 12 January 1980 23:00 writes `12 Jan 1980 23:00`. |
| Examples.Fields1980 | pkg/apis/integreatly/v1alpha1/rhmiconfig_types.go:138 | The fields of 12 January 1980 23:00, spelled out as the date layout spells them, make `12 Jan 1980 23:00`. |

## Left out

- The Kubernetes plumbing is not modelled: the type metadata, the list type, scheme registration and the generated deep-copy code.
- The status structures are not modelled; no check reads them.
- `Upgrade.Contacts` is not modelled; no check reads it.
- The `old` object passed to `ValidateUpdate` is not modelled; the check never consults it.
- The real clock: `time.Now()` is the parameter `now`, in nanoseconds since the Unix epoch.
- Time zones: every parse here is in UTC, and `.UTC()` changes nothing.
- Error messages are tags, not English text:
  - An overlap error holds the two windows, and `WindowText` gives the text the message shows.
  - A not-in-the-future error holds the date written in `DateFormat`.
  - The text of Go's own parse errors, which the backup and maintenance messages append, is not modelled.
- Go's `time` and `strings` packages are not part of this model. Their behaviour is written out here only for the layouts and calls the checks use:
  - `time.Parse` is modelled for the elements `2`, `Jan`, `2006`, `15` and `04`, for a literal space, which matches a run of spaces, and for other literals.
  - `Time.Format` is modelled for valid times only.
  - The parse of a time of day is stated as a grammar, `ClockText`, and `ClockLayoutParse` proves that grammar equal to the layout parse.
- GoTime.FormatThenParseLayout: the round trip is proved for separated layouts only. A day must be followed by something that is not a digit, and a space by something that is not a space; both layouts used here are separated.
- Go strings are bytes, but this model works on Unicode characters. The checks only compare values to ASCII text and split them on an ASCII space, so the difference does not change an outcome.
- GoStrings.ToLower: lowers ASCII letters, and the two non-ASCII runes whose lower case is ASCII: U+0130 lowers to `i`, and the Kelvin sign U+212A lowers to `k`. It leaves all other runes unchanged. Only membership among the ASCII weekday names is ever asked of its result, so every outcome is the same as Go's.
- GoStrings.LowerRune: returns unchanged the non-ASCII letters that Go's `unicode.ToLower` lowers to other non-ASCII letters, such as `É` to `é` and `Σ` to `σ`. The only lower-case result ever compared is against the ASCII weekday names. A rune Go lowers to a non-ASCII letter cannot match an ASCII letter either way, so no weekday-membership outcome changes.
- Three comments in the Go file disagree with the code. The model follows the code:
  - The `Backup` comment (lines 88-89) asks for `DDD hh:mm`, but the code reads only a time of day with `15:04`.
  - The `Maintenance` comment (line 82) speaks of a six-hour window, but the code builds one-hour windows.
  - The comment before the overlap test (line 208) writes `<=` and `>=`, but the code compares strictly, so windows that only touch are accepted.
