# Vietnamese schedule phrases and the reminder poller, in Dafny

The system is a small personal scheduler. Users type an event as a free-form
Vietnamese sentence, for example "Nhắc tôi họp nhóm lúc 10 giờ sáng mai ở phòng 302".
A rule-based parser (`nlp.py`) turns that sentence into a title, a start
(and optional end) date and time, a location, and a number of reminder
minutes. A background poller (`reminder.py`) wakes every 0.5 to 5 seconds
and walks the events table. For each event it decides whether to:

- skip it;
- auto-mark it as done;
- fire a notification, then re-nag a minute later, roll a repeating event
  to its next day, week or month, or finalise it;
- leave it waiting.

Each fired event is also pushed onto an in-memory alert feed. The user
interface shows the last eight entries of that feed.

This project models both halves.

**Parser.**

- `Text` holds the string toolkit: whitespace, lower-casing, `strip`,
  whitespace collapsing, digit runs, a leftmost-match search that stands
  in for `re.search`, and `SubWith`, a left-to-right substitution over any
  matcher that stands in for `re.sub`.
- `NlpPatterns` holds one hand-written scanner per regular expression of
  the parser, and `Sub`, which runs `SubWith` with one of those scanners.
- `NlpNormalize` models `_norm` and proves it idempotent.
- `NlpExtract` models the reminder, location, time, explicit-date and
  relative-date extractors.
- `NlpTitle` models the title clean-up.
- `NlpParse` models date precedence, the morning and afternoon hour
  adjustment, the all-day default and the assembly of the result.

**Poller.**

- `Calendar` gives Python's proleptic Gregorian dates as ordinals, plus
  `timedelta` and `relativedelta(months=1)` arithmetic. Instants are
  integer milliseconds of local wall-clock time.
- `ReminderRules` makes the per-event decision a pure function, `Step`.
- `ReminderEngine` holds the alert feed as a class over a `seq`. Its
  `Tick` is a method that sweeps the events array in place, raises alerts
  and computes the next sleep. `Tick` is proved against `Step`, applied to
  every row.

`Sweep`, the loop itself, is generic in the per-event decision: `Tick`
passes it `Decide(now)`.

The parser keeps several quirks of the code, each proved as a lemma:

- After `_norm` has rewritten "giờ" to "h", the unit "giờ" of the reminder
  regex can no longer match.
- The unit "ph" is shadowed by "p", which is earlier in the alternation.
- The ISO `yyyy-mm-dd` branch of `_extract_date_explicit` is never
  reached, because the `dd/mm` regex already matches inside any ISO date.

The returned title is `Strip(Title(t))`. This matches the source's
`event_name.strip()`, and it equals `Title(t)` because the title is
already trimmed.

Where the design notes and the code disagree, the model follows the code:

- **Morning hours.** The design text says a "morning" hour of 12 becomes 0.
  The code (`nlp.py:220-222`) adds 12 to morning hours 1 to 5 and leaves 12
  alone. `AdjustHour` does the same.
- **Monthly repeats.** The design text says a monthly repeat clamps the day
  to 28. The code uses `relativedelta(months=1)`, which clamps to the length
  of the next month. `AddOneMonth` does the same.

## Model

| member | source | states |
|---|---|---|
| Calendar.DaysInMonth | reminder.py:63-64 | a month has 28 to 31 days (February 29 in a Gregorian leap year) |
| Calendar.Weekday | nlp.py:133 | `weekday()` is in 0..6, where 0..6 run Monday to Sunday (pinned by WeekdayAnchors) |
| Calendar.WeekdayAnchors | nlp.py:133 | `weekday()` counts from Monday: 1 January of year 1 and 1 January 2024 give 0, and 7 January 2024, a Sunday, gives 6 |
| Calendar.DaysBeforeYearFormula | reminder.py:59-64 | the recursive count of days before a year equals Python's closed form `365(y-1) + (y-1)/4 - (y-1)/100 + (y-1)/400` |
| Calendar.NextDay | nlp.py:127 | the next day is a proper date whose ordinal is one more |
| Calendar.AddDays | nlp.py:127-146 | `date + timedelta(days=n)` is a proper date exactly n ordinals later |
| Calendar.AddDaysWeekday | nlp.py:133-146 | adding n days moves the weekday by n modulo 7 |
| Calendar.AddOneMonth | reminder.py:63-64 | `relativedelta(months=1)` always yields a proper date |
| Calendar.AddOneMonthMeaning | reminder.py:63-64 | the result is the next calendar month, on the same day when that month has it and on its last day otherwise, 28 to 31 days ahead |
| Calendar.FloorToMinute | reminder.py:50-51 | flooring lands on a whole minute, not after the instant and less than a minute before it |
| Calendar.FloorIdempotent | reminder.py:50-51 | flooring twice is flooring once |
| Calendar.FloorDateTimeInstant | reminder.py:50-51 | dropping the seconds of a date and time floors its instant to the minute |
| Calendar.AddDaysInstant | reminder.py:59-62 | adding n days to the date moves the instant by n whole days |
| Calendar.LastOrdinalValue | reminder.py:59-64 | 31 December 9999, the last date `datetime` accepts, has the ordinal the range check uses |
| Text.LowerChar | nlp.py:33 | a lowered character is never upper case, keeps its whitespace-ness, and non-upper characters are unchanged |
| Text.Lower | nlp.py:33 | `lower()` keeps the length, leaves no upper-case letter, keeps every character that was not upper case, and lowers each character in its own position |
| Text.StripLeft | nlp.py:33 | the result is a suffix, starts with a non-space, and everything dropped was whitespace |
| Text.StripRight | nlp.py:33 | the result is a prefix, ends with a non-space, and everything dropped was whitespace |
| Text.Strip | nlp.py:33 | `strip()` is trimmed, empty exactly when the input is all whitespace, and the identity on trimmed text |
| Text.StripChars | nlp.py:192 | stripping introduces no character |
| Text.ReplaceChar | nlp.py:35 | `replace(".", ":")` keeps the length, leaves no dot, adds no character but the colon, and keeps every character that was not a dot in its position |
| Text.DigitRun | nlp.py:69 | the run of `\d` at a position is maximal: all digits, and not followed by a digit |
| Text.SpaceRun | nlp.py:69 | the run of `\s` at a position is maximal |
| Text.DigitsValue | nlp.py:71-72 | `int()` of d digits is below 10^d |
| Text.FirstAlt | nlp.py:41 | the first alternative that matches, in alternation order, optionally with a word boundary after it; none when no alternative matches |
| Text.FirstAltIsFirst | nlp.py:41 | the alternative chosen is the first, in written order, that matches: every earlier one fails |
| Text.FindFirst | nlp.py:41 | `re.search`: the match is at the leftmost position where the scanner matches, and there is none when it matches nowhere |
| Text.FindFirstFinds | nlp.py:41 | if the scanner matches at k, the search finds a match at or before k |
| Text.WordsAt | nlp.py:124-129 | `\b(w1\|w2\|…)\b` matches exactly when some listed word sits between word boundaries at the position; the match ends right after that word |
| NlpPatterns.ReminderAt | nlp.py:41 | a match starts with "nhắc" and captures one of the regex's units |
| NlpPatterns.ReminderAtCaptures | nlp.py:41 | a match is "nhắc", optionally " trước", blanks, the whole digit run (its value is the captured number), blanks, then the first unit of the alternation that is written there |
| NlpPatterns.LocationAt | nlp.py:55 | the captured span is non-empty, inside the text, and starts after the match start |
| NlpPatterns.LocationAtCaptures | nlp.py:55 | the captured span starts after "ở" or "tại" at a word boundary and the blanks that follow, runs up to the next `.,;:` or the end, and is all of `[^.,;:]+` after the blanks |
| NlpPatterns.LocationTailMatch | nlp.py:55 | after the place word, `\s+([^\.,;:]+)` captures the text after the blanks up to the next `.,;:` or the end, or the last blank when a stop follows the blanks at once |
| NlpPatterns.ClockAt | nlp.py:69 | `(\d{1,2})\s*[:h]\s*(\d{1,2})\b` yields hour and minute below 100 |
| NlpPatterns.ClockAtCaptures | nlp.py:69 | a clock match at a position is exactly one to two hour digits, blanks, `:` or `h`, blanks, one to two minute digits and a word boundary; the captures are those digit groups' values, and any such shape yields them |
| NlpPatterns.HourAt | nlp.py:82 | `\b(\d{1,2})\s*(?:h\|giờ\|g)\b` yields an hour below 100 |
| NlpPatterns.HourAtCaptures | nlp.py:82 | a bare-hour match is a word boundary, one to two digits (the captured hour), blanks and the first of `h`, `giờ`, `g` followed by a word boundary; any such shape gives a match with that hour |
| NlpPatterns.DmyAt | nlp.py:97 | `(\d{1,2})[/-](\d{1,2})(?:[/-](\d{2,4}))?` yields day and month below 100 |
| NlpPatterns.DmyAtCaptures | nlp.py:97 | a date match is one to two day digits, `/` or `-`, one to two month digits (two whenever a second digit follows), then the optional year group; any such shape gives exactly those parts |
| NlpPatterns.YearAtCaptures | nlp.py:97 | the optional year group takes part exactly when a separator and two digits follow, and then holds the digit run up to four digits |
| NlpPatterns.MatchEnd | nlp.py:181-191 | every cut pattern used for the title consumes at least one character and stays inside the text |
| NlpPatterns.SubFromChars | nlp.py:181-191 | `re.sub` introduces only characters of the text or of the replacement |
| NlpPatterns.SubFromNoMatch | nlp.py:181-191 | `re.sub` with no match leaves the text unchanged |
| NlpPatterns.SubFromSubseq | nlp.py:59 | `re.sub` with an empty replacement only deletes characters: the result is a subsequence of the text |
| Text.SubWithChars | nlp.py:181-191 | for any pattern, `re.sub` introduces only characters of the text or of the replacement |
| Text.SubWithSubseq | nlp.py:59 | for any pattern, `re.sub` with an empty replacement yields a subsequence of the text |
| Text.SubWithNoMatch | nlp.py:181-191 | for any pattern, `re.sub` leaves text without a match unchanged |
| Text.SubWithSkip | nlp.py:59 | `re.sub` copies the text unchanged up to its first match |
| Text.SubWithFirst | nlp.py:59 | at the first match, `re.sub` writes the replacement over the matched text and resumes scanning after it |
| NlpPatterns.SubFromFirst | nlp.py:59 | at the first match, `re.sub` writes the replacement over the matched text and goes on after it |
| NlpPatterns.FirstFiller | nlp.py:59 | `re.search` for the filler pattern finds the leftmost filler word; its match ends inside the text |
| NlpPatterns.FillerToEnd | nlp.py:59 | on one line, `.*` after a filler word runs to the end of the text |
| NlpNormalize.ReplaceAllNoMatch | nlp.py:34 | `replace` with an absent pattern is the identity |
| NlpNormalize.ReplaceGioFree | nlp.py:34 | after `replace("giờ", "h")` no "giờ" is left |
| NlpNormalize.CollapseChars | nlp.py:36 | collapsing whitespace adds no character except a plain space |
| NlpNormalize.CollapseIsCollapsed | nlp.py:36 | `re.sub(r"\s+", " ", t)` leaves no whitespace but single plain spaces |
| NlpNormalize.CollapsedIsFixed | nlp.py:36 | collapsing already collapsed text is the identity |
| NlpNormalize.CollapseKeepsAbsence | nlp.py:36 | collapsing cannot create a space-free word that was not there |
| NlpNormalize.NormTrimmed | nlp.py:32-37 | the normalised text has no leading or trailing whitespace |
| NlpNormalize.NormCharacters | nlp.py:32-37 | every character of the normalised text is a space, ':', 'h' or a non-dot character of the lowered text |
| NlpNormalize.NormNoUpper | nlp.py:32-37 | the normalised text has no upper-case letter |
| NlpNormalize.NormNoGio | nlp.py:32-37 | the normalised text contains no "giờ" |
| NlpNormalize.NormIsNormalised | nlp.py:32-37 | the normalised text is trimmed, lower case, collapsed, and free of "giờ" and '.' |
| NlpNormalize.NormalisedIsFixed | nlp.py:32-37 | `_norm` leaves normalised text unchanged |
| NlpNormalize.NormIdempotent | nlp.py:32-37 | `_norm(_norm(x)) == _norm(x)` |
| NlpExtract.ReminderUnitTable | nlp.py:46-51 | "ngày" counts 1440 minutes, "giờ", "g" and "ph" count 60, the other units count 1 |
| NlpExtract.ExtractReminder | nlp.py:39-51 | 15 when nothing matches; otherwise the captured number times the captured unit's minutes |
| NlpExtract.UnitPhNeverCaptured | nlp.py:41-48 | the unit "ph" can never be captured, because "p" comes first in the alternation |
| NlpExtract.UnitGioNeverCaptured | nlp.py:34-48 | on normalised text the unit "giờ" can never be captured |
| NlpExtract.CleanLocation | nlp.py:57-60 | the cleaned location is trimmed, made of captured characters, and is the stripped capture itself when no filler word occurs in it |
| NlpExtract.FillerCut | nlp.py:59 | deleting filler tails keeps the text before the first filler word and goes on after its match |
| NlpExtract.FillerCutLine | nlp.py:59 | on one line, deleting filler tails keeps exactly the text before the first filler word |
| NlpExtract.CleanLocationCut | nlp.py:57-59 | with a filler word, the location is what precedes the first one, stripped again |
| NlpExtract.CleanLocationPrefix | nlp.py:57-59 | on one line, the cleaned location is a prefix of the stripped capture |
| NlpExtract.CleanLocationSegment | nlp.py:57-59 | on one line, the cleaned location is one contiguous stretch of the capture |
| NlpExtract.CleanLocationDropsNhe | nlp.py:58-59 | "nhà nhé" cleans to "nhà" |
| NlpExtract.LocationSpanChars | nlp.py:55 | the captured location holds none of `.,;:` |
| NlpExtract.ExtractLocation | nlp.py:53-61 | a location exactly when the location regex matches somewhere in the text; it is trimmed and holds none of `.,;:` |
| NlpExtract.LocationWrittenInText | nlp.py:55-60 | the location is the cleaned capture of a match of the location regex with no match to its left |
| NlpExtract.LocationIsSegment | nlp.py:55-60 | on one line, the location is one contiguous stretch of the sentence |
| NlpExtract.ModifierOf | nlp.py:73-91 | "morning" exactly when "sáng" occurs as a word; "afternoon" exactly when it does not and one of "trưa", "chiều", "tối" does |
| NlpExtract.ExtractTime | nlp.py:63-93 | none exactly when neither the clock nor the hour-only regex matches; an hour-only match has minute 0; the modifier is that of the whole text |
| NlpExtract.TimeFromClock | nlp.py:69-80 | with an `HH:MM` in the text, hour and minute are the digit groups of the leftmost clock match |
| NlpExtract.ClockMatchGivesTime | nlp.py:69-80 | any clock-shaped stretch of the text yields a time, from that match or one to its left |
| NlpExtract.TimeFromHour | nlp.py:81-92 | with no clock shape anywhere, the hour is the digits of the leftmost bare-hour match and the minute is 0 |
| NlpExtract.HourMatchGivesTime | nlp.py:81-92 | any bare-hour-shaped stretch of the text yields a time |
| NlpExtract.WidenYear | nlp.py:102-105 | a year below 100 is read as 20yy, any other year is kept |
| NlpExtract.DateFromParts | nlp.py:98-111 | the date keeps the matched day and month, takes the widened year or the current one, and is refused exactly when it is not a valid calendar date |
| NlpExtract.IsoDate | nlp.py:113-119 | an ISO match gives a valid date or nothing |
| NlpExtract.ExtractDateExplicit | nlp.py:95-120 | any explicit date found is a valid calendar date |
| NlpExtract.IsoImpliesDmy | nlp.py:97-113 | wherever the ISO regex matches, the day/month regex matches two characters later |
| NlpExtract.IsoBranchShadowed | nlp.py:95-120 | the ISO branch is unreachable: the result is decided by the day/month regex alone |
| NlpExtract.WeekdayKeyInFirst | nlp.py:139-146 | the weekday chosen is that of the first key of `WEEKDAY_MAP`, in insertion order, contained in the text; none exactly when no key is contained |
| NlpExtract.WeekdayKeysInRange | nlp.py:22-30 | every weekday in `WEEKDAY_MAP` is in 0..6 |
| NlpExtract.WeekendIsSaturday | nlp.py:131-137 | the "cuối tuần" offset is the weekday offset to Saturday (weekday 5), so it is the next Saturday strictly after today |
| NlpExtract.DaysAheadArithmetic | nlp.py:143-145 | the day offset is 1 to 7 and lands on the wanted weekday |
| NlpExtract.DaysAheadIsNextWeekday | nlp.py:139-146 | the date chosen for a weekday is the first later date with that weekday, 1 to 7 days ahead |
| NlpExtract.ExtractRelativeDate | nlp.py:122-147 | a relative date is 0 to 7 days from today; it is today exactly when "hôm nay" occurs as a word |
| NlpExtract.RelativeDatePrecedence | nlp.py:124-146 | "mai" gives tomorrow, "mốt" two days later, "cuối tuần" the next Saturday, then weekday keys, each only when the earlier ones are absent |
| NlpTitle.CutAllChars | nlp.py:181-190 | the cuts only delete characters: what is left is a subsequence of the text, in order |
| NlpTitle.DashFree | nlp.py:191 | `re.sub(r"[-–:]", " ", …)` leaves no dash, en dash or colon |
| NlpTitle.CleanedChars | nlp.py:181-192 | the cleaned title is made of the text's characters and spaces, and holds no dash or colon |
| NlpTitle.CleanedCollapsed | nlp.py:192 | the cleaned title has no whitespace but single plain spaces |
| NlpTitle.TitleInk | nlp.py:179-195 | the title is the default exactly when the cuts leave no visible character; otherwise its visible characters are exactly those the cuts left, in order, a subsequence of the text's |
| NlpTitle.CleanedOfPlainText | nlp.py:181-192 | trimmed, collapsed, dash-free text in which no cut pattern matches comes through the clean-up unchanged |
| NlpTitle.DefaultTitleShape | nlp.py:194-195 | "Sự kiện" is trimmed, collapsed and dash-free |
| NlpTitle.TitleShape | nlp.py:179-195 | the title is never empty; it is trimmed, collapsed and dash-free, and is either "Sự kiện" or made of the text's characters and spaces, with its visible characters a subsequence of the text's |
| NlpTitle.TitleLowerCase | nlp.py:173-195 | the title of lower-case text is lower case unless it is the default |
| NlpParse.AdjustHour | nlp.py:216-227 | the hour changes exactly for morning 1..5 and afternoon 1..11, and then becomes the hour plus 12, in 13..23 |
| NlpParse.BlankIsRefused | nlp.py:171-172 | empty or all-whitespace input yields no event |
| NlpParse.SentenceStartMissing | nlp.py:217-242 | the start is missing exactly when there is no time and no "cả ngày", or when the adjusted time is invalid and the library's combined-string parse fails |
| NlpParse.AssembleFailsIff | nlp.py:173-268 | on normalised text, no event exactly when there is no start and the whole-text fallback fails |
| NlpParse.ParseFailsIff | nlp.py:167-268 | `parse_text` returns nothing exactly when the text is blank, or there is no start and the whole-text fallback fails |
| NlpParse.ParsedFields | nlp.py:174-276 | a parsed event carries the cleaned title (non-empty, trimmed, collapsed), the extracted reminder minutes and the extracted location |
| NlpParse.DatePrecedence | nlp.py:197-214 | an explicit date wins, then a relative one, then today; the date is valid, and a non-explicit one is 0 to 7 days from today |
| NlpParse.StartFromSentence | nlp.py:216-242 | a valid adjusted time gives a start on the chosen date at that hour and minute; with no time, "cả ngày" gives 09:00 on that date |
| NlpParse.EndOnDatePart | nlp.py:244-251 | an end is present exactly when a time range was found and the sentence itself gave a start; it falls on the chosen date at the range's second time |
| ReminderRules.MaxRepeat | reminder.py:116-117 | an event fires 1 to 3 times |
| ReminderRules.MaxRepeatTable | reminder.py:116-117 | normal 1, important 2, critical 3, anything else 1 |
| ReminderRules.NextOccurrenceMeaning | reminder.py:54-66 | only "daily", "weekly" and "monthly" recur: a day, 7 days, or one calendar month later (28 to 31 days), at the same time of day; past year 9999 the date arithmetic fails |
| ReminderRules.NextNotifyOf | reminder.py:102-114 | the notification instant is a whole minute: the stored `next_notify` floored to the minute when there is one, else the floored start less the lead time, floored again; it is missing exactly when `next_notify` is unreadable |
| ReminderRules.FirstDue | reminder.py:102-121 | an event with no stored `next_notify` becomes due exactly from its floored start less the lead time, floored to the minute |
| ReminderRules.WakeCandidate | reminder.py:189-190 | a waiting event bids a sleep in 0.5 s..5 s, the exact time left when that lies in range |
| ReminderRules.StoppedIsSkipped | reminder.py:90-91 | a stopped event is left alone: nothing changes, nothing fires, no sleep is bid |
| ReminderRules.AutoMarkFields | reminder.py:126-135 | a due event with a pending auto-mark is stopped, marked notified, its `next_notify` cleared and the flag reset; nothing fires |
| ReminderRules.FiresIff | reminder.py:126-186 | an event fires exactly when it is active and due, has no pending auto-mark, and has fired fewer times than its importance allows; firing counts once, or restarts the count on a roll |
| ReminderRules.StepKeepsCount | reminder.py:116-186 | a repeat count within `0..max_repeat` stays so after a step, and the importance never changes |
| ReminderRules.RenagFields | reminder.py:161-164 | a re-nag increments the count and sets the next notification to the minute-floor of now + 60 s, which is later than now, not due now and due from a minute later |
| ReminderRules.RollFields | reminder.py:166-171 | a roll moves the start to the next occurrence, resets count, notified and auto-mark, and sets the next notification to the new start minus the reminder minutes |
| ReminderRules.MultipleOfMinute | reminder.py:68 | flooring a whole-minute instant minus whole minutes changes nothing |
| ReminderRules.FinaliseFields | reminder.py:173-186 | the last firing of a non-recurring event counts, stops it, marks it notified and clears `next_notify` and the auto-mark flag |
| ReminderRules.NotDueUnchanged | reminder.py:188-191 | an active event that is not due is unchanged, does not fire, and bids a sleep in 0.5 s..5 s |
| ReminderRules.WakeBid | reminder.py:188-191 | exactly the waiting events bid a sleep, always within 0.5 s..5 s |
| ReminderRules.QuietStepsChangeNothing | reminder.py:88-191 | skipping, waiting or holding an event leaves its row unchanged |
| ReminderRules.StoppedStaysStopped | reminder.py:90-186 | after a finalise or an auto-mark, every later tick skips the event |
| ReminderRules.ImportantFiresTwice | reminder.py:116-186 | a due one-off "important" event fires, re-nags a minute later, fires again and is then stopped with a count of 2 |
| ReminderEngine.AlertFeed.constructor | reminder.py:16 | the feed starts empty |
| ReminderEngine.AlertFeed.Add | reminder.py:27-35 | adding appends exactly one alert, with the event's title, start, location and importance |
| ReminderEngine.AlertFeed.Recent | reminder.py:38-40 | the feed shows its last min(8, n) alerts in order, and all of them when there are at most 8 |
| ReminderEngine.NewestShownLast | reminder.py:35-40 | right after an alert is added it is the last one shown |
| ReminderEngine.DecideAllAt | reminder.py:88-191 | deciding a list of events decides each row on its own |
| ReminderEngine.OutcomesAt | reminder.py:88-191 | the outcome of row k is `Step` of row k at the tick's time |
| ReminderEngine.NewRows | reminder.py:88-191 | the table after the tick holds, row by row, the events the decisions produced |
| ReminderEngine.FiredAlerts | reminder.py:146 | a tick raises at most one alert per event |
| ReminderEngine.WakeAfterBounds | reminder.py:86-191 | the next sleep is between 0.5 s and 5 s |
| ReminderEngine.WakeAfterBelowBids | reminder.py:190-191 | the next sleep is no longer than any waiting event's bid |
| ReminderEngine.FiredAlertsComplete | reminder.py:140-146 | an alert is raised for every event that fires and for no other |
| ReminderEngine.Extend | reminder.py:88-191 | one more row extends the new rows, the alerts and the sleep by exactly that row's contribution |
| ReminderEngine.Visit | reminder.py:89-191 | one loop iteration decides row i, writes it back, raises its alert and lowers the sleep |
| ReminderEngine.Sweep | reminder.py:86-191 | the sweep rewrites every row with its decision, appends the fired alerts in row order and returns the minimum sleep bid |
| ReminderEngine.Tick | reminder.py:82-197 | one tick updates every row by `Step`, appends one alert per fired event in table order, and sleeps `max(0.5, next_wakeup)` seconds, between 0.5 s and 5 s |

## Left out

- Unicode: `Lower`, `IsSpace` and `IsWordChar` cover ASCII, Latin-1 and the Latin ranges Vietnamese uses. Python's full Unicode tables are not modelled. `\d` is ASCII digits only.
- Regular expressions: each regex of the parser is a hand-written scanner that follows the regex's alternation and backtracking order. Python's regex engine itself is not modelled.
- dateutil: its results are inputs (`LibraryAnswers`). This covers `_extract_time_range` (nlp.py:149-161), the combined-string fallback at nlp.py:234, and the whole-text fallback at nlp.py:256.
- `isoparse` and ISO formatting (`_to_iso`): start times are kept as structured dates and times, not ISO text.
- The clock: `datetime.now()` is a single `now` parameter. The source reads the clock up to three times in one parse.
- Time zones: pytz is not modelled. All instants are wall-clock milliseconds in the one zone the poller runs in.
- Microseconds and float seconds are not modelled: instants are whole milliseconds.
- The poller thread, `stop_event.wait`, desktop notifications (plyer), `print`, and the SQLite reads and writes are not modelled. Each update is applied to the event's row in the array instead.
- db.py is not part of this model. `list_events` is taken to return the rows in array order, and `update_event_field` and `mark_notified` are reduced to the field updates they perform.
- NULL `repeat_count`: SQL `repeat_count + 1` on NULL gives NULL, and then the comparison raises. The model reads a missing count as 0, as the `or 0` default does.
- Dates past year 9999: a date or instant out of range raises in `datetime`. The model turns this into `Skip` (a reminder instant out of range) or `FireFailed` (the count went up, then the follow-up update raised). The row keeps the incremented count, as the committed first update does.
- `AUTO_MARK_DELAY` is declared in reminder.py:13 but used nowhere, so it is not modelled. Nothing in this core sets `pending_auto_mark` to 1.
- Column defaults: `ev.get(...)` defaults are applied when a row becomes an `Event` (importance "normal", repeat "", counters 0).
- main.py and export.py are not part of this model. They are the UI and the export, not the core.
- NlpExtract.ExtractRelativeDate: past 31 December 9999 Python's `date + timedelta` (nlp.py:127, 129, 137 and 146) raises `OverflowError`; the model has no upper date bound here and returns a date in year 10000.
- NlpParse.ParseText: only its failure condition is stated on it directly. Its fields are stated on `Assemble`, the part after the blank check and `_norm`, and `ParseText(text)` is `Assemble(Norm(text))` on non-blank text.
