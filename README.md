# Attendance aggregator

A Dafny model of the part of the attendance scraper that turns the scraped table of
a college attendance portal into statistics: `calculate_attendance` with its nested
`ensure_subject`, and the date normaliser `_parse_date` with its list of accepted
formats `DATE_INPUT_FORMATS` (`attendance_scraper.py`).

The scraper hands the aggregator the rows of the attendance table. The aggregator
makes one pass over them:

- a blank row is skipped;
- a row whose text is a course header (`ACSD29 - Engineering Design Project`)
  becomes the current course, and the course gets a zeroed subject entry the
  first time it is seen;
- any other row with at least five cells, no `S.NO` heading cell, a serial number
  starting with a digit and a date that `_parse_date` accepts is a class. Its date
  gets a daily entry, and its status cell counts it as present or absent in that
  day, in the running totals and in the current course.

A second pass grades each subject: a percentage rounded to two decimals, then
`Shortage` below 65% and `Condonation` below 75%. It also builds the overall summary
(or "No attendance rows found.") and a red/green colour per day.

Modules, one per concern:

- `Text` (`text.dfy`): Python's `strip`, `upper`, `isdigit`, `\s` and `in` on strings, plus decimal digit strings.
- `Dates` (`dates.dfy`): `_parse_date`. It is a hand-written matcher for the two strptime formats, followed by the calendar check and `YYYY-MM-DD` output.
- `CourseHeader` (`course_header.dfy`): the course-header regular expression as a matcher.
- `Aggregate` (`aggregate.dfy`): the rows, the scan state and the scan written as functions. `Run` folds `Step` over the rows.
- `Finalise` (`finalise.dfy`): percentages in hundredths, the status thresholds, the summary, the streak and the final report.
- `Attendance` (`attendance.dfy`): `calculate_attendance` as a method with the program's loops and local dictionaries. It is proved equal to `Finish(Run(Initial, rows))`.
- `Sums`, `ScanFacts`, `RowFacts`, `ReportFacts`: the invariants of the scan, what each kind of row does, and what the report says about its input.
- `WorkedExample`: one course with a present class and an absent class, run end to end.

A Python dictionary is modelled as a `map` together with the sequence of its keys in
insertion order, because the finalisation loops walk the dictionaries in that order.
Percentages are natural numbers of hundredths of a percent (`64.99` is `6499`),
rounded half up. The status thresholds compare the rounded value, as the code does.

## Model

| member | source | states |
|---|---|---|
| `Dates.DaysInMonth` | attendance_scraper.py:33 | the number of days strptime allows in a month: 28 to 31, 29 in February exactly in a Gregorian leap year and 28 otherwise, 30 exactly in April, June, September and November, 31 in the other seven months |
| `Dates.MonthNumber` | attendance_scraper.py:22 | `%b` accepts a token exactly when, lower-cased, it is one of the twelve English month abbreviations, and gives that month's number |
| `Dates.Tokenize` | attendance_scraper.py:22 | a text the pattern of `"%d %b, %Y"` or `"%d %b %Y"` accepts is cut into the pieces of a well-formed date text of that same format |
| `Dates.TokenizeSound` | attendance_scraper.py:22 | what the format matcher accepts is a well-formed date text (1–2 day digits, whitespace, month, the comma only for the first format, whitespace, 4 year digits) that renders back to the input |
| `Dates.TokenizeRender` | attendance_scraper.py:22 | every well-formed date text is cut back into its own pieces by its own format and rejected by the other format |
| `Dates.AttemptRendered` | attendance_scraper.py:31-36 | one strptime attempt on a text in its own format yields the ISO date when the date is real and fails otherwise; the other format always fails |
| `Dates.Attempt` | attendance_scraper.py:33-35 | a successful strptime-then-strftime attempt yields the `YYYY-MM-DD` text of a real date |
| `Dates.FirstSuccess` | attendance_scraper.py:31-37 | the loop over the formats only ever answers with the `YYYY-MM-DD` text of a real date |
| `Dates.FirstSuccessNone` | attendance_scraper.py:31-37 | the loop over the formats ends with no answer exactly when every format fails |
| `Dates.ParseDateOrder` | attendance_scraper.py:30-37 | `_parse_date` strips its input, tries `"%d %b, %Y"` first and falls back to `"%d %b %Y"`, returning `None` when both fail |
| `Dates.ParseRendered` | attendance_scraper.py:28-37 | either accepted format, in any letter case and with any whitespace runs, normalises to the zero-padded ISO date when the day exists in that month and year, and to `None` otherwise |
| `Dates.ParseSound` | attendance_scraper.py:28-37 | anything `_parse_date` accepts is, once stripped, a well-formed date text naming a real date, and the answer is that date in ISO form |
| `Dates.ParseDate` | attendance_scraper.py:28-37 | every answer of `_parse_date` is the `YYYY-MM-DD` text of a real date |
| `Dates.Iso` | attendance_scraper.py:34 | the `%Y-%m-%d` text of a real date is ten characters with dashes at positions 4 and 7 |
| `Dates.IsoFields` | attendance_scraper.py:34 | the ISO text is ten characters with dashes at positions 4 and 7 and the year, month and day as digits in between |
| `Dates.IsoInjective` | attendance_scraper.py:34 | different dates get different daily keys |
| `Dates.ParseKeepsYearDigits` | attendance_scraper.py:33-34 | the four `%Y` digits of the input are the first four characters of the answer |
| `Dates.ParseExamples` | attendance_scraper.py:28-37 | `"03 Sep, 2025"` and `"03 Sep 2025"` both give `"2025-09-03"` |
| `Dates.ParseLeapDay` | attendance_scraper.py:33 | for any four digits YYYY, `"29 Feb YYYY"` parses exactly when the year is at least 1 and a leap year (year 0000 is leap by the rule but never parses) |
| `Text.Strip` | attendance_scraper.py:30 | the stripped text neither starts nor ends with whitespace |
| `Text.StripPieces` | attendance_scraper.py:30 | the stripped text is a contiguous slice of the input, and what is cut off on either side is whitespace |
| `Text.StripIdempotent` | attendance_scraper.py:30 | stripping an already stripped cell again changes nothing |
| `Text.StripEmpty` | attendance_scraper.py:95-96 | a stripped text is empty exactly when the text is all whitespace |
| `Text.PadDigitsValue` | attendance_scraper.py:34 | a digit string is recovered from its value by zero-padding it to its own width |
| `CourseHeader.MatchHeader` | attendance_scraper.py:99-102 | a recognised header yields a code of 2+ capitals followed by 1+ digits, and a stripped name |
| `CourseHeader.NameGroup` | attendance_scraper.py:99 | the name group `(.+)` is never empty and never holds a line feed |
| `CourseHeader.MatchRendered` | attendance_scraper.py:99-102 | every header line (optional whitespace, code, optional whitespace, `-`, `:` or en dash, optional whitespace, a one-line name) is recognised, giving its code and its stripped name |
| `CourseHeader.MatchSound` | attendance_scraper.py:99-102 | on a stripped text the matcher accepts only such header lines, and returns that line's code and stripped name |
| `CourseHeader.NoHeaderWithoutCapital` | attendance_scraper.py:99 | a text starting with anything but whitespace or a capital letter, such as a serial number, is never a header |
| `CourseHeader.HeaderExample` | attendance_scraper.py:99-102 | `"ACSD29 - Engineering Design Project"` gives code `ACSD29` and name `Engineering Design Project` |
| `Aggregate.EnsureSubject` | attendance_scraper.py:83-91 | `ensure_subject` adds the code with a zeroed entry only when it is new, and leaves every existing entry unchanged |
| `Aggregate.MentionsSerial` | attendance_scraper.py:109 | a row is a heading row exactly when some cell, upper-cased, contains `S.NO` |
| `Aggregate.Classify` | attendance_scraper.py:123-130 | a status counts as present exactly when, upper-cased, it contains `PRESENT`, and as absent exactly when it contains `ABSENT` but not `PRESENT` |
| `Aggregate.ClassifyIgnoresCase` | attendance_scraper.py:123 | the letter case of the status cell does not change how it is counted |
| `Aggregate.DataEntry` | attendance_scraper.py:106-118 | a row's cells yield a counted entry only with a normalised date key |
| `Aggregate.Kind` | attendance_scraper.py:94-118 | a row is blank, a header with a well-formed course code, a data row with a normalised date, or skipped |
| `Aggregate.OpenDay` | attendance_scraper.py:120-121 | the date has a daily entry afterwards; a known date changes nothing; a new date gets 0/0 and goes last in the order; subjects and totals are untouched |
| `Aggregate.Count` | attendance_scraper.py:123-132 | on an open date, each running total grows by exactly what that date's count grows by, and the date's two counts together grow by one for a present or absent mark and by nothing otherwise |
| `Aggregate.Credit` | attendance_scraper.py:127-135 | crediting the current subject leaves the current course, the daily entries and the totals as they were, changes nothing without a current course, and keeps the subject order when the course is already registered |
| `Aggregate.Record` | attendance_scraper.py:120-135 | a data row adds one to the running totals when it is present or absent, and nothing when it is neither |
| `Aggregate.Apply` | attendance_scraper.py:96-135 | a row removes no date and no subject, never lowers a total, adds at most one to the totals, touches the daily entries and totals only when it is a data row, and leaves its date with an entry when it is one |
| `Aggregate.Step` | attendance_scraper.py:94-135 | a blank row leaves the state as it was; a row that is not a counted data row leaves the daily entries and the totals as they were |
| `Aggregate.Scan` | attendance_scraper.py:94-135 | a scan removes no date and no subject, never lowers a total, and adds at most one to the totals per row |
| `Aggregate.Run` | attendance_scraper.py:94-135 | scanning rows removes no date and no subject and adds at most one to the totals per row |
| `ScanFacts.EnsureSubjectKeeps` | attendance_scraper.py:83-91 | `ensure_subject` keeps the subject keys listed once each and adds nothing to the subject counts |
| `ScanFacts.RunConsistent` | attendance_scraper.py:94-135 | after any prefix of the rows: both dictionaries list their keys once each; every daily key is an ISO date; the totals equal the sums of the daily counts and are at least the sums of the subject counts; the current course is a registered subject |
| `RowFacts.RejectedRowInert` | attendance_scraper.py:106-118 | a non-header row with fewer than 5 cells, an `S.NO` cell, an empty or non-digit serial, or an unparseable date changes nothing |
| `RowFacts.HeaderStep` | attendance_scraper.py:99-104 | a header row makes its course current and registers it with zero counts if new; it leaves the daily entries, the totals and every existing subject unchanged |
| `RowFacts.RepeatedHeader` | attendance_scraper.py:83-104 | a header for a known code changes nothing but the current course, so its counts and name survive |
| `RowFacts.DataStep` | attendance_scraper.py:120-135 | a data row opens its date at 0/0 if new, adds one to at most one of present/absent on that date and in the totals, and credits the current subject only if a header was seen |
| `RowFacts.UnmarkedStep` | attendance_scraper.py:120-135 | a data row whose status is neither present nor absent still creates its date entry, which keeps its counts (0/0 when new); nothing else changes |
| `RowFacts.InertRowAnywhere` | attendance_scraper.py:94-118 | blank and rejected rows can be removed from anywhere in the input without changing the result |
| `RowFacts.RunConcat` | attendance_scraper.py:94-135 | scanning two batches of rows is scanning the second from the state the first left |
| `RowFacts.RunTotals` | attendance_scraper.py:123-135 | the running totals are the numbers of present and absent data rows |
| `RowFacts.RunDays` | attendance_scraper.py:120-135 | a date has a daily entry exactly when some data row carries it, and the entry counts that date's present and absent rows |
| `Finalise.RoundedPercent` | attendance_scraper.py:141 | the percentage in hundredths is the nearest whole number to 10000·present/total, a half rounding up, and at most 10000 |
| `Finalise.RoundedPercentUnique` | attendance_scraper.py:141 | only one number of hundredths is that nearest value |
| `Finalise.RoundedBelow` | attendance_scraper.py:141-145 | the rounded percentage is below a bound exactly when the exact ratio is below the bound minus half a hundredth |
| `Finalise.Grade` | attendance_scraper.py:142-145 | a percentage below 65.00 is a shortage, from 65.00 to below 75.00 condonation, and from 75.00 the status is kept |
| `Finalise.FinaliseSubject` | attendance_scraper.py:138-145 | a subject with no rows is left as it was; otherwise its counts and name are kept and it gets the rounded percentage |
| `Finalise.FinaliseAll` | attendance_scraper.py:138-145 | every subject, and no other key, is finalised |
| `Finalise.Summary` | attendance_scraper.py:147-157 | the summary succeeds exactly when some row was counted, and then carries the totals and their rounded percentage; otherwise zero counts, no success and "No attendance rows found." |
| `Finalise.Streak` | attendance_scraper.py:159-161 | the streak has exactly the daily keys, and a date is red exactly when its absent count is positive |
| `Finalise.Thresholds` | attendance_scraper.py:141-145 | a subject with rows is a shortage below 64.995%, condonation from 64.995% to below 74.995%, and unflagged from 74.995%: the rounded value is compared |
| `Finalise.Finish` | attendance_scraper.py:137-163 | the report keeps the daily entries, both key orders and the subject keys, gives a colour to every date and to nothing else, and succeeds exactly when some row was counted |
| `ReportFacts.ReportSummary` | attendance_scraper.py:147-157 | the report's summary counts every present and absent data row, with success exactly when there is one |
| `ReportFacts.ReportTotalsAreDailySums` | attendance_scraper.py:123-157 | the overall present and absent counts are the sums of the daily counts |
| `ReportFacts.ReportStreak` | attendance_scraper.py:159-161 | the streak keys are the daily keys, that is the dates of data rows, and a date is red exactly when some row on it is absent |
| `ReportFacts.ReportSubject` | attendance_scraper.py:138-145 | every reported subject with no rows has percentage 0 and status `""`; every other one has its rounded percentage and the status its thresholds give |
| `ReportFacts.ReportSubjectTotals` | attendance_scraper.py:123-135 | the subjects together are credited no more present or absent rows than the overall counts |
| `Attendance.CalculateAttendance` | attendance_scraper.py:70-163 | the loops of `calculate_attendance` over local dictionaries and counters return exactly the report of the scan specification |
| `Attendance.CountRow` | attendance_scraper.py:120-135 | the data-row branch opens the date at 0/0 if new and updates the dictionaries and totals exactly as one step of the scan specification |
| `Attendance.CountMark` | attendance_scraper.py:123-135 | a present row adds one to its date, to the present total and, after a header, to the current subject (creating it if missing); an absent row does the same with the absent counters |
| `Attendance.FinaliseSubjects` | attendance_scraper.py:137-145 | the loop over the subjects finalises every subject |
| `Attendance.Streaks` | attendance_scraper.py:159-161 | the loop over the dates builds exactly the streak |
| `Attendance.BlankRowStep` | attendance_scraper.py:95-96 | a row whose text strips to nothing leaves the scan's state as it was |
| `Attendance.HeaderRowStep` | attendance_scraper.py:98-104 | a non-blank row whose stripped text matches the course header sets the current course and registers its subject |
| `Attendance.RejectedRowStep` | attendance_scraper.py:106-118 | a non-header row with fewer than five cells, an `S.NO` cell, a first cell that does not start with a digit, or an unparsable date is skipped |
| `Attendance.DataRowStep` | attendance_scraper.py:106-135 | every other non-header row is counted once under its normalised date and the mark of its fifth cell |
| `WorkedExample.ExampleReport` | attendance_scraper.py:70-163 | a header `ACSD29`, a present row on 3 Sep 2025 and an absent row on 4 Sep 2025 give 1/1 at 50.00% (`Shortage`), days 1/0 (green) and 0/1 (red), and a successful 1/1 summary at 50.00% |

## Left out

- `create_driver` (attendance_scraper.py:40-67) is not modelled: it probes the file system and sets up the Selenium driver.
- `login_and_get_attendance` (attendance_scraper.py:166-198) is not modelled: browser automation, network, waits and the wrapping of exceptions into messages.
- The Flask routes and the session configuration (attendance_scraper.py:204-217 and app.py) are not modelled. They only render stored results.
- DOM access is replaced by the input record `Row(text, cells)`. `text` stands for `row.text` and `cells` for the texts of the row's `td` elements. The two are independent inputs.
- Floating point is left out. Percentages are integer hundredths rounded half up, so Python's binary-float `round` and its ties to even are not modelled.
- Unicode is restricted to ASCII. `\s`, `strip()` and strptime's whitespace use Python's ASCII whitespace (tab to carriage return, U+001C to U+001F, space). Only ASCII letters change case, only ASCII digits are digits and `%b` knows only the English month abbreviations. The en dash of the header separator is kept.
- There is no free-text fallback pass: `calculate_attendance` (attendance_scraper.py:70) takes only the rows, so the model has none.
- `Dates.Iso` assumes that `%Y` prints the year as four digits, zero-padded. Where `strftime` leaves `%Y` to a C library that prints it unpadded (glibc prints year 999 as `999`), a date in years 1 to 999 gets a shorter key. The model does not follow that output, so `Dates.IsoFields`, `Dates.ParseKeepsYearDigits` and the ten-character claims hold only for the zero-padded form.
- strptime lets each space of a format match any run of whitespace, so `"03  Sep,\t2025"` is accepted. The model does the same, which is more lenient than "a single space".
- `CourseHeader.MatchSound` is stated only for texts that do not end in whitespace, the only texts the scan passes to the matcher. The matcher itself also follows `$` matching before a final line feed.
- `Attendance.CalculateAttendance` is proved against the functional scan. The report's own properties are stated as the `ReportFacts` lemmas about that scan.
