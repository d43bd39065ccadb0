# process_cal4 — a verified model of the daily agenda query

`process_cal4.py` holds the class `process_cal`. Given a target date, its
`get_events_for_day` reads an iCalendar (ICS) text and produces that day's
agenda. The steps are:

- split the text into event blocks at every `BEGIN:VEVENT` line;
- read each block's DTSTART, DTEND, LOCATION and SUMMARY fields;
- keep one-off events that start on the target date;
- for blocks with an `RRULE:` line, treat the event as weekly up to its
  `UNTIL=` bound and keep the occurrence that lands on the target date;
- sort the kept event tuples;
- return the agenda text: a heading (the date, then a hyphen underline of the
  same length) and one line per event, `hh:MM AM to hh:MM PM: summary
  {{location}}`, where a leading zero of either 12-hour clock hour is
  replaced by a space (` 9:00 AM to 10:30 AM: …`).

When no event falls on the date the query returns `None`.

The class holds only the file name, and nothing in it mutates that field. So
the model is a set of modules rather than a class:

- `Calendar`: Python's naive dates and times. Comparisons are
  lexicographic, and a day number (`toordinal`) drives `+ timedelta(days=7)`,
  date subtraction and the weekday.
- `Text`: literal substring search, `re.split`, `str.join`, and
  zero-padded decimal numerals.
- `Events`: the event tuple and Python's tuple order. `list.sort()` is
  modelled as a function proved to return the unique sorted permutation.
- `EventParser`: the four field patterns, the `RRULE:…UNTIL=…` pattern
  with its greedy backtracking, `strptime('%Y%m%d%H%M%S')`, and
  `process_event`.
- `Recurrence`: `handle_RRULE`. The source's week-by-week loop is a
  method, proved equal to a closed form, which is proved equal to "some
  whole number of weeks after the start".
- `Format`: the heading and `event_to_fstr`, with lemmas that read each
  line back field by field.
- `Agenda`: the query. It exists as a specification function
  (`EventsForDay`) and as the source's loops (`GetEventsForDay`,
  `ScanBlocks`, `AppendEvents`), each proved equal to the function.

Where Python raises an exception, the model returns a `Fault`, and the first
fault ends the whole query:

- `StampUnreadable`: `strptime` raises `ValueError`.
- `UntilNotFound`: `.group()` is called on a failed search.
- `RecurringWithoutEvent`: `handle_RRULE` subscripts a `None` tuple.

## Model

| member | source | states |
|---|---|---|
| `Calendar.AddWeek` | process_cal4.py:95 | adding a week gives a valid date strictly after the old one |
| `Calendar.Ordinal` | process_cal4.py:33 | `date.toordinal()` of a valid date is at least 1 (its order is that of dates: `OrdinalOrder`) |
| `Calendar.Weekday` | process_cal4.py:24 | `date.weekday()` is in 0..6, an index into the `%a` abbreviations (a weekly step keeps it: `AddWeekOrdinal`) |
| `Calendar.FirstDayIsMonday` | process_cal4.py:24 | day 1 of the numbering, 0001-01-01, has weekday 0, so 0 is Monday as in `date.weekday()` |
| `Calendar.ThursdayAnchor` | process_cal4.py:24 | 2023-06-01 has weekday 3, which `%a` prints as `Thu` |
| `Calendar.WeekdayShift` | process_cal4.py:24 | a date `n` days after another has the other's weekday plus `n`, modulo 7; with `FirstDayIsMonday` this fixes the `%a` weekday of every date |
| `Calendar.AddWeekOrdinal` | process_cal4.py:95 | `+ timedelta(days=7)` moves the day number on by exactly 7 and keeps the weekday |
| `Calendar.OrdinalOrder` | process_cal4.py:86-96 | on valid dates, Python's lexicographic `<` is `<` of day numbers, and equal day numbers mean equal dates, so `date - date == 0 days` is date equality |
| `Calendar.OrdinalMonotone` | process_cal4.py:86-94 | a lexicographically earlier date has a smaller day number |
| `Calendar.DaysBeforeYearStep` | process_cal4.py:95 | the day count before year y+1 is that before y plus the length of y (leap rule included) |
| `Text.FindFrom` | process_cal4.py:30 | the result is the leftmost occurrence at or after the start; `None` means no occurrence there |
| `Text.ContainsMeansOccurs` | process_cal4.py:30 | `re.search(literal, s) != None` holds exactly when the literal occurs somewhere in `s` |
| `Text.JoinSplit` | process_cal4.py:22 | joining the pieces of `re.split(sep, s)` with `sep` gives `s` back |
| `Text.SplitPiecesFree` | process_cal4.py:22 | no piece of the split contains the separator |
| `Text.SplitJoin` | process_cal4.py:22 | splitting at a one-character separator that no part contains undoes joining with it |
| `Text.ValueOfNumeral` | process_cal4.py:61 | reading a zero-padded `%02d`-style numeral back gives the number written |
| `Events.CompareZero` | process_cal4.py:45 | the three-way sequence comparison is 0 exactly on equal sequences |
| `Events.CompareFlip` | process_cal4.py:45 | swapping the operands negates the comparison |
| `Events.CompareTransitive` | process_cal4.py:45 | `<=` of the comparison is transitive |
| `Events.KeysEqual` | process_cal4.py:45 | component keys are equal exactly for equal datetimes, code sequences exactly for equal strings |
| `Events.CompareEvents` | process_cal4.py:45 | the tuple comparison is -1, 0 or 1, and 0 exactly for the same tuple |
| `Events.DateTimeKeyOrder` | process_cal4.py:45 | comparing component keys of datetimes is Python's datetime `<=` |
| `Events.EventOrderTotal` | process_cal4.py:45 | any two event tuples are comparable |
| `Events.EventOrderAntisymmetric` | process_cal4.py:45 | tuples that are each `<=` the other are equal |
| `Events.EventOrderTransitive` | process_cal4.py:45 | the tuple order is transitive |
| `Events.Insert` | process_cal4.py:45 | inserting into a sorted list gives a sorted list with one more copy of the tuple |
| `Events.SortEvents` | process_cal4.py:45 | `list.sort()`: the result is sorted and a permutation of the input |
| `Events.SortedUnique` | process_cal4.py:45 | two sorted permutations of one collection are equal, so the sort algorithm cannot change the agenda |
| `Events.EventOrderByStart` | process_cal4.py:45 | tuple order puts an event with the earlier start first |
| `Events.SortedByStart` | process_cal4.py:45 | a sorted agenda lists its events in order of start time |
| `EventParser.RunEnd` | process_cal4.py:109-112 | a greedy `[0-9]+`, `[^\n]+` or `\S+` run: every character up to the end is in the class, and the next one is not |
| `EventParser.StampAt` | process_cal4.py:109-110 | `([0-9]+)T([0-9]+)` captures two non-empty digit runs that occur, with the `T`, at the position; the second run is maximal (no digit follows it), as the greedy `[0-9]+` makes it |
| `EventParser.StampAtFinds` | process_cal4.py:109-110 | wherever digits, `T` and digits occur, the stamp pattern matches there, with the whole date digits as first group and the time digits as a prefix of the second |
| `EventParser.TextAt` | process_cal4.py:111-112 | `([^\n]+)` captures a non-empty newline-free text that occurs at the position and runs to a newline or the end |
| `EventParser.UntilAt` | process_cal4.py:37 | `UNTIL=([0-9]+)T([0-9]+)\S+` at a position captures digit runs that occur after `UNTIL=` there |
| `EventParser.UntilEnd` | process_cal4.py:37 | the trailing `\S+`: when a non-space character follows the time digits the whole run is captured; otherwise the run less its last digit, and no match when the run has one digit |
| `EventParser.UntilAtMatches` | process_cal4.py:37 | `UNTIL=` matches exactly when the stamp pattern matches after it and the time run has two digits or a non-space character follows it; the date group is the stamp's, the time group the stamp's exactly when a non-space character follows it, otherwise that less its last digit |
| `EventParser.LastUntil` | process_cal4.py:37 | the backtracking of the greedy `\S+` before `UNTIL=` picks the last candidate position where the rest matches: it matches there, every later candidate fails, and `None` means every candidate fails |
| `EventParser.StampFieldAt` | process_cal4.py:109-110 | `DTSTART:`/`DTEND:` stamp pattern at a position: it matches exactly when the label occurs there followed by the stamp pattern; the label and both digit groups occur there, and no digit follows the second group |
| `EventParser.TextFieldAt` | process_cal4.py:111-112 | `LOCATION:`/`SUMMARY:` pattern at a position: it matches exactly when the label occurs there followed by a character other than a newline; the value is non-empty, newline-free, and runs to a newline or the end of the block |
| `EventParser.UntilFieldAt` | process_cal4.py:37 | the RRULE pattern at a position: a match starts with `RRULE:`, and its captures are those of `UNTIL=` at the last candidate position inside the non-space run after `RRULE:`; when `RRULE:` is there and no capture is returned, no candidate matches |
| `EventParser.MatchAt` | process_cal4.py:109-112 | a match of any of the patterns starts with its label; stamp captures are digit runs following the label with no digit after them, text captures run to a newline or the end, UNTIL captures are those of `UNTIL=` at a later position |
| `EventParser.Search` | process_cal4.py:114-117 | `pattern.search`: the leftmost position where the pattern matches, and no match anywhere when it returns `None` |
| `EventParser.SearchNeedsLabel` | process_cal4.py:114-119 | a pattern cannot match a block that lacks its label |
| `EventParser.MatchFields` | process_cal4.py:120 | the first backtracking match of the month, day, hour, minute and second fields yields one value per field, with a total width of one to two digits per field, ending within the text |
| `EventParser.MatchFieldsFit` | process_cal4.py:120 | each field value lies in its field's range (months 1-12, days 1-31, hours 0-23, minutes 0-59, seconds 0-61) |
| `EventParser.MatchFieldsTwoDigits` | process_cal4.py:120 | where each field stands as two digits whose value fits it, the match reads exactly those values, two digits each |
| `EventParser.OneDigitShort` | process_cal4.py:120 | a field that takes its one-digit alternative leaves the match short of two digits per field |
| `EventParser.MatchFieldsFullWidth` | process_cal4.py:120 | a match that spans two digits per field read every field from its two digits |
| `EventParser.ReadStamp` | process_cal4.py:120 | a stamp `strptime` accepts has 9 to 14 digits and is a valid datetime whose year is the first four digits (so at most 9999) |
| `EventParser.StampOf` | process_cal4.py:120 | the stamp read from a capture's date and time digits is a valid datetime of a year at most 9999 |
| `EventParser.ReadFullStamp` | process_cal4.py:120 | `strptime` accepts 14 digits exactly when their 4-2-2-2-2-2 reading is a real date and time (so it rejects month 13, 30 February or second 60), and then reads them as that |
| `EventParser.DateDigits` | process_cal4.py:120 | a datetime's `%Y%m%d` digits are 8 digits |
| `EventParser.TimeDigits` | process_cal4.py:120 | a datetime's `%H%M%S` digits are 6 digits |
| `EventParser.StampRoundTrip` | process_cal4.py:120 | every datetime of a year up to 9999, written as `YYYYMMDD` and `HHMMSS`, is read back as itself |
| `EventParser.ProcessEvent` | process_cal4.py:104-134 | `None` when the DTSTART, DTEND or SUMMARY search fails; otherwise a fault exactly when one of the two leftmost stamps does not read, and else the tuple of the two read stamps, the leftmost LOCATION capture (`""` when none) and the leftmost SUMMARY capture; the tuple is well formed and its summary and location follow their labels in the block |
| `EventParser.UntilOf` | process_cal4.py:37-40 | `UntilNotFound` exactly when the RRULE pattern finds no match (always when the block lacks `RRULE:`); otherwise the leftmost capture `UNTIL=` + date + `T` + time occurs in the block, and the bound is the datetime read from its digits, or `StampUnreadable` when they do not read |
| `EventParser.UntilCaptureOccurs` | process_cal4.py:37-40 | an UNTIL capture occurs in the block as `UNTIL=` + date digits + `T` + time digits |
| `Recurrence.Rebase` | process_cal4.py:89-91 | `replace(year, month, day)` on start and end moves both to the target date and keeps the times, location and summary |
| `Recurrence.WeeklyOccurrence` | process_cal4.py:86-102 | a found occurrence lies on the target date with the event's own times, location and summary |
| `Recurrence.HandleRRule` | process_cal4.py:78-102 | the loop of `handle_RRULE` returns the closed form: the rebased event when the target is not before the start, not after the bound's date, and a whole number of weeks after the start; else `None` |
| `Recurrence.WeekBeforeTarget` | process_cal4.py:94-95 | while the loop runs and has not reached the target date, the start is before it and the next step adds exactly 7 days |
| `Recurrence.PastTarget` | process_cal4.py:94-102 | when the loop stops without reaching the target date, it has passed it |
| `Recurrence.Weeks` | process_cal4.py:95 | every week step of the series is a valid date |
| `Recurrence.WeeksOrdinal` | process_cal4.py:95 | after k week steps, the day number has grown by 7k |
| `Recurrence.WeeklyOccurrenceIsSeries` | process_cal4.py:78-102 | an occurrence is found exactly when the target date is some whole number of weeks after the start and the bound's date is not before it |
| `Recurrence.WeeklyOccurrenceKeepsWeekday` | process_cal4.py:94-96 | a weekly event only recurs on its own weekday |
| `Format.Header` | process_cal4.py:24 | `strftime('%B %d, %Y (%a)')` has no newline and is 15 characters longer than the month name (at most 24) |
| `Format.HeaderFields` | process_cal4.py:24 | the header reads back as the month name, a space, the day (two digits), `, `, the year (four digits) and the weekday abbreviation in parentheses |
| `Format.Repeat` | process_cal4.py:25 | n copies of one character |
| `Format.Underline` | process_cal4.py:26 | `hyphens[:n]` is all hyphens, n long up to the 63 available |
| `Format.Heading` | process_cal4.py:24-27 | the heading is the header, a newline, a hyphen underline exactly as long as the header, and a newline |
| `Format.Clock` | process_cal4.py:61 | `strftime('%I:%M %p')` is 8 characters |
| `Format.BlankLeadingZero` | process_cal4.py:62-63 | a leading `0` becomes a space, any other first character is kept, and the rest is unchanged |
| `Format.BlankLeadingZeroPrefix` | process_cal4.py:61-63 | blanking the leading zero of `'%I:%M %p '` is blanking it in `'%I:%M %p'` with the space kept |
| `Format.ClockText` | process_cal4.py:66-68 | the displayed time is 8 characters and starts with a space or `1`, never with `0` |
| `Format.HourRoundTrip` | process_cal4.py:61-63 | the blanked two-digit 12-hour clock reads back as its hour |
| `Format.ClockTextParts` | process_cal4.py:61-68 | the displayed time is the blanked hour, `:`, the minute and the AM/PM marker |
| `Format.ClockRoundTrip` | process_cal4.py:61-68 | the displayed time reads back as the hour (24-hour clock) and the minute: only the seconds are lost |
| `Format.ClockTextNoNewline` | process_cal4.py:61-68 | the displayed time holds no newline |
| `Format.LineParts` | process_cal4.py:61-74 | the event line is the two displayed times joined by ` to `, then `: `, the summary and the braced location |
| `Format.LineFields` | process_cal4.py:61-74 | the event line, cut at fixed offsets, is its displayed start time, ` to `, end time, `: `, summary and `{{location}}` |
| `Format.LineNoNewline` | process_cal4.py:61-74 | a line of an event whose summary and location hold no newline holds none |
| `Format.Line` | process_cal4.py:61-74 | an event line is 27 characters longer than its summary and location together and ends in `}}` |
| `Format.EventToFstr` | process_cal4.py:52-76 | `event_to_fstr` ends with the event line and adds at most one character before it: a newline exactly when the text so far does not end in one, so that a newline precedes the line |
| `Format.LineLayout` | process_cal4.py:61-74 | the event line reads back field by field: start hour and minute, ` to `, end hour and minute, `: `, the summary, then the location in double braces; neither time starts with `0`; its length is 27 plus the text fields' lengths |
| `Agenda.PlainOccurrence` | process_cal4.py:30-34 | a block without `RRULE:` faults exactly when `process_event` does; it contributes its tuple exactly when the tuple's start date is the target date |
| `Agenda.RecurringOccurrence` | process_cal4.py:36-43 | faults come in source order (`process_event`, then the UNTIL bound, then a `None` tuple); when the tuple and the bound are both read there is no fault; an occurrence is found exactly when the target is in range and a whole number of weeks after the start, and it is the rebased tuple |
| `Agenda.BlockOccurrence` | process_cal4.py:29-43 | anything a block contributes starts on the target date and is well formed |
| `Agenda.Gather` | process_cal4.py:29-43 | the list is no longer than the number of blocks (its contents: `GatherKept`) |
| `Agenda.Kept` | process_cal4.py:29-43 | the carried events, read from the front, are at most one per block |
| `Agenda.KeptSnoc` | process_cal4.py:29-43 | the carried events of the blocks are those of all but the last, then the last block's |
| `Agenda.GatherKept` | process_cal4.py:29-43 | when no block raises, the list is exactly the carried events in block order, each as often as blocks carry it |
| `Agenda.GatherFailureSticks` | process_cal4.py:29-43 | once a block has raised, later blocks change nothing |
| `Agenda.GatherMembership` | process_cal4.py:29-43 | an event is in the list exactly when some block contributed it |
| `Agenda.GatherFault` | process_cal4.py:29-43 | the query fails exactly when some block raises |
| `Agenda.FirstFaultWins` | process_cal4.py:29-43 | the fault reported is that of the first block that raises |
| `Agenda.GatherStops` | process_cal4.py:29-43 | a raising block ends the scan with its fault |
| `Agenda.Outcomes` | process_cal4.py:29 | one outcome per block, in block order |
| `Agenda.Collect` | process_cal4.py:22-43 | every listed event starts on the target date and is well formed |
| `Agenda.Lines` | process_cal4.py:46-47 | one event line per event, in order |
| `Agenda.Separator` | process_cal4.py:57-60 | the separator is at most one character, empty exactly when the text ends in a newline, and the text with it ends in a newline |
| `Agenda.LineEndsInBrace` | process_cal4.py:74 | an event line is non-empty and ends in `}` |
| `Agenda.LinesEndInBrace` | process_cal4.py:74 | no event line ends in a newline |
| `Agenda.AppendLines` | process_cal4.py:46-47 | appending never shortens the text |
| `Agenda.AppendLinesJoin` | process_cal4.py:46-60 | appending event lines puts exactly one newline between lines, and one before the first only when the text does not already end in one |
| `Agenda.AppendLinesEnd` | process_cal4.py:46-60 | starting from the heading's newline, the text still ends in a newline exactly when no line was appended |
| `Agenda.AppendLinesUnfold` | process_cal4.py:46-47 | one step of the append loop |
| `Agenda.EventToFstrSeparates` | process_cal4.py:52-76 | `event_to_fstr` is the separating newline (if any) followed by the event line |
| `Agenda.SortKeepsTimes` | process_cal4.py:45 | sorting keeps the number of events and their valid times |
| `Agenda.SortKeepsWellFormed` | process_cal4.py:45 | sorting keeps every event well formed |
| `Agenda.Render` | process_cal4.py:46-50 | an agenda text is returned exactly when there is at least one event line |
| `Agenda.RenderOf` | process_cal4.py:49-50 | the final newline test on the appended text is what `Render` yields |
| `Agenda.HeadingEndsInNewline` | process_cal4.py:24-27 | the heading is non-empty and ends in a newline |
| `Agenda.EventsForDay` | process_cal4.py:13-50 | a zero year, month or day gives `None`; otherwise the query fails exactly when some block raises |
| `Agenda.EventsForDayOnSuccess` | process_cal4.py:45-50 | once every block is read, the result is the rendering of the sorted list's lines under the heading |
| `Agenda.AgendaPresentIff` | process_cal4.py:18-50 | an agenda is returned exactly when the target has no zero component and some event falls on the target date |
| `Agenda.RenderSplit` | process_cal4.py:46-50 | the rendered text read back line by line is the two heading lines and the event lines |
| `Agenda.LinesNoNewline` | process_cal4.py:61-74 | lines of well-formed events hold no newline |
| `Agenda.AgendaLayout` | process_cal4.py:24-74 | the returned agenda's lines are the header, its equal-length underline, then one line per event of the day in ascending tuple order |
| `Agenda.ProcessBlock` | process_cal4.py:29-43 | one pass of the block loop, with its early exits, is `BlockOccurrence` |
| `Agenda.ScanBlocks` | process_cal4.py:29-43 | the block loop builds the list `Collect` specifies, or stops with the first fault |
| `Agenda.AppendEvents` | process_cal4.py:46-47 | the `event_to_fstr` loop builds `AppendLines` of the event lines |
| `Agenda.GetEventsForDay` | process_cal4.py:13-50 | the query as the source runs it returns what `EventsForDay` specifies |

## Left out

- Reading the file (`open(self.filename).read()`, process_cal4.py:21): the calendar text is a parameter of the query, and the constructor (process_cal4.py:10-11), which only stores the file name, is not modelled.
- The zero-component guard (process_cal4.py:18-19) is modelled on a date record that may hold zeros. A Python `datetime` can never hold a zero year, month or day, so the guard is dead code there.
- Years beyond 9999: Python raises `OverflowError` when a weekly step leaves the `datetime` range. The model's years are unbounded, and targets and parsed stamps stay at most 9999.
- `strftime('%Y')` for years below 1000 depends on the platform's C library. The model pads to four digits.
- `strftime` uses the C locale's English month and weekday names and AM/PM markers; other locales are left out.
- Time zones (`Z` suffixes, `TZID`) and every RRULE part other than `UNTIL` (FREQ, INTERVAL, COUNT, BYDAY): the source ignores them, and so does the model. Every recurring event is weekly.
- Exceptions are modelled as `Fault` results. The model does not carry Python's exception types or messages.
- Where the source raises (an RRULE block with no `UNTIL`, with an unreadable stamp, or whose `process_event` gives `None`), the model ends the query with a fault, as the code does. Skipping such blocks would be more forgiving; the model keeps the code's behaviour.
- The underline is `hyphens[:len(header)]`: one hyphen per header character, 19 for `June 01, 2023 (Thu)`.
- `list.sort()` is a library call. It is modelled as an insertion sort proved sorted and a permutation; `Events.SortedUnique` shows that every algorithm gives the same list. Timsort itself is not modelled.
- `Agenda.Gather`: its own contract states only a length bound. Its contents are stated by `GatherKept` (order and multiplicity), `GatherMembership`, `GatherFault` and `FirstFaultWins`.
- `EventParser.MatchFields`: its contract states one value per field and a total width of one to two digits per field (`i + |fs| <= end <= i + 2 * |fs|`); `MatchFieldsFit` bounds each value by its field's range. It does not tie a one-digit value to the digit it was read from; `MatchFieldsTwoDigits` and `MatchFieldsFullWidth` tie values to digits where every field has two digits, as ICS stamps are written.
- `EventParser.ReadStamp`: for 14-digit strings, `ReadFullStamp` states exactly which are accepted (a real date and time in the fixed-width reading) and what they read as. For shorter digit strings that `strptime` also accepts through one-digit fields, the contract states validity and the year only.
