# TV recording tools, modelled in Dafny

The repository is a set of small Go tools for recording Japanese TV with `recpt1` and scheduling
the recordings with `at`:

- **auto-booking** keeps a list of programme pages. It reads the broadcast time from the listing
  text (`2017年11月18日（土）  25時20分～26時10分`), builds the `echo recpt1 … | at -t …` command,
  and reads the job id back from `at`'s reply.
- **gguide** does the same for the G-guide listing site. It picks programmes by title patterns,
  escapes shell characters in titles, reads `11/19 (日) 23:10 ～ 24:05`-style times, and writes one
  booking command per programme.
- **atqh** lists the queued recordings. Each job's time comes from its `atq` line and its file
  name from the `recpt1` line of `at -c`. The list is sorted by time or by id, optionally
  narrowed to one day of the month.
- **trash** removes the recordings that started before a given time of today (`HHMM`) or of this
  year (`MMDDHHMM`). It compares file names with the time written as `20060102T1504`.

The project has eight files:

- `wrappers.dfy` holds `Option` and `Result`.
- `gostrings.dfy` (module `GoStrings`) models the parts of Go's `strings`, `strconv` and
  `path/filepath` that the tools use. Examples are `TrimSpace`, `Fields`, `SplitN`, `Join`,
  `Replace`, `Itoa`, `Atoi`, string order and `filepath.Base`.
- `gotime.dfy` (module `GoTime`) models `time.Date` with its normalisation, instants in seconds,
  `After`/`Before`/`Sub`/`AddDate`, the two output layouts and the three input layouts the tools
  use.
- `scan.dfy` (module `Scan`) holds scanners for the tools' fixed regular expressions. Each
  pattern is a chain of literals and bounded digit runs. `Leftmost` finds the leftmost match, as
  `FindStringSubmatch` does, and `Rightmost` models a greedy `.*`.
- `autobooking.dfy`, `gguide.dfy`, `atqh.dfy` and `trash.dfy` model the four tools.

How the model represents the program:

- Mutable state stays mutable. The programme list of auto-booking's `Manager` is a class field.
- atqh's `sort.Sort` is an in-place sort on an `array`.
- The loops of `escapeTitle`, `atReader`, the collecting loop, `removeMatchedFiles` and the
  printing loops are methods. Each is proved against a function.
- The clock (`time.Now()`), the command output (`atq`, `at -c`), the directory listing and the
  page texts are parameters.
- Fatal errors and index panics are `Err` results.

Cross-tool properties:

- The job that auto-booking's `Page.Book` and gguide's `Recpt1AtCmd` set up is read back by atqh
  as exactly one booking: the job's id, the time its `atq` line shows and the recording's file
  name. This holds whatever other complete lines `at -c` prints before and after the recpt1 line
  (its environment set-up, the here-document around the command and its closing delimiter line),
  as long as the title and the provider hold no newline.
- trash removes such a recording exactly when the recording started in a minute before the
  cut-off minute.

## Model

| member | source | states |
|---|---|---|
| AutoBooking.Manager.constructor | auto-booking/types.go:111-116 | a new manager holds no programmes |
| AutoBooking.Manager.IsRegistered | auto-booking/types.go:119-126 | true exactly when some stored page has the id |
| AutoBooking.Manager.Add | auto-booking/types.go:129-131 | the page is appended after the stored ones, which are kept in order |
| AutoBooking.Manager.Purge | auto-booking/types.go:134-143 | the stored pages become those, in order, whose end is after now minus four days |
| AutoBooking.AddRegisters | auto-booking/types.go:119-131 | after adding a page its id is registered, and any other id is registered exactly when it was before |
| AutoBooking.RecentMembers | auto-booking/types.go:134-143 | a page survives a purge exactly when it was stored and ends after the deadline |
| AutoBooking.RecentAppend | auto-booking/types.go:134-143 | purging a list in two parts purges each part, order kept |
| AutoBooking.RecentIdempotent | auto-booking/types.go:134-143 | purging never adds pages, and purging twice with one deadline is purging once |
| AutoBooking.PurgeKeeps | auto-booking/types.go:104 | the four-day line in seconds: a page survives exactly when its end is later than now minus 345600 seconds |
| AutoBooking.MatchClock | auto-booking/types.go:158 | an hour and a minute read as one or two digits lie in 0..99 |
| AutoBooking.MatchBroadcastTime | auto-booking/types.go:158 | all four clock numbers of a listing lie in 0..99 |
| AutoBooking.NextDayShift | auto-booking/types.go:190-194 | the start branch for hours of 24 and more (next day, hour minus 24) gives the same instant as the hour read as is |
| AutoBooking.Rolled | auto-booking/types.go:190-207 | both branches of the start and end rules give time.Date of the fields as read |
| AutoBooking.HourRollover | auto-booking/types.go:190-194 | a listed hour from 24 to 47 is one day (AddDate) after the valid instant at that hour minus 24 |
| AutoBooking.ParseTime | auto-booking/types.go:157-210 | an error exactly when the listing pattern matches nowhere, else the start and end of the leftmost match |
| AutoBooking.ParseTimeDuration | auto-booking/types.go:157-210 | for a matched listing the recorded length is the end clock minus the start clock, with no day added when the end clock is earlier |
| AutoBooking.WeekdayLengths | auto-booking/types.go:158 | each weekday name of the pattern is one code point |
| AutoBooking.MatchDayText | auto-booking/types.go:158 | a written date "YYYY年M月D日（曜）" is read back as its year, month and day |
| AutoBooking.MatchDayOfMonthText | auto-booking/types.go:158 | the day-of-month part is read back as its number |
| AutoBooking.MatchClockText | auto-booking/types.go:158 | a written "H時M分" is read back as its numbers |
| AutoBooking.MatchListingText | auto-booking/types.go:158 | a whole written listing is found at position 0 with all its numbers |
| AutoBooking.ParseTimeOfListing | auto-booking/types.go:157-210 | a written listing parses to the two instants time.Date gives for its date and clock numbers |
| GoTime.NextDay | auto-booking/types.go:190-194 | the day after a valid day is a valid day whose day number is one more |
| AutoBooking.ListedHour | auto-booking/types.go:190-209 | a listed hour below 24 is that clock on the listed day; one from 24 to 47 is that hour minus 24 on the next calendar day |
| AutoBooking.ParseTimeExampleLate | auto-booking/types_test.go:34-41 | "…18日（土）  25時20分～26時10分" gives 19 November 01:20 to 02:10 |
| AutoBooking.ParseTimeExampleMidnight | auto-booking/types_test.go:34-41 | "…19日（日）  23時10分～24時05分" gives 19 November 23:10 to 20 November 00:05 |
| AutoBooking.ParseTimeExampleMorning | auto-booking/types_test.go:34-41 | "…19日（日）  8時15分～9時00分" gives 19 November 08:15 to 09:00 |
| AutoBooking.NewPage | auto-booking/types.go:213-229 | an error exactly when parseTime fails; else id is the URL's last element, AtID is 0 and the times are parseTime's |
| AutoBooking.Duration | auto-booking/types.go:232-234 | the length in seconds stays within time.Duration's range |
| AutoBooking.AtTailText | auto-booking/types.go:236-243 | the `at` words of the command join to a pipe to "at -t <stamp>" followed by a space and a newline |
| AutoBooking.EchoAtShape | auto-booking/types.go:236-243 | joining echo, the recpt1 words and the `at` words puts single spaces between them |
| AutoBooking.DumpLayout | auto-booking/types.go:236-243 | Dump is "echo", the recpt1 words, a pipe to "at -t" with the start as 0601021504.05, and a final space and newline |
| AutoBooking.MatchAtJob | auto-booking/types.go:288 | the job id captured is a non-empty run of digits |
| AutoBooking.ParseAtId | auto-booking/types.go:287-298 | 0 when the reply holds no `job N at …` line, else Atoi of the leftmost N, never negative |
| AutoBooking.ParseAtIdWithoutJob | auto-booking/types.go:287-298 | a reply without "job " anywhere gives 0 |
| AutoBooking.NameLengths | auto-booking/types.go:288 | day and month names are three letters |
| AutoBooking.MatchAtClockText | auto-booking/types.go:288 | the clock and year part of a written reply is read whole |
| AutoBooking.MatchAtDateText | auto-booking/types.go:288 | the date part of a written reply is read whole |
| AutoBooking.ParseAtIdOfAck | auto-booking/types.go:287-298 | any reply `job N at <day> <mon> D H:M:S YYYY` gives N |
| AutoBooking.AckExampleOne | auto-booking/types_test.go:57 | "job 1 at Sun Nov 19 14:25:00 2017" gives 1 |
| AutoBooking.AckExampleTwentyFour | auto-booking/types_test.go:58 | "job 24 at Sun Nov 19 21:06:00 2017" gives 24 |
| AutoBooking.AckExampleLarge | auto-booking/types_test.go:59 | "job 10773 at Fri Nov 24 14:20:00 2017" gives 10773 |
| GGuide.ContainsAt | gguide/main.go:390-402 | a title pattern `.*x.*` matches exactly when x occurs at some position of the title |
| GGuide.AnyMatch | gguide/main.go:391-401 | the search loop finds a match exactly when some pattern matches |
| GGuide.FilterProgramWithTitle | gguide/main.go:390-402 | a title is taken exactly when no exclude pattern matches it and some include pattern does |
| GGuide.KeysAscii | gguide/main.go:57-76 | every character ReplaceCharMap replaces is printable ASCII |
| GGuide.StandInsWide | gguide/main.go:57-76 | every stand-in is '_' or a full-width form |
| GGuide.ReplacementsSafe | gguide/main.go:57-76 | no stand-in is itself replaced, and none is white space |
| GGuide.EscapeTitle | gguide/main.go:310-315 | replacing each key in any map order escapes every character of the title independently |
| GGuide.EscapedSafe | gguide/main.go:310-315 | the escaped title has the same length, no replaced character, and other characters unchanged |
| GGuide.EscapedIdempotent | gguide/main.go:310-315 | escaping twice is escaping once |
| GGuide.EscapedTrimmed | gguide/main.go:322-325 | a trimmed title stays trimmed after escaping and holds no space |
| GGuide.LineEnd | gguide/main.go:46 | the `.*` of the pattern stays before the first newline |
| GGuide.ExtractStartEndTime | gguide/main.go:264-308 | "no time found" exactly when the pattern matches nowhere; a month outside 1..12 is refused; otherwise the listing's start and end in the year the rule picks |
| GGuide.GuideSpanLength | gguide/main.go:302-307 | the end minus the start is the clock difference, plus a day when that difference is negative |
| GGuide.GuideSpanOrdered | gguide/main.go:302-307 | the start is not after the end exactly when the start clock is at most a day past the end clock |
| GGuide.ListingNotInPastMonth | gguide/main.go:297-302 | a valid listing is read as its own date in the chosen year and never before the first of now's month |
| GGuide.MatchHourMinuteText | gguide/main.go:46 | a written "H:M" is read back as its numbers |
| GGuide.MatchClocksText | gguide/main.go:46 | a written "H:M ～ H:M" is read back as its four numbers |
| GGuide.ClocksTextPlain | gguide/main.go:46 | the written clocks hold no ')' and no newline |
| GGuide.NoCloseParenAfter | gguide/main.go:46 | no ") " plus clocks starts inside the clocks text |
| GGuide.CloseParenFirst | gguide/main.go:46 | a text that does not open with ") " does not match there |
| GGuide.MatchAfterWeekday | gguide/main.go:46 | the greedy `.*` stops at the ") " before the clocks, whatever the weekday text is |
| GGuide.FindGuideTimeOfText | gguide/main.go:46 | a written "M/D (w) H:M ～ H:M" is found at position 0 with its six numbers |
| GGuide.ProviderOf | gguide/main.go:103-122 | a known channel name gives its non-empty code, an unknown one the empty code; no code holds a space |
| GGuide.AtCmdTail | gguide/main.go:254-262 | the `at` words join to a pipe to "at -t <stamp>" |
| GGuide.EchoAtCmdShape | gguide/main.go:254-262 | joining echo, the recpt1 words and the `at` words puts single spaces between them |
| GGuide.Recpt1AtCmdLayout | gguide/main.go:254-262 | the command is "echo", the recpt1 words and a pipe to "at -t" with the start as 0601021504.05, single-spaced |
| GGuide.CleanTitle | gguide/main.go:322-325 | the cleaned title is trimmed and holds no space and no character ReplaceCharMap replaces |
| GGuide.CleanTimeText | gguide/main.go:328-329 | the cleaned time text is trimmed |
| GGuide.ExtractProgramData | gguide/main.go:317-354 | fails exactly when the cleaned time text cannot be read, with that error; otherwise a programme with the cleaned title, the times read, the trimmed channel and its code |
| Atqh.Recpt1FileName | atqh/main.go:140-149 | a line gives a file name exactly when it starts with "recpt1" and has seven spaces, and the name is trimmed |
| Atqh.Recpt1LineOf | atqh/main.go:140-149 | a recpt1 line with seven space-free words gives back its last word, spaces and all |
| Atqh.FileNameTrimmed | gguide/main.go:255-256 | a recording's file name has no white space at either end |
| Atqh.Recpt1WordsOf | atqh/main.go:143-149 | the recpt1 words both booking tools write give back the file name |
| Atqh.AtqTimeOfFields | atqh/main.go:151-152 | the year, month, day and clock fields of an `atq` line are read back as that time |
| Atqh.LineEntry | atqh/main.go:140-161 | a line that is not a full recpt1 line adds nothing; a full one fails with ShortAtqLine when the `atq` line has fewer than six fields, with BadTime exactly when its time cannot be parsed, and otherwise gives the booking with the job's id, the line's file name and the time of the `atq` fields |
| Atqh.LinesBookings | atqh/main.go:135-162 | at most one booking per line, each with the job's id |
| Atqh.BodyLines | atqh/main.go:135-139 | the lines handed out are whole lines, each with exactly one newline, at its end, and together they are the body up to its last newline |
| Atqh.ReadLineStep | atqh/main.go:135-162 | one turn of the read loop consumes one complete line |
| Atqh.BodyLinesOfLine | atqh/main.go:135-139 | a complete line in front of a body is handed out first, as it is |
| Atqh.BodyLinesOfLines | atqh/main.go:135-139 | complete lines in front of a body are handed out first, one by one, as they are |
| Atqh.LinesBookingsSkip | atqh/main.go:140-142 | lines that do not start with "recpt1" add no booking |
| Atqh.LinesBookingsNone | atqh/main.go:140-142 | lines none of which starts with "recpt1" give no booking and no error |
| Atqh.LinesBookingsCons | atqh/main.go:140-161 | a line that gives a booking puts it in front of the bookings of the lines after it |
| Atqh.LinesBookingsOne | atqh/main.go:140-161 | a recpt1 line of a job whose `atq` line has a readable time, followed by lines that are not recpt1 commands, gives exactly its booking |
| Atqh.BodyLinesOfLinesThenTail | atqh/main.go:135-139 | complete lines followed by text without a newline are read as exactly those lines; the tail comes with io.EOF and is dropped |
| Atqh.JobBodyLines | atqh/main.go:135-139 | a body of complete lines, the command line, complete lines and an unfinished tail is read as exactly those lines, in order |
| Atqh.JobOfRecpt1Line | atqh/main.go:122-166 | a job body of other complete lines, one recpt1 line, other complete lines and an unfinished tail gives exactly one booking, with the job's id, the `atq` time and the line's file name |
| Atqh.JobOfRecpt1Words | atqh/main.go:122-166 | the same for the recpt1 line echo writes for both booking tools' words |
| Atqh.BookJobRoundTrip | auto-booking/types.go:245-252 | the job auto-booking's Page.Book sets up (echo of the recpt1 words, without a shell, piped to `at`) is read back by atqh as one booking with the page's file name, whatever other lines `at -c` prints around it |
| Atqh.Recpt1AtCmdJobRoundTrip | gguide/main.go:254-262 | the job gguide's Recpt1AtCmd sets up is read back by atqh as one booking with the programme's file name, whatever other lines `at -c` prints around it |
| Atqh.AtReader | atqh/main.go:122-166 | the bookings of one job are those of the complete lines of `at -c`, in order, or the first fatal error |
| Atqh.CollectStep | atqh/main.go:59-67 | one turn of the collecting loop appends one job's bookings |
| Atqh.CollectBookings | atqh/main.go:59-67 | all jobs' bookings in `atq` order, or the first fatal error |
| Atqh.PrecedesAsymmetric | atqh/main.go:38-48 | neither Less order puts two bookings each before the other |
| Atqh.NotPrecedesTransitive | atqh/main.go:38-48 | "not before" is transitive for both orders, as sort.Sort requires |
| Atqh.IdOrderIsTextual | atqh/main.go:48 | ids compare as text: job "10" sorts before job "9" |
| Atqh.SwapStep | atqh/main.go:41-47 | swapping a booking past a later one keeps the partial order of the sort |
| Atqh.InsertingDone | atqh/main.go:68-72 | a booking that no longer precedes its left neighbour leaves the prefix sorted |
| Atqh.InsertNext | atqh/main.go:68-72 | one pass sorts one more booking into place, a permutation of the array |
| Atqh.Sort | atqh/main.go:68-72 | the bookings are rearranged in place into an order no Less call contradicts, as a permutation |
| Atqh.OnDayMembers | atqh/main.go:85-89 | a booking is printed for a day exactly when it is in the list and falls on that day |
| Atqh.OnDaySorted | atqh/main.go:85-89 | the bookings of one day stay in sorted order |
| Atqh.OnDayCount | atqh/main.go:85-89 | a booking is printed for a day as many times as it is in the list if it falls on that day, and never otherwise |
| Atqh.OnDayPermutation | atqh/main.go:68-89 | the bookings of a day depend only on the multiset of bookings, so sorting first does not change them |
| Atqh.ParseDay | atqh/main.go:78-84 | a day is accepted exactly when Atoi reads it as 0 to 31 |
| Atqh.SelectDay | atqh/main.go:85-89 | the loop prints the bookings of the day, in order |
| Atqh.Listing | atqh/main.go:52-91 | blocks (AtqBlocked) when `atq` prints more lines than the channel's 1000 slots; otherwise fails exactly when a job fails, with the first failing job's error, or else when the day argument is refused, with ParseDay's error; otherwise sorted and a permutation of all jobs' bookings, or of those of the given day |
| Trash.ParseTimeOnlyPattern | trash/main.go:32-40 | fails exactly as "1504" parsing fails; otherwise today's date at the pattern's hour and minute |
| Trash.TimeOnlyDigits | trash/main.go:32-40 | four digits are accepted exactly as an hour below 24 and a minute below 60 |
| Trash.ParseDayTimePattern | trash/main.go:42-51 | fails exactly as "01021504" parsing fails; otherwise the instant of that month, day and clock in now's year |
| Trash.DayTimeInYear | trash/main.go:42-51 | a day that exists in this year is taken as it is |
| Trash.DayTimeDigits | trash/main.go:42-51 | eight digits are accepted exactly as a month, a day of it in a leap year, an hour and a minute |
| Trash.LeapDayInCommonYear | trash/main.go:42-51 | 29 February in a common year is 1 March at the same clock |
| Trash.LeapDaySeconds | trash/main.go:50 | 29 February and 1 March of a common year are the same day number |
| Trash.PatternTime | trash/main.go:73-83 | a pattern of neither 4 nor 8 bytes is refused; otherwise the matching parser's result |
| Trash.PatternTimeThisYear | trash/main.go:39-50 | for a valid now the pattern's time lies in now's year at a whole minute |
| Trash.Cutoff | trash/main.go:66-84 | fewer than two arguments is an error; otherwise the pattern's error or FormatPrefix of the pattern's time ("20060102T1504"), thirteen characters for a valid clock |
| Trash.RemoveMatchedFiles | trash/main.go:53-62 | the entries kept are those whose name compares at or below the cut-off, in order |
| Trash.MatchedMembers | trash/main.go:53-62 | a name is kept exactly when it is listed and at or below the cut-off |
| Trash.MatchedAppend | trash/main.go:53-62 | filtering two parts of a listing filters each part |
| Trash.MatchedAll | trash/main.go:53-62 | a listing entirely at or below the cut-off is kept whole |
| Trash.LessEqTransitive | trash/main.go:56-57 | "compares at or below" is transitive |
| Trash.MatchedOfSorted | trash/main.go:87-92 | for a listing sorted by name, as ReadDir gives it, the entries kept are a prefix of it |
| Trash.RecordingSelected | trash/main.go:84-92 | a recording named "<start>-<title>.ts" is kept for removal exactly when its start minute is before the cut-off minute |
| Trash.BookedRecordingSelected | auto-booking/types.go:237-238 | an auto-booking recording is removed exactly when it started in a minute before the cut-off |
| Trash.RemovalTargetMissesDir | trash/main.go:93-95 | the name removed for an entry of "rec" does not lie in "rec" |
| Trash.RemovalPathInDir | trash/main.go:86-95 | the corrected path lies in the listed directory and ends in the entry's name |
| Trash.RemovalPathsSnoc | trash/main.go:93-95 | one more entry adds one more path |
| Trash.RemoveAll | trash/main.go:93-95 | one removal per kept entry, in order, each by the entry's path in the listed directory (the corrected path of the finding below) |
| Trash.RemovalPathsMembers | trash/main.go:93-95 | a path is removed exactly when its entry was selected |
| Trash.RecordingRemoved | trash/main.go:64-95 | with a valid clock, a recording "<start>-<title>.ts" is removed exactly when it is listed and started in a minute before the minute the pattern names |
| Trash.RemoveOldRecordings | trash/main.go:64-96 | fails exactly when the cut-off cannot be made, with that error; otherwise removes, in listing order, the entries whose names are at or below the cut-off, each by its path in the directory (the corrected path of the finding below) |
| GoStrings.SplitN | atqh/main.go:144 | at most n parts, the parts joined back give the line, and no separator is left in any part but the last |
| GoStrings.SplitNOfJoin | atqh/main.go:144-149 | splitting words joined by the separator gives back the words when none but the last holds it |
| GoStrings.TrimSpaceOfPadded | atqh/main.go:149 | trimming white space around a trimmed text gives the text |
| GoStrings.Atoi | atqh/main.go:78 | a digit string in range reads as its value, the empty string is a syntax error |
| GoStrings.Utf8Len | trash/main.go:73 | the byte length lies between the code point count and four times it, equal exactly for ASCII |
| GoStrings.BaseOfPath | auto-booking/types.go:218 | the last element of dir/name is name |
| GoTime.FormatPrefixOrder | auto-booking/types.go:102 | "20060102T1504" stamps compare as text exactly as their minutes compare in time |
| GoTime.ParseYearMonthDayClockOfText | atqh/main.go:151-152 | "2006Jan2 15:04:05" reads back the time it was written from |
| GoTime.ParseClockDigits | trash/main.go:34 | four digits parse as "1504" exactly when they are an hour and a minute |
| GoTime.ParseMonthDayClockDigits | trash/main.go:44 | eight digits parse as "01021504" exactly when they are a month, a day of it in year 0, an hour and a minute |
| GoTime.SecondsOrder | atqh/main.go:42 | for valid times, Before in seconds is the order of the fields |

## Left out

- I/O is not modelled: HTTP fetching and HTML selection (goquery), running `at`, `atq`, `echo` and `recpt1`, reading their output, `ioutil.ReadDir`, `os.Remove`, logging, `os.Exit` and the shell script writer. The texts they give are parameters; what they receive is a result.
- Goroutines, channels and `time.Sleep` are left out. atqh's single producer keeps the order, which the model keeps.
- auto-booking's `Page.Book` (types.go:246-285) starts processes. The words it hands to echo are Recpt1Args, whose job Atqh.BookJobRoundTrip reads back, and the `parseAtID` it applies to each reply line is modelled; the processes, the pipe and the setting of AtID are not.
- auto-booking's main.go, tasks.go and config.go, and gguide's crawling, `fetchDetail` and `WriteToShellScript`, are not part of this model.
- auto-booking's `ReplaceCharMap` and `ProviderMap` (types.go:63-100) are not modelled. No file of auto-booking reads them; gguide has its own copies, which are modelled.
- GGuide.FilterProgramWithTitle: title patterns are taken to be `.*x.*` and are given as their middle parts x. Other regular expressions in the configuration are not modelled.
- Time zones are left out. Every instant is in one fixed zone without daylight saving, which holds for JST. Nanoseconds are left out; every instant is a whole second.
- `strconv.Atoi` errors on the captured digit groups of parseTime and extractStartEndTime cannot happen. Those groups are at most four digits, so the error branches are absent.
- gguide's `titleSel == nil` check is absent. `First()` never returns nil, so that branch cannot fire.
- Atqh.Sort: states that the result is ordered and a permutation, which is what `sort.Sort` promises. The arrangement of equal keys may differ from Go's unstable pdqsort.
- Atqh.Listing: returns the bookings printed instead of printing `id`, the `time.ANSIC` form of the time and the file name.
- Atqh.Listing: main sends every `atq` line on a channel of 1000 slots (atqh/main.go:30, 54-55, 113) before it starts the goroutine that reads them, so a 1001st line blocks it and Go aborts with a deadlock. The model reports this as `AtqBlocked` before any job is read; the blocking itself is not modelled.
- Atqh.BookJobRoundTrip and Atqh.Recpt1AtCmdJobRoundTrip require a title and a provider without a newline. With a newline, echo writes the command as two lines and atqh reads a file name cut at the newline.
- Atqh.Recpt1AtCmdJobRoundTrip: assumes echo receives the words gguide built unchanged. gguide writes the command into a shell script (gguide/main.go:376-388), and bash re-splits and interprets a title holding quotes, a backquote, a backslash, `;`, a pipe or a tab; escapeTitle does not replace those characters, and shell parsing is not modelled.
- Trash.RemoveAll: removes each entry by its path in the listed directory, the corrected behaviour. The code as written removes the bare name (trash/main.go:94), which the finding below models with Trash.RemovalTarget and Trash.RemovalTargetMissesDir.
- Trash.RemoveOldRecordings: follows the corrected removal path of Trash.RemoveAll, not the bare name the code as written removes.
- An empty `atq` line and one with fewer than six fields make `fields[0]` and `fields[5]` panic in atqh. The model reports them as `EmptyAtqLine` and `ShortAtqLine`.
- escapeTitle ranges over a Go map in random order. GGuide.EscapeTitle takes the order as a parameter and its contract holds for every order.
- String comparison is by code point. This matches Go's byte order on valid UTF-8; invalid UTF-8 is not modelled.
- The day filter of atqh accepts 0 (atqh/main.go:82). A day of 0 matches no booking, so 0 prints nothing.
- auto-booking's parseTime adds no day when the end clock is earlier than the start clock: "23時10分～0時05分" ends before it starts. The model follows the code; GGuide.GuideSpanLength shows that gguide does add the day.
- GGuide.GuideSpanOrdered shows that clock hours of 24 to 99, which the pattern allows, can leave a start after its end even after the one-day step.
- The ReadDir error of trash is not modelled. The listing is a parameter.
- AutoBooking.Duration: its own contract gives only the range; the value for a parsed page is stated by AutoBooking.ParseTimeDuration.

## Findings

| source | as written | input that shows it | evidently intended | confidence | as-written member | corrected member |
|---|---|---|---|---|---|---|
| trash/main.go:93-95 | `os.Remove(m.Name())` removes the entry's bare name, resolved against the working directory | the pattern plus directory "rec" holding "x.ts": the tool removes "x.ts" in the working directory, not "rec/x.ts" | remove the entry inside the listed directory (`filepath.Join(dir, m.Name())`) | high, not executed | Trash.RemovalTargetMissesDir | Trash.RemovalPathInDir |
