# Verification of the server's algorithmic cores

This project models nine source files of a PostgreSQL-compatible database server and proves what
they are for: the regular-expression compiler and matcher, calendar, time-zone and timestamp
arithmetic with its text forms, numeric pictures and Roman numerals, the COPY codec, the logical
walsender, bit strings, and SCRAM-SHA-256 with base64. `dafny verify dfyconfig.toml` checks it.

Code that works step by step is modelled by classes, arrays and loops with contracts against
specification functions; code made of expressions is modelled by functions. The lemmas are about
the specification functions.

| area | files |
|---|---|
| regular expressions | `RegexSyntax`, `RegexGrammar`, `RegexParser`, `RegexCompiler`, `RegexMachine`, `RegexSemantics`, `RegexCorrectness`, `RegexLoops`, `RegexPaths`, `RegexVm`, `RegexTests` |
| dates and times | `Calendar`, `IsoWeek`, `Timestamps`, `DateTrunc`, `Intervals`, `IntervalLaws`, `Zones`, `ZoneLaws`, `DateText`, `DateTextRoundTrip`, `DateTextOrders`, `DateTextForms` |
| numbers as text | `Decimal`, `NumPicture`, `NumToChar`, `NumFromChar`, `NumRoundTrip`, `NumSigns`, `NumSignsBack`, `NumNodes`, `NumScientific`, `Roman` |
| COPY | `CopyTypes`, `CopyCsv`, `CopyCsvRoundTrip`, `CopyCsvEnds`, `CopyText`, `CopyFormats` |
| replication | `Walsender`, `WalsenderDelivery`, `WalsenderSlots`, `WalsenderPositions`, `WalsenderServer` |
| bit strings, authentication | `Bits`, `Base64`, `Scram` |
| shared | `Wrappers`, `Text`, `Integers`, `ByteStrings` |

The main results, hardest first:

- *Regex.* The compiled program, run without a budget, stops with the first outcome of an ordered
  semantics of the pattern, captures included (`RegexCorrectness.CompiledRunsFirstOutcome`). For
  every pattern and every budget, accepting means a match and giving up with budget left means
  there is none (`RegexPaths.RunDecidesMatching`), so the search with its reused buffers reports
  the leftmost match unless an attempt runs out of budget (`RegexVm.Compiled.FindAt`). A pattern
  text is accepted with a tree exactly when it spells that tree in a concrete syntax
  (`RegexGrammar.AcceptsSpellings`). What each character test takes is stated in characters, up to
  a search for `\d` that finds the first digit (`RegexTests.SearchEscape`).
- *Numeric pictures.* For pictures of digit slots, group commas between slots and one point, what
  `to_char` prints has the width of the picture, and `to_number` reads back the number rounded
  half away from zero exactly when it fits (`NumRoundTrip.ToCharToNumber`). MI, PL, SG, S and PR
  move or replace the sign and change nothing else (`NumSigns.SignsShown`), and with each of them
  the number reads back with its sign (`NumSignsBack.SignsReadBack`). Roman numerals and
  scientific texts read back too (`NumNodes.RomanRoundTrip`, `NumScientific.ScientificReadsBack`).
- *Walsender.* Over every interleaving a session has sent the lines of exactly the frames of its
  window, in order and once each, if and only if no round of it found something to send while a
  frame with changes, unread, lay before the truncation point (`WalsenderDelivery.DeliveryExactly`).
  A checkpoint makes such frames: `CheckpointLosesFrame` is a run that loses one, and a run whose
  checkpoints and starts are careful loses nothing (`CarefulLosesNothing`). Over successive
  sessions the clients of a slot that confirm only what they were sent receive every change since
  the slot was created, if checkpoints wait for the confirmed position
  (`WalsenderSlots.SlotReceivesAll`, `RoundCatchesUp`). The positions of a slot are exactly the
  maxima of what was reported and marked, and no later session sends what was confirmed
  (`WalsenderPositions.PositionsExactly`, `ConfirmedNotResent`).
- *Dates.* Conversions are inverse and agree with a day-by-day calendar; truncation is a floor;
  `age` accounts for the whole difference; daylight time round trips but for one hour; ISO texts
  read back under every date order. What each order, month name, compact form, Julian day, offset
  and twelve-hour clock means is stated on texts, for every valid date (`DateTextOrders`,
  `DateTextForms`), and adding an interval on days, months and micros (`IntervalLaws`).
- *COPY.* The run-batched CSV parser equals a byte-at-a-time one; both formats round trip under
  exact conditions. Either line break gives the same rows, an unfinished last line counts, and
  wrong column counts and open quotes are reported with their lines (`CopyCsvEnds`, `CopyFormats`).
- *SCRAM.* The honest exchange is always accepted and answered with the signature the client
  expects, and nothing else is accepted than the stated condition says.

Where the code and its promises part, the code is modelled and the exact condition is proved (for
the first item, on a class of patterns):

- A greedy loop over a body that can match empty uses up every step budget (src/regex.rs:628-635).
  Patterns that must meet such a loop never stop, though they may match (`RegexLoops.DoomedExhausts`,
  `NullableMatches`); patterns whose loop bodies all consume always stop
  (`NoEmptyLoopIsProductive`); for chains of greedy loops this is the exact condition
  (`ChainStopsExactly`). For other patterns it depends on the subject.
- `decade` truncates negative years past the instant (src/datetime.rs:2671):
  `DateTrunc.DecadeFloorExactly`, with an instant in `DecadePastInstant`.
- A timestamp printed at an offset with seconds cannot be read back, because a glued offset of
  more than six characters is not split off (src/datetime.rs:1343-1362):
  `DateTextRoundTrip.TimestamptzRoundTrip`, with two instants in `InstantsLost`.
- The CSV parser keeps its field buffer after a NULL (src/copy.rs:265-272), and the formatter does
  not escape the escape byte (src/copy.rs:88-95): `CopyCsvRoundTrip.CsvRoundTripExactly`, with rows
  in `NullIsLost` and `EscapeIsLost`. Text rows that print as an empty last line, or texts that
  print as the NULL string, are lost: `CopyText.TextRoundTripExactly`.
- A CSV line that is one empty, unquoted field is no line at all when it has no line break
  (src/copy.rs:355-369): `CopyCsvEnds.UnfinishedLine`.
- The two-digit year 00 is refused, though 01 to 69 are 2001 to 2069, because the check for the
  year zero looks at the year before the pivot (src/datetime.rs:1847-1866):
  `DateTextOrders.TwoDigitYears`, `DateTextForms.ShortCompactDates`.
- Adding an interval is refused when its days alone leave 64 bits, even where its time would lead
  back (src/datetime.rs:3921-3927): `IntervalLaws.AddsDaysAndTime`, with one in `DaysOverflow`.
- Before 1970 the day of the clock is rounded towards zero, so `today` is late by one
  (src/datetime.rs:1945-1953): `DateTextForms.TodayExactly`.
- With FM a group comma in the text takes the slot of a digit (src/numfmt_fromchar.rs:246-270), so
  1,234 is read as 123: `NumSignsBack.FillCommaLost`.
- A checkpoint truncates the log whatever the slots still need (src/wal/writer.rs:424-434, 1085-1090):
  `WalsenderDelivery.DeliveryExactly`; what is truncated unread never arrives (`TruncatedIsGone`).
- The base64 decoder takes pads inside the text and stray low bits: `Base64.EncodeDecode`, with
  texts in `TextsNotCanonical`.
- SCRAM exchanges may begin with the headers `y,,` and `p,,` (src/crypto.rs:650-655), but the only
  binding accepted is that of `n,,`: `Scram.OtherHeadersRefused`.

## Model

| member | source | states |
|---|---|---|
| `RegexParser.Parser.ParseAlt` | src/regex.rs:195-206 | the loop over bars reads what the grammar reads: the branches in order, a single one unwrapped, the same rest, group count and errors |
| `RegexGrammar.AcceptsSpellings` | src/regex.rs:116-362 | a pattern is accepted with a tree and a group count exactly when a concrete syntax with that meaning spells it: atoms, escapes, every quantifier form, groups and clusters, with the rules for what may follow what |
| `RegexGrammar.ReadsBranches` | src/regex.rs:195-222 | every spelling of branches is read back as its meaning, up to the closing parenthesis or the end, and its groups are numbered by their opening parentheses |
| `RegexGrammar.SpellsAtom` | src/regex.rs:292-362 | whatever atom is read has a spelling that is the text taken and means the tree returned |
| `RegexParser.AltParsed` | src/regex.rs:195-322 | every tree that is read is well formed - no counted repetition is inverted - and its groups are the next numbers in the order of their opening parentheses |
| `RegexParser.Parser.ParseSeq` | src/regex.rs:208-222 | the loop over items reads what the grammar reads, up to a bar, a closing parenthesis or the end |
| `RegexParser.Parser.ParseRepeat` | src/regex.rs:224-265 | an atom and its quantifier are read as the grammar reads them, with the same tree, rest and errors |
| `RegexParser.Parser.ParseQuantifier` | src/regex.rs:224-265 | reads the quantifier the grammar reads: star, plus, question mark or braces, with the laziness mark |
| `RegexGrammar.SpellsQuant` | src/regex.rs:224-275 | the bounds and the laziness are those that the consumed text spells, and the numbers fit 32 bits and are not inverted |
| `RegexParser.Parser.ParseBounds` | src/regex.rs:241-263 | braces are read as n, n and up, or n to m, or refused with the error of the grammar |
| `RegexParser.Parser.ParseNum` | src/regex.rs:277-290 | the loop takes the longest digit run and returns its value if there is one and it fits 32 bits, else the error |
| `RegexParser.Parser.ParseAtom` | src/regex.rs:292-322 | an atom is read as the grammar reads it; a capturing group takes the next number before its body is parsed |
| `RegexParser.Parser.ParseEscape` | src/regex.rs:324-362 | an escape stands for its class, complement, back-reference or literal |
| `RegexParser.ParsePattern` | src/regex.rs:116-136 | returns the tree and the group count that the grammar reads, or its error; the groups are numbered from 1 to the group count, and the tree is well formed |
| `RegexVm.CompileOpts` | src/regex.rs:116-157 | a compiled pattern is the program of the tree that its text spells, with as many groups as the pattern has; other texts give the error of the parser |
| `RegexCompiler.CodeContained` | src/regex.rs:483-598 | every jump and split target of compiled code stays inside that code or at its end |
| `RegexCompiler.PatchedAlt` | src/regex.rs:511-541 | patching the splits and the final jumps of an alternation afterwards gives the same code as knowing the addresses beforehand |
| `RegexCompiler.Compiler.CompileAst` | src/regex.rs:483-598 | appends the code of the tree at the current address, and restores the ambient laziness |
| `RegexCompiler.Compiler.CompileAlt` | src/regex.rs:511-541 | appends the code of the branches, in order, each but the last behind a split |
| `RegexCompiler.Compiler.CompileRepeat` | src/regex.rs:542-588 | appends m copies and then n-m optional copies or a loop, lazy when it or an enclosing repetition is |
| `RegexCompiler.Compile` | src/regex.rs:138-144 | a whole pattern compiles to its code followed by the match instruction |
| `RegexMachine.ExecMonotone` | src/regex.rs:648-773 | a larger step budget never changes a verdict that was reached |
| `RegexMachine.ReachesUnique` | src/regex.rs:648-773 | any budget that suffices gives the one verdict of the unbudgeted run |
| `RegexSemantics.OutcomesAreMatches` | src/regex.rs:483-598 | the ordered outcomes of a pattern are exactly its matches, whatever the laziness |
| `RegexCorrectness.CompiledRunsFirstOutcome` | src/regex.rs:483-598 | compiler correctness with priority: the compiled pattern stops, and its verdict is the first outcome, end and captures, of the ordered semantics |
| `RegexPaths.ProgramClosed` | src/regex.rs:483-598 | all targets of a compiled program are inside the program, which ends in the match instruction |
| `RegexPaths.RunDecidesMatching` | src/regex.rs:648-773 | for every pattern and budget: an accepting run is a match, and a run that fails with budget left means there is none |
| `RegexPaths.NoneMissed` | src/regex.rs:648-773 | an existing match is never reported as a failure |
| `RegexPaths.MatchKeepsZero` | src/regex.rs:621-642 | matching never touches capture 0, where the search keeps its start |
| `RegexVm.Scratch.Backtrack` | src/regex.rs:776-790 | resumes the most recent alternative with its position and captures, or reports that none is left |
| `RegexVm.Compiled.Run` | src/regex.rs:648-773 | one attempt returns true exactly when the machine accepts within the budget, and leaves the accepted captures |
| `RegexVm.Compiled.Test` | src/regex.rs:675-740 | a test instruction accepts exactly when the specification advances, to the same position |
| `RegexVm.Compiled.FindAt` | src/regex.rs:621-642 | reports a match at the leftmost start; every start before it, or every start when none is reported, has no match or used up its budget |
| `RegexTests.ClassTakes` | src/regex.rs:648-773 | a class takes exactly the characters listed or between the ends of a range, both ends included; a negated class takes exactly the others, but no newline where newlines are special |
| `RegexTests.RangeTakes` | src/regex.rs:36-45 | a class of one range steps over a character exactly when it lies between its ends, and negated exactly when not |
| `RegexTests.EscapeTakes` | src/regex.rs:324-362 | the digits for d; ASCII letters, digits and underscore for w; the six blanks for s; the complements for the capitals |
| `RegexTests.DotTakes` | src/regex.rs:648-773 | any character, but no newline where newlines are special |
| `RegexTests.LitTakes` | src/regex.rs:648-773 | a literal takes itself, or without case what has the same lower case |
| `RegexTests.AnchorsTake` | src/regex.rs:648-773 | the anchors match without moving at the beginning and the end of the subject, or of a line where newlines are special |
| `RegexTests.BackRefTakes` | src/regex.rs:648-773 | a back-reference takes the captured text once more |
| `RegexTests.SearchClass` | src/regex.rs:605-646 | a search for a class finds the first character it takes, as a match of length one |
| `RegexTests.SearchEscape` | src/regex.rs:105-157 | from the pattern text: a search for an escape finds the first character of its set |
| `RegexTests.GroupCaptures` | src/regex.rs:648-773 | a group captures exactly the text it matched |
| `RegexTests.OthersKept` | src/regex.rs:648-773 | matching changes only the captures of its own groups |
| `RegexTests.StarPrefers` | src/regex.rs:542-588 | a greedy loop over a class prefers the longest run, a lazy one the shortest |
| `RegexTests.AltPrefers` | src/regex.rs:511-541 | branches are preferred from left to right |
| `RegexLoops.NoEmptyLoopIsProductive` | src/regex.rs:628-635 | loops whose bodies must consume a character meet the condition of compiler correctness on every subject |
| `RegexLoops.DoomedExhausts` | src/regex.rs:628-635 | a pattern that must meet a greedy loop over a nullable body exhausts every budget, on every subject, from every position and captures, whatever waits behind it |
| `RegexLoops.EmptyLoopFatal` | src/regex.rs:560-588 | a thread that enters a greedy loop over a nullable body is still going after any number of steps, whatever follows the loop |
| `RegexLoops.NullableFatal` | src/regex.rs:483-598 | code that can match empty in front of such a loop leads into it, because its failing branches come back to an empty one |
| `RegexLoops.NullableMatches` | src/regex.rs:483-598 | a nullable pattern matches at every position without moving |
| `RegexLoops.PlainDichotomy` | src/regex.rs:483-598 | a pattern without anchors and back-references either must consume or can match empty anywhere |
| `RegexLoops.ChainStopsExactly` | src/regex.rs:628-635 | a chain of greedy loops stops within some budget exactly when every loop body consumes, whatever the subject |
| `Calendar.DaysOfNaiveDate` | src/datetime.rs:162-170 | the closed formula counts the days that a day-by-day calendar counts |
| `Calendar.DaysOfCivil` | src/datetime.rs:173-184 | the date of a day number is valid and has that day number |
| `Calendar.CivilOfDays` | src/datetime.rs:162-184 | every valid date comes back from its day number |
| `Calendar.CivilIsNaive` | src/datetime.rs:173-203 | the date of a day number is the one reached by stepping one day at a time from 1970-01-01 |
| `Calendar.DaysMonotone` | src/datetime.rs:162-170 | day numbers order valid dates as the calendar does |
| `Calendar.FiniteDates` | src/datetime.rs:205-237 | the first finite date is 4714-11-24 BC, and every finite date has a year that fits 32 bits |
| `IsoWeek.WeeksInYear` | src/datetime.rs:281-291 | an ISO year has 52 or 53 weeks |
| `IsoWeek.IsoWeekRoundTrip` | src/datetime.rs:281-291 | the week of a day is between 1 and 53, and year, week and weekday rebuild the day |
| `IsoWeek.IsoWeekOfBuiltDay` | src/datetime.rs:5382-5402 | every week and weekday of an ISO year name one day, whose ISO year, week and weekday they are |
| `Timestamps.SplitIsFloor` | src/datetime.rs:240-249 | splitting into days and time of day is the Euclidean division |
| `Timestamps.ClockFields` | src/datetime.rs:2319-2325 | hours, minutes, seconds and micros of a time of day recompose it |
| `DateTrunc.CenturyUniform` | src/datetime.rs:2595-2622 | the BC and AD century formulas are one floor formula |
| `DateTrunc.MillenniumUniform` | src/datetime.rs:2604-2631 | the BC and AD millennium formulas are one floor formula |
| `DateTrunc.TruncateIsFloor` | src/datetime.rs:2634-2687 | truncation gives the last boundary of the unit at or before the instant, decades of negative years aside |
| `DateTrunc.DecadeFloorExactly` | src/datetime.rs:2671 | a decade is truncated to at or before the instant exactly when the year is not negative or starts its decade |
| `DateTrunc.DecadePastInstant` | src/datetime.rs:2671 | noon of 1 July 6 BC is truncated forward, to the start of 1 BC |
| `DateTrunc.TruncateIdempotent` | src/datetime.rs:2634-2687 | truncating twice changes nothing more, for every unit and instant |
| `DateTrunc.TruncateMonotone` | src/datetime.rs:2634-2687 | truncation keeps the order of instants, for every unit |
| `DateTrunc.TruncateNests` | src/datetime.rs:2634-2687 | truncating to a finer unit first does not change a coarser truncation, for every instant |
| `Intervals.DiffAddsBack` | src/datetime.rs:4100-4125 | the difference of two timestamps has the sign of the difference in every field, and added to the second gives the first |
| `Intervals.MonthsRoundTrip` | src/datetime.rs:3892-3932 | adding then subtracting n months returns month, year and time, with the day clamped to the intermediate month, so at most three days are lost |
| `Intervals.BorrowClock` | src/datetime.rs:4054-4069 | the borrow loops each run at most once and leave the exact difference in range |
| `Intervals.Age` | src/datetime.rs:4015-4094 | the fieldwise subtraction with borrows and restored sign, and the infinite cases |
| `Intervals.AgeForwardRange` | src/datetime.rs:4015-4094 | months are not negative, days at most 31 and micros below a day |
| `Intervals.AgeSign` | src/datetime.rs:4015-4094 | age is antisymmetric and all its fields have the sign of the difference |
| `Intervals.AgeAccounts` | src/datetime.rs:4015-4094 | months are the month difference less at most one, and days with micros make up the rest with the earlier month's length |
| `Intervals.AgeAddsBack` | src/datetime.rs:4015-4094 | adding the age back gives the later timestamp exactly when the borrowed month balances |
| `IntervalLaws.AddsDaysAndTime` | src/datetime.rs:3892-3932 | for both signs an interval without months yields the timestamp moved by its days of 24 hours and its micros, exactly when that is in range and the step by the days fits 64 bits |
| `IntervalLaws.MovesExactly` | src/datetime.rs:3892-3932 | days alone, or time alone, move the timestamp by exactly that much when the result is in range |
| `IntervalLaws.DaysOverflow` | src/datetime.rs:3892-3932 | an interval whose days leave 64 bits is refused though its time would lead back |
| `IntervalLaws.SubtractingNegates` | src/datetime.rs:3892-3932 | subtracting an interval is adding its negation, months included |
| `IntervalLaws.MonthsFirst` | src/datetime.rs:3892-3932 | days and time are applied to the timestamp in the clamped month |
| `IntervalLaws.ClampsExactly` | src/datetime.rs:3892-3932 | the month moves by n, and the day stays unless the month is too short for it |
| `IntervalLaws.InfiniteSums` | src/datetime.rs:3892-3932 | sums with infinite timestamps and intervals, for both signs |
| `IntervalLaws.InfiniteDifferences` | src/datetime.rs:4100-4130 | differences with an infinity have its sign, and equal infinities have none |
| `Zones.NthWeekdayIs` | src/datetime.rs:712-723 | the n-th weekday, n in 1..4, is the only day of the month that is that weekday with n-1 whole weeks before it |
| `Zones.LastWeekdayIs` | src/datetime.rs:712-723 | the last weekday is the only one with none a week later in the month |
| `Zones.TransitionsApart` | src/datetime.rs:731-806 | the transitions of a year are in order, a day or more apart and two days from the new year |
| `Zones.DaylightEndsSoon` | src/datetime.rs:731-806 | daylight time ends within the hour exactly in its last hour |
| `Zones.LocalRoundTrip` | src/datetime.rs:1165-1171 | UTC to local and back is the identity except in the last hour of daylight time, which comes back one hour later |
| `ZoneLaws.Weekdays` | src/datetime.rs:712-723 | 1 January 1970 was a Thursday, and every day is followed by the next weekday |
| `ZoneLaws.RulesAreDates` | src/datetime.rs:731-806 | the transitions of the four rules as Sundays of their months, counted from the first or the last, with their hours |
| `ZoneLaws.DaylightBetween` | src/datetime.rs:731-806 | daylight time is one hour ahead exactly between a start and the end that follows it |
| `DateText.AssignYmdSeq` | src/datetime.rs:1760-1844 | the loop over the date parts assigns year, month and day as the slot rules say, under every date order |
| `DateText.DecodeDatetime` | src/datetime.rs:1420-1742 | the loop over the fields of the input decodes them in turn |
| `DateTextRoundTrip.FracStr` | src/datetime.rs:2308-2317 | the fraction printed has no trailing zero |
| `DateTextRoundTrip.FractionBack` | src/datetime.rs:1388-1404 | the trimmed fraction reads back as the same micros |
| `DateTextRoundTrip.AssignsInOrder` | src/datetime.rs:1760-1844 | under every date order a year of three digits or more makes the parts year, month and day |
| `DateTextRoundTrip.YearBack` | src/datetime.rs:1847-1866 | a printed year and era give back the civil year |
| `DateTextRoundTrip.OffsetBack` | src/datetime.rs:668-708 | an offset of whole minutes below sixteen hours reads back |
| `DateTextRoundTrip.Glued` | src/datetime.rs:1343-1362 | an offset glued to a time is split off exactly when it has no seconds |
| `DateTextRoundTrip.ClockAlone` | src/datetime.rs:1343-1417 | a printed time of day reads back |
| `DateTextRoundTrip.ClockWithOffset` | src/datetime.rs:1343-1417 | a time with a glued offset reads back both when the offset has whole minutes, and is refused otherwise |
| `DateTextRoundTrip.DecodesLocal` | src/datetime.rs:1420-1742 | a printed local time decodes to the days of its date and what its clock field says |
| `DateTextRoundTrip.DateRoundTrip` | src/datetime.rs:1957-1974 | every finite date reads back from its ISO text under every date order, BC years included |
| `DateTextRoundTrip.TimestampRoundTrip` | src/datetime.rs:1979-2044 | every finite timestamp reads back from its ISO text under every date order, with BC years, long years and trimmed fractions |
| `DateTextRoundTrip.TimestamptzRoundTrip` | src/datetime.rs:2394-2429 | a timestamp printed at an offset reads back exactly when the offset has whole minutes and the local date is not before the first |
| `DateTextRoundTrip.InstantsLost` | src/datetime.rs:1343-1362 | an instant at an offset with seconds, and the first instant at an offset behind UTC, do not read back |
| `DateTextOrders.OrderAssigns` | src/datetime.rs:1760-1845 | three numbers are assigned to year, month and day as the order of the session says |
| `DateTextOrders.FourDigitYears` | src/datetime.rs:1420-1742 | every date with a year of four digits reads back from its text in each order, with any of the three marks |
| `DateTextOrders.TwoDigitYears` | src/datetime.rs:1847-1866 | two-digit years stand for 1970 to 2069 in each order, except that 00 is refused |
| `DateTextOrders.NamesExactly` | src/datetime.rs:1215-1264 | the names of a month are its long and its short name and sept, in any case |
| `DateTextOrders.NameFixesMonth` | src/datetime.rs:1760-1845 | a month name fixes the month wherever it stands, under every order |
| `DateTextOrders.NamedDates` | src/datetime.rs:1420-1742 | a date with its month spelled out, day or year first, reads back under every order |
| `DateTextOrders.SpokenDates` | src/datetime.rs:1420-1742 | a spelled-out month, the day, a comma and the year read back under every order |
| `DateTextForms.CompactDates` | src/datetime.rs:1878-1896 | eight digits are year, month and day, or refused when they are no date |
| `DateTextForms.ShortCompactDates` | src/datetime.rs:1847-1896 | six digits are a date by the pivot of 70; the year 00 is refused |
| `DateTextForms.JulianDates` | src/datetime.rs:1420-1725 | J and a number is the day with that Julian number, from the first date on |
| `DateTextForms.YearDays` | src/datetime.rs:1420-1725 | a year, a point and the day of the year is that date |
| `DateTextForms.FractionRounds` | src/datetime.rs:1343-1418 | any number of places is rounded to micros, half up |
| `DateTextForms.OffsetForms` | src/datetime.rs:668-708 | the five forms of an offset stand for hours, minutes and seconds east or west; more than fifteen hours are refused |
| `DateTextForms.TwelveHourClock` | src/datetime.rs:1727-1758 | with AM or PM the hours 1 to 12 are read with 12 AM as midnight and 12 PM as noon; others are refused |
| `DateTextForms.ClockTimes` | src/datetime.rs:1343-1418 | a date and a clock text are that many micros after midnight: 24:00:00 is the next midnight, a sixtieth second the next minute, and nothing beyond is read |
| `DateTextForms.CompactTimestamps` | src/datetime.rs:1300-1341 | eight digits and six digits are a date and a time |
| `DateTextForms.SpecialDates` | src/datetime.rs:1909-1977 | today, tomorrow, yesterday, now and epoch, in any case and between blanks |
| `DateTextForms.TodayExactly` | src/datetime.rs:1945-1953 | today is the day of the clock exactly from 1970 on and at midnights before |
| `Roman.IntToRoman` | src/numfmt_tochar.rs:11-27 | the numeral of 1..3999, fifteen hashes otherwise |
| `Roman.RomanToInt` | src/numfmt_fromchar.rs:15-127 | after white space, at most fifteen numerals of either case are taken; they are accepted exactly when they are the canonical numeral of a value in 1..3999, which is returned with the length consumed |
| `Roman.Decode` | src/numfmt_fromchar.rs:49-126 | the counting loop computes the verdict of the rules on the numerals that are left |
| `Roman.Sound` | src/numfmt_fromchar.rs:49-126 | whatever the acceptor takes, from any state it can be in, is the canonical numeral of the value it returns |
| `Roman.Complete` | src/numfmt_fromchar.rs:49-126 | every canonical numeral that may still follow is taken, with its value |
| `Roman.AcceptsExactly` | src/numfmt_fromchar.rs:15-127 | the acceptor's loop is the inverse of the writer |
| `Roman.NumeralLength` | src/numfmt_fromchar.rs:22-40 | no canonical numeral is longer than the fifteen numerals that are read |
| `Roman.CollectsWhole` | src/numfmt_fromchar.rs:15-45 | white space and a canonical numeral of either case are collected whole |
| `NumPicture.ParsePicture` | src/numfmt.rs:221-452 | the scanning loop with its quoted parts gives the picture or the error of the element rules |
| `NumPicture.ParsedCoherent` | src/numfmt.rs:221-452 | in every picture that parses the slots are counted once, there is at most one point, V excludes it, the zero mark lies among the integer slots, S excludes the other sign styles, and Roman excludes signs, points and zeros |
| `NumPicture.PlainParses` | src/numfmt.rs:221-452 | texts of digits, well-placed commas and one point parse to pictures without flags whose counts are those of the text |
| `Decimal.AddOne` | src/numfmt_tochar.rs:74-103 | the carry loop adds one, and says whether it ran out |
| `Decimal.RoundNearest` | src/numfmt_tochar.rs:68-115 | the rounded value is the nearest one, and on a tie the one away from zero |
| `NumToChar.NumericDigits` | src/numfmt_tochar.rs:119-141 | integer and fraction digits have the magnitude and the scale of the number |
| `NumToChar.RoundDigits` | src/numfmt_tochar.rs:68-115 | the result has exactly the places asked for and is the value rounded half away from zero |
| `NumToChar.PreparePlain` | src/numfmt_tochar.rs:227-268 | the digits printed are those of the shifted and rounded value, with the blanks left before them, or overflow |
| `NumToChar.LastRelevantIs` | src/numfmt_tochar.rs:51-60 | the last relevant place is the last non-zero one after the point, or the point |
| `NumToChar.ToChar.Numpart` | src/numfmt_tochar.rs:412-508 | one slot or point: sign, blank, padding, point or digit, and the closing mark |
| `NumToChar.ToChar.Run` | src/numfmt_tochar.rs:512-594 | the node loop emits what the nodes say until the digits run out |
| `NumToChar.NumericOutSci` | src/numfmt_tochar.rs:145-222 | sign, one digit, the places and the exponent: the loops produce the number rounded half away from zero to the significant digits asked for |
| `NumToChar.SciSignificand` | src/numfmt_tochar.rs:145-222 | the exponent is that of the number, and the rounded significand lies between one and ten, ten included, since it is not normalized again |
| `NumToChar.NumericToChar` | src/numfmt_tochar.rs:599-672 | the text of a finite number under a picture: Roman, scientific or plain |
| `NumFromChar.FromChar.Numpart` | src/numfmt_fromchar.rs:162-244 | one slot or point: a blank, a sign, a digit or the point, and a sign behind |
| `NumFromChar.FromChar.Run` | src/numfmt_fromchar.rs:246-364 | the node loop scans what the nodes take until the text ends |
| `NumFromChar.ParseStdNumeric` | src/numfmt_fromchar.rs:413-468 | after trimming, a sign, digits, a point and an exponent give the normalized number, or the error |
| `NumFromChar.ToNumber` | src/numfmt_fromchar.rs:371-409 | the number read from a text under a picture, or the error |
| `NumRoundTrip.WriteInteger` | src/numfmt_tochar.rs:412-594 | after the sign a plain picture prints its own shape filled with the padding and the digits |
| `NumRoundTrip.WriteBlanks` | src/numfmt_tochar.rs:412-594 | before the first digit come blanks, one for each slot and comma, and the sign |
| `NumRoundTrip.WriteToPoint` | src/numfmt_tochar.rs:393-398 | a value below one leaves its zero blank, and the sign stands before the point |
| `NumRoundTrip.ReadShape` | src/numfmt_fromchar.rs:162-364 | reading a filled shape collects every digit and the point and drops the commas, even when the scan runs ahead of the picture |
| `NumRoundTrip.ReadMargin` | src/numfmt_fromchar.rs:162-244 | blanks are taken two to a slot, so the sign and all the digits are reached before the picture ends |
| `NumRoundTrip.ReadOverflow` | src/numfmt_fromchar.rs:413-468 | a text without digits is not read as a number |
| `NumRoundTrip.ToCharWidth` | src/numfmt_tochar.rs:599-672 | the width of the output is that of the picture whatever the number, overflow included |
| `NumRoundTrip.ToCharToNumber` | src/numfmt_fromchar.rs:371-409 | reading back what was printed gives the number rounded half away from zero to the places of the picture, exactly when its integer part fits the picture and its digits fit 128 bits |
| `NumRoundTrip.PictureRoundTrip` | src/numfmt.rs:221-452 | for every picture text of digits, well-placed commas and one point: the output is one character longer than the picture, and reads back rounded exactly when it fits |
| `NumRoundTrip.NormalizedValue` | src/numfmt_fromchar.rs:461-468 | normalizing keeps the value and leaves no trailing zero place |
| `NumSigns.SignsShown` | src/numfmt_tochar.rs:290-594 | with MI, PL or SG before or behind the digits, with or without FM, and with S or PR, the text is that of the plain picture with the marks of the number's sign in their places |
| `NumSigns.LeadingParses` | src/numfmt.rs:221-452 | MI, PL and SG before a plain picture text, with or without FM, parse to the plain picture with that sign style |
| `NumSigns.TrailingParses` | src/numfmt.rs:221-452 | and behind it |
| `NumSigns.OtherStylesParse` | src/numfmt.rs:221-452 | S before or behind a plain picture text, and PR, parse to the plain picture with that style |
| `NumSignsBack.SignsReadBack` | src/numfmt_fromchar.rs:162-409 | with every sign style the printed text reads back as the rounded number with its sign, exactly when it fits |
| `NumSignsBack.FillCommaLost` | src/numfmt_fromchar.rs:246-270 | with FM a group comma takes a slot, and 1,234 is read as 123 |
| `NumNodes.OrdinalShown` | src/numfmt_tochar.rs:31-48 | TH adds the English suffix of the rounded number, unless it is negative, has a point in its picture or does not fit |
| `NumNodes.RomanRoundTrip` | src/numfmt_tochar.rs:599-640 | what RN prints, in either case and with or without FM, reads back as the rounded number from 1 to 3999; other numbers print hashes, which are refused |
| `NumNodes.RomanParses` | src/numfmt.rs:221-452 | RN and rn, with or without FM, parse to the Roman pictures |
| `NumScientific.ScientificReadsBack` | src/numfmt_tochar.rs:145-224 | what EEEE prints stands for the number rounded to the places of its significand, with its sign, at its own exponent |
| `NumScientific.ExponentReads` | src/numfmt_fromchar.rs:413-468 | digits, a point, more digits and an exponent stand for the digits times a power of ten |
| `NumScientific.ShiftMultiplies` | src/numfmt_tochar.rs:227-270 | V multiplies by a power of ten before rounding |
| `CopyCsv.CsvParser.Parse` | src/copy.rs:233-369 | the run-batched parser returns what the byte-at-a-time scan returns |
| `CopyCsv.ParseCsvRows` | src/copy.rs:233-369 | for every input and option set: the same rows or the same error as pushing one byte at a time |
| `CopyCsvRoundTrip.FormatCsvRow` | src/copy.rs:74-103 | appends the fields, quoted where needed, between delimiters, and a line feed |
| `CopyCsvRoundTrip.CsvRoundTrip` | src/copy.rs:233-369 | formatted rows whose fields can come back parse back to themselves, less the header row |
| `CopyCsvRoundTrip.CsvRoundTripExactly` | src/copy.rs:233-369 | rows parse back exactly when the NULL string is empty or no field is NULL, and no quoted text ends in an escape byte other than the quote |
| `CopyCsvRoundTrip.NullIsLost` | src/copy.rs:265-272 | a NULL written as `\N` and a text after it do not come back |
| `CopyCsvRoundTrip.EscapeIsLost` | src/copy.rs:88-95 | a quoted text that ends in the escape byte does not come back |
| `CopyCsvEnds.EitherLineBreak` | src/copy.rs:233-369 | lines that end in CR LF or in LF alone give the same rows, less the header |
| `CopyCsvEnds.UnfinishedLine` | src/copy.rs:355-369 | a last line without a line break counts, header on or off; only a single field that prints as nothing is no line |
| `CopyCsvEnds.ColumnCountReported` | src/copy.rs:289-331 | a row with another number of columns is reported with both numbers and its line |
| `CopyCsvEnds.OpenQuoteReported` | src/copy.rs:355-369 | a quote that is never closed is reported on its line |
| `CopyCsvEnds.UnquotedLine` | src/copy.rs:233-369 | an unquoted line of one column is its bytes: quotes inside it and carriage returns not before a line feed are data |
| `CopyFormats.QuotedExactly` | src/copy.rs:74-103 | a text is written bare exactly when it holds no delimiter, quote or line break and is not the NULL string; otherwise it gains two quotes and an escape for each of its own |
| `CopyText.SplitLines` | src/copy.rs:119-137 | cuts at line feeds, drops a carriage return before them, and keeps an unfinished last line |
| `CopyText.SplitTextLine` | src/copy.rs:182-199 | cuts at delimiters that no backslash protects |
| `CopyText.UnescapeText` | src/copy.rs:202-231 | undoes the escapes, or reports a backslash at the end or invalid UTF-8 |
| `CopyText.ParseTextRows` | src/copy.rs:139-178 | the rows of the lines, or the error of the first bad one with its line number |
| `CopyText.EscapeText` | src/copy.rs:41-58 | appends the escaped text |
| `CopyText.FormatTextRow` | src/copy.rs:60-72 | appends the escaped fields and NULL strings between delimiters, and a line feed |
| `CopyText.UnescapeEscape` | src/copy.rs:41-58 | unescaping undoes escaping for every text |
| `CopyText.FieldsOfRow` | src/copy.rs:182-199 | a formatted row splits into the texts of its fields, and holds no line break |
| `CopyText.LinesOfRows` | src/copy.rs:119-137 | formatted rows split into one line each |
| `CopyText.TextReadsBack` | src/copy.rs:139-178 | what formatted rows read back as, dropped lines and lookalikes of NULL included |
| `CopyText.TextRoundTripExactly` | src/copy.rs:139-178 | rows come back unchanged exactly when there is no header, the last line is not empty and no text looks like NULL |
| `CopyText.TextRoundTrip` | src/copy.rs:139-178 | with the default NULL string and two columns or more every row comes back |
| `CopyFormats.EscapesMean` | src/copy.rs:202-231 | the six letters stand for control bytes, every other byte for itself, and a lone backslash is refused |
| `CopyFormats.PlainMeans` | src/copy.rs:202-231 | other bytes stand for themselves, and what follows is undone as alone |
| `CopyFormats.EitherEnd` | src/copy.rs:119-137 | lines ended by LF or CR LF are those lines, and a last line without an end is one more |
| `CopyFormats.FirstBadLine` | src/copy.rs:139-178 | reading stops at the first line that is no row, with its error |
| `CopyFormats.WrongColumns` | src/copy.rs:139-178 | a formatted row with another number of columns is reported with both numbers and its line |
| `Walsender.StepKeepsInv` | src/repl.rs:256-375 | every step - commit, checkpoint, slot commands, start, poll, feedback, end - keeps the invariant of slots, sessions and log |
| `Walsender.RunKeepsInv` | src/repl.rs:615-793 | whatever the interleaving, the invariant holds at the end |
| `Walsender.MessagesAreLines` | src/repl.rs:698-708 | the messages of a round carry the lines of its frames, in order |
| `WalsenderDelivery.DeliveryExactly` | src/repl.rs:674-793 | over every interleaving a session has sent the lines of exactly the frames with start <= lsn < next, in order and once each, if and only if no round of it, when there was something to send, passed over an unread truncated frame with changes |
| `WalsenderDelivery.PollDelivers` | src/repl.rs:681-717 | one round keeps the delivery complete exactly when it was complete and the round does not meet that guard, which can be checked before it |
| `WalsenderDelivery.OthersKeepDelivery` | src/repl.rs:615-793 | no other event - commit, checkpoint, slot command, feedback, or another session - changes what a session has delivered |
| `WalsenderDelivery.CheckpointLosesFrame` | src/wal/writer.rs:424-434 | a run of six events in which a change committed after the session began is never sent |
| `WalsenderDelivery.TruncatedIsGone` | src/wal/writer.rs:424-434 | an unread frame that a checkpoint truncated is never sent to the session, however the run goes on |
| `WalsenderDelivery.TruncatedBreaks` | src/repl.rs:681-717 | if such a frame has changes, the next commit and round break the delivery |
| `WalsenderDelivery.CarefulLosesNothing` | src/repl.rs:674-793 | if every checkpoint waits until the live sessions have read everything, and no session starts before a truncated frame, nothing is lost |
| `WalsenderDelivery.NoCheckpointNoGap` | src/repl.rs:674-793 | without checkpoints nothing is lost |
| `WalsenderSlots.SlotReceivesAll` | src/repl.rs:615-793 | over successive sessions, whatever the interleaving, every frame behind a slot that was not confirmed at the beginning has been sent whole to a client of the slot, if the clients confirm only what they were sent and checkpoints wait for the confirmed position |
| `WalsenderSlots.RoundCatchesUp` | src/repl.rs:681-717 | after a round of the slot's session every frame of the log not confirmed at the beginning has been sent to a client of the slot |
| `WalsenderSlots.NewSlotRetained` | src/repl.rs:256-335 | a slot just created meets the premises, and only older frames count as confirmed |
| `WalsenderSlots.NewMessagesAreSent` | src/repl.rs:698-708 | what a round adds to the messages of a session is what it counts for the clients of the slot |
| `Walsender.SlotsOnlyAdvance` | src/repl.rs:709-752 | confirmed and restart positions never move back, confirmed stays at or below restart, and only an idle slot is dropped |
| `Walsender.SlotsAdvanceOverRuns` | src/repl.rs:709-752 | over a run that keeps the slot its positions never move back |
| `Walsender.OneSessionPerSlot` | src/repl.rs:615-643 | a slot has at most one session, is not dropped while it has one, and a second start, from any position, is refused as active |
| `Walsender.ResumesConfirmed` | src/repl.rs:615-643 | a new session resumes at or after the confirmed position and the position asked for |
| `WalsenderPositions.PositionsExactly` | src/repl.rs:709-752 | over a run that keeps it, a slot is confirmed up to the highest position its sessions reported, and restarts at the highest that was reported or marked as sent, or where it was |
| `WalsenderPositions.ConfirmedSinceCreation` | src/repl.rs:256-335 | from its creation on: the maximum of the end of the log then and the reported positions |
| `WalsenderPositions.ConfirmedNotResent` | src/repl.rs:615-752 | after a session has confirmed f, a session started later on the slot sends no frame below f |
| `WalsenderPositions.RoundStamps` | src/repl.rs:698-708 | a round stamps every message with the end of the log at that moment |
| `WalsenderPositions.CreatesExactly` | src/repl.rs:256-335 | a slot is created exactly for a valid new name, type and plugin, at the end of the log |
| `WalsenderPositions.DropsExactly` | src/repl.rs:337-376 | exactly an existing idle slot is dropped |
| `WalsenderPositions.StartsExactly` | src/repl.rs:615-646 | a session starts exactly on an existing idle slot, at the later of the position asked for and the confirmed one |
| `WalsenderPositions.EndReleases` | src/repl.rs:650-668 | after its session has ended the slot is idle at the same positions |
| `WalsenderPositions.LogIsCommitted` | src/wal/writer.rs:424-434 | the log is what was committed, in order; nothing else adds or removes frames |
| `WalsenderServer.Server.PerformAll` | src/repl.rs:615-793 | any sequence of events takes the server through the run of the model, and the invariant holds at the end |
| `WalsenderServer.Server.CreateSlot` | src/repl.rs:256-335 | takes the create step, with its checks and its consistent point |
| `WalsenderServer.Server.DropSlot` | src/repl.rs:337-376 | takes the drop step; an active or missing slot is an error |
| `WalsenderServer.Server.StartSession` | src/repl.rs:615-646 | takes the start step: activates an idle slot and chooses the first position |
| `WalsenderServer.Server.SendFrames` | src/repl.rs:698-717 | the loop over the frames of a round sends their lines in order and finds the position behind the last |
| `WalsenderServer.Server.Poll` | src/repl.rs:681-717 | a round over the retained frames sends what the poll step sends and moves the position past them |
| `WalsenderServer.Server.Mark` | src/repl.rs:709-716 | takes the mark step: the restart position follows what was sent |
| `WalsenderServer.Server.Checkpoint` | src/wal/writer.rs:424-434 | takes the checkpoint step: the log is truncated whatever the slots have confirmed |
| `WalsenderServer.Server.EndSession` | src/repl.rs:650-668 | takes the end step: the slot is idle again |
| `WalsenderServer.Server.Feedback` | src/repl.rs:709-752 | takes the feedback step; a negative position counts as zero |
| `Bits.BitBits` | src/exec/bit.rs:11-21 | unpacks exactly the bits of the string |
| `Bits.BitFromBits` | src/exec/bit.rs:24-35 | packs bits into just enough bytes with zero pad bits |
| `Bits.PackedUnique` | src/exec/bit.rs:1-5 | a valid packed string is determined by its bits |
| `Bits.BitZip` | src/exec/bit.rs:39-73 | equal lengths give the operation bit by bit with zero pads; different lengths are an error |
| `Bits.BitNot` | src/exec/bit.rs:76-88 | every bit is inverted and the pad bits are zero again |
| `Bits.BitShift` | src/exec/bit.rs:95-120 | bits move by the signed count, zeros are filled in, and the length is kept; the cut-off of far negative counts shows only beyond the maximum length |
| `Bits.BitConcat` | src/exec/bit.rs:124-137 | the bits of one after the other, or an error above the maximum length |
| `Bits.BitSubstring` | src/exec/bit.rs:143-171 | the window of positions for every start and length; an end beyond 32 bits means the end of the string, which is the same window for lengths that fit 32 bits |
| `Bits.BitOverlay` | src/exec/bit.rs:176-193 | the bits before, the placing bits and the bits after the replaced positions, with the three errors |
| `Bits.OverlayItself` | src/exec/bit.rs:176-193 | laying a window over itself changes nothing |
| `Bits.ShiftBack` | src/exec/bit.rs:95-120 | shifting out and back clears exactly the bits shifted out |
| `Bits.BitPosition` | src/exec/bit.rs:198-211 | the first place where the needle occurs, or zero |
| `Bits.BitGetBit` | src/exec/bit.rs:231-234 | the bit at the index, or an error |
| `Bits.BitSetBit` | src/exec/bit.rs:238-250 | changes that bit alone, with the two errors |
| `Bits.BitCount` | src/exec/bit.rs:254-256 | counting byte by byte counts the bits, for the pad bits add nothing |
| `Base64.Base64Encode` | src/crypto.rs:482-498 | the loops over chunks produce the encoding |
| `Base64.Base64Decode` | src/crypto.rs:513-546 | the loops over chunks produce the decoding or refuse |
| `Base64.DecodeEncode` | src/crypto.rs:482-546 | decoding undoes encoding for every byte string |
| `Base64.EncodeDecode` | src/crypto.rs:513-546 | a text that decodes is its own encoding exactly when only its last group is padded and no dropped bit is set |
| `Base64.TextsNotCanonical` | src/crypto.rs:513-546 | a text with a pad inside and one with a stray low bit decode, but are not encodings |
| `Base64.GroupBits` | src/crypto.rs:482-498 | each character stands for six of the 24 bits from the highest, with zero bits and pads for missing bytes |
| `Scram.Pbkdf2` | src/crypto.rs:461-474 | the in-place XOR of the HMAC chain |
| `Scram.HiIsChain` | src/crypto.rs:461-474 | the salted password is the XOR of the HMAC chain counted from its front, as many links as the count says and at least one |
| `Scram.VerifierForPassword` | src/crypto.rs:594-609 | the stored and server keys of a password, salt and count |
| `Scram.Begin` | src/crypto.rs:648-685 | the exchange and the server-first message, or the error |
| `Scram.Verify` | src/crypto.rs:689-742 | accepts exactly a final with the binding of the plain header, the server's nonce and a proof that XORed with the client signature hashes to the stored key, and answers with the server signature |
| `Scram.XorBytesBack` | src/crypto.rs:726-730 | XOR with the signature is undone by XOR with it |
| `Scram.ServerAttributes` | src/crypto.rs:669-674 | nonce, salt and count are read back from the server-first message |
| `Scram.FindsProof` | src/crypto.rs:717-720 | the text before the proof is found again when the proof has no comma |
| `Scram.BindingIsHeader` | src/crypto.rs:702-705 | the accepted binding is the base64 form of the header n,, and of no other |
| `Scram.OtherHeadersRefused` | src/crypto.rs:648-706 | a client that binds the header y,, or p,, it sent is never accepted, though the exchange begins |
| `Scram.HonestAccepted` | src/crypto.rs:648-742 | the honest exchange is accepted for every password, salt, count, user name and comma-free nonce, and the answer is the signature the client computes from its password |

## Left out

- Sockets, message framing, threads and locks of the server: a walsender round is one step of the model, and writes succeed.
- Errors between slot activation and the streaming loop (src/repl.rs:644-653), which leave a slot active without a session.
- WalsenderSlots.SlotReceivesAll: for clients that ask for no position beyond the confirmed one, and at least once, not exactly once, since a new session repeats what was not confirmed.
- Decoding of WAL records into change lines: a frame carries its lines; the source reads the column names of the live table.
- Regex bracket classes and POSIX class names (src/regex.rs:364-457): read by a parameter that returns the class and its length.
- Regex expanded mode (src/regex.rs:176-193), the pattern cache (src/regex.rs:95-103), and Unicode case folding, which is a parameter the proofs assume nothing about.
- RegexLoops.NoEmptyLoopIsProductive: sufficient, not necessary; between it and RegexLoops.DoomedExhausts the subject decides, and only chains of greedy loops get an exact condition.
- Zone tables, abbreviations, Moscow history and POSIX zone rules (src/datetime.rs:297-660, 731-1160 beyond the four rules): data; for text input they are parameters.
- Date styles other than ISO on output, intervals as text, and the `to_char`/`to_date` format tokenizer.
- Floating point: `extract`, interval multiplication, `float_to_char_impl`.
- NaN and infinities in `to_char`, and the display scale of a number, which does not change its value.
- NumRoundTrip.ToCharToNumber: covers pictures of 9, 0, comma and point; one sign style is added by NumSignsBack.SignsReadBack. With FM, L, G, TH or V, and for mixtures of these, the processors are modelled but no round trip is stated.
- Integer casts: `i32` and `i64` values are unbounded integers, the exponent arithmetic of `parse_std_numeric` included; `Calendar.FiniteDates` shows that finite dates fit.
- UTF-8: COPY data are bytes and the check of the standard library is a parameter; texts elsewhere are sequences of characters.
- CopyCsvRoundTrip.CsvRoundTripExactly: without a header row, and for options whose special bytes differ and do not occur in the NULL string.
- DateTextForms.JulianDates: for texts the zone tables do not take for a zone, which are tried first.
- CopyCsvEnds.UnquotedLine: for one column; lines of several columns are covered by the formatted rows.
- DateTextRoundTrip.TimestamptzRoundTrip: for offsets below sixteen hours, as the zone parser allows, and local times that fit 64 bits.
- Bit strings: input syntax, casts and `bit_from_int`.
- SHA-256 and HMAC: parameters with 32-byte results; the random source of nonces and salts is a parameter too.
- The `COPY` binary format, compression and storage are not part of this model.
