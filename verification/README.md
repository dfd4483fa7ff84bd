# Kiwibes: its four algorithmic cores, modelled and proved

Kiwibes is a job scheduler with a REST interface. This project models, in Dafny, the parts of it that
compute or synchronise, and proves what they do for all inputs, all runs and all interleavings.

- **Cron** (`Calendar`, `CronSpec`, `CronSteps`, `CronFire`, `CronTheorems`, `CronExact`,
  `CronExamples`, `CronUnfold`, `Bits`, `CronImpl`, `CronText`, `CronParse`, `CronKiwibes`,
  `CronReadings`, `CronItems`, `CronNames`, `CronBound`, `CronTargets`): the civil calendar, the parser
  of six-field expressions and the computation of the next fire time in UTC. `CronSpec` and `CronFire`
  say as functions what each routine of the library computes, recursion and field resets included;
  `CronImpl` and `CronParse` are the imperative routines on byte arrays and a calendar that is changed
  in place, proved against those functions; the theorems are about the functions. The plain promise, the
  least matching second after the date, does not hold for every expression, so
  `CronExact.RightExactlyWhenSafe` says for which it holds: no more and no fewer than those with safe
  days, safe months and safe seconds (all in `CronTheorems`, all decided by one 400-year cycle). *Safe
  days*: from no day does the search for a day stop on another day with the same number, so that the
  code takes the day for unchanged, at a midnight that is no match. *Safe months*: no month step runs
  past the end of a shorter month that has an allowed day. *Safe seconds*: the seconds leave no gap, or
  every minute matches, or none does. `CronExamples` has a short expression for each way to be unsafe,
  and conditions anyone can recognise that are enough to be safe.
- **Guaranteed logger** (`NanoQueue`, `NanoInvariant`, `NanoTheorems`, `NanoRelease`, `NanoBytes`,
  `NanoPrint`, `NanoLine`, `NanoText`): the multi-producer queue of fixed-size buffers as a state
  machine of atomic steps, for any number of producers, any buffer size and every interleaving with the
  reader; and the log line, a tagged byte encoding in a buffer that moves from the stack to the heap and
  doubles. That no step uses a released buffer holds but for one step, and `NanoRelease` says exactly
  when that one does.
- **Jobs** (`JobsDatabase`, `JobsStatistics`, `JobsProtocol`, `JobsMeasured`, `JobsAccepted`,
  `JobsRounds`, `JobsManager`): the job records and what each database call does to them, the runtime
  statistics over the reals, the jobs manager as a class, and the two-lock protocol as a state machine
  in which database calls of other threads land between any two database calls of a lock section. A
  delete is *harmful* when it removes the job that the lock section has looked up and is about to launch
  or to mark as running (`JobsProtocol.Harmful`). The plain promises, that the two views of running
  agree and that accepted starts add up, fail after some such deletes (`JobsProtocol.HarmfulDelete`,
  `JobsProtocol.StartsDoNotAddUp`); for every run `JobsProtocol` says exactly when they hold.
- **HTTP codecs** (`HttpBytes`, `HttpStream`, `HttpChunked`, `HttpBodies`, `HttpUrl`, `HttpEscapes`):
  chunked transfer coding (section 4.1 of RFC 7230), written and read through a connection that hands
  over any part of its bytes at a time, and percent-encoding (section 2.1 of RFC 3986).

`Wrappers` holds the option type, bytes and the largest int. `dafny verify dfyconfig.toml` checks everything.

Where the code and its documentation differ the model follows the code: var-runtime is not the sample
variance that README.md:154 names (`JobsStatistics.NotTheSampleVariance`), and nbr-runs, which
README.md:158 calls the number of starts, does not count the running one (`JobsProtocol.RunsAreLaunches`).

What the environment decides is a parameter or a nondeterministic step: the clock, whether `fork`
succeeds and which unused process id it gives, when a child exits, how much of the input a read returns
and whether it fails, and what a stream callback returns.

## Model

| member | source | states |
|---|---|---|
| `CronExact.RightExactlyWhenSafe` | 3rd_party/ccronexpr/ccronexpr.c:397-485 | `cron_next` gives the least matching second after every date from the epoch on (or fails only when nothing matches up to the end of the fourth year after it) if and only if the expression has safe days, safe months and safe seconds; for every parsed expression |
| `CronExact.MatchesExactlyWhenDaysSafe` | 3rd_party/ccronexpr/ccronexpr.c:453-459 | every answer other than -1 from a date on or after the epoch matches all six fields if and only if the expression has safe days |
| `CronExact.SafeDaysInOneCycle` | 3rd_party/ccronexpr/ccronexpr.c:453-459 | safe days can be checked day by day over one 400-year cycle of the calendar |
| `CronExact.SafeMonthsInOneCycle` | 3rd_party/ccronexpr/ccronexpr.c:366-369 | safe months can be checked over one such cycle, each day against at most 31 others |
| `CronExact.SafeSecondsInOneCycle` | 3rd_party/ccronexpr/ccronexpr.c:426-428 | safe seconds can be checked over one such cycle |
| `CronTheorems.SafeIsRight` | 3rd_party/ccronexpr/ccronexpr.c:899-942 | from one date: with safe days, months and seconds the answer is the least match, or -1 and no match within reach |
| `CronExamples.SimpleIsRight` | 3rd_party/ccronexpr/ccronexpr.c:899-942 | the same for expressions a user can recognise: one day field is open, the seconds are one or all, and the months are all, or there is one day of the month, or none after the 28th |
| `CronExamples.OneDayFieldIsSafe` | 3rd_party/ccronexpr/ccronexpr.c:378-395 | one open day field is enough for safe days |
| `CronExamples.SimpleMonthsAreSafe` | 3rd_party/ccronexpr/ccronexpr.c:366-369 | with one open day field, all months, one day of the month, or days up to the 28th are enough for safe months |
| `CronTheorems.NextFireIsLeast` | 3rd_party/ccronexpr/ccronexpr.c:899-942 | an answer other than -1 lies after the date, matches all six fields, and no second between matches |
| `CronTheorems.NextFireSameMinute` | 3rd_party/ccronexpr/ccronexpr.c:426-428 | with any seconds set, the answer lies in the same minute as any match it passes over |
| `CronTheorems.NextFireMatches` | 3rd_party/ccronexpr/ccronexpr.c:436-469 | with safe days alone the answer matches all six fields |
| `CronTheorems.NextFireMovesForward` | 3rd_party/ccronexpr/ccronexpr.c:923-939 | every answer other than -1 lies strictly after the date, whatever the expression |
| `CronTheorems.NextFireFails` | 3rd_party/ccronexpr/ccronexpr.c:461-471 | when the year cutoff ends the search, no second matches up to the end of the fourth year after the date |
| `CronBound.AnswersInReach` | 3rd_party/ccronexpr/ccronexpr.c:464-468 | no answer, of any expression from any date, lies later than the first day from 1 December of the fourth year on that both day fields allow |
| `CronBound.FailsOutOfReach` | 3rd_party/ccronexpr/ccronexpr.c:464-468 | with safe days the answer is -1 when nothing matches up to that day |
| `CronBound.LeapDayOutOfReach` | 3rd_party/ccronexpr/ccronexpr.c:464-468 | `0 0 0 29 FEB *` from 1 March 2096 gives -1, although 29 February 2104 matches |
| `CronTheorems.DoNextGood` | 3rd_party/ccronexpr/ccronexpr.c:397-485 | where `do_next` ends: at an instant that matches, with no matching minute passed over, or past the cutoff with none passed over |
| `CronTheorems.StayPut` | 3rd_party/ccronexpr/ccronexpr.c:429-484 | from an instant that matches, `do_next` changes nothing: what the caller does after a recursive call returns is without effect |
| `CronFire.DoNext` | 3rd_party/ccronexpr/ccronexpr.c:397-485 | `do_next` terminates for every parsed expression (months left before the cutoff, then the distance to the next day and minute that minute, hour and day allow) and never moves the calendar back |
| `CronFire.MinuteAdvances` | 3rd_party/ccronexpr/ccronexpr.c:433-441 | the minute step gets closer to, and never beyond, the first minute that minute, hour and day allow |
| `CronFire.HourAdvances` | 3rd_party/ccronexpr/ccronexpr.c:443-451 | the same of the hour step |
| `CronFire.DayAdvances` | 3rd_party/ccronexpr/ccronexpr.c:453-459 | the same of the day step |
| `CronFire.MonthMoved` | 3rd_party/ccronexpr/ccronexpr.c:461-471 | the month step leaves fewer months before the cutoff |
| `CronExact.MisplacedDayFails` | 3rd_party/ccronexpr/ccronexpr.c:453-459 | an expression whose day step moves to another day of the same number has a date with a wrong answer |
| `CronExact.MissedDayFails` | 3rd_party/ccronexpr/ccronexpr.c:366-369 | an expression whose month step runs past a shorter month with an allowed day has a date with a wrong answer |
| `CronExact.GapFails` | 3rd_party/ccronexpr/ccronexpr.c:426-428 | seconds with a gap, and a minute that matches after one that does not, give a wrong answer |
| `CronExamples.BothDayFields` | 3rd_party/ccronexpr/ccronexpr.c:453-459 | `30 30 12 15 * MON` answers a midnight that does not match |
| `CronExamples.SecondsWithAGap` | 3rd_party/ccronexpr/ccronexpr.c:426-428 | `0,30 15 * * * *` from 10:14:10 gives 10:15:30, although 10:15:00 matches |
| `CronExamples.MonthPassedOver` | 3rd_party/ccronexpr/ccronexpr.c:366-369 | `0 0 0 5,31 FEB *` on 31 January 2019 passes over 5 February |
| `CronReadings.MondayTheFifteenthMeans` | 3rd_party/ccronexpr/ccronexpr.c:853-897 | `30 30 12 15 * MON` denotes the sets of `BothDayFields` |
| `CronReadings.TwoSecondsMeans` | 3rd_party/ccronexpr/ccronexpr.c:853-897 | `0,30 15 * * * *` denotes the sets of `SecondsWithAGap` |
| `CronReadings.DaysOfFebruaryMeans` | 3rd_party/ccronexpr/ccronexpr.c:853-897 | `0 0 0 5,31 FEB *` denotes the sets of `MonthPassedOver` |
| `CronReadings.LeapDayMeans` | 3rd_party/ccronexpr/ccronexpr.c:853-897 | `0 0 0 29 FEB *` denotes the sets of `LeapDayOutOfReach` |
| `CronSteps.FindSecond` | 3rd_party/ccronexpr/ccronexpr.c:420-431 | where the search for a second stops: the next second of the set in this minute, or the first one of the next minute |
| `CronSteps.FindMinute` | 3rd_party/ccronexpr/ccronexpr.c:433-435 | where the search for a minute stops, with the lower fields reset |
| `CronSteps.FindHour` | 3rd_party/ccronexpr/ccronexpr.c:443-445 | where the search for an hour stops, with the lower fields reset |
| `CronSteps.FindDay` | 3rd_party/ccronexpr/ccronexpr.c:378-395 | `find_next_day` stops at the first day from here on that both day fields allow |
| `CronSteps.SearchesAYear` | 3rd_party/ccronexpr/ccronexpr.c:378-395 | the search for a day stops on the first one that both day fields allow, or after 366 days |
| `CronSteps.FindMonth` | 3rd_party/ccronexpr/ccronexpr.c:461-463 | where the search for a month stops, after the calendar was normalised with the day of the old month |
| `CronSteps.ResetAll` | 3rd_party/ccronexpr/ccronexpr.c:297-310 | resetting the listed fields gives the first instant of the unit above them |
| `Calendar.TimegmOfTm` | 3rd_party/ccronexpr/ccronexpr.c:103-107 | `timegm` of the calendar fields of an instant is that instant |
| `Calendar.NormalizeTmOf` | 3rd_party/ccronexpr/ccronexpr.c:103-107 | normalising calendar fields that are in range changes nothing |
| `Calendar.SecondsFromSeconds` | 3rd_party/ccronexpr/ccronexpr.c:103-107 | seconds since the epoch and instants correspond one to one |
| `Calendar.FirstDayClosed` | 3rd_party/ccronexpr/ccronexpr.c:103-107 | the day count of the months is the usual closed form of the Gregorian calendar |
| `Calendar.MonthOfPeriodic` | 3rd_party/ccronexpr/ccronexpr.c:103-107 | the calendar repeats after 400 years |
| `CronImpl.CronNext` | 3rd_party/ccronexpr/ccronexpr.c:899-942 | the imperative `cron_next` computes the specification function, moves forward, and is right for recognisable expressions |
| `CronImpl.DoNext` | 3rd_party/ccronexpr/ccronexpr.c:397-431 | the imperative `do_next`, on a calendar it changes in place, ends with the result code and calendar of the specification function |
| `CronImpl.FromMinute` | 3rd_party/ccronexpr/ccronexpr.c:433-441 | the same from the minute on |
| `CronImpl.FromHour` | 3rd_party/ccronexpr/ccronexpr.c:443-451 | the same from the hour on |
| `CronImpl.FromDay` | 3rd_party/ccronexpr/ccronexpr.c:453-459 | the same from the day on |
| `CronImpl.FromMonth` | 3rd_party/ccronexpr/ccronexpr.c:461-484 | the same from the month on |
| `CronImpl.FindNext` | 3rd_party/ccronexpr/ccronexpr.c:352-376 | value found, and calendar left, as specified |
| `CronImpl.FindNextDay` | 3rd_party/ccronexpr/ccronexpr.c:378-395 | the loop over at most 366 days stops as specified |
| `CronImpl.NextSetBit` | 3rd_party/ccronexpr/ccronexpr.c:195-206 | the next set bit below the maximum, or not found |
| `CronImpl.PushToFields` | 3rd_party/ccronexpr/ccronexpr.c:208-222 | the first free place of the array takes the field, unless it is there already |
| `CronImpl.ResetAllMin` | 3rd_party/ccronexpr/ccronexpr.c:297-310 | every listed field is reset to its minimum, in order |
| `CronImpl.TimeFields.Mktime` | 3rd_party/ccronexpr/ccronexpr.c:105-107 | seconds since the epoch, and the fields normalised in place |
| `CronImpl.TimeFields.AddToField` | 3rd_party/ccronexpr/ccronexpr.c:224-256 | one field advanced, then normalised |
| `CronImpl.TimeFields.SetField` | 3rd_party/ccronexpr/ccronexpr.c:312-346 | one field set, then normalised |
| `Bits.SetBit` | 3rd_party/ccronexpr/ccronexpr.c:150-155 | in the set of bits of the byte array, one bit is added |
| `Bits.DelBit` | 3rd_party/ccronexpr/ccronexpr.c:157-162 | one bit is removed |
| `Bits.GetBit` | 3rd_party/ccronexpr/ccronexpr.c:164-173 | whether a bit is set |
| `CronParse.CronParseExpr` | 3rd_party/ccronexpr/ccronexpr.c:853-897 | after parsing each bitset is its old bits and the denotation of its comma list, rotated or folded; on a zeroed target it is the meaning of the expression, and no set is empty or out of range |
| `CronText.TargetMatters` | 3rd_party/ccronexpr/ccronexpr.c:853-897 | parsing into any target gives the meaning of the expression if and only if the bits that were set before do no harm (source/kiwibes_cron.cpp:33 does not clear them) |
| `CronText.ZeroedTarget` | 3rd_party/ccronexpr/ccronexpr.c:853-897 | a zeroed target always does |
| `CronText.MeaningIsValid` | 3rd_party/ccronexpr/ccronexpr.c:853-897 | an expression with a meaning has six sets that are not empty and in range |
| `CronParse.SetMonths` | 3rd_party/ccronexpr/ccronexpr.c:814-836 | month names and numbers, moved down by one by the rotation in place, also of bits that were there before |
| `CronParse.Rotate` | 3rd_party/ccronexpr/ccronexpr.c:829-835 | the rotation loop moves bits 1 to 12 down by one and leaves the others |
| `CronParse.SetDaysOfWeek` | 3rd_party/ccronexpr/ccronexpr.c:878-887 | day names and numbers; 7 becomes 0 |
| `CronParse.SetDays` | 3rd_party/ccronexpr/ccronexpr.c:838-851 | `?` reads as `*` |
| `CronParse.SetNumberHits` | 3rd_party/ccronexpr/ccronexpr.c:735-812 | the union of the items of a comma list is added to the bits, or the first error reported |
| `CronParse.SetItem` | 3rd_party/ccronexpr/ccronexpr.c:747-806 | one item: a range, or a range with an increment; a single number before the slash opens a range to the maximum |
| `CronItems.StepsOfRange` | 3rd_party/ccronexpr/ccronexpr.c:735-812 | `lo-hi/step` denotes exactly the numbers lo + k * step up to hi, for all decimal numerals; or the error of the bounds, or of a step of 0 |
| `CronItems.StepsFrom` | 3rd_party/ccronexpr/ccronexpr.c:735-812 | `lo/step` denotes exactly the numbers lo + k * step below the maximum |
| `CronItems.StepsOfAll` | 3rd_party/ccronexpr/ccronexpr.c:735-812 | a star with an increment denotes exactly the numbers minimum + k * step below the maximum |
| `CronItems.EveryQuarter` | 3rd_party/ccronexpr/ccronexpr.c:735-812 | a star in steps of 15 denotes 0, 15, 30 and 45 |
| `CronItems.RangeDenotes` | 3rd_party/ccronexpr/ccronexpr.c:669-733 | `lo-hi` denotes exactly the numbers from lo to hi, or is the error of its bounds, in the order in which they are found |
| `CronItems.NumberDenotes` | 3rd_party/ccronexpr/ccronexpr.c:669-733 | a numeral denotes its number, or is an error out of bounds |
| `CronReadings.OneItemMore` | 3rd_party/ccronexpr/ccronexpr.c:735-812 | a list and one item more denote the union |
| `CronItems.MalformedItems` | 3rd_party/ccronexpr/ccronexpr.c:669-812 | two slashes, two hyphens and a word are refused, each with its error |
| `CronItems.ParsesDecimal` | 3rd_party/ccronexpr/ccronexpr.c:544-555 | every decimal numeral reads back as its number up to the largest int |
| `CronItems.ParsesOctal` | 3rd_party/ccronexpr/ccronexpr.c:544-555 | after a leading zero an octal one does |
| `CronItems.ParsesHexadecimal` | 3rd_party/ccronexpr/ccronexpr.c:544-555 | after 0x a hexadecimal one does, in digits of either case |
| `CronItems.ParsesSigned` | 3rd_party/ccronexpr/ccronexpr.c:544-555 | a plus sign changes nothing, a minus sign leaves only zero, the empty text reads as zero |
| `CronParse.GetRange` | 3rd_party/ccronexpr/ccronexpr.c:669-733 | the bounds of `*`, n or a-b, and the errors for numbers that are out of range or the wrong way round |
| `CronParse.ReplaceOrdinals` | 3rd_party/ccronexpr/ccronexpr.c:629-656 | names become their index, name after name |
| `CronNames.DayNamesDenote` | 3rd_party/ccronexpr/ccronexpr.c:629-656 | each name of a day, in any mixture of small letters and capitals, denotes its day from Sunday, 0 |
| `CronNames.MonthNamesDenote` | 3rd_party/ccronexpr/ccronexpr.c:814-836 | each name of a month denotes its month from January, 0 |
| `CronNames.QuestionMarks` | 3rd_party/ccronexpr/ccronexpr.c:838-851 | a question mark in a day field denotes all days |
| `CronNames.SevenIsSunday` | 3rd_party/ccronexpr/ccronexpr.c:876-886 | 7 denotes Sunday |
| `CronNames.FridayToSunday` | 3rd_party/ccronexpr/ccronexpr.c:876-886 | also at the end of a range |
| `CronParse.SplitStr` | 3rd_party/ccronexpr/ccronexpr.c:557-627 | the second pass fills exactly the table the first pass counted, with the non-empty runs between delimiters, whitespace removed; nothing for a string of 256 characters or more |
| `CronItems.DropsWhitespace` | 3rd_party/ccronexpr/ccronexpr.c:557-627 | empty pieces and each of the six whitespace characters are dropped |
| `CronItems.RefusesOtherFields` | 3rd_party/ccronexpr/ccronexpr.c:853-897 | a text of any number of fields other than six is refused, and so is one of 256 characters or more |
| `CronParse.StrReplace` | 3rd_party/ccronexpr/ccronexpr.c:505-542 | the buffer computed from the number of occurrences is exactly filled by the left-to-right replacement and its NUL |
| `CronKiwibes.KiwibesCron.constructor` | source/kiwibes_cron.cpp:31-47 | valid exactly when the expression has a meaning; then the bits that are read are what `cron_next` needs, and they are that meaning exactly when those read in the memory before do no harm |
| `CronText.BitsReadMatter` | 3rd_party/ccronexpr/ccronexpr.c:853-897 | whatever the target held, the bits that are ever read are in range and none of the six sets is empty; and they are the meaning exactly when the bits set before do no harm where they are read |
| `CronImpl.FindNextClip` | 3rd_party/ccronexpr/ccronexpr.c:352-376 | `find_next` looks at no bit from the maximum on |
| `CronTargets.UnclearedTargetFires` | source/kiwibes_cron.cpp:33 | `30 * * * * *` parsed into memory in which the bit of second 10 was set fires at 10 seconds, which it does not allow |
| `CronTargets.HalfPastMeans` | 3rd_party/ccronexpr/ccronexpr.c:853-897 | what `30 * * * * *` denotes |
| `CronKiwibes.KiwibesCron.Next` | source/kiwibes_cron.cpp:54-65 | 0 for an invalid expression; otherwise the least matching second after now for recognisable expressions |
| `NanoTheorems.PoppedInTicketOrder` | 3rd_party/NanoLog/NanoLog.cpp:507-531 | on every interleaving, the lines `try_pop` returned are exactly the first ones that were drawn, by generation and then by slot |
| `NanoTheorems.ProducerOrder` | 3rd_party/NanoLog/NanoLog.cpp:490-505 | and of each producer they are a prefix of what it pushed, in its order |
| `NanoTheorems.TicketsFollowCalls` | 3rd_party/NanoLog/NanoLog.cpp:490-505 | the tickets of a producer are for the lines it passed to `push`, in that order, but for one that waits |
| `NanoTheorems.OwnSlot` | 3rd_party/NanoLog/NanoLog.cpp:450-455 | a producer with a ticket writes a slot inside the buffer its ticket was issued for; no two producers have the same slot, and none is marked before its own producer marks it |
| `NanoTheorems.OneRotator` | 3rd_party/NanoLog/NanoLog.cpp:534-541 | a full buffer has exactly one producer that rotates it, no ticket for it is outstanding, and no second producer rotates until the index is reset |
| `NanoTheorems.RotatedByItsFiller` | 3rd_party/NanoLog/NanoLog.cpp:534-541 | over every run: each generation before the current one was filled by exactly one producer and replaced exactly once, by that producer; the current one was not replaced |
| `NanoTheorems.WaitsForSomeone` | 3rd_party/NanoLog/NanoLog.cpp:499-504 | while the index is past the end, some producer still holds a ticket or rotates, so that a waiting producer waits for someone |
| `NanoTheorems.NeverStuck` | 3rd_party/NanoLog/NanoLog.cpp:490-547 | no deadlock: in every reachable state in which some thread is inside `push` or `try_pop`, a step other than a new call or an idle turn of the waiting loop is possible |
| `NanoTheorems.EveryStepIsSafe` | 3rd_party/NanoLog/NanoLog.cpp:450-541 | in every run, every step a thread can take stays inside the buffers, takes a line only from a constructed slot, and pops only a queue that is not empty |
| `NanoRelease.OnlyCountsReachReleased` | 3rd_party/NanoLog/NanoLog.cpp:517-527 | on every run, a step reaches a buffer that was released already if and only if it is the count of a slot (line 454) and the reader has retired every buffer there is; the item, the mark, the check and the take never do |
| `NanoRelease.CountsTooLate` | 3rd_party/NanoLog/NanoLog.cpp:450-455 | for buffers of any size there is a run after which a producer is to count a slot of a released buffer |
| `NanoTheorems.Drain` | 3rd_party/NanoLog/NanoLog.cpp:654-658 | from any state with no producer mid-push the shutdown drain ends, writes every line that is left in ticket order across buffers, and `try_pop` then fails |
| `NanoTheorems.FailsWhenEmpty` | 3rd_party/NanoLog/NanoLog.cpp:507-531 | without a producer mid-push `try_pop` fails only when every drawn line was returned, and returns one more otherwise |
| `NanoTheorems.NothingLost` | 3rd_party/NanoLog/NanoLog.cpp:654-658 | in such a state all pushes of each producer have their tickets |
| `NanoTheorems.TryPop` | 3rd_party/NanoLog/NanoLog.cpp:507-531 | the steps of an undisturbed `try_pop` keep the invariant and the quiet |
| `NanoTheorems.StepKeeps` | 3rd_party/NanoLog/NanoLog.cpp:490-547 | every step keeps the invariant on buffers, tickets, rotation, queue, lock, reader and output |
| `NanoInvariant.DrawKeeps` | 3rd_party/NanoLog/NanoLog.cpp:492-493 | so does drawing a ticket |
| `NanoInvariant.ConstructKeeps` | 3rd_party/NanoLog/NanoLog.cpp:452 | so does constructing the item |
| `NanoInvariant.MarkKeeps` | 3rd_party/NanoLog/NanoLog.cpp:453 | so does marking the slot as written |
| `NanoInvariant.CountKeeps` | 3rd_party/NanoLog/NanoLog.cpp:454 | so does counting it, which makes the producer that counts the last slot the rotating one |
| `NanoInvariant.PublishKeeps` | 3rd_party/NanoLog/NanoLog.cpp:536-537 | so does storing the new buffer as current |
| `NanoInvariant.EnqueueKeeps` | 3rd_party/NanoLog/NanoLog.cpp:538-539 | so does putting it into the queue |
| `NanoInvariant.ResetIndexKeeps` | 3rd_party/NanoLog/NanoLog.cpp:540 | so does setting the write index back |
| `NanoInvariant.ReadFrontKeeps` | 3rd_party/NanoLog/NanoLog.cpp:543-547 | so does looking up the buffer to read |
| `NanoInvariant.TakeKeeps` | 3rd_party/NanoLog/NanoLog.cpp:517-529 | so does taking a line |
| `NanoInvariant.RetireKeeps` | 3rd_party/NanoLog/NanoLog.cpp:525-526 | so does popping the buffer that was read to its end |
| `NanoBytes.RoundTrip` | 3rd_party/NanoLog/NanoLog.cpp:183-275 | `stringify` reads back exactly the appended arguments, empty texts aside, if and only if no text holds a NUL |
| `NanoBytes.DecodesFirst` | 3rd_party/NanoLog/NanoLog.cpp:158-217 | one argument in front of anything is read back, and then the rest |
| `NanoLine.HeaderRoundTrip` | 3rd_party/NanoLog/NanoLog.cpp:117-127 | time, file, function, line and level are read back |
| `NanoLine.NanoLogLine.constructor` | 3rd_party/NanoLog/NanoLog.cpp:117-127 | the header is put into the stack buffer |
| `NanoLine.NanoLogLine.Append` | 3rd_party/NanoLog/NanoLog.cpp:259-281 | exactly the encoding of one argument is appended; bytes used never exceed the capacity |
| `NanoLine.NanoLogLine.AppendPointer` | 3rd_party/NanoLog/NanoLog.cpp:247-257 | a null pointer appends nothing |
| `NanoLine.NanoLogLine.Encode` | 3rd_party/NanoLog/NanoLog.cpp:109-115 | type id and bytes, after room was made |
| `NanoLine.NanoLogLine.Resize` | 3rd_party/NanoLog/NanoLog.cpp:224-245 | the contents survive the move to the heap and the doubling, the new size is the one the source computes, and there is room |
| `NanoLine.NanoLogLine.Stringify` | 3rd_party/NanoLog/NanoLog.cpp:131-156 | what is read back is the header and arguments that were put in, exactly when no text holds a NUL; then the text printed is the header and every argument in turn |
| `NanoText.StampReadsBack` | 3rd_party/NanoLog/NanoLog.cpp:45-60 | the stamp is digits between its marks, two for month, day, hour, minute and second and six for the microseconds, and `timegm` of the date and time they denote, months from 1, gives the timestamp to the microsecond |
| `NanoText.LineReadsBack` | 3rd_party/NanoLog/NanoLog.cpp:131-154 | after the stamp come level, file, function and line, in that order and between their brackets, then the arguments and a line feed; the level by its name, the line as its decimal numeral |
| `NanoText.ArgumentsReadBack` | 3rd_party/NanoLog/NanoLog.cpp:156-181 | an integer prints a numeral of its value, with a minus sign when it is negative; a character and a text print themselves |
| `NanoText.PrintedInOrder` | 3rd_party/NanoLog/NanoLog.cpp:183-217 | arguments are printed one after the other with nothing between them |
| `NanoLine.StringifyFrom` | 3rd_party/NanoLog/NanoLog.cpp:183-217 | the recursion over the type ids decodes as specified, and prints each argument as it is decoded |
| `NanoLine.DecodeOne` | 3rd_party/NanoLog/NanoLog.cpp:158-181 | one argument is taken off, or the bytes end inside it |
| `NanoPrint.KeptShowsAll` | 3rd_party/NanoLog/NanoLog.cpp:259-262 | leaving out empty texts does not change what is printed |
| `NanoPrint.DecimalIsValue` | 3rd_party/NanoLog/NanoLog.cpp:163 | a number is printed in decimal without leading zeros |
| `NanoPrint.PaddedIsValue` | 3rd_party/NanoLog/NanoLog.cpp:57 | the microseconds are printed with six digits |
| `JobsProtocol.ViewsDifferExactly` | source/kiwibes_jobs_manager.cpp:112 | on every run, whenever `jobs_lock` is free: the two views of running differ about a job if and only if the last `job_started` for it did not find it in the database (an error that lines 112 and 256 discard), and then it is in `active_jobs` and not marked running, never the other way round |
| `JobsProtocol.EveryStartIsAccounted` | source/kiwibes_jobs_manager.cpp:86-125 | on every run, whenever `jobs_lock` is free: accepted starts + what a job took over from a deleted one of its name = runs added + processes that ended without a run + 1 if active + queued + cleared + lost to a failed launch; and the same for the processes launched |
| `JobsAccepted.TalliesCount` | source/kiwibes_jobs_manager.cpp:86-125 | what these numbers are, from the actions of the run alone: accepted is how often a request was queued for a known job or a launch of start_job gave a process, launched how often a process was there, lost how often the watcher could not launch one, uncounted how often a process ended while the database knew its job and did not call it running, since the job was loaded or created |
| `JobsProtocol.StartsAddUpExactly` | source/kiwibes_jobs_manager.cpp:86-125 | on every run: accepted starts = runs added + 1 if active + queued + cleared + lost to a failed launch if and only if as many processes ended without a run as there were a process and a start to take over |
| `JobsProtocol.RunsAreLaunches` | source/kiwibes_database.cpp:182-195 | nbr-runs counts the processes launched (what README.md:158 says) if and only if the processes taken over are as many as those that ended without a run or still run; without a harmful delete, if and only if the job is not active |
| `JobsRounds.RoundEnds` | source/kiwibes_jobs_manager.cpp:221-275 | on every run, and whatever other threads do to the database meanwhile: a watcher round reaps at most as many children as there were queued starts and unreaped children when it began, and takes at most six steps of its own for each |
| `JobsRounds.StepShrinks` | source/kiwibes_jobs_manager.cpp:227-272 | in a watcher round no step of any thread adds to queued starts and unreaped children, reaping takes one off, and every step of the watcher takes from its remaining steps |
| `JobsRounds.WatcherCanMove` | source/kiwibes_jobs_manager.cpp:221-275 | on every run, at every moment inside a watcher round a step of the watcher or the end of the round is possible, so that the bounded round does end |
| `JobsRounds.LockHolderCanMove` | source/kiwibes_jobs_manager.cpp:86-160 | on every run, whichever thread has `jobs_lock`, a step of it is possible, and so is any database call of another thread |
| `JobsRounds.FreeStatesAreValid` | source/kiwibes_jobs_manager.cpp:221-275 | on every run, every state with `jobs_lock` free is one that `StartJob`, `StopJob` and `Reap` accept |
| `JobsProtocol.NoStartIsLost` | source/kiwibes_jobs_manager.cpp:86-125 | over any run without a harmful delete, whenever `jobs_lock` is free: accepted starts of a job = runs added + 1 if active + queued + cleared + queued ones whose launch failed |
| `JobsProtocol.ViewsAgree` | source/kiwibes_jobs_manager.cpp:227-272 | and `active_jobs` holds exactly the jobs the database calls running |
| `JobsProtocol.ProcessesMatchJobs` | source/kiwibes_jobs_manager.cpp:229-266 | on every interleaving: a job marked running is in `active_jobs`, no two jobs share a process, no job has two, and the processes are exactly the unreaped children |
| `JobsProtocol.KillsItsOwn` | source/kiwibes_jobs_manager.cpp:127-160 | `stop_job` signals a child of that very job that is still to be reaped |
| `JobsProtocol.StopsKnownActive` | source/kiwibes_jobs_manager.cpp:127-160 | and it comes to the signal exactly for a job that is known and active |
| `JobsProtocol.FreeDeletesDoNoHarm` | source/kiwibes_database.cpp:327-356 | deletes that land while `jobs_lock` is free are never harmful |
| `JobsProtocol.OnlyHarmDisagrees` | source/kiwibes_database.cpp:327-356 | a step breaks what the rounds rely on (the job that is being launched is known, and an active one is known and marked, but for the call that is about to do so) if and only if it is a harmful delete |
| `JobsProtocol.StepKeepsMarks` | source/kiwibes_jobs_manager.cpp:112 | every step keeps the match of the discarded errors with the jobs that are active but not marked |
| `JobsProtocol.HarmfulDelete` | source/kiwibes_database.cpp:327-356 | a delete between launch and `job_started` leaves a process whose job the database does not know |
| `JobsProtocol.StartsDoNotAddUp` | source/kiwibes_database.cpp:327-400 | a job deleted and created again between its launch and `job_started` is active, although no start of the new one was accepted: the plain sum of the accepted starts fails, with nothing uncounted and one process taken over |
| `JobsProtocol.RunIsNotCounted` | source/kiwibes_database.cpp:160-202 | a job created again after the `job_started` that did not find it is active and called stopped; when its process ends, `job_stopped` reports an error and no run is counted, so that the condition in `Reap` is needed |
| `JobsProtocol.StepKeepsSound` | source/kiwibes_jobs_manager.cpp:229-266 | every step keeps processes and jobs in correspondence |
| `JobsProtocol.StepKeepsAgreed` | source/kiwibes_jobs_manager.cpp:245-256 | every step that is not a harmful delete keeps the two views in agreement |
| `JobsProtocol.StepKeepsBalance` | source/kiwibes_database.cpp:204-275 | every step keeps the balances of processes and of accepted starts |
| `JobsManager.KiwibesJobsManager.Reap` | source/kiwibes_jobs_manager.cpp:221-275 | how a round ends when no other thread edits the database meanwhile: jobs that were not active keep their record; each known job that was gets the statistics of the runs it had and of those the round counted, each of which ended at a time read from the clock in this round and began at one, or at its old start time, and no run ended before it began when the clock never goes back; when every child exits and every launch succeeds, no job is left active, and each has no queued start left and one run more for every start it had queued and, exactly if the database called it running, one for itself |
| `JobsManager.KiwibesJobsManager.HandleExit` | source/kiwibes_jobs_manager.cpp:229-266 | one reaped child: its job is found and goes on, whether or not the database still knows it, and queued starts and children together get no more |
| `JobsManager.KiwibesJobsManager.GoOn` | source/kiwibes_jobs_manager.cpp:238-264 | an ended job: one run more exactly if the database knew it and called it running, from its start time to the time then read from the clock; one queued start less, running again, since the next time read, exactly when relaunched, and relaunched when a start is queued and can be launched; nothing changes in the database for a job it does not know |
| `JobsManager.KiwibesJobsManager.StartQueued` | source/kiwibes_jobs_manager.cpp:245-262 | a queued start that was taken: launched under its name and running since the time read from the clock, or nothing changed but the queue |
| `JobsManager.CountsOn` | source/kiwibes_database.cpp:180-195 | one more run of a job in a round keeps its statistics those of all its runs |
| `JobsManager.KiwibesJobsManager.EndJob` | source/kiwibes_jobs_manager.cpp:238-244 | the run is counted if the database knew the job and called it running, from its start time to the time read from the clock; the job is taken off either way, and a queued start is taken |
| `JobsManager.KiwibesJobsManager.LaunchJob` | source/kiwibes_jobs_manager.cpp:247-262 | a new process under this name, and the job running since the time read from the clock; or nothing changed |
| `JobsManager.KiwibesJobsManager.StartJob` | source/kiwibes_jobs_manager.cpp:86-125 | an active job: what queueing the request gives, its error for an unknown name included; otherwise an error for an unknown name, a process launched under this name with the job running since the time read from the clock, or failed with nothing changed |
| `JobsManager.KiwibesJobsManager.StopJob` | source/kiwibes_jobs_manager.cpp:127-160 | the process of an active job that the database knows is killed, whatever the database says about its running, and it is a child still to be reaped; an error for a job that is unknown or not active |
| `JobsManager.KiwibesJobsManager.StopAllJobs` | source/kiwibes_jobs_manager.cpp:162-174 | exactly the unreaped children are killed, also where the two views of running differ |
| `JobsManager.KiwibesJobsManager.FindByPid` | source/kiwibes_jobs_manager.cpp:231-233 | the job of a process |
| `JobsStatistics.Statistics` | source/kiwibes_database.cpp:180-195 | after any runs of a fresh job avg-runtime is the mean of the runtimes, var-runtime the sum of squared deviations from it, nbr-runs their number |
| `JobsStatistics.FinishKeepsStatistics` | source/kiwibes_database.cpp:180-195 | from the mean, squared deviations and count of any runs, one call of `job_stopped` gives those of one run more |
| `JobsMeasured.StatisticsOfEveryRun` | source/kiwibes_database.cpp:180-195 | on every run of the protocol, whatever lands in between: avg-runtime of a job that was created is the mean of the runtimes counted since, var-runtime the sum of squared deviations from it, nbr-runs their number; for a job that was loaded, over the runs before and since |
| `JobsStatistics.NotTheSampleVariance` | source/kiwibes_database.cpp:180-195 | var-runtime is the sample variance that README.md:154 names if and only if there were two runs or all took equally long |
| `JobsStatistics.OneMore` | source/kiwibes_database.cpp:185-188 | the one-pass update gives the mean and squares of one number more |
| `JobsDatabase.KiwibesDatabase.Load` | source/kiwibes_database.cpp:43-109 | the database is empty, with the error of the case, if the file cannot be opened or parsed or a record of it lacks a field; otherwise no job is running, no start is queued, and everything else about every job is as it was saved |
| `JobsDatabase.KiwibesDatabase.Validate` | source/kiwibes_database.cpp:62-86 | the loop over the records: an error exactly if one of them lacks a field, and otherwise every record reset |
| `JobsDatabase.KiwibesDatabase.HasFields` | source/kiwibes_database.cpp:64-77 | the loop over the expected fields: all of them are there |
| `JobsDatabase.KiwibesDatabase.JobStarted` | source/kiwibes_database.cpp:133-158 | unknown or running: an error and nothing changed; otherwise running, since the time read from the clock |
| `JobsDatabase.KiwibesDatabase.JobStopped` | source/kiwibes_database.cpp:160-202 | unknown or not running: an error and nothing changed; otherwise stopped, with the run from its start time to the time read from the clock counted |
| `JobsDatabase.KiwibesDatabase.JobIncrStartRequests` | source/kiwibes_database.cpp:204-225 | one start more in the queue, or unknown |
| `JobsDatabase.KiwibesDatabase.JobDecrStartRequests` | source/kiwibes_database.cpp:227-254 | one start less and the number left, or -1 |
| `JobsDatabase.KiwibesDatabase.JobClearStartRequests` | source/kiwibes_database.cpp:256-275 | no start in the queue, or unknown |
| `JobsDatabase.KiwibesDatabase.DeleteJob` | source/kiwibes_database.cpp:327-356 | gone, unless unknown or running |
| `JobsDatabase.KiwibesDatabase.CreateJob` | source/kiwibes_database.cpp:358-400 | an error exactly when a property is missing or the name is taken, and then nothing changed; otherwise one job more with these three properties, stopped, without runs and queued starts, and every other record as before |
| `JobsDatabase.KiwibesDatabase.EditJob` | source/kiwibes_database.cpp:402-439 | an error exactly for an unknown or running job, and then nothing changed; otherwise each property given has the given value, and the others, status, times, queue, statistics and every other record are as before |
| `JobsDatabase.AfterEditEdits` | source/kiwibes_database.cpp:402-439 | the transition of the protocol does the same |
| `JobsDatabase.AfterCreateCreates` | source/kiwibes_database.cpp:358-400 | and so does that for a creation |
| `HttpChunked.RoundTrip` | 3rd_party/cpp-httplib/httplib.h:861-904 | `read_content_chunked` on the bytes of `write_response` gives the concatenation of the chunks and takes exactly those bytes when each size fits an int, and throws otherwise; whatever follows them |
| `HttpBodies.HowItEnds` | 3rd_party/cpp-httplib/httplib.h:861-904 | after any well-formed chunks, however their sizes are written: a line that is no size throws, a negative one ends the body, a zero ends it if an empty line follows and fails otherwise, a chunk cut short fails, one that no empty line follows is dropped and ends the body, and when nothing follows reading fails |
| `HttpBodies.SizeIsRead` | 3rd_party/cpp-httplib/httplib.h:872-872 | a size is read after spaces, a sign and 0x, in digits of either case, whatever follows that is no digit, or throws outside the ints |
| `HttpBodies.NoSize` | 3rd_party/cpp-httplib/httplib.h:872-872 | and throws when no digit comes there |
| `HttpBodies.SizeIsWritten` | 3rd_party/cpp-httplib/httplib.h:1003-1012 | sizes are written in small letters without leading zeros |
| `HttpChunked.ReadContentChunked` | 3rd_party/cpp-httplib/httplib.h:861-904 | body, bytes taken, failure and exception as specified, on a connection that hands over any part at a time |
| `HttpChunked.ReadContentWithLength` | 3rd_party/cpp-httplib/httplib.h:823-843 | exactly the next bytes, or false when there are fewer or the progress callback stops it; what was read is what was taken |
| `HttpChunked.WriteChunks` | 3rd_party/cpp-httplib/httplib.h:1706-1719 | the loop writes the coding of all chunks, or of the first ones when a write fails, and the offset counts the chunks fetched |
| `HttpChunked.FromIToHex` | 3rd_party/cpp-httplib/httplib.h:1003-1012 | the hexadecimal digits of the number |
| `HttpChunked.SizeParses` | 3rd_party/cpp-httplib/httplib.h:872-894 | parsing a printed size gives the size, or throws above the largest int |
| `HttpChunked.ReadsOne` | 3rd_party/cpp-httplib/httplib.h:874-895 | one chunk is taken off and the rest read on |
| `HttpStream.StreamLineReader.GetLine` | 3rd_party/cpp-httplib/httplib.h:423-449 | the bytes up to and with the next line feed, or all that is left; exactly these are taken |
| `HttpStream.StreamLineReader.Append` | 3rd_party/cpp-httplib/httplib.h:452-463 | one byte more, across the change from the fixed to the growing buffer |
| `HttpStream.StreamLineReader.Ptr` | 3rd_party/cpp-httplib/httplib.h:415-421 | the line as a C string, from either buffer |
| `HttpUrl.RoundTrip` | 3rd_party/cpp-httplib/httplib.h:937-1084 | `decode_url(encode_url(s)) == s` if and only if s holds no NUL and nothing that reads as an escape, in particular when it holds no percent sign |
| `HttpEscapes.AnyWritingDecodes` | 3rd_party/cpp-httplib/httplib.h:1047-1084 | any text in which any bytes are escaped, with digits of either case, among them each percent sign and plus, and in which any space is written as a plus, is decoded to itself |
| `HttpEscapes.EscapeDecodes` | 3rd_party/cpp-httplib/httplib.h:1066-1075 | a percent sign and the two digits of any byte, in either case, stand for that byte in front of any bytes |
| `HttpEscapes.CodePointDecodes` | 3rd_party/cpp-httplib/httplib.h:1053-1065 | `%u` and four digits stand for the UTF-8 coding of the code point, and for nothing when it is a surrogate |
| `HttpEscapes.PercentStays` | 3rd_party/cpp-httplib/httplib.h:1047-1084 | a percent sign before anything else stands for itself |
| `HttpEscapes.PlainDecodes` | 3rd_party/cpp-httplib/httplib.h:1076-1080 | every other byte stands for itself, and a plus for a space |
| `HttpEscapes.EncodesUnsafe` | 3rd_party/cpp-httplib/httplib.h:937-968 | no output of `encode_url` holds a space, plus, apostrophe, comma, colon, semicolon or byte from 0x80 on |
| `HttpEscapes.LeavesSafe` | 3rd_party/cpp-httplib/httplib.h:937-968 | a text without these is left as it is |
| `HttpUrl.ThereAndBack` | 3rd_party/cpp-httplib/httplib.h:937-1084 | encoding and decoding never lengthens a text and shortens one that reads as an escape |
| `HttpUrl.EscapedByte` | 3rd_party/cpp-httplib/httplib.h:942-957 | an escaped byte is decoded to itself |
| `HttpUrl.EncodeUrl` | 3rd_party/cpp-httplib/httplib.h:937-965 | the loop computes the specification function |
| `HttpUrl.EncodeByte` | 3rd_party/cpp-httplib/httplib.h:942-961 | each byte that must be escaped becomes its percent escape |
| `HttpUrl.DecodeUrl` | 3rd_party/cpp-httplib/httplib.h:1047-1084 | the loop computes the specification function |
| `HttpUrl.DecodeAt` | 3rd_party/cpp-httplib/httplib.h:1052-1080 | what one position stands for, and where to go on |
| `HttpUrl.FromHexToI` | 3rd_party/cpp-httplib/httplib.h:982-1001 | the value of that many hexadecimal digits, if they are there |

## Left out

- Local time and daylight saving (`-DCRON_USE_LOCAL_TIME`): they depend on the time zone of the host; the UTC branch of `cron_mktime` is modelled.
- `cron_prev` and `do_prev`: Kiwibes does not call them, and they can stay on one month end forever.
- The limits of `time_t` and of the int fields of `struct tm`: instants and years are unbounded; the unsigned difference of the year cutoff is modelled.
- Failure of memory allocation, anywhere.
- The shape of `do_next`: its body is cut at the calendar fields into `DoNext`, `FromMinute`, `FromHour`, `FromDay` and `FromMonth`, which call one another in the order of the source.
- Error messages of the cron parser are constants of a type; the loops of `to_upper`, `has_char` and `to_string` and the library calls `strstr` and `strtol` are functions on strings.
- Weak memory orders in NanoLog: the steps are sequentially consistent.
- `NanoTheorems.EveryStepIsSafe`: released buffers are kept in the state, so that a step stays inside a buffer even where the code has freed it; `NanoRelease` says exactly when that happens.
- Wrap-around of the write index of NanoLog, which waiting producers keep increasing.
- Update in place of the logger's buffers: the state machine holds them as values, numbered by generation; allocating a buffer is one step with storing it as current.
- `RingBuffer`: Kiwibes does not select it, and it drops lines by design.
- The text that the stream prints for a double, and the characters at the address of a literal: given from outside (`NanoPrint.Environment`).
- A read past the bytes in use in `stringify`, which only a NUL inside a text can cause, is the outcome None.
- Floating-point rounding in the statistics.
- The JSON library and errors of JSON types: a job is a record, and the database file is missing, malformed, or gives for each job the names of its fields and their values; saving it is left out.
- `exec`, signals and exit codes: a launched process is a process id that is some day reaped.
- `JobsManager.Processes.Launch`: which id `fork` gives is only bounded by its contract; the body counts upwards.
- `JobsManager.Processes.Wait`: whether a child has exited is left open, unless every child exits.
- Bodies without a length, compression, headers and routing in httplib.
- Partial sends: a write to a connection takes all bytes or fails.
- The scheduler's event order (source/kiwibes_scheduler.h:88): its queue compares addresses, so no time order follows from the code.
- The data store, authentication, TLS, command line and client.
