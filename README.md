# Leave maximiser, modelled in Dafny

The leavemaxing repository plans paid leave. It takes a year, the public
holidays of that year and a leave budget. It suggests the workdays to take
off so that leave, weekends and holidays join into long breaks. It holds
two independent engines:

- **The bridge finder** (`utils/leave_maximizer.ts`, module `BridgeFinder`).
  - It groups the year's free days (weekends and holidays) into maximal blocks.
  - It scores the workday gap between each pair of neighbouring blocks as a "bridge": `(before + gap + after) / gap`, times 1.5 when the middle gap day lies in the priority quarter.
  - It sorts the bridges by score and takes whole bridges greedily while the budget lasts.
  - An optional "today" cutoff drops past holidays and past bridges.
- **The combination optimiser** (`src/utils/leaveMaximizer.ts`, modules `LeavePlans`, `BruteForce`, `Greedy` and `LeaveMaximizer`; its date helpers are `src/utils/dateUtils.ts`, module `DateUtils`).
  - It lists the year's workdays and caps the budget at their number.
  - For at most ten leave days out of at most 252 workdays, it searches every selection exhaustively. Otherwise it picks days greedily by a neighbour score.
  - It scores a plan as `totalTimeOff + Σ duration² / leaveDaysUsed`, where each break is a maximal run of two or more days off.
  - `generateLeaveStrategies` adds plans for each half of the year and a quarterly plan, then ranks the four by score.

Shared modules:

- **Days.** A day is an integer ordinal counted from Jan 1 of the planning year (`Calendar`). Weekdays follow the proleptic Gregorian calendar.
- **Keys.** `IsoDate` models the YYYY-MM-DD keys of ISO 8601 (complete calendar date, extended format, section 4.1.2.2 of ISO 8601:2004). It proves two facts:
  - parsing undoes formatting;
  - keys compare as strings exactly as their days compare.

  This is why the source's string comparisons and its final string `sort()` are integer comparisons in the model.
- **Sorting and runs.**
  - `Ordering` models `Array.prototype.sort` with a comparator as a sort specified by permutation and order.
  - `Runs` describes the maximal runs that both break scanners report.

Loops that change state are methods with loop invariants, each proved against a function that specifies it. The brute force's shared `currentSelection`, `bestScore` and `bestPlan` are the fields of class `BruteForce.CombinationSearch`.

## Model

| member | source | states |
|---|---|---|
| Calendar.DateOfDayOfYear | src/utils/dateUtils.ts:75-80 | every date of a year is the date of exactly one ordinal of that year, so a year's dates can be walked as its ordinals |
| Calendar.DayOfYearOrder | utils/leave_maximizer.ts:49 | within a year, ordinals are ordered exactly as the dates are (the `d <= endDate` loop bound) |
| Calendar.WeekHasOneWeekend | utils/leave_maximizer.ts:10-13 | any seven consecutive days hold exactly one Saturday and one Sunday, each weekday once |
| Calendar.Quarter | utils/leave_maximizer.ts:175-178 | ⌈month/3⌉ is the quarter 1..4 whose three months contain the month |
| IsoDate.ParseFormat | utils/leave_maximizer.ts:21-34 | parseDateUTC of formatDate of a date gives the date back |
| IsoDate.FormatOrder | utils/leave_maximizer.ts:324 | keys compare as strings iff their dates compare in time, and are equal iff the dates are |
| IsoDate.KeyOrderIsOrdinalOrder | utils/leave_maximizer.ts:239-241 | comparing two keys as strings agrees with comparing the days' ordinals (both directions, and equality) |
| IsoDate.KeyMatchesOrdinal | utils/leave_maximizer.ts:44-51 | a holiday's key equals the key of day k iff the holiday falls on day k, so `holidayDates.has` is membership by ordinal |
| IsoDate.DigitsRoundTrip | utils/leave_maximizer.ts:22 | reading back a zero-padded numeral gives the number |
| BridgeFinder.HolidayDates | utils/leave_maximizer.ts:44 | the set holds every holiday's date and nothing else |
| BridgeFinder.GetAllFreeDays | utils/leave_maximizer.ts:42-56 | a day is in the result iff it lies in the year and is a Saturday, a Sunday or some holiday's date; holidays of other years are never added |
| BridgeFinder.GetWorkdays | utils/leave_maximizer.ts:64-76 | ascending, without repeats, exactly the year's days not in the free set; with a free set inside the year, workdays + free days = days in the year |
| BridgeFinder.FindFreeBlocks | utils/leave_maximizer.ts:89-133 | the maximal-block decomposition of the set: valid ascending blocks with length = end − start + 1 ≥ 1 separated by a missing day, covering exactly the set, lengths summing to its size, empty iff the set is empty |
| BridgeFinder.GroupIntoBlocks | utils/leave_maximizer.ts:100-131 | the walk over the sorted days builds the blocks of the specification Blocks |
| BridgeFinder.BlocksValid | utils/leave_maximizer.ts:100-131 | the blocks of an ascending list are ordered, each with length end − start + 1 ≥ 1, and separated by at least one missing day |
| BridgeFinder.BlocksCover | utils/leave_maximizer.ts:100-131 | a day is in some block iff it is in the list |
| BridgeFinder.BlocksTotal | utils/leave_maximizer.ts:100-131 | the block lengths add up to the number of days |
| BridgeFinder.BlocksMaximal | utils/leave_maximizer.ts:100-131 | the days just before and just after each block are not in the set |
| BridgeFinder.DaysBetween | utils/leave_maximizer.ts:147-153 | the absolute distance in days |
| BridgeFinder.DatesBetweenMembers | utils/leave_maximizer.ts:158-168 | the listed days are exactly those strictly between a and b, ascending |
| BridgeFinder.GetDatesBetween | utils/leave_maximizer.ts:158-168 | the loop yields a + 1, a + 2, … up to b − 1: daysBetween(a, b) − 1 days when a < b, none otherwise |
| BridgeFinder.GetQuarter | utils/leave_maximizer.ts:175-178 | a key has a quarter exactly when it parses; the quarter q is ceil(month / 3), that is 3(q − 1) < month ≤ 3q, and for month 1..12 the quarter of that month |
| BridgeFinder.GetQuarterOfKey | utils/leave_maximizer.ts:175-178 | getQuarter of a day's key is the quarter 1..4 of that day's month |
| BridgeFinder.OnOrAfter | utils/leave_maximizer.ts:208-211 | keeps only holidays of the list on or after the cutoff, and every holiday of the list on or after the cutoff |
| BridgeFinder.OnOrAfterCounts | utils/leave_maximizer.ts:208-211 | each holiday on or after the cutoff is kept as often as it occurs, every other holiday never |
| BridgeFinder.OnOrAfterAppend | utils/leave_maximizer.ts:208-211 | filtering a list with one more holiday at its end is the filtered list followed by that holiday when it is on or after the cutoff: the filter keeps the list's order |
| BridgeFinder.ScoreGap | utils/leave_maximizer.ts:244-276 | one block pair gives a bridge iff the gap is non-empty and every gap day is a workday; its score is (before + gap + after) / gap, times 1.5 in the priority quarter |
| BridgeFinder.PotentialBridges | utils/leave_maximizer.ts:234-278 | step 1 lists the bridges of the block pairs in order, skipping pairs whose first block ends before the cutoff |
| BridgeFinder.GapIsWorkdays | utils/leave_maximizer.ts:244-251 | between two neighbouring free blocks there is at least one day, and every such day is a workday |
| BridgeFinder.CandidateWholeGap | utils/leave_maximizer.ts:244-251 | in the year's own blocks a pair yields a bridge iff its first block does not end before the cutoff, and the bridge is the whole gap between the two blocks |
| BridgeFinder.CandidateGap | utils/leave_maximizer.ts:244-253 | a bridge has at least one leave day, all workdays after the cutoff, and its total length is the joined run from the first block's start to the second block's end |
| BridgeFinder.CandidateScore | utils/leave_maximizer.ts:252-266 | a bridge scores above 1, and carries the 1.5 bonus iff a quarter is chosen and the gap day at index ⌊gap/2⌋ lies in it |
| BridgeFinder.CandidateGapsDisjoint | utils/leave_maximizer.ts:296-302 | two different bridges of the year never share a day, so the already-taken test never rejects one |
| BridgeFinder.WorkdayForAllHolidays | utils/leave_maximizer.ts:208-221 | a day after the cutoff that is a workday once the past holidays are dropped is a workday for the full holiday list |
| BridgeFinder.PlanBridgeFacts | utils/leave_maximizer.ts:219-278 | every bridge of the year is well formed, does not start before the cutoff and consists of workdays after the cutoff |
| BridgeFinder.BridgesOfYear | utils/leave_maximizer.ts:219-278 | free days, blocks and workdays of the year, then the scored bridges; none with fewer than two blocks |
| BridgeFinder.SelectBridges | utils/leave_maximizer.ts:293-322 | the taken days and leaveDaysRemaining are those of TakeInOrder: the bridges visited in list order, each taken when it fits, does not start before the cutoff and overlaps nothing taken, a bridge starting before the cutoff skipping the stop test, and the pass stopping once no leave is left; besides, leaveDaysRemaining stays in 0..budget and the days taken number budget − remaining; each taken day lies in a wholly taken bridge that does not start before the cutoff; each bridge passed over overlaps the taken days, starts before the cutoff or is longer than the leave left |
| BridgeFinder.ConsiderBridge | utils/leave_maximizer.ts:296-321 | one turn of the greedy pass: the new taken days and leave left are Turn's (the bridge's days added and its length spent exactly when it fits, does not start before the cutoff and overlaps nothing taken, otherwise nothing changes); a skipped bridge before the cutoff leaves leave over; and the turn keeps both halves of that invariant |
| BridgeFinder.TakeFromKeeps | utils/leave_maximizer.ts:293-322 | the greedy pass never drops a day it has taken |
| BridgeFinder.Ranked | utils/leave_maximizer.ts:284-289 | the sorted bridges are a permutation of the bridges |
| BridgeFinder.RankedOrder | utils/leave_maximizer.ts:284-289 | the sorted bridges are ordered by score, highest first, and among equal scores by gap length, shortest first |
| BridgeFinder.TopBridgeTaken | utils/leave_maximizer.ts:284-322 | the first ranked bridge scores at least as high as every bridge, and its days are all in the result whenever it fits the budget and does not start before the cutoff |
| BridgeFinder.PlanLeave | utils/leave_maximizer.ts:284-326 | the result is GreedyLeave: the days TakeInOrder takes from the bridges ranked by score (then gap length), in ascending order; so it is ascending, within the budget, made of wholly taken bridges, and every bridge left out overlaps it or exceeds the leave left |
| BridgeFinder.CalculateOptimalLeave | utils/leave_maximizer.ts:196-327 | `[]` for a budget ≤ 0 or no holiday left after the cutoff; otherwise exactly GreedyLeave of the year's bridges (the ranked greedy pass, ascending), and so ascending, at most the budget, every day a workday after the cutoff in a bridge of the year taken whole, and every bridge left out overlapping the result or longer than the leave left |
| DateUtils.IsHoliday | src/utils/dateUtils.ts:28-30 | true iff some holiday of the list falls on the day |
| DateUtils.GetHolidayDetails | src/utils/dateUtils.ts:35-37 | non-null iff isHoliday, and then a holiday of the list falling on that day |
| DateUtils.FreeDayAgrees | src/utils/dateUtils.ts:42-44 | isFreeDay = weekend or holiday, and both engines classify every day alike |
| DateUtils.GetDateRange | src/utils/dateUtils.ts:49-59 | consecutive days from start to end inclusive: end − start + 1 of them when start ≤ end, none otherwise |
| DateUtils.GetDatesInMonth | src/utils/dateUtils.ts:65-70 | every day of the month, as many as the Gregorian month has (31, 28 or 29, …), entry i being the date (year, month + 1, i + 1) |
| DateUtils.DayOfMonth | src/utils/dateUtils.ts:65-70 | day i of month m of the year is the calendar date (year, m, i + 1) |
| DateUtils.GetDatesInYear | src/utils/dateUtils.ts:75-80 | Jan 1 to Dec 31, every day of the year once, 365 or 366 entries |
| DateUtils.FindConsecutiveFreeDays | src/utils/dateUtils.ts:85-119 | the maximal runs of two or more free days in chronological order, each with its length, a run open on Dec 31 included |
| DateUtils.CollectStreaks | src/utils/dateUtils.ts:94-116 | the loop with its current streak reports the runs the forward walk over the marks closes |
| Runs.LongRunsFacts | src/utils/leaveMaximizer.ts:76-113 | the walk reports maximal runs of two or more marked days, in chronological order, and leaves none out |
| Runs.LongRunsUnique | src/utils/leaveMaximizer.ts:76-113 | any list of runs meeting that description is the one the walk reports |
| Ordering.SortByKeys | src/utils/leaveMaximizer.ts:407 | the comparator sort returns a permutation of its input, ordered by the comparator |
| Ordering.SortHeadIsFirstBest | src/utils/leaveMaximizer.ts:302-305 | with no secondary key the sort keeps input order on ties, so its head is the first record of highest score |
| Ordering.SortSet | utils/leave_maximizer.ts:324 | `Array.from(selectedLeaveDays).sort()`: the set's elements in ascending order |
| Ordering.SortedSeqFacts | utils/leave_maximizer.ts:94-96 | the sorted list holds exactly the set's elements, strictly increasing |
| LeavePlans.BreakScore | src/utils/leaveMaximizer.ts:23-25 | duration² over the leave days used, or over 1 when none, never negative |
| LeavePlans.PlanScore | src/utils/leaveMaximizer.ts:15-30 | the score is at least the plan's total time off |
| LeavePlans.ScoreLeavePlan | src/utils/leaveMaximizer.ts:15-30 | the loop computes totalTimeOff + Σ break scores, which is ≥ totalTimeOff |
| LeavePlans.TotalTimeOff | src/utils/leaveMaximizer.ts:163 | the summed durations are non-negative when each one is |
| LeavePlans.FindWorkdays | src/utils/leaveMaximizer.ts:35-38 | strictly chronological, exactly the year's days that are neither weekend nor holiday |
| LeavePlans.FilterMembers | src/utils/leaveMaximizer.ts:37 | filter keeps exactly the elements that pass the test |
| LeavePlans.FilterIncreasing | src/utils/leaveMaximizer.ts:37 | filter keeps the chronological order |
| LeavePlans.BreakMarks | src/utils/leaveMaximizer.ts:54-73 | a day of the year is off iff it is a weekend day, a holiday or a leave day |
| LeavePlans.MarkDays | src/utils/leaveMaximizer.ts:54-65 | one entry per date of the year, recording weekend and holiday, no leave |
| LeavePlans.MarkLeave | src/utils/leaveMaximizer.ts:68-73 | the same keys; a day is marked leave iff it already was or is a leave day |
| LeavePlans.ScanYear | src/utils/leaveMaximizer.ts:76-113 | the walk with its current break and counter reports, for each run the forward walk closes, its start, end, length and leave days |
| LeavePlans.CalculateConsecutiveBreaks | src/utils/leaveMaximizer.ts:43-116 | the breaks are those of ExpectedBreaks |
| LeavePlans.ExpectedBreaksFacts | src/utils/leaveMaximizer.ts:43-116 | one break per maximal run of ≥ 2 days off, chronological, none left out, duration = run length, leaveDaysUsed = leave days in the run; a run reaching Dec 31 included |
| LeavePlans.LeaveOutsideYearIgnored | src/utils/leaveMaximizer.ts:68-73 | adding a leave day outside the year changes no break |
| LeavePlans.PlanOf | src/utils/leaveMaximizer.ts:162-169 | a plan keeps its leave days and their breaks, with non-negative total time off |
| BruteForce.CombinationsSound | src/utils/leaveMaximizer.ts:181-194 | every enumerated selection has k days, strictly increasing, drawn from the pool |
| BruteForce.CombinationsComplete | src/utils/leaveMaximizer.ts:181-194 | every increasing list drawn from the pool is enumerated |
| BruteForce.CombinationsEmpty | src/utils/leaveMaximizer.ts:181-184 | nothing is enumerated iff k < 0 or k exceeds the days left |
| BruteForce.FoldBestBound | src/utils/leaveMaximizer.ts:173-176 | the kept score is at least every evaluated score and the starting one |
| BruteForce.FoldBestWinner | src/utils/leaveMaximizer.ts:173-176 | the strict `>` keeps the first plan of highest score |
| BruteForce.CombinationSearch.constructor | src/utils/leaveMaximizer.ts:150-151 | the search starts with bestScore −1, no plan and an empty selection |
| BruteForce.CombinationSearch.GenerateCombinations | src/utils/leaveMaximizer.ts:154-195 | evaluates every completion of the current selection in enumeration order, folding them into the best found, and restores the selection after its push/pop |
| BruteForce.FindOptimalByBruteForce | src/utils/leaveMaximizer.ts:144-209 | the result is the best enumerated plan, or the greedy result when none was scored |
| BruteForce.SearchFallsBack | src/utils/leaveMaximizer.ts:200-203 | the greedy fallback runs iff k < 0 or k exceeds the number of workdays |
| BruteForce.SearchBound | src/utils/leaveMaximizer.ts:160-198 | no k-day selection scores above the search's outcome |
| BruteForce.SearchWinner | src/utils/leaveMaximizer.ts:173-176 | the outcome is an enumerated selection's plan, and every selection before it scores lower |
| BruteForce.BruteForceOptimal | src/utils/leaveMaximizer.ts:144-209 | for 0 ≤ k ≤ |workdays|, the plan of k distinct ascending workdays scoring at least every k-selection, the first such in enumeration order |
| Greedy.YearFree | src/utils/leaveMaximizer.ts:222-228 | the days of the year that are weekend days or holidays |
| Greedy.MarkFreeDays | src/utils/leaveMaximizer.ts:222-228 | one entry per date of the year, true iff the day is free |
| Greedy.MarkSelected | src/utils/leaveMaximizer.ts:236-239 | the selected days become free, everything else stays |
| Greedy.FilterUnmarked | src/utils/leaveMaximizer.ts:242-247 | the candidates are the pooled days the map does not hold as free |
| Greedy.NeighbourScoreCases | src/utils/leaveMaximizer.ts:262-293 | 30 iff both neighbours are free, 0 iff neither is, 15 only when a free neighbour has a free day beyond it; nothing but 0, 10, 15 or 30 |
| Greedy.SortedPickIsFirstBest | src/utils/leaveMaximizer.ts:302-305 | after the stable sort by score, the head is the first candidate of highest score |
| Greedy.FirstBestIsMax | src/utils/leaveMaximizer.ts:302-305 | the pick scores at least as high as every candidate |
| Greedy.FirstBestIsFirst | src/utils/leaveMaximizer.ts:302-305 | every candidate before the pick scores lower |
| Greedy.FilterOther | src/utils/leaveMaximizer.ts:309-310 | filtering by the pick drops it and keeps the rest |
| Greedy.SelectDays | src/utils/leaveMaximizer.ts:234-311 | the while loop's picks are those of GreedyPicks |
| Greedy.GreedyPicksOf | src/utils/leaveMaximizer.ts:234-311 | distinct workdays of the list, min(budget, pool) of them, none for a budget ≤ 0 |
| Greedy.GreedyPlanFacts | src/utils/leaveMaximizer.ts:313-328 | the plan's leave days are distinct pool days in chronological order, as many as the budget allows, and its score is the plan's score |
| Greedy.FindOptimalByGreedy | src/utils/leaveMaximizer.ts:215-329 | the result is the plan of the greedy picks in chronological order, with its score |
| LeaveMaximizer.EffectiveBudget | src/utils/leaveMaximizer.ts:130 | the capped budget is one of the two bounds and does not exceed either |
| LeaveMaximizer.FindOptimalLeaveDays | src/utils/leaveMaximizer.ts:121-139 | brute force iff the capped budget ≤ 10 and there are ≤ 252 workdays, greedy otherwise |
| LeaveMaximizer.OptimalFacts | src/utils/leaveMaximizer.ts:121-139 | min(budget, workdays) distinct workdays in order, scored as a plan, and optimal over every selection of that size when brute force runs |
| LeaveMaximizer.PeriodWorkdaysFacts | src/utils/leaveMaximizer.ts:345 | the filtered workdays are, in order, exactly the year's workdays in the chosen months |
| LeaveMaximizer.PeriodFacts | src/utils/leaveMaximizer.ts:345-364 | a half-year (or quarter) plan takes its days from that part of the year only, in order, as many as the budget allows |
| LeaveMaximizer.PlanPeriod | src/utils/leaveMaximizer.ts:345-353 | the greedy plan of the workdays of the chosen months |
| LeaveMaximizer.PlanQuarter | src/utils/leaveMaximizer.ts:373-383 | quarter q gets the greedy plan of the workdays of months 3q..3q+2 with ⌊max/4⌋ days |
| LeaveMaximizer.CollectQuarters | src/utils/leaveMaximizer.ts:373-394 | the loop joins the four quarters' leave days and breaks in order |
| LeaveMaximizer.QuarterlyPlanAsWritten | src/utils/leaveMaximizer.ts:367-404 | the quarterly plan as written: joined days, joined breaks and their summed durations |
| LeaveMaximizer.QuarterlyOvercounts | src/utils/leaveMaximizer.ts:390-399 | with a budget below 4 the quarterly plan as written takes no leave yet reports four times the time off of that same plan, which is at least 2 |
| LeaveMaximizer.QuarterlyPlan | src/utils/leaveMaximizer.ts:367-404 | the corrected quarterly plan: the joined leave days with their own breaks |
| LeaveMaximizer.RankByScore | src/utils/leaveMaximizer.ts:407 | the same results as a permutation, highest score first |
| LeaveMaximizer.RankStrategies | src/utils/leaveMaximizer.ts:334-407 | the optimal, first-half and second-half plans followed by the given quarterly plan, sorted by the stable comparator sort on score: a permutation of the four in non-increasing score order |
| LeaveMaximizer.GenerateLeaveStrategiesAsWritten | src/utils/leaveMaximizer.ts:334-408 | generateLeaveStrategies as written: the four strategies with the quarterly plan as written, sorted by score with ties in push order, a permutation in non-increasing score order |
| LeaveMaximizer.GenerateLeaveStrategies | src/utils/leaveMaximizer.ts:334-408 | the same ranking with the corrected quarterly plan |
| LeaveMaximizer.RankedFirstIsBest | src/utils/leaveMaximizer.ts:407 | the head of a list ranked by score scores at least every result it permutes |
| LeaveMaximizer.BestStrategyFirst | src/utils/leaveMaximizer.ts:334-408 | for either quarterly plan: exactly 4 results, and the first scores at least as high as the optimal plan |
| LeaveMaximizer.TotalTimeOffAppend | src/utils/leaveMaximizer.ts:396-399 | the time off of joined break lists is the sum of theirs |

## Left out

- Calendar: weekdays come from proleptic Gregorian arithmetic. The source reads them from JavaScript `Date`, through `getDay()` in local time and date-fns `isWeekend`. Time zones, daylight saving and `toISOString` shifts across midnight are not modelled.
- Dates of other years: both engines see one year as ordinals 0 .. 364/365. A holiday is a record carrying its ordinal. Holiday retrieval, caching and the UI that supplies the year are not part of this model.
- The date-fns wrappers `stringToDate` and `formatDate` of src/utils/dateUtils.ts are not modelled: holidays already carry days.
- IsoDate.Parse: `split("-").map(Number)` also reads keys of other shapes (signs, spaces, more digits). The model rejects every string that is not DDDD-DD-DD; only keys produced by formatDate reach it in the bridge finder.
- BridgeFinder.DaysBetween: the millisecond difference and `Math.round` are the exact day difference on ordinals.
- BridgeFinder.CalculateOptimalLeave:
  - the priority quarter is an integer, 0 for "any"; the parsing of "q1".."q4" is not modelled;
  - the cutoff is an in-year ordinal;
  - `!holidays` (a missing list) has no counterpart, since a sequence is always present.
- BridgeFinder.RankedOrder: states the comparator's order, not that bridges tying on both score and gap length keep their input order. Ranked is an insertion sort that does keep that order, as the stable `Array.prototype.sort` does, and PlanLeave's result is pinned to Ranked itself.
- Scores are exact reals; IEEE rounding of the ratios and of the 1.5 bonus is not modelled.
- The half-year filters `getMonth() < 6` and `getMonth() >= 6` are written as month ranges 0..5 and 6..11. These select the same days, since `getMonth()` is 0..11.
- LeaveMaximizer.GenerateLeaveStrategies: ranks the corrected quarterly plan (LeaveMaximizer.QuarterlyPlan); LeaveMaximizer.GenerateLeaveStrategiesAsWritten ranks the plan as written (see Findings).
- BruteForce.FindOptimalByBruteForce: its running time is not modelled.
- The source's local-time `setDate` steps in the greedy neighbour test are exact ordinal steps.

## Findings

| source | as written | input that shows it | evidently intended | confidence | as-written member | corrected member |
|---|---|---|---|---|---|---|
| src/utils/leaveMaximizer.ts:390-399 | each quarter's greedy plan computes its breaks over the whole year, and the quarterly plan concatenates the four lists, so every weekend and holiday break of the year is counted four times in totalTimeOff and in the score | any year and holidays with maxLeaveDays in 0..3: no quarter takes leave, yet the quarterly total time off is 4 × that of the plan with no leave, which is at least 2 | the breaks (and time off) of the joined leave days, each break once | not executed | LeaveMaximizer.QuarterlyOvercounts | LeaveMaximizer.QuarterlyPlan |
