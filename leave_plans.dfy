/** Plans, their scores and their consecutive breaks, as the combination
    optimiser of src/utils/leaveMaximizer.ts builds them.

    A plan is a set of leave days.  Its consecutive breaks are the maximal
    runs of two or more days that are weekend, holiday or leave; its score
    is the total length of those breaks plus, for each break,
    duration² / (leave days used, or 1).  Small budgets are searched
    exhaustively over all subsets of the workdays of the budget's size;
    larger ones are filled day by day with the workday whose neighbours are
    most free.  Days are ordinals of the planning year (module Calendar). */
module LeavePlans {
  import opened Calendar
  import opened IsoDate
  import opened Ordering
  import opened Runs
  import opened DateUtils

  /** A break of consecutive days off (src/types/state.ts). */
  datatype ConsecutiveBreak = ConsecutiveBreak(startDate: Day, endDate: Day, duration: int, leaveDaysUsed: int)

  /** A proposed plan: the leave days, the total time off and the breaks. */
  datatype LeavePlan = LeavePlan(recommendedLeaveDays: seq<Day>, totalTimeOff: int,
                                 consecutiveBreaks: seq<ConsecutiveBreak>)

  datatype AlgorithmResult = AlgorithmResult(leavePlan: LeavePlan, score: real)

  // ---------------------------------------------------------------------------
  // Scoring a plan

  /** What one break adds to the score: duration² divided by the leave days
      it uses, or by 1 when it uses none. */
  function BreakScore(b: ConsecutiveBreak): (s: real)
    ensures s >= 0.0
    ensures b.leaveDaysUsed <= 0 ==> s == (b.duration * b.duration) as real
  {
    var divisor := if b.leaveDaysUsed > 0 then b.leaveDaysUsed else 1;
    Quotient(b.duration * b.duration, divisor)
  }

  function Quotient(n: int, d: int): (q: real)
    requires n >= 0 && d >= 1
    ensures q >= 0.0
    ensures d == 1 ==> q == n as real
  {
    n as real / d as real
  }

  /** The sum of the break scores of the first |breaks| breaks. */
  function BonusSum(breaks: seq<ConsecutiveBreak>): (s: real)
    ensures s >= 0.0
  {
    if breaks == [] then 0.0
    else BonusSum(breaks[..|breaks| - 1]) + BreakScore(breaks[|breaks| - 1])
  }

  /** The score of a plan: its total time off plus the break bonuses. */
  function PlanScore(plan: LeavePlan): (s: real)
    ensures s >= plan.totalTimeOff as real
  {
    plan.totalTimeOff as real + BonusSum(plan.consecutiveBreaks)
  }

  /** scoreLeavePlan: starts from the total time off and adds each break's
      score; the result is never below the total time off. */
  method ScoreLeavePlan(leavePlan: LeavePlan) returns (score: real)
    ensures score == PlanScore(leavePlan)
    ensures score >= leavePlan.totalTimeOff as real
  {
    score := leavePlan.totalTimeOff as real;
    var breaks := leavePlan.consecutiveBreaks;
    for i := 0 to |breaks|
      invariant score == leavePlan.totalTimeOff as real + BonusSum(breaks[..i])
    {
      assert breaks[..i + 1][..i] == breaks[..i];
      score := score + BreakScore(breaks[i]);
    }
    assert breaks[..|breaks|] == breaks;
  }

  /** The sum of the durations of the breaks, as the `reduce` computing
      totalTimeOff adds them up. */
  function TotalTimeOff(breaks: seq<ConsecutiveBreak>): (t: int)
    ensures (forall i :: 0 <= i < |breaks| ==> breaks[i].duration >= 0) ==> t >= 0
  {
    if breaks == [] then 0 else TotalTimeOff(breaks[..|breaks| - 1]) + breaks[|breaks| - 1].duration
  }

  // ---------------------------------------------------------------------------
  // Workdays

  /** Array.prototype.filter: the elements that pass the test, in order. */
  function Filter(xs: seq<Day>, keep: Day -> bool): (r: seq<Day>)
    ensures |r| <= |xs|
  {
    if xs == [] then []
    else
      var rest := Filter(xs[1..], keep);
      if keep(xs[0]) then [xs[0]] + rest else rest
  }

  /** Filtering keeps exactly the elements that pass the test. */
  lemma {:induction false} FilterMembers(xs: seq<Day>, keep: Day -> bool)
    ensures forall x :: x in Filter(xs, keep) <==> x in xs && keep(x)
  {
    if xs != [] {
      FilterMembers(xs[1..], keep);
      assert forall x :: x in xs <==> x == xs[0] || x in xs[1..];
    }
  }

  /** Filtering out an element that is there makes the list shorter. */
  lemma {:induction false} FilterShrinks(xs: seq<Day>, keep: Day -> bool, y: Day)
    requires y in xs && !keep(y)
    ensures |Filter(xs, keep)| < |xs|
  {
    if xs[0] != y {
      assert y in xs[1..];
      FilterShrinks(xs[1..], keep, y);
    } else {
      assert |Filter(xs[1..], keep)| <= |xs[1..]|;
    }
  }

  /** Filtering keeps the order of what it keeps. */
  lemma {:induction false} FilterIncreasing(xs: seq<Day>, keep: Day -> bool)
    requires StrictlyIncreasing(xs)
    ensures StrictlyIncreasing(Filter(xs, keep))
  {
    if xs != [] {
      var rest := Filter(xs[1..], keep);
      FilterIncreasing(xs[1..], keep);
      FilterMembers(xs[1..], keep);
      if keep(xs[0]) {
        forall x | x in rest ensures xs[0] < x {
          var j :| 0 <= j < |xs[1..]| && xs[1..][j] == x;
          assert xs[j + 1] == x;
        }
        var r := [xs[0]] + rest;
        forall i, j | 0 <= i < j < |r| ensures r[i] < r[j] {
          assert r[j] == rest[j - 1] && r[j] in rest;
          if i > 0 {
            assert r[i] == rest[i - 1];
          }
        }
      }
    }
  }

  /** findWorkdays: the days of the year that are neither weekend nor
      holiday, in chronological order. */
  function FindWorkdays(year: int, holidays: seq<Holiday>): (workdays: seq<Day>)
    ensures StrictlyIncreasing(workdays)
    ensures forall d :: d in workdays <==> 0 <= d < DaysInYear(year) && !IsFreeDay(year, holidays, d)
  {
    var allDates := YearDays(year);
    assert forall d :: d in allDates <==> 0 <= d < DaysInYear(year) by {
      forall d | 0 <= d < DaysInYear(year) ensures d in allDates {
        assert allDates[d] == d;
      }
    }
    assert StrictlyIncreasing(allDates);
    FilterMembers(allDates, d => !IsFreeDay(year, holidays, d));
    FilterIncreasing(allDates, d => !IsFreeDay(year, holidays, d));
    Filter(allDates, d => !IsFreeDay(year, holidays, d))
  }

  // ---------------------------------------------------------------------------
  // Consecutive breaks

  /** What the date map records for one day of the year. */
  datatype WorkingDayInfo = WorkingDayInfo(date: Day, isWeekend: bool, isHoliday: bool, isLeave: bool)

  /** The days of the year that are weekend, holiday or leave. */
  function BreakMarks(year: int, holidays: seq<Holiday>, leaveDays: seq<Day>): (marks: seq<bool>)
    ensures |marks| == DaysInYear(year)
    ensures forall d :: 0 <= d < |marks| ==>
      marks[d] == (IsWeekendDay(year, d) || IsHoliday(d, holidays) || d in leaveDays)
  {
    seq(DaysInYear(year), d => IsWeekendDay(year, d) || IsHoliday(d, holidays) || d in leaveDays)
  }

  /** The number of days from lo up to (not including) hi that are
      leave days. */
  function CountLeave(leaveDays: seq<Day>, lo: int, hi: int): (n: int)
    ensures 0 <= n <= (if lo <= hi then hi - lo else 0)
    decreases hi - lo
  {
    if hi <= lo then 0
    else CountLeave(leaveDays, lo, hi - 1) + (if hi - 1 in leaveDays then 1 else 0)
  }

  /** The break reported for a run of days. */
  function ToBreak(s: Span, leaveDays: seq<Day>): ConsecutiveBreak {
    ConsecutiveBreak(s.first, s.last, s.last - s.first + 1, CountLeave(leaveDays, s.first, s.last + 1))
  }

  /** The breaks reported for a list of runs, one for one. */
  function ToBreaks(spans: seq<Span>, leaveDays: seq<Day>): (breaks: seq<ConsecutiveBreak>)
    ensures |breaks| == |spans|
    ensures forall i :: 0 <= i < |spans| ==> breaks[i] == ToBreak(spans[i], leaveDays)
  {
    seq(|spans|, i requires 0 <= i < |spans| => ToBreak(spans[i], leaveDays))
  }

  lemma ToBreaksAppend(a: seq<Span>, b: seq<Span>, leaveDays: seq<Day>)
    ensures ToBreaks(a + b, leaveDays) == ToBreaks(a, leaveDays) + ToBreaks(b, leaveDays)
  {
    var l, r := ToBreaks(a + b, leaveDays), ToBreaks(a, leaveDays) + ToBreaks(b, leaveDays);
    forall i | 0 <= i < |l| ensures l[i] == r[i] {
      if i >= |a| {
        assert (a + b)[i] == b[i - |a|];
      }
    }
  }

  /** The breaks of a set of leave days, as the walk of
      calculateConsecutiveBreaks reports them. */
  function ExpectedBreaks(year: int, holidays: seq<Holiday>, leaveDays: seq<Day>): seq<ConsecutiveBreak> {
    var marks := BreakMarks(year, holidays, leaveDays);
    ToBreaks(LongRuns(marks), leaveDays)
  }

  /** The breaks of a set of leave days: one per maximal run of two or more
      days off (weekend, holiday or leave) within the year, in chronological
      order, none left out, each with its length and the number of its
      leave days. */
  lemma ExpectedBreaksFacts(year: int, holidays: seq<Holiday>, leaveDays: seq<Day>)
    ensures BreaksOf(BreakMarks(year, holidays, leaveDays), leaveDays, ExpectedBreaks(year, holidays, leaveDays))
  {
    var marks := BreakMarks(year, holidays, leaveDays);
    LongRunsFacts(marks);
    BreaksOfRuns(marks, LongRuns(marks), leaveDays);
  }

  /** breaks are the maximal runs of two or more marked days, in
      chronological order, none left out, each with its length and the
      number of its leave days. */
  ghost predicate BreaksOf(marks: seq<bool>, leaveDays: seq<Day>, breaks: seq<ConsecutiveBreak>) {
    (forall i :: 0 <= i < |breaks| ==> LongRun(marks, Span(breaks[i].startDate, breaks[i].endDate)))
    && (forall i :: 0 <= i < |breaks| ==>
          2 <= breaks[i].duration == breaks[i].endDate - breaks[i].startDate + 1
          && breaks[i].leaveDaysUsed == CountLeave(leaveDays, breaks[i].startDate, breaks[i].endDate + 1))
    && (forall i, j :: 0 <= i < j < |breaks| ==> breaks[i].endDate < breaks[j].startDate)
    && (forall k :: InLongRun(marks, k) ==>
          exists i :: 0 <= i < |breaks| && breaks[i].startDate <= k <= breaks[i].endDate)
  }

  lemma BreaksOfRuns(marks: seq<bool>, spans: seq<Span>, leaveDays: seq<Day>)
    requires AreLongRuns(marks, spans)
    ensures BreaksOf(marks, leaveDays, ToBreaks(spans, leaveDays))
  {
    var breaks := ToBreaks(spans, leaveDays);
    assert forall i :: 0 <= i < |breaks| ==> breaks[i].startDate == spans[i].first && breaks[i].endDate == spans[i].last;
  }

  /** The first loop of calculateConsecutiveBreaks: one entry per date of
      the year saying whether it is a weekend day or a holiday. */
  method MarkDays(year: int, holidays: seq<Holiday>, allDates: seq<Day>) returns (dateMap: map<Day, WorkingDayInfo>)
    ensures forall d :: d in dateMap <==> d in allDates
    ensures forall d :: d in dateMap ==>
      dateMap[d] == WorkingDayInfo(d, IsWeekendDay(year, d), IsHoliday(d, holidays), false)
  {
    dateMap := map[];
    for i := 0 to |allDates|
      invariant forall d :: d in dateMap <==> d in allDates[..i]
      invariant forall d :: d in dateMap ==>
        dateMap[d] == WorkingDayInfo(d, IsWeekendDay(year, d), IsHoliday(d, holidays), false)
    {
      var date := allDates[i];
      dateMap := dateMap[date := WorkingDayInfo(date, IsWeekendDay(year, date), IsHoliday(date, holidays), false)];
      assert allDates[..i + 1] == allDates[..i] + [date];
    }
    assert allDates[..|allDates|] == allDates;
  }

  /** The second loop: every leave day that has an entry is marked as leave;
      leave days outside the year have none and are passed over. */
  method MarkLeave(dateMap: map<Day, WorkingDayInfo>, leaveDays: seq<Day>) returns (marked: map<Day, WorkingDayInfo>)
    ensures marked.Keys == dateMap.Keys
    ensures forall d :: d in dateMap ==>
      marked[d] == dateMap[d].(isLeave := dateMap[d].isLeave || d in leaveDays)
  {
    marked := dateMap;
    for i := 0 to |leaveDays|
      invariant marked.Keys == dateMap.Keys
      invariant forall d :: d in dateMap ==>
        marked[d] == dateMap[d].(isLeave := dateMap[d].isLeave || d in leaveDays[..i])
    {
      var date := leaveDays[i];
      if date in marked {
        marked := marked[date := marked[date].(isLeave := true)];
      }
      assert leaveDays[..i + 1] == leaveDays[..i] + [date];
    }
    assert leaveDays[..|leaveDays|] == leaveDays;
  }

  /** calculateConsecutiveBreaks: marks each day of the year as weekend,
      holiday or leave, then walks the year, growing the current break over
      days off and reporting it at the next workday (or at the end of the
      year) when it holds two days or more. */
  method CalculateConsecutiveBreaks(year: int, holidays: seq<Holiday>, leaveDays: seq<Day>)
    returns (breaks: seq<ConsecutiveBreak>)
    ensures breaks == ExpectedBreaks(year, holidays, leaveDays)
  {
    var allDates := GetDatesInYear(year);
    var dateMap := MarkDays(year, holidays, allDates);
    dateMap := MarkLeave(dateMap, leaveDays);
    ghost var marks := BreakMarks(year, holidays, leaveDays);
    forall d | 0 <= d < |marks|
      ensures d in dateMap && marks[d] == (dateMap[d].isWeekend || dateMap[d].isHoliday || dateMap[d].isLeave)
      ensures dateMap[d].isLeave == (d in leaveDays)
    {
      assert allDates[d] == d;
    }
    breaks := ScanYear(allDates, dateMap, marks, leaveDays);
    assert Closing(marks, |marks|) == LongRuns(marks);
  }

  /** The walk over the year that calculateConsecutiveBreaks performs once
      the date map is filled in: a day off joins the current break (and
      counts when it is leave), a workday reports the current break when it
      holds two days or more and starts a new one, and the break still open
      on Dec 31 is reported last. */
  method ScanYear(allDates: seq<Day>, dateMap: map<Day, WorkingDayInfo>, ghost marks: seq<bool>, ghost leaveDays: seq<Day>)
    returns (breaks: seq<ConsecutiveBreak>)
    requires |allDates| == |marks| && forall i :: 0 <= i < |allDates| ==> allDates[i] == i
    requires forall d :: 0 <= d < |marks| ==>
      d in dateMap && marks[d] == (dateMap[d].isWeekend || dateMap[d].isHoliday || dateMap[d].isLeave)
    requires forall d :: 0 <= d < |marks| ==> dateMap[d].isLeave == (d in leaveDays)
    ensures breaks == ToBreaks(Closing(marks, |marks|), leaveDays)
  {
    breaks := [];
    var currentBreak: seq<Day> := [];
    var currentLeaveDaysUsed := 0;
    var i := 0;
    while i < |allDates|
      invariant 0 <= i <= |allDates|
      invariant i - |currentBreak| == StreakStart(marks, i)
      invariant forall j :: 0 <= j < |currentBreak| ==> currentBreak[j] == i - |currentBreak| + j
      invariant currentLeaveDaysUsed == CountLeave(leaveDays, i - |currentBreak|, i)
      invariant breaks == ToBreaks(Reported(marks, i), leaveDays)
    {
      var date := allDates[i];
      var info := dateMap[date];
      if info.isWeekend || info.isHoliday || info.isLeave {
        assert Reported(marks, i + 1) == Reported(marks, i);
        currentBreak := currentBreak + [date];
        if info.isLeave {
          currentLeaveDaysUsed := currentLeaveDaysUsed + 1;
        }
      } else {
        assert Reported(marks, i + 1) == Closing(marks, i);
        breaks := ReportBreak(breaks, currentBreak, currentLeaveDaysUsed, Reported(marks, i), leaveDays, i - |currentBreak|);
        currentBreak := [];
        currentLeaveDaysUsed := 0;
      }
      i := i + 1;
    }
    breaks := ReportBreak(breaks, currentBreak, currentLeaveDaysUsed, Reported(marks, i), leaveDays, i - |currentBreak|);
  }

  /** Reports the break made of the days s, s + 1, ... with `used` leave days
      when it holds more than one day. */
  method ReportBreak(breaks: seq<ConsecutiveBreak>, currentBreak: seq<Day>, used: int,
                     ghost spans: seq<Span>, ghost leaveDays: seq<Day>, ghost s: int)
    returns (breaks': seq<ConsecutiveBreak>)
    requires forall j :: 0 <= j < |currentBreak| ==> currentBreak[j] == s + j
    requires used == CountLeave(leaveDays, s, s + |currentBreak|)
    requires breaks == ToBreaks(spans, leaveDays)
    ensures breaks' == ToBreaks(spans + Closed(s, s + |currentBreak|), leaveDays)
  {
    ToBreaksAppend(spans, Closed(s, s + |currentBreak|), leaveDays);
    breaks' := breaks;
    if |currentBreak| > 1 {
      var b := ConsecutiveBreak(currentBreak[0], currentBreak[|currentBreak| - 1], |currentBreak|, used);
      breaks' := breaks + [b];
      assert ToBreaks(Closed(s, s + |currentBreak|), leaveDays) == [b];
    } else {
      assert ToBreaks(Closed(s, s + |currentBreak|), leaveDays) == [];
    }
  }

  /** Leave days outside the year change nothing: they have no entry in the
      date map. */
  lemma LeaveOutsideYearIgnored(year: int, holidays: seq<Holiday>, leaveDays: seq<Day>, x: Day)
    requires x < 0 || DaysInYear(year) <= x
    ensures ExpectedBreaks(year, holidays, leaveDays + [x]) == ExpectedBreaks(year, holidays, leaveDays)
  {
    var m1, m2 := BreakMarks(year, holidays, leaveDays + [x]), BreakMarks(year, holidays, leaveDays);
    assert m1 == m2;
    var spans := LongRuns(m2);
    LongRunsFacts(m2);
    forall i | 0 <= i < |spans|
      ensures ToBreak(spans[i], leaveDays + [x]) == ToBreak(spans[i], leaveDays)
    {
      assert LongRun(m2, spans[i]);
      CountLeaveInYear(leaveDays, x, spans[i].first, spans[i].last + 1);
    }
  }

  lemma {:induction false} CountLeaveInYear(leaveDays: seq<Day>, x: Day, lo: int, hi: int)
    requires x < lo || hi <= x
    ensures CountLeave(leaveDays + [x], lo, hi) == CountLeave(leaveDays, lo, hi)
    decreases hi - lo
  {
    if lo < hi {
      CountLeaveInYear(leaveDays, x, lo, hi - 1);
      assert hi - 1 in leaveDays + [x] <==> hi - 1 in leaveDays;
    }
  }

  /** The plan the brute force builds for a selection of leave days. */
  function PlanOf(year: int, holidays: seq<Holiday>, leaveDays: seq<Day>): (plan: LeavePlan)
    ensures plan.recommendedLeaveDays == leaveDays
    ensures plan.consecutiveBreaks == ExpectedBreaks(year, holidays, leaveDays)
    ensures plan.totalTimeOff >= 0
  {
    var breaks := ExpectedBreaks(year, holidays, leaveDays);
    ExpectedBreaksFacts(year, holidays, leaveDays);
    LeavePlan(leaveDays, TotalTimeOff(breaks), breaks)
  }
}
