/** The entry points of src/utils/leaveMaximizer.ts: findOptimalLeaveDays,
    which picks the exhaustive or the greedy search by the size of the
    budget, and generateLeaveStrategies, which adds plans focused on each
    half of the year and on an even spread over the quarters and ranks the
    four plans by score. */
module LeaveMaximizer {
  import opened Calendar
  import opened IsoDate
  import opened Ordering
  import opened DateUtils
  import opened LeavePlans
  import opened Greedy
  import opened BruteForce
  import opened Runs

  // ---------------------------------------------------------------------------
  // findOptimalLeaveDays

  /** Math.min(maxLeaveDays, workdays.length). */
  function EffectiveBudget(maxLeaveDays: int, available: int): (eff: int)
    ensures eff <= maxLeaveDays && eff <= available
    ensures eff == maxLeaveDays || eff == available
  {
    if maxLeaveDays < available then maxLeaveDays else available
  }

  /** The exhaustive search runs for at most ten days out of at most 252
      workdays. */
  predicate UsesBruteForce(eff: int, available: int) {
    eff <= 10 && available <= 252
  }

  /** What findOptimalLeaveDays returns. */
  ghost function OptimalSpec(year: int, holidays: seq<Holiday>, maxLeaveDays: int): AlgorithmResult {
    var workdays := FindWorkdays(year, holidays);
    var eff := EffectiveBudget(maxLeaveDays, |workdays|);
    if UsesBruteForce(eff, |workdays|) then BruteForceSpec(year, holidays, workdays, eff)
    else GreedySpec(year, holidays, workdays, eff)
  }

  /** findOptimalLeaveDays: the workdays of the year, the budget capped at
      their number, then the exhaustive search for small inputs and the
      greedy search otherwise; OptimalFacts states what the result is. */
  method FindOptimalLeaveDays(year: int, holidays: seq<Holiday>, maxLeaveDays: int)
    returns (result: AlgorithmResult)
    ensures result == OptimalSpec(year, holidays, maxLeaveDays)
  {
    var workdays := FindWorkdays(year, holidays);
    var eff := EffectiveBudget(maxLeaveDays, |workdays|);
    if eff <= 10 && |workdays| <= 252 {
      result := FindOptimalByBruteForce(year, holidays, workdays, eff);
    } else {
      result := FindOptimalByGreedy(year, holidays, workdays, eff);
    }
  }

  /** The workdays of the year are listed in order and none is free. */
  lemma WorkdaysFresh(year: int, holidays: seq<Holiday>)
    ensures var workdays := FindWorkdays(year, holidays);
      StrictlyIncreasing(workdays) && forall d :: d in workdays ==> !IsFreeDay(year, holidays, d)
  {
  }

  /** The optimal plan takes min(maxLeaveDays, number of workdays) distinct
      workdays (none for a negative budget), and its score is its own
      score.  When the exhaustive search runs, no selection of that many
      workdays scores higher. */
  lemma OptimalFacts(year: int, holidays: seq<Holiday>, maxLeaveDays: int)
    ensures var workdays := FindWorkdays(year, holidays);
      var eff := EffectiveBudget(maxLeaveDays, |workdays|);
      var r := OptimalSpec(year, holidays, maxLeaveDays);
      var days := r.leavePlan.recommendedLeaveDays;
      r.score == PlanScore(r.leavePlan)
      && StrictlyIncreasing(days)
      && (forall d :: d in days ==> d in workdays)
      && |days| == (if eff < 0 then 0 else eff)
      && (UsesBruteForce(eff, |workdays|) ==>
            forall sel :: IsSelection(sel, workdays, eff) ==> PlanScore(PlanOf(year, holidays, sel)) <= r.score)
  {
    var workdays := FindWorkdays(year, holidays);
    var eff := EffectiveBudget(maxLeaveDays, |workdays|);
    WorkdaysFresh(year, holidays);
    GreedyPlanFacts(year, holidays, workdays, eff);
    if UsesBruteForce(eff, |workdays|) {
      if eff < 0 {
        SearchFallsBack(year, holidays, workdays, eff);
      } else {
        BruteForceOptimal(year, holidays, workdays, eff);
        var cs := Combinations(workdays, 0, eff);
        var i :| 0 <= i < |cs| && IsSelection(cs[i], workdays, eff)
          && OptimalSpec(year, holidays, maxLeaveDays).leavePlan == PlanOf(year, holidays, cs[i]);
        SelectionInWorkdays(cs[i], workdays, eff);
      }
    }
  }

  /** The days of a selection are workdays. */
  lemma SelectionInWorkdays(sel: seq<Day>, workdays: seq<Day>, k: int)
    requires IsSelection(sel, workdays, k)
    ensures forall d :: d in sel ==> d in workdays
  {
    forall d | d in sel ensures d in workdays {
      var j :| 0 <= j < |workdays| && workdays[j] == d;
    }
  }

  // ---------------------------------------------------------------------------
  // Workdays of part of the year

  /** The test `d.getMonth()` between lo and hi (months counted from 0), for
      a day of the year. */
  function InMonths(year: int, lo: int, hi: int): Day -> bool {
    d => 0 <= d < DaysInYear(year) && lo <= DateOf(year, d).month - 1 <= hi
  }

  /** The workdays of the year whose month (from 0) lies between lo and hi. */
  function PeriodWorkdays(year: int, holidays: seq<Holiday>, lo: int, hi: int): seq<Day> {
    Filter(FindWorkdays(year, holidays), InMonths(year, lo, hi))
  }

  /** The workdays of months lo..hi are in chronological order and are
      exactly the days of the year in those months that are not free. */
  lemma PeriodWorkdaysFacts(year: int, holidays: seq<Holiday>, lo: int, hi: int)
    ensures var workdays := PeriodWorkdays(year, holidays, lo, hi);
      StrictlyIncreasing(workdays)
      && forall d :: d in workdays <==>
        0 <= d < DaysInYear(year) && !IsFreeDay(year, holidays, d) && lo <= DateOf(year, d).month - 1 <= hi
  {
    var all := FindWorkdays(year, holidays);
    FilterMembers(all, InMonths(year, lo, hi));
    FilterIncreasing(all, InMonths(year, lo, hi));
  }

  /** The greedy plan for the workdays of months lo..hi with the given
      budget. */
  ghost function PeriodSpec(year: int, holidays: seq<Holiday>, lo: int, hi: int, budget: int): AlgorithmResult {
    GreedySpec(year, holidays, PeriodWorkdays(year, holidays, lo, hi), budget)
  }

  /** A plan for part of the year takes its days from that part only, in
      chronological order, as many as the budget allows. */
  lemma PeriodFacts(year: int, holidays: seq<Holiday>, lo: int, hi: int, budget: int)
    ensures var workdays := PeriodWorkdays(year, holidays, lo, hi);
      var r := PeriodSpec(year, holidays, lo, hi, budget);
      var days := r.leavePlan.recommendedLeaveDays;
      StrictlyIncreasing(days)
      && (forall d :: d in days ==> 0 <= d < DaysInYear(year) && !IsFreeDay(year, holidays, d)
                                    && lo <= DateOf(year, d).month - 1 <= hi)
      && |days| == (if budget <= 0 then 0 else if budget < |workdays| then budget else |workdays|)
      && r.score == PlanScore(r.leavePlan)
  {
    PeriodWorkdaysFacts(year, holidays, lo, hi);
    GreedyPlanFacts(year, holidays, PeriodWorkdays(year, holidays, lo, hi), budget);
  }

  // ---------------------------------------------------------------------------
  // The quarterly strategy

  /** The first and the last month (from 0) of quarter q. */
  function FirstMonth(q: int): int { q * 3 }
  function LastMonth(q: int): int { q * 3 + 2 }

  /** The greedy plans of the first n quarters, in order. */
  ghost function QuarterPlans(year: int, holidays: seq<Holiday>, maxLeaveDays: int, n: nat): seq<AlgorithmResult> {
    seq(n, q => PeriodSpec(year, holidays, FirstMonth(q), LastMonth(q), maxLeaveDays / 4))
  }

  /** The leave days of a list of plans, one plan after the other. */
  function JoinedDays(rs: seq<AlgorithmResult>): seq<Day> {
    if rs == [] then [] else JoinedDays(rs[..|rs| - 1]) + rs[|rs| - 1].leavePlan.recommendedLeaveDays
  }

  /** The breaks of a list of plans, one list after the other. */
  function JoinedBreaks(rs: seq<AlgorithmResult>): seq<ConsecutiveBreak> {
    if rs == [] then [] else JoinedBreaks(rs[..|rs| - 1]) + rs[|rs| - 1].leavePlan.consecutiveBreaks
  }

  /** The quarterly plan as generateLeaveStrategies builds it: the quarters'
      leave days and the quarters' breaks joined, and the time off summed
      over those breaks. */
  ghost function QuarterlyAsWritten(year: int, holidays: seq<Holiday>, maxLeaveDays: int): AlgorithmResult {
    var quarters := QuarterPlans(year, holidays, maxLeaveDays, 4);
    var breaks := JoinedBreaks(quarters);
    var plan := LeavePlan(JoinedDays(quarters), TotalTimeOff(breaks), breaks);
    AlgorithmResult(plan, PlanScore(plan))
  }

  /** The quarterly plan with its breaks taken over the joined leave days,
      so that each day off of the year is counted once. */
  ghost function QuarterlyCorrected(year: int, holidays: seq<Holiday>, maxLeaveDays: int): AlgorithmResult {
    var plan := PlanOf(year, holidays, JoinedDays(QuarterPlans(year, holidays, maxLeaveDays, 4)));
    AlgorithmResult(plan, PlanScore(plan))
  }

  /** The loop over the four quarters: each quarter's workdays get a greedy
      plan with a quarter of the budget, and its leave days and breaks are
      appended to those of the quarters before. */
  method CollectQuarters(year: int, holidays: seq<Holiday>, maxLeaveDays: int)
    returns (days: seq<Day>, breaks: seq<ConsecutiveBreak>)
    ensures days == JoinedDays(QuarterPlans(year, holidays, maxLeaveDays, 4))
    ensures breaks == JoinedBreaks(QuarterPlans(year, holidays, maxLeaveDays, 4))
  {
    days, breaks := [], [];
    for quarter := 0 to 4
      invariant days == JoinedDays(QuarterPlans(year, holidays, maxLeaveDays, quarter))
      invariant breaks == JoinedBreaks(QuarterPlans(year, holidays, maxLeaveDays, quarter))
    {
      var quarterResult := PlanQuarter(year, holidays, maxLeaveDays, quarter);
      QuarterPlansStep(year, holidays, maxLeaveDays, quarter);
      days := days + quarterResult.leavePlan.recommendedLeaveDays;
      breaks := breaks + quarterResult.leavePlan.consecutiveBreaks;
    }
  }

  /** The plans of n + 1 quarters are those of n quarters and the plan of
      quarter n. */
  lemma QuarterPlansStep(year: int, holidays: seq<Holiday>, maxLeaveDays: int, n: nat)
    ensures var rs := QuarterPlans(year, holidays, maxLeaveDays, n + 1);
      rs[..n] == QuarterPlans(year, holidays, maxLeaveDays, n)
      && rs[n] == PeriodSpec(year, holidays, FirstMonth(n), LastMonth(n), maxLeaveDays / 4)
  {
  }

  /** One round of the loop over the quarters: the greedy plan of the
      workdays of quarter q (months 3q..3q+2) with a quarter of the budget,
      rounded down. */
  method PlanQuarter(year: int, holidays: seq<Holiday>, maxLeaveDays: int, quarter: int)
    returns (quarterResult: AlgorithmResult)
    ensures quarterResult == PeriodSpec(year, holidays, FirstMonth(quarter), LastMonth(quarter), maxLeaveDays / 4)
  {
    var startMonth := FirstMonth(quarter);
    var endMonth := LastMonth(quarter);
    var workdaysQuarter := PeriodWorkdays(year, holidays, startMonth, endMonth);
    var daysPerQuarter := maxLeaveDays / 4;
    quarterResult := FindOptimalByGreedy(year, holidays, workdaysQuarter, daysPerQuarter);
  }

  /** The quarterly strategy as written: the joined breaks are summed. */
  method QuarterlyPlanAsWritten(year: int, holidays: seq<Holiday>, maxLeaveDays: int)
    returns (result: AlgorithmResult)
    ensures result == QuarterlyAsWritten(year, holidays, maxLeaveDays)
  {
    var days, breaks := CollectQuarters(year, holidays, maxLeaveDays);
    var plan := LeavePlan(days, TotalTimeOff(breaks), breaks);
    var score := ScoreLeavePlan(plan);
    result := AlgorithmResult(plan, score);
  }

  /** The quarterly strategy with the breaks of the joined leave days. */
  method QuarterlyPlan(year: int, holidays: seq<Holiday>, maxLeaveDays: int)
    returns (result: AlgorithmResult)
    ensures result == QuarterlyCorrected(year, holidays, maxLeaveDays)
  {
    var days, _ := CollectQuarters(year, holidays, maxLeaveDays);
    var breaks := CalculateConsecutiveBreaks(year, holidays, days);
    var plan := LeavePlan(days, TotalTimeOff(breaks), breaks);
    var score := ScoreLeavePlan(plan);
    result := AlgorithmResult(plan, score);
  }

  // ---------------------------------------------------------------------------
  // generateLeaveStrategies

  /** The greedy plan for the workdays of months lo..hi: the half-year
      strategies. */
  method PlanPeriod(year: int, holidays: seq<Holiday>, lo: int, hi: int, budget: int)
    returns (result: AlgorithmResult)
    ensures result == PeriodSpec(year, holidays, lo, hi, budget)
  {
    var workdays := PeriodWorkdays(year, holidays, lo, hi);
    result := FindOptimalByGreedy(year, holidays, workdays, budget);
  }

  /** The four strategies in the order they are pushed: the optimal plan,
      the first half (months 0..5) and the second half (months 6..11) of the
      year with half the budget each, and the given quarterly plan. */
  ghost function Strategies(year: int, holidays: seq<Holiday>, maxLeaveDays: int, quarterly: AlgorithmResult)
    : seq<AlgorithmResult>
  {
    [OptimalSpec(year, holidays, maxLeaveDays),
     PeriodSpec(year, holidays, 0, 5, maxLeaveDays / 2),
     PeriodSpec(year, holidays, 6, 11, maxLeaveDays / 2),
     quarterly]
  }

  /** The comparator `b.score - a.score`: highest score first, and no
      second key, so that ties keep their order. */
  function ByScore(): AlgorithmResult -> real {
    (r: AlgorithmResult) => r.score
  }

  function SameRank(): AlgorithmResult -> int {
    (r: AlgorithmResult) => 0
  }

  /** `results.sort((a, b) => b.score - a.score)`: the same results,
      highest score first. */
  method RankByScore(unranked: seq<AlgorithmResult>) returns (results: seq<AlgorithmResult>)
    ensures results == SortByKeys(unranked, ByScore(), SameRank())
    ensures multiset(results) == multiset(unranked)
    ensures forall i, j :: 0 <= i < j < |results| ==> results[i].score >= results[j].score
  {
    results := SortByKeys(unranked, ByScore(), SameRank());
    assert forall i, j :: 0 <= i < j < |results| ==> Precedes(results[i], results[j], ByScore(), SameRank());
  }

  /** The other three strategies computed, the quarterly plan added last,
      and the four ranked by score, the best first. */
  method RankStrategies(year: int, holidays: seq<Holiday>, maxLeaveDays: int, quarterly: AlgorithmResult)
    returns (results: seq<AlgorithmResult>)
    ensures results == SortByKeys(Strategies(year, holidays, maxLeaveDays, quarterly), ByScore(), SameRank())
    ensures multiset(results) == multiset(Strategies(year, holidays, maxLeaveDays, quarterly))
    ensures forall i, j :: 0 <= i < j < |results| ==> results[i].score >= results[j].score
  {
    var optimal := FindOptimalLeaveDays(year, holidays, maxLeaveDays);
    var firstHalf := PlanPeriod(year, holidays, 0, 5, maxLeaveDays / 2);
    var secondHalf := PlanPeriod(year, holidays, 6, 11, maxLeaveDays / 2);
    var unranked := [optimal, firstHalf, secondHalf, quarterly];
    assert unranked == Strategies(year, holidays, maxLeaveDays, quarterly);
    results := RankByScore(unranked);
  }

  /** generateLeaveStrategies as written: the four strategies ranked by
      score, the best first, with the quarterly plan whose time off sums
      the quarters' breaks. */
  method GenerateLeaveStrategiesAsWritten(year: int, holidays: seq<Holiday>, maxLeaveDays: int)
    returns (results: seq<AlgorithmResult>)
    ensures var all := Strategies(year, holidays, maxLeaveDays, QuarterlyAsWritten(year, holidays, maxLeaveDays));
      results == SortByKeys(all, ByScore(), SameRank())
    ensures var all := Strategies(year, holidays, maxLeaveDays, QuarterlyAsWritten(year, holidays, maxLeaveDays));
      multiset(results) == multiset(all)
    ensures forall i, j :: 0 <= i < j < |results| ==> results[i].score >= results[j].score
  {
    var quarterly := QuarterlyPlanAsWritten(year, holidays, maxLeaveDays);
    results := RankStrategies(year, holidays, maxLeaveDays, quarterly);
  }

  /** generateLeaveStrategies with the corrected quarterly plan, whose
      breaks are taken over the joined leave days. */
  method GenerateLeaveStrategies(year: int, holidays: seq<Holiday>, maxLeaveDays: int)
    returns (results: seq<AlgorithmResult>)
    ensures var all := Strategies(year, holidays, maxLeaveDays, QuarterlyCorrected(year, holidays, maxLeaveDays));
      results == SortByKeys(all, ByScore(), SameRank())
    ensures var all := Strategies(year, holidays, maxLeaveDays, QuarterlyCorrected(year, holidays, maxLeaveDays));
      multiset(results) == multiset(all)
    ensures forall i, j :: 0 <= i < j < |results| ==> results[i].score >= results[j].score
  {
    var quarterly := QuarterlyPlan(year, holidays, maxLeaveDays);
    results := RankStrategies(year, holidays, maxLeaveDays, quarterly);
  }

  /** A list ranked highest score first starts with a result scoring at
      least as high as every result it is a permutation of. */
  lemma RankedFirstIsBest(results: seq<AlgorithmResult>, all: seq<AlgorithmResult>)
    requires multiset(results) == multiset(all)
    requires forall i, j :: 0 <= i < j < |results| ==> results[i].score >= results[j].score
    ensures |results| == |all|
    ensures all != [] ==> forall r :: r in all ==> results[0].score >= r.score
  {
    assert |results| == |multiset(results)| == |multiset(all)| == |all|;
    forall r | r in all ensures results[0].score >= r.score {
      assert r in multiset(results);
      var j :| 0 <= j < |results| && results[j] == r;
    }
  }

  /** The first strategy generateLeaveStrategies returns scores at least as
      high as each of the four, in particular as the optimal plan, whichever
      quarterly plan is ranked with them. */
  lemma BestStrategyFirst(year: int, holidays: seq<Holiday>, maxLeaveDays: int, quarterly: AlgorithmResult,
                          results: seq<AlgorithmResult>)
    requires multiset(results) == multiset(Strategies(year, holidays, maxLeaveDays, quarterly))
    requires forall i, j :: 0 <= i < j < |results| ==> results[i].score >= results[j].score
    ensures |results| == 4
    ensures results[0].score >= OptimalSpec(year, holidays, maxLeaveDays).score
  {
    var all := Strategies(year, holidays, maxLeaveDays, quarterly);
    RankedFirstIsBest(results, all);
    assert all[0] in all;
  }

  /** The time off of two lists of breaks one after the other is the sum of
      their time off. */
  lemma {:induction false} TotalTimeOffAppend(a: seq<ConsecutiveBreak>, b: seq<ConsecutiveBreak>)
    ensures TotalTimeOff(a + b) == TotalTimeOff(a) + TotalTimeOff(b)
    decreases |b|
  {
    if b == [] {
      assert a + b == a;
    } else {
      assert (a + b)[..|a + b| - 1] == a + b[..|b| - 1];
      TotalTimeOffAppend(a, b[..|b| - 1]);
    }
  }

  /** The time off of a list of breaks of non-negative length is at least
      the length of any one of them. */
  lemma {:induction false} TotalTimeOffAtLeast(breaks: seq<ConsecutiveBreak>, j: int)
    requires 0 <= j < |breaks|
    requires forall i :: 0 <= i < |breaks| ==> breaks[i].duration >= 0
    ensures TotalTimeOff(breaks) >= breaks[j].duration
  {
    var init := breaks[..|breaks| - 1];
    assert forall i :: 0 <= i < |init| ==> init[i].duration >= 0;
    if j < |breaks| - 1 {
      TotalTimeOffAtLeast(init, j);
    }
  }

  /** With a budget below 4 a quarter gets no leave day, and its plan is the
      plan of no leave at all. */
  lemma QuarterWithoutLeave(year: int, holidays: seq<Holiday>, maxLeaveDays: int, q: int)
    requires 0 <= maxLeaveDays < 4
    ensures PeriodSpec(year, holidays, FirstMonth(q), LastMonth(q), maxLeaveDays / 4).leavePlan
            == PlanOf(year, holidays, [])
  {
    PeriodFacts(year, holidays, FirstMonth(q), LastMonth(q), maxLeaveDays / 4);
  }

  /** A day off with a neighbour off lies in a break of the plan of no
      leave, so that plan has at least two days of time off. */
  lemma TimeOffAround(year: int, holidays: seq<Holiday>, k: int)
    requires InLongRun(BreakMarks(year, holidays, []), k)
    ensures TotalTimeOff(ExpectedBreaks(year, holidays, [])) >= 2
  {
    var breaks := ExpectedBreaks(year, holidays, []);
    ExpectedBreaksFacts(year, holidays, []);
    var j :| 0 <= j < |breaks| && breaks[j].startDate <= k <= breaks[j].endDate;
    TotalTimeOffAtLeast(breaks, j);
  }

  /** Some day of the first week of every year is a Saturday followed by a
      Sunday, so the plan of no leave at all has time off. */
  lemma FirstWeekend(year: int, holidays: seq<Holiday>)
    ensures TotalTimeOff(ExpectedBreaks(year, holidays, [])) >= 2
  {
    var marks := BreakMarks(year, holidays, []);
    var sat := FirstSaturday(year);
    assert marks[sat] && marks[sat + 1];
    TimeOffAround(year, holidays, sat);
  }

  /** Plans that all take no leave and report the same breaks join to no
      leave days and to that time off once per plan. */
  lemma {:induction false} JoinedWithoutLeave(rs: seq<AlgorithmResult>, plan: LeavePlan)
    requires plan.recommendedLeaveDays == []
    requires forall i :: 0 <= i < |rs| ==> rs[i].leavePlan == plan
    ensures JoinedDays(rs) == []
    ensures TotalTimeOff(JoinedBreaks(rs)) == |rs| * TotalTimeOff(plan.consecutiveBreaks)
  {
    if rs != [] {
      var init := rs[..|rs| - 1];
      JoinedWithoutLeave(init, plan);
      TotalTimeOffAppend(JoinedBreaks(init), plan.consecutiveBreaks);
      MultiplyStep(|rs|, TotalTimeOff(plan.consecutiveBreaks));
    }
  }

  lemma MultiplyStep(n: int, t: int)
    ensures n * t == (n - 1) * t + t
  {
  }

  /** The quarterly plan as written counts the breaks of the year once per
      quarter: with a budget below 4 no quarter takes leave, each quarter
      reports every weekend and holiday run of the year, and the time off
      comes out four times that of the same leave days, which is at least 2. */
  lemma QuarterlyOvercounts(year: int, holidays: seq<Holiday>, maxLeaveDays: int)
    requires 0 <= maxLeaveDays < 4
    ensures QuarterlyAsWritten(year, holidays, maxLeaveDays).leavePlan.recommendedLeaveDays == []
    ensures QuarterlyAsWritten(year, holidays, maxLeaveDays).leavePlan.totalTimeOff
            == 4 * QuarterlyCorrected(year, holidays, maxLeaveDays).leavePlan.totalTimeOff
    ensures QuarterlyCorrected(year, holidays, maxLeaveDays).leavePlan.totalTimeOff >= 2
  {
    var quarters := QuarterPlans(year, holidays, maxLeaveDays, 4);
    forall i | 0 <= i < 4 ensures quarters[i].leavePlan == PlanOf(year, holidays, []) {
      QuarterWithoutLeave(year, holidays, maxLeaveDays, i);
    }
    JoinedWithoutLeave(quarters, PlanOf(year, holidays, []));
    FirstWeekend(year, holidays);
  }
}
