/** The greedy search of findOptimalByGreedy: day by day, the workday whose
    neighbours are most free is taken off. */
module Greedy {
  import opened Calendar
  import opened IsoDate
  import opened Ordering
  import opened DateUtils
  import opened LeavePlans

  /** The set of days a list holds. */
  function Members(s: seq<Day>): (m: set<Day>)
    ensures forall x :: x in m <==> x in s
  {
    set x | x in s
  }

  lemma MembersAppend(s: seq<Day>, x: Day)
    ensures Members(s + [x]) == Members(s) + {x}
  {
    assert forall y :: y in s + [x] <==> y in s || y == x;
  }

  /** No day occurs twice in s. */
  predicate NoRepeats(s: seq<Day>) {
    s == [] || (s[0] !in s[1..] && NoRepeats(s[1..]))
  }

  /** No two entries of a list without repeats are equal. */
  lemma {:induction false} NoRepeatsDistinct(s: seq<Day>)
    requires NoRepeats(s)
    ensures forall i, j :: 0 <= i < j < |s| ==> s[i] != s[j]
  {
    if s != [] {
      NoRepeatsDistinct(s[1..]);
      assert forall j :: 0 < j < |s| ==> s[j] == s[1..][j - 1];
    }
  }

  lemma {:induction false} NoRepeatsAppend(s: seq<Day>, x: Day)
    requires NoRepeats(s) && x !in s
    ensures NoRepeats(s + [x])
  {
    if s != [] {
      NoRepeatsAppend(s[1..], x);
      assert (s + [x])[1..] == s[1..] + [x];
    }
  }

  /** A list without repeats has as many members as entries. */
  lemma {:induction false} DistinctMembers(s: seq<Day>)
    requires NoRepeats(s)
    ensures |Members(s)| == |s|
  {
    if s != [] {
      DistinctMembers(s[1..]);
      assert Members(s) == {s[0]} + Members(s[1..]);
    }
  }

  /** freeDaysMap[key]: a day without an entry reads as not free. */
  function Lookup(m: map<Day, bool>, d: Day): bool {
    d in m && m[d]
  }

  /** The days a free-day map holds as free. */
  function FreeSet(m: map<Day, bool>): (free: set<Day>)
    ensures forall d :: d in free <==> Lookup(m, d)
  {
    set d | d in m && m[d]
  }

  /** The days of the year that are weekend days or holidays. */
  function YearFree(year: int, holidays: seq<Holiday>): (free: set<Day>)
    ensures forall d :: d in free <==> 0 <= d < DaysInYear(year) && IsFreeDay(year, holidays, d)
  {
    set d | 0 <= d < DaysInYear(year) && IsFreeDay(year, holidays, d)
  }

  /** How well taking day d off joins it to the free days: 30 when both
      neighbours are free; otherwise 10 for a free neighbour, 5 more when
      the day beyond it is free too.  Only the scores 0, 10, 15 and 30
      occur, since two free neighbours take the first case. */
  function NeighbourScore(free: set<Day>, d: Day): int {
    if d - 1 in free && d + 1 in free then 30
    else
      var before := if d - 1 in free then 10 + (if d - 2 in free then 5 else 0) else 0;
      var after := if d + 1 in free then 10 + (if d + 2 in free then 5 else 0) else 0;
      before + after
  }

  /** The scores NeighbourScore gives: 30 exactly for two free neighbours,
      0 exactly for none, and 15 only when a free neighbour has a free day
      beyond it. */
  lemma NeighbourScoreCases(free: set<Day>, d: Day)
    ensures var score := NeighbourScore(free, d);
      (score == 30 <==> d - 1 in free && d + 1 in free)
      && (score == 0 <==> d - 1 !in free && d + 1 !in free)
      && (score == 0 || score == 10 || score == 15 || score == 30)
      && (score == 15 ==> (d - 2 in free && d - 1 in free) || (d + 1 in free && d + 2 in free))
  {
  }

  /** A candidate day and its neighbour score. */
  datatype ScoredDay = ScoredDay(date: Day, score: int)

  function ScoreDays(free: set<Day>, cands: seq<Day>): (scored: seq<ScoredDay>)
    ensures |scored| == |cands|
    ensures forall i :: 0 <= i < |cands| ==> scored[i] == ScoredDay(cands[i], NeighbourScore(free, cands[i]))
  {
    seq(|cands|, i requires 0 <= i < |cands| => ScoredDay(cands[i], NeighbourScore(free, cands[i])))
  }

  /** The comparator `(a, b) => b.score - a.score`: highest score first, no
      secondary key. */
  function ScoreKey(): ScoredDay -> real {
    (s: ScoredDay) => s.score as real
  }

  function NoTie(): ScoredDay -> int {
    (s: ScoredDay) => 0
  }

  /** The tests the greedy loop filters with. */
  function Unmarked(m: map<Day, bool>): Day -> bool {
    d => !Lookup(m, d)
  }

  function Other(pick: Day): Day -> bool {
    d => d != pick
  }

  /** The days of pool that are not free, in order. */
  function Unfree(pool: seq<Day>, free: set<Day>): (r: seq<Day>)
    ensures |r| <= |pool|
  {
    if pool == [] then []
    else
      var rest := Unfree(pool[1..], free);
      if pool[0] !in free then [pool[0]] + rest else rest
  }

  lemma {:induction false} UnfreeMembers(pool: seq<Day>, free: set<Day>)
    ensures forall x :: x in Unfree(pool, free) <==> x in pool && x !in free
  {
    if pool != [] {
      UnfreeMembers(pool[1..], free);
      assert forall x :: x in pool <==> x == pool[0] || x in pool[1..];
    }
  }

  /** The days of pool other than pick, in order. */
  function Without(pool: seq<Day>, pick: Day): (r: seq<Day>)
    ensures |r| <= |pool|
    ensures pick in pool ==> |r| < |pool|
  {
    if pool == [] then []
    else
      var rest := Without(pool[1..], pick);
      if pool[0] != pick then [pool[0]] + rest else rest
  }

  lemma {:induction false} WithoutMembers(pool: seq<Day>, pick: Day)
    ensures forall x :: x in Without(pool, pick) <==> x in pool && x != pick
  {
    if pool != [] {
      WithoutMembers(pool[1..], pick);
      assert forall x :: x in pool <==> x == pool[0] || x in pool[1..];
    }
  }

  /** Dropping a day a list without repeats holds takes exactly one entry
      away. */
  lemma {:induction false} WithoutOne(pool: seq<Day>, pick: Day)
    requires NoRepeats(pool) && pick in pool
    ensures |Without(pool, pick)| == |pool| - 1 && NoRepeats(Without(pool, pick))
  {
    WithoutMembers(pool[1..], pick);
    if pool[0] != pick {
      WithoutOne(pool[1..], pick);
    } else {
      WithoutNone(pool[1..], pick);
    }
  }

  lemma {:induction false} WithoutNone(pool: seq<Day>, pick: Day)
    requires pick !in pool
    ensures Without(pool, pick) == pool
  {
    if pool != [] {
      WithoutNone(pool[1..], pick);
    }
  }

  /** A pool none of whose days is free is its own candidate list. */
  lemma {:induction false} UnfreeNone(pool: seq<Day>, free: set<Day>)
    requires forall x :: x in pool ==> x !in free
    ensures Unfree(pool, free) == pool
  {
    if pool != [] {
      var first := pool[0];
      assert first in pool;
      assert forall x :: x in pool[1..] ==> x in pool;
      UnfreeNone(pool[1..], free);
      assert pool == [pool[0]] + pool[1..];
    }
  }

  /** `pool.filter(d => !freeDaysMap[d])` keeps the days the map does not
      hold as free. */
  lemma {:induction false} FilterUnmarked(pool: seq<Day>, m: map<Day, bool>)
    ensures Filter(pool, Unmarked(m)) == Unfree(pool, FreeSet(m))
  {
    if pool != [] {
      FilterUnmarked(pool[1..], m);
    }
  }

  /** `pool.filter(d => d !== pick)` drops the pick. */
  lemma {:induction false} FilterOther(pool: seq<Day>, pick: Day)
    ensures Filter(pool, Other(pick)) == Without(pool, pick)
  {
    if pool != [] {
      FilterOther(pool[1..], pick);
    }
  }

  /** The first candidate with the highest neighbour score. */
  function FirstBest(free: set<Day>, cands: seq<Day>): Day
    requires cands != []
    decreases |cands|
  {
    if |cands| == 1 then cands[0]
    else
      var rest := FirstBest(free, cands[1..]);
      if NeighbourScore(free, rest) > NeighbourScore(free, cands[0]) then rest else cands[0]
  }

  /** The pick is one of the candidates. */
  lemma {:induction false} FirstBestIn(free: set<Day>, cands: seq<Day>)
    requires cands != []
    ensures FirstBest(free, cands) in cands
    decreases |cands|
  {
    if |cands| > 1 {
      FirstBestIn(free, cands[1..]);
    }
  }

  /** The pick scores at least as high as every candidate. */
  lemma {:induction false} FirstBestIsMax(free: set<Day>, cands: seq<Day>)
    requires cands != []
    ensures forall c :: c in cands ==> NeighbourScore(free, c) <= NeighbourScore(free, FirstBest(free, cands))
    decreases |cands|
  {
    if |cands| > 1 {
      FirstBestIsMax(free, cands[1..]);
      assert forall c :: c in cands ==> c == cands[0] || c in cands[1..];
    }
  }

  /** Every candidate before the pick scores lower than it. */
  lemma {:induction false} FirstBestIsFirst(free: set<Day>, cands: seq<Day>)
    requires cands != []
    ensures var d := FirstBest(free, cands);
      exists i :: 0 <= i < |cands| && cands[i] == d
        && forall j :: 0 <= j < i ==> NeighbourScore(free, cands[j]) < NeighbourScore(free, d)
    decreases |cands|
  {
    var d := FirstBest(free, cands);
    if |cands| == 1 {
      assert cands[0] == d;
    } else {
      var tail := cands[1..];
      FirstBestIsFirst(free, tail);
      var rest := FirstBest(free, tail);
      var i' :| 0 <= i' < |tail| && tail[i'] == rest &&
        forall j :: 0 <= j < i' ==> NeighbourScore(free, tail[j]) < NeighbourScore(free, rest);
      if NeighbourScore(free, rest) > NeighbourScore(free, cands[0]) {
        assert cands[i' + 1] == d;
        assert forall j :: 0 < j <= i' ==> cands[j] == tail[j - 1];
      } else {
        assert cands[0] == d;
      }
    }
  }

  /** Sorting the scored candidates by score, with the stable sort, puts
      FirstBest at the head. */
  lemma SortedPickIsFirstBest(free: set<Day>, cands: seq<Day>)
    requires cands != []
    ensures SortByKeys(ScoreDays(free, cands), ScoreKey(), NoTie())[0].date == FirstBest(free, cands)
  {
    var scored := ScoreDays(free, cands);
    SortHeadIsFirstBest(scored, ScoreKey(), NoTie());
    var i :| FirstBestAt(scored, ScoreKey(), i) && SortByKeys(scored, ScoreKey(), NoTie())[0] == scored[i];
    var d := FirstBest(free, cands);
    FirstBestIsMax(free, cands);
    FirstBestIsFirst(free, cands);
    var i' :| 0 <= i' < |cands| && cands[i'] == d &&
      forall j :: 0 <= j < i' ==> NeighbourScore(free, cands[j]) < NeighbourScore(free, d);
    assert forall j :: 0 <= j < |cands| ==> cands[j] in cands;
    assert FirstBestAt(scored, ScoreKey(), i');
    FirstBestUnique(scored, ScoreKey(), i, i');
  }

  /** The days the greedy loop picks, from the days free so far (the free
      days of the year and the days taken), the workdays still in the pool,
      the days left to take and the days taken so far: while days are left
      and some pooled day is not free, it takes the first best-scoring such
      day, sets it free and drops it from the pool. */
  function GreedyPicks(free: set<Day>, pool: seq<Day>, remaining: int, selected: seq<Day>): seq<Day>
    decreases |pool|
  {
    if remaining <= 0 || pool == [] then selected
    else
      var candidates := Unfree(pool, free);
      if candidates == [] then selected
      else
        var pick := FirstBest(free, candidates);
        FirstBestIn(free, candidates);
        UnfreeMembers(pool, free);
        GreedyPicks(free + {pick}, Without(pool, pick), remaining - 1, selected + [pick])
  }

  /** What findOptimalByGreedy returns: the plan of the picked days in
      chronological order, with its score. */
  ghost function GreedySpec(year: int, holidays: seq<Holiday>, workdays: seq<Day>, maxLeaveDays: int): AlgorithmResult {
    var picks := GreedyPicks(YearFree(year, holidays), workdays, maxLeaveDays, []);
    var plan := PlanOf(year, holidays, SortedSeq(Members(picks)));
    AlgorithmResult(plan, PlanScore(plan))
  }

  /** The pool holds distinct days, none free, and every day taken is free. */
  predicate FreshPool(free: set<Day>, pool: seq<Day>, selected: seq<Day>) {
    NoRepeats(pool) && (forall x :: x in pool ==> x !in free) && forall x :: x in selected ==> x in free
  }

  /** The rounds from a fresh pool take a day in every round, until the
      budget or the pool is spent, and only days of the pool. */
  lemma {:induction false} GreedyPicksCount(free: set<Day>, pool: seq<Day>, remaining: int, selected: seq<Day>,
                                            picks: seq<Day>)
    requires FreshPool(free, pool, selected) && LeadsTo(free, pool, remaining, selected, picks)
    ensures |picks| == |selected| + (if remaining <= 0 then 0 else if remaining < |pool| then remaining else |pool|)
    ensures forall x :: x in picks ==> x in selected || x in pool
    decreases |pool|
  {
    if remaining > 0 && pool != [] {
      var pick, pool' := FreshRound(free, pool, remaining, selected, picks);
      GreedyPicksCount(free + {pick}, pool', remaining - 1, selected + [pick], picks);
    }
  }

  /** The rounds from a fresh pool extend the days taken before, and take no
      day twice. */
  lemma {:induction false} GreedyPicksExtend(free: set<Day>, pool: seq<Day>, remaining: int, selected: seq<Day>,
                                             picks: seq<Day>)
    requires FreshPool(free, pool, selected) && LeadsTo(free, pool, remaining, selected, picks)
    requires NoRepeats(selected)
    ensures |selected| <= |picks| && picks[..|selected|] == selected
    ensures NoRepeats(picks)
    decreases |pool|
  {
    if remaining > 0 && pool != [] {
      var pick, pool' := FreshRound(free, pool, remaining, selected, picks);
      NoRepeatsAppend(selected, pick);
      GreedyPicksExtend(free + {pick}, pool', remaining - 1, selected + [pick], picks);
      assert picks[..|selected|] == picks[..|selected| + 1][..|selected|];
    } else {
      assert picks == selected;
      assert picks[..|selected|] == picks;
    }
  }

  /** A strictly increasing list has no repeats. */
  lemma {:induction false} IncreasingNoRepeats(s: seq<Day>)
    requires StrictlyIncreasing(s)
    ensures NoRepeats(s)
  {
    if s != [] {
      assert forall j :: 0 <= j < |s[1..]| ==> s[1..][j] == s[j + 1];
      IncreasingNoRepeats(s[1..]);
    }
  }

  /** The greedy picks among workdays listed in chronological order are
      distinct workdays of the list, as many as the budget allows (all of
      them when the budget exceeds them, none when it is not positive). */
  lemma GreedyPicksOf(year: int, holidays: seq<Holiday>, workdays: seq<Day>, maxLeaveDays: int)
    requires StrictlyIncreasing(workdays) && forall d :: d in workdays ==> !IsFreeDay(year, holidays, d)
    ensures var picks := GreedyPicks(YearFree(year, holidays), workdays, maxLeaveDays, []);
      NoRepeats(picks)
      && (forall d :: d in picks ==> d in workdays)
      && |picks| == (if maxLeaveDays <= 0 then 0 else if maxLeaveDays < |workdays| then maxLeaveDays else |workdays|)
  {
    var free := YearFree(year, holidays);
    var picks := GreedyPicks(free, workdays, maxLeaveDays, []);
    IncreasingNoRepeats(workdays);
    assert FreshPool(free, workdays, []);
    GreedyPicksCount(free, workdays, maxLeaveDays, [], picks);
    GreedyPicksExtend(free, workdays, maxLeaveDays, [], picks);
  }

  /** The greedy plan for workdays listed in chronological order: its leave
      days are distinct workdays of the list in chronological order, as many
      as the budget allows, and its score is the plan's score. */
  lemma GreedyPlanFacts(year: int, holidays: seq<Holiday>, workdays: seq<Day>, maxLeaveDays: int)
    requires StrictlyIncreasing(workdays) && forall d :: d in workdays ==> !IsFreeDay(year, holidays, d)
    ensures var r := GreedySpec(year, holidays, workdays, maxLeaveDays);
      var days := r.leavePlan.recommendedLeaveDays;
      StrictlyIncreasing(days)
      && (forall d :: d in days ==> d in workdays)
      && |days| == (if maxLeaveDays <= 0 then 0 else if maxLeaveDays < |workdays| then maxLeaveDays else |workdays|)
      && r.score == PlanScore(r.leavePlan)
  {
    var picks := GreedyPicks(YearFree(year, holidays), workdays, maxLeaveDays, []);
    GreedyPicksOf(year, holidays, workdays, maxLeaveDays);
    DistinctMembers(picks);
    var days := SortedSeq(Members(picks));
    SortedSeqFacts(Members(picks));
    IncreasingNoRepeats(days);
    DistinctMembers(days);
    assert Members(days) == Members(picks);
  }

  /** One round from a fresh pool takes a day of the pool and leaves a fresh
      pool with one day fewer, which leads to the same picks. */
  lemma FreshRound(free: set<Day>, pool: seq<Day>, remaining: int, selected: seq<Day>, picks: seq<Day>)
    returns (pick: Day, pool': seq<Day>)
    requires FreshPool(free, pool, selected) && LeadsTo(free, pool, remaining, selected, picks)
    requires remaining > 0 && pool != []
    ensures pick in pool && pick !in selected && |pool'| == |pool| - 1
    ensures forall x :: x in pool' ==> x in pool
    ensures FreshPool(free + {pick}, pool', selected + [pick])
    ensures LeadsTo(free + {pick}, pool', remaining - 1, selected + [pick], picks)
  {
    UnfreeNone(pool, free);
    pick := FirstBest(free, pool);
    FirstBestIn(free, pool);
    pool' := Without(pool, pick);
    GreedyStep(free, pool, remaining, selected, pick, picks, pool', remaining - 1, selected + [pick]);
    WithoutOne(pool, pick);
    WithoutMembers(pool, pick);
  }

  method MarkFreeDays(year: int, holidays: seq<Holiday>, allDates: seq<Day>) returns (freeDaysMap: map<Day, bool>)
    ensures forall d :: d in freeDaysMap <==> d in allDates
    ensures forall d :: d in freeDaysMap ==> freeDaysMap[d] == IsFreeDay(year, holidays, d)
  {
    freeDaysMap := map[];
    for i := 0 to |allDates|
      invariant forall d :: d in freeDaysMap <==> d in allDates[..i]
      invariant forall d :: d in freeDaysMap ==> freeDaysMap[d] == IsFreeDay(year, holidays, d)
    {
      var date := allDates[i];
      freeDaysMap := freeDaysMap[date := IsWeekendDay(year, date) || IsHoliday(date, holidays)];
      assert allDates[..i + 1] == allDates[..i] + [date];
    }
    assert allDates[..|allDates|] == allDates;
  }

  /** The loop at the head of each greedy round: every selected day is set
      free in the map, gaining an entry if it had none. */
  method MarkSelected(freeDaysMap: map<Day, bool>, selectedDays: seq<Day>) returns (marked: map<Day, bool>)
    ensures forall d :: d in marked <==> d in freeDaysMap || d in selectedDays
    ensures forall d :: d in marked ==> marked[d] == (d in selectedDays || freeDaysMap[d])
    ensures FreeSet(marked) == FreeSet(freeDaysMap) + Members(selectedDays)
  {
    marked := freeDaysMap;
    for i := 0 to |selectedDays|
      invariant forall d :: d in marked <==> d in freeDaysMap || d in selectedDays[..i]
      invariant forall d :: d in marked ==> marked[d] == (d in selectedDays[..i] || freeDaysMap[d])
    {
      marked := marked[selectedDays[i] := true];
      assert selectedDays[..i + 1] == selectedDays[..i] + [selectedDays[i]];
    }
    assert selectedDays[..|selectedDays|] == selectedDays;
  }

  /** findOptimalByGreedy: repeatedly takes the workday that best joins the
      days already free, then builds and scores the plan of the picked days
      in chronological order. */
  method FindOptimalByGreedy(year: int, holidays: seq<Holiday>, workdays: seq<Day>, maxLeaveDays: int)
    returns (result: AlgorithmResult)
    ensures result == GreedySpec(year, holidays, workdays, maxLeaveDays)
  {
    var allDates := GetDatesInYear(year);
    var freeDaysMap := MarkFreeDays(year, holidays, allDates);
    assert FreeSet(freeDaysMap) == YearFree(year, holidays) by {
      forall d | 0 <= d < DaysInYear(year) ensures d in allDates {
        assert allDates[d] == d;
      }
    }
    var selectedDays := SelectDays(freeDaysMap, workdays, maxLeaveDays);
    var chronological := SortSet(Members(selectedDays));
    var breaks := CalculateConsecutiveBreaks(year, holidays, chronological);
    var plan := LeavePlan(chronological, TotalTimeOff(breaks), breaks);
    var score := ScoreLeavePlan(plan);
    result := AlgorithmResult(plan, score);
  }

  /** The while loop of findOptimalByGreedy: each round marks the selected
      days free, scores the pooled days that are not free, takes the first
      best one and drops it from the pool. */
  method SelectDays(freeDaysMap: map<Day, bool>, workdays: seq<Day>, maxLeaveDays: int)
    returns (selectedDays: seq<Day>)
    ensures selectedDays == GreedyPicks(FreeSet(freeDaysMap), workdays, maxLeaveDays, [])
  {
    ghost var free0 := FreeSet(freeDaysMap);
    ghost var picks := GreedyPicks(free0, workdays, maxLeaveDays, []);
    ghost var free := free0;
    var freeDays := freeDaysMap;
    selectedDays := [];
    var remainingDays := maxLeaveDays;
    var pool := workdays;
    while remainingDays > 0 && |pool| > 0
      invariant free == free0 + Members(selectedDays)
      invariant free0 <= FreeSet(freeDays) <= free
      invariant LeadsTo(free, pool, remainingDays, selectedDays, picks)
      decreases |pool|
    {
      freeDays := MarkSelected(freeDays, selectedDays);
      assert FreeSet(freeDays) == free;
      var candidates := Filter(pool, Unmarked(freeDays));
      FilterUnmarked(pool, freeDays);
      var scoredDays := ScoreDays(FreeSet(freeDays), candidates);
      if |scoredDays| == 0 {
        assert GreedyPicks(free, pool, remainingDays, selectedDays) == selectedDays;
        break;
      }
      var ranked := SortByKeys(scoredDays, ScoreKey(), NoTie());
      var pick := ranked[0].date;
      SortedPickIsFirstBest(free, candidates);
      ghost var pool0, remaining0, selected0, free1 := pool, remainingDays, selectedDays, free;
      selectedDays := selectedDays + [pick];
      remainingDays := remainingDays - 1;
      pool := Filter(pool, Other(pick));
      free := free + {pick};
      MembersAppend(selected0, pick);
      FilterOther(pool0, pick);
      GreedyStep(free1, pool0, remaining0, selected0, pick, picks, pool, remainingDays, selectedDays);
    }
  }

  /** The picks still to come from this state complete the picks of the
      whole run. */
  ghost predicate LeadsTo(free: set<Day>, pool: seq<Day>, remaining: int, selected: seq<Day>, picks: seq<Day>) {
    GreedyPicks(free, pool, remaining, selected) == picks
  }

  /** One round of GreedyPicks: the state after taking the first best
      candidate, setting it free, dropping it from the pool and counting it
      off leads to the same picks. */
  lemma GreedyStep(free: set<Day>, pool: seq<Day>, remaining: int, selected: seq<Day>, pick: Day, picks: seq<Day>,
                   pool': seq<Day>, remaining': int, selected': seq<Day>)
    requires remaining > 0 && pool != []
    requires Unfree(pool, free) != []
    requires pick == FirstBest(free, Unfree(pool, free))
    requires LeadsTo(free, pool, remaining, selected, picks)
    requires pool' == Without(pool, pick) && remaining' == remaining - 1 && selected' == selected + [pick]
    ensures |pool'| < |pool|
    ensures LeadsTo(free + {pick}, pool', remaining', selected', picks)
  {
    GreedyUnfold(free, pool, remaining, selected, pick);
    SameArguments(free + {pick}, Without(pool, pick), remaining - 1, selected + [pick], pool', remaining', selected');
  }

  lemma GreedyUnfold(free: set<Day>, pool: seq<Day>, remaining: int, selected: seq<Day>, pick: Day)
    requires remaining > 0 && pool != []
    requires Unfree(pool, free) != []
    requires pick == FirstBest(free, Unfree(pool, free))
    ensures |Without(pool, pick)| < |pool|
    ensures GreedyPicks(free, pool, remaining, selected)
      == GreedyPicks(free + {pick}, Without(pool, pick), remaining - 1, selected + [pick])
  {
    FirstBestIn(free, Unfree(pool, free));
    UnfreeMembers(pool, free);
  }

  lemma SameArguments(free: set<Day>, pool: seq<Day>, remaining: int, selected: seq<Day>,
                      pool': seq<Day>, remaining': int, selected': seq<Day>)
    requires pool == pool' && remaining == remaining' && selected == selected'
    ensures GreedyPicks(free, pool, remaining, selected) == GreedyPicks(free, pool', remaining', selected')
  {
  }
}
