/** The exhaustive search of findOptimalByBruteForce: every selection of
    the budget's size from the workdays is evaluated in a fixed order, and
    the first one with the highest score wins. */
module BruteForce {
  import opened Calendar
  import opened IsoDate
  import opened Ordering
  import opened DateUtils
  import opened LeavePlans
  import opened Greedy

  /** The selections of k days from avail[start..], in the order the search
      visits them: first those that take avail[start], then those that skip
      it. */
  function Combinations(avail: seq<Day>, start: nat, k: int): seq<seq<Day>>
    decreases |avail| - start
  {
    if k == 0 then [[]]
    else if start >= |avail| then []
    else Prefixed([avail[start]], Combinations(avail, start + 1, k - 1)) + Combinations(avail, start + 1, k)
  }

  /** Every selection of cs with p in front of it. */
  function Prefixed(p: seq<Day>, cs: seq<seq<Day>>): (r: seq<seq<Day>>)
    ensures |r| == |cs|
    ensures forall i :: 0 <= i < |cs| ==> r[i] == p + cs[i]
  {
    seq(|cs|, i requires 0 <= i < |cs| => p + cs[i])
  }

  lemma PrefixedAppend(p: seq<Day>, a: seq<seq<Day>>, b: seq<seq<Day>>)
    ensures Prefixed(p, a + b) == Prefixed(p, a) + Prefixed(p, b)
  {
  }

  lemma PrefixedPrefixed(p: seq<Day>, q: seq<Day>, cs: seq<seq<Day>>)
    ensures Prefixed(p, Prefixed(q, cs)) == Prefixed(p + q, cs)
  {
    forall i | 0 <= i < |cs| ensures p + (q + cs[i]) == (p + q) + cs[i] {
      assert p + (q + cs[i]) == (p + q) + cs[i];
    }
  }

  lemma InPrefixed(p: seq<Day>, cs: seq<seq<Day>>, x: seq<Day>)
    requires x in cs
    ensures p + x in Prefixed(p, cs)
  {
    var i :| 0 <= i < |cs| && cs[i] == x;
    assert Prefixed(p, cs)[i] == p + x;
  }

  lemma PrefixedEmpty(cs: seq<seq<Day>>)
    ensures Prefixed([], cs) == cs
  {
    assert forall i :: 0 <= i < |cs| ==> [] + cs[i] == cs[i];
  }

  /** Every x of c is one of avail[start..]. */
  predicate Within(c: seq<Day>, avail: seq<Day>, start: nat) {
    forall x :: x in c ==> exists j :: start <= j < |avail| && avail[j] == x
  }

  /** The selections are exactly the increasing k-element lists drawn from
      avail[start..]: each one is such a list ... */
  lemma {:induction false} CombinationsSound(avail: seq<Day>, start: nat, k: int, c: seq<Day>)
    requires StrictlyIncreasing(avail)
    requires c in Combinations(avail, start, k)
    ensures |c| == k && StrictlyIncreasing(c) && Within(c, avail, start)
    decreases |avail| - start
  {
    if k != 0 {
      var take := Combinations(avail, start + 1, k - 1);
      var skip := Combinations(avail, start + 1, k);
      if c in skip {
        CombinationsSound(avail, start + 1, k, c);
      } else {
        assert c in Prefixed([avail[start]], take);
        var i :| 0 <= i < |take| && c == [avail[start]] + take[i];
        CombinationsSound(avail, start + 1, k - 1, take[i]);
        TakeFirst(avail, start, take[i]);
      }
    }
  }

  /** Putting avail[start] in front of an increasing list drawn from
      avail[start + 1..] gives an increasing list drawn from avail[start..]. */
  lemma TakeFirst(avail: seq<Day>, start: nat, t: seq<Day>)
    requires StrictlyIncreasing(avail) && start < |avail|
    requires StrictlyIncreasing(t) && Within(t, avail, start + 1)
    ensures StrictlyIncreasing([avail[start]] + t) && Within([avail[start]] + t, avail, start)
  {
    var c := [avail[start]] + t;
    forall x | x in t ensures avail[start] < x {
      var j :| start + 1 <= j < |avail| && avail[j] == x;
    }
    forall a, b | 0 <= a < b < |c| ensures c[a] < c[b] {
      assert c[b] == t[b - 1] && c[b] in t;
      if a > 0 {
        assert c[a] == t[a - 1];
      }
    }
    forall x | x in c ensures exists j :: start <= j < |avail| && avail[j] == x {
      if x != avail[start] {
        assert x in t;
      }
    }
  }

  /** ... and each such list is one of the selections. */
  lemma {:induction false} CombinationsComplete(avail: seq<Day>, start: nat, c: seq<Day>)
    requires StrictlyIncreasing(avail) && StrictlyIncreasing(c)
    requires Within(c, avail, start)
    ensures c in Combinations(avail, start, |c|)
    decreases |avail| - start
  {
    if c != [] {
      WithinRest(c, avail, start);
      var take := Combinations(avail, start + 1, |c| - 1);
      var skip := Combinations(avail, start + 1, |c|);
      assert Combinations(avail, start, |c|) == Prefixed([avail[start]], take) + skip;
      if c[0] == avail[start] {
        assert c in Prefixed([avail[start]], take) by {
          assert StrictlyIncreasing(c[1..]);
          CombinationsComplete(avail, start + 1, c[1..]);
          InPrefixed([avail[start]], take, c[1..]);
          assert c == [avail[start]] + c[1..];
        }
      } else {
        assert c in skip by {
          WithinSkip(c, avail, start);
          CombinationsComplete(avail, start + 1, c);
        }
      }
    }
  }

  lemma WithinRest(c: seq<Day>, avail: seq<Day>, start: nat)
    requires StrictlyIncreasing(avail) && StrictlyIncreasing(c)
    requires c != [] && Within(c, avail, start)
    ensures start < |avail| && Within(c[1..], avail, start + 1)
  {
    assert c[0] in c;
    var j0 :| start <= j0 < |avail| && avail[j0] == c[0];
    forall x | x in c[1..] ensures exists j :: start + 1 <= j < |avail| && avail[j] == x {
      var k :| 1 <= k < |c| && c[k] == x;
      assert x in c;
      var j :| start <= j < |avail| && avail[j] == x;
      assert c[0] < x;
      assert j0 < j;
    }
  }

  lemma WithinSkip(c: seq<Day>, avail: seq<Day>, start: nat)
    requires StrictlyIncreasing(avail) && StrictlyIncreasing(c)
    requires c != [] && Within(c, avail, start)
    requires start < |avail| && c[0] != avail[start]
    ensures Within(c, avail, start + 1)
  {
    WithinRest(c, avail, start);
    forall x | x in c ensures exists j :: start + 1 <= j < |avail| && avail[j] == x {
      if x != c[0] {
        var k :| 0 <= k < |c| && c[k] == x;
        assert x in c[1..] by { assert c[1..][k - 1] == x; }
      } else {
        var j :| start <= j < |avail| && avail[j] == x;
        assert j != start;
      }
    }
  }

  /** There is no selection exactly when k is negative or avail[start..]
      has fewer than k days. */
  lemma {:induction false} CombinationsEmpty(avail: seq<Day>, start: nat, k: int)
    requires start <= |avail|
    ensures Combinations(avail, start, k) == [] <==> k < 0 || k > |avail| - start
    decreases |avail| - start
  {
    if k != 0 && start < |avail| {
      var take := Combinations(avail, start + 1, k - 1);
      var skip := Combinations(avail, start + 1, k);
      assert |Combinations(avail, start, k)| == |take| + |skip|;
      CombinationsEmpty(avail, start + 1, k - 1);
      CombinationsEmpty(avail, start + 1, k);
    }
  }

  /** The best score seen so far and the plan that reached it. */
  datatype Best = Best(score: real, plan: Option<LeavePlan>)

  /** A selection's plan and its score. */
  datatype Evaluated = Evaluated(score: real, plan: LeavePlan)

  function Evaluate(year: int, holidays: seq<Holiday>, sel: seq<Day>): Evaluated {
    var plan := PlanOf(year, holidays, sel);
    Evaluated(PlanScore(plan), plan)
  }

  function Evaluations(year: int, holidays: seq<Holiday>, sels: seq<seq<Day>>): (evs: seq<Evaluated>)
    ensures |evs| == |sels|
    ensures forall i :: 0 <= i < |sels| ==> evs[i] == Evaluate(year, holidays, sels[i])
  {
    seq(|sels|, i requires 0 <= i < |sels| => Evaluate(year, holidays, sels[i]))
  }

  lemma EvaluationsAppend(year: int, holidays: seq<Holiday>, a: seq<seq<Day>>, b: seq<seq<Day>>)
    ensures Evaluations(year, holidays, a + b) == Evaluations(year, holidays, a) + Evaluations(year, holidays, b)
  {
  }

  /** One evaluation of the search: the plan replaces the best one only when
      it scores strictly higher. */
  function Consider(b: Best, e: Evaluated): Best {
    if e.score > b.score then Best(e.score, Some(e.plan)) else b
  }

  /** The evaluations evs, in order. */
  function FoldBest(b: Best, evs: seq<Evaluated>): Best
    decreases |evs|
  {
    if evs == [] then b else FoldBest(Consider(b, evs[0]), evs[1..])
  }

  lemma {:induction false} FoldBestAppend(b: Best, xs: seq<Evaluated>, ys: seq<Evaluated>)
    ensures FoldBest(b, xs + ys) == FoldBest(FoldBest(b, xs), ys)
    decreases |xs|
  {
    if xs != [] {
      assert (xs + ys)[1..] == xs[1..] + ys;
      FoldBestAppend(Consider(b, xs[0]), xs[1..], ys);
    } else {
      assert xs + ys == ys;
    }
  }

  /** No evaluated plan scores above the search's result, nor does the best
      it started from. */
  lemma {:induction false} FoldBestBound(b: Best, evs: seq<Evaluated>)
    ensures FoldBest(b, evs).score >= b.score
    ensures forall j :: 0 <= j < |evs| ==> evs[j].score <= FoldBest(b, evs).score
    decreases |evs|
  {
    if evs != [] {
      var r := FoldBest(Consider(b, evs[0]), evs[1..]);
      FoldBestBound(Consider(b, evs[0]), evs[1..]);
      forall j | 0 < j < |evs| ensures evs[j] == evs[1..][j - 1] {
      }
    }
  }

  /** evs[i]'s plan is the result r, and every plan evaluated before it
      scores lower. */
  predicate WinsAt(evs: seq<Evaluated>, i: int, r: Best) {
    0 <= i < |evs|
    && r == Best(evs[i].score, Some(evs[i].plan))
    && (forall j :: 0 <= j < i ==> evs[j].score < r.score)
  }

  /** The search keeps the first plan with the highest score: its result is
      the best it started from, or a plan that beats that best and every
      plan evaluated before it. */
  lemma {:induction false} FoldBestWinner(b: Best, evs: seq<Evaluated>)
    ensures var r := FoldBest(b, evs);
      r == b || (r.score > b.score && exists i :: WinsAt(evs, i, r))
    decreases |evs|
  {
    if evs != [] {
      var b' := Consider(b, evs[0]);
      var t := evs[1..];
      FoldBestWinner(b', t);
      var r := FoldBest(b', t);
      if r == b' {
        if b' != b {
          assert WinsAt(evs, 0, r);
        }
      } else {
        var i :| WinsAt(t, i, r);
        forall j | 0 < j <= i ensures evs[j] == t[j - 1] {
        }
        assert WinsAt(evs, i + 1, r);
      }
    }
  }

  /** The state of the source's findOptimalByBruteForce closure: the best
      score and plan so far and the selection being built. */
  class CombinationSearch {
    const year: int
    const holidays: seq<Holiday>
    var bestScore: real
    var bestPlan: Option<LeavePlan>
    var currentSelection: seq<Day>

    constructor (year: int, holidays: seq<Holiday>)
      ensures this.year == year && this.holidays == holidays
      ensures bestScore == -1.0 && bestPlan == None && currentSelection == []
    {
      this.year := year;
      this.holidays := holidays;
      bestScore := -1.0;
      bestPlan := None;
      currentSelection := [];
    }

    /** generateCombinations: evaluates, in order, every completion of the
        current selection by remainingToSelect days of
        availableDays[startIndex..], and leaves the selection as it was. */
    method GenerateCombinations(availableDays: seq<Day>, startIndex: nat, remainingToSelect: int)
      modifies this
      ensures currentSelection == old(currentSelection)
      ensures Best(bestScore, bestPlan)
        == FoldBest(old(Best(bestScore, bestPlan)),
                    Evaluations(year, holidays,
                      Prefixed(old(currentSelection), Combinations(availableDays, startIndex, remainingToSelect))))
      decreases |availableDays| - startIndex
    {
      if remainingToSelect == 0 {
        var breaks := CalculateConsecutiveBreaks(year, holidays, currentSelection);
        var totalTimeOff := TotalTimeOff(breaks);
        var plan := LeavePlan(currentSelection, totalTimeOff, breaks);
        var score := ScoreLeavePlan(plan);
        if score > bestScore {
          bestScore := score;
          bestPlan := Some(plan);
        }
        assert Prefixed(currentSelection, [[]]) == [currentSelection + []];
        assert currentSelection + [] == currentSelection;
        assert Evaluations(year, holidays, [currentSelection]) == [Evaluated(score, plan)];
        return;
      }
      if startIndex >= |availableDays| {
        return;
      }
      ghost var b0 := Best(bestScore, bestPlan);
      ghost var sel := currentSelection;
      ghost var take := Combinations(availableDays, startIndex + 1, remainingToSelect - 1);
      ghost var skip := Combinations(availableDays, startIndex + 1, remainingToSelect);
      currentSelection := currentSelection + [availableDays[startIndex]];
      GenerateCombinations(availableDays, startIndex + 1, remainingToSelect - 1);
      ghost var b1 := Best(bestScore, bestPlan);
      currentSelection := currentSelection[..|currentSelection| - 1];
      assert currentSelection == sel;
      GenerateCombinations(availableDays, startIndex + 1, remainingToSelect);
      PrefixedPrefixed(sel, [availableDays[startIndex]], take);
      PrefixedAppend(sel, Prefixed([availableDays[startIndex]], take), skip);
      EvaluationsAppend(year, holidays, Prefixed(sel, Prefixed([availableDays[startIndex]], take)), Prefixed(sel, skip));
      FoldBestAppend(b0, Evaluations(year, holidays, Prefixed(sel, Prefixed([availableDays[startIndex]], take))),
                     Evaluations(year, holidays, Prefixed(sel, skip)));
    }
  }

  /** A k-day selection from the workdays, as the search enumerates them. */
  predicate IsSelection(sel: seq<Day>, workdays: seq<Day>, k: int) {
    |sel| == k && StrictlyIncreasing(sel) && Within(sel, workdays, 0)
  }

  /** The outcome of the search over all k-day selections of the workdays,
      before the fallback. */
  function SearchOutcome(year: int, holidays: seq<Holiday>, workdays: seq<Day>, k: int): Best {
    FoldBest(Best(-1.0, None), Evaluations(year, holidays, Combinations(workdays, 0, k)))
  }

  /** What findOptimalByBruteForce returns: the first best plan over all
      selections, or the greedy result when no plan was found. */
  ghost function BruteForceSpec(year: int, holidays: seq<Holiday>, workdays: seq<Day>, maxLeaveDays: int): AlgorithmResult {
    var best := SearchOutcome(year, holidays, workdays, maxLeaveDays);
    if best.plan.None? then GreedySpec(year, holidays, workdays, maxLeaveDays)
    else AlgorithmResult(best.plan.value, best.score)
  }

  /** findOptimalByBruteForce: searches every selection of maxLeaveDays
      workdays and falls back to the greedy search when none was scored. */
  method FindOptimalByBruteForce(year: int, holidays: seq<Holiday>, workdays: seq<Day>, maxLeaveDays: int)
    returns (result: AlgorithmResult)
    ensures result == BruteForceSpec(year, holidays, workdays, maxLeaveDays)
  {
    var search := new CombinationSearch(year, holidays);
    PrefixedEmpty(Combinations(workdays, 0, maxLeaveDays));
    search.GenerateCombinations(workdays, 0, maxLeaveDays);
    if search.bestPlan.None? {
      result := FindOptimalByGreedy(year, holidays, workdays, maxLeaveDays);
      return;
    }
    result := AlgorithmResult(search.bestPlan.value, search.bestScore);
  }

  /** Every plan scores at least 0, above the search's starting score of -1,
      so the search comes back empty only when there is no selection: k is
      negative or larger than the number of workdays. */
  lemma SearchFallsBack(year: int, holidays: seq<Holiday>, workdays: seq<Day>, k: int)
    ensures SearchOutcome(year, holidays, workdays, k).plan.None? <==> k < 0 || k > |workdays|
  {
    var evs := Evaluations(year, holidays, Combinations(workdays, 0, k));
    CombinationsEmpty(workdays, 0, k);
    FoldBestBound(Best(-1.0, None), evs);
    FoldBestWinner(Best(-1.0, None), evs);
    if evs != [] {
      assert evs[0].score >= 0.0;
    }
  }

  /** No k-day selection scores above the search's outcome. */
  lemma SearchBound(year: int, holidays: seq<Holiday>, workdays: seq<Day>, k: int, sel: seq<Day>)
    requires StrictlyIncreasing(workdays) && IsSelection(sel, workdays, k)
    ensures PlanScore(PlanOf(year, holidays, sel)) <= SearchOutcome(year, holidays, workdays, k).score
  {
    var cs := Combinations(workdays, 0, k);
    var evs := Evaluations(year, holidays, cs);
    FoldBestBound(Best(-1.0, None), evs);
    CombinationsComplete(workdays, 0, sel);
    var j :| 0 <= j < |cs| && cs[j] == sel;
    assert evs[j].score == PlanScore(PlanOf(year, holidays, sel));
  }

  /** The search's outcome is the plan of an enumerated selection, and every
      selection enumerated before it scores lower. */
  lemma SearchWinner(year: int, holidays: seq<Holiday>, workdays: seq<Day>, k: int)
    requires StrictlyIncreasing(workdays) && 0 <= k <= |workdays|
    ensures var best := SearchOutcome(year, holidays, workdays, k);
      var cs := Combinations(workdays, 0, k);
      best.plan.Some? && best.score == PlanScore(best.plan.value)
      && exists i :: 0 <= i < |cs| && IsSelection(cs[i], workdays, k)
           && best.plan.value == PlanOf(year, holidays, cs[i])
           && forall j :: 0 <= j < i ==> PlanScore(PlanOf(year, holidays, cs[j])) < best.score
  {
    var cs := Combinations(workdays, 0, k);
    var evs := Evaluations(year, holidays, cs);
    var best := SearchOutcome(year, holidays, workdays, k);
    SearchFallsBack(year, holidays, workdays, k);
    FoldBestWinner(Best(-1.0, None), evs);
    assert best != Best(-1.0, None);
    var i :| WinsAt(evs, i, best);
    CombinationsSound(workdays, 0, k, cs[i]);
    assert evs[i] == Evaluate(year, holidays, cs[i]);
    forall j | 0 <= j < i ensures PlanScore(PlanOf(year, holidays, cs[j])) < best.score {
      assert evs[j] == Evaluate(year, holidays, cs[j]);
    }
  }

  /** For 0 <= k <= |workdays|, the result is the plan of a k-day selection,
      no k-day selection scores higher, and every selection enumerated
      before it scores lower. */
  lemma BruteForceOptimal(year: int, holidays: seq<Holiday>, workdays: seq<Day>, k: int)
    requires StrictlyIncreasing(workdays) && 0 <= k <= |workdays|
    ensures var r := BruteForceSpec(year, holidays, workdays, k);
      var cs := Combinations(workdays, 0, k);
      r.score == PlanScore(r.leavePlan)
      && (exists i :: 0 <= i < |cs| && IsSelection(cs[i], workdays, k)
            && r.leavePlan == PlanOf(year, holidays, cs[i])
            && forall j :: 0 <= j < i ==> PlanScore(PlanOf(year, holidays, cs[j])) < r.score)
      && (forall sel :: IsSelection(sel, workdays, k) ==> PlanScore(PlanOf(year, holidays, sel)) <= r.score)
  {
    SearchWinner(year, holidays, workdays, k);
    forall sel | IsSelection(sel, workdays, k)
      ensures PlanScore(PlanOf(year, holidays, sel)) <= SearchOutcome(year, holidays, workdays, k).score
    {
      SearchBound(year, holidays, workdays, k, sel);
    }
  }
}
