/** Maximal runs of consecutive marked days of a year.

    Both findConsecutiveFreeDays (src/utils/dateUtils.ts) and
    calculateConsecutiveBreaks (src/utils/leaveMaximizer.ts) walk the days of
    the year once, grow a streak while the day is marked (free, or free or
    on leave) and report the streak when it ends, provided it holds at least
    two days.  Here the marks are a sequence of booleans indexed by the
    ordinal of the day, a reported run is a Span of ordinals, and
    StreakStart and Reported give the state of that walk before each day.
    The declarative description is AreLongRuns; the lemmas LongRunsFacts
    and LongRunsUnique show that the walk produces exactly the
    runs it describes. */
module Runs {

  /** The first and last day (inclusive) of a run. */
  datatype Span = Span(first: int, last: int)

  /** A run of at least two marked days that cannot be extended on either side. */
  predicate LongRun(marks: seq<bool>, s: Span) {
    0 <= s.first < s.last < |marks|
    && (forall k :: s.first <= k <= s.last ==> marks[k])
    && (s.first == 0 || !marks[s.first - 1])
    && (s.last == |marks| - 1 || !marks[s.last + 1])
  }

  /** Day k is marked and so is one of its neighbours within the year. */
  predicate InLongRun(marks: seq<bool>, k: int) {
    0 <= k < |marks| && marks[k] && ((0 < k && marks[k - 1]) || (k + 1 < |marks| && marks[k + 1]))
  }

  predicate Covers(spans: seq<Span>, k: int) {
    exists i :: 0 <= i < |spans| && spans[i].first <= k <= spans[i].last
  }

  /** Each span ends before the next one starts. */
  predicate Chronological(spans: seq<Span>) {
    forall i, j :: 0 <= i < j < |spans| ==> spans[i].last < spans[j].first
  }

  /** spans are the maximal runs of two or more marked days, in chronological
      order, and every day lying in such a run is covered by one of them. */
  ghost predicate AreLongRuns(marks: seq<bool>, spans: seq<Span>) {
    (forall i :: 0 <= i < |spans| ==> LongRun(marks, spans[i]))
    && Chronological(spans)
    && (forall k :: InLongRun(marks, k) ==> Covers(spans, k))
  }

  /** What is reported when the streak [start, end) ends: nothing for a
      streak of fewer than two days. */
  function Closed(start: int, end: int): (r: seq<Span>)
    ensures |r| <= 1
    ensures |r| == 1 <==> end - start > 1
  {
    if end - start > 1 then [Span(start, end - 1)] else []
  }

  /** The first day of the streak still open before day i: the day after
      the last unmarked day before i, or Jan 1. */
  function StreakStart(marks: seq<bool>, i: int): (s: int)
    requires 0 <= i <= |marks|
    ensures 0 <= s <= i
  {
    if i == 0 then 0 else if marks[i - 1] then StreakStart(marks, i - 1) else i
  }

  /** The runs the walk has reported before reaching day i: each unmarked
      day closes the streak before it. */
  function Reported(marks: seq<bool>, i: int): seq<Span>
    requires 0 <= i <= |marks|
    decreases i, 0
  {
    if i == 0 then []
    else if marks[i - 1] then Reported(marks, i - 1)
    else Closing(marks, i - 1)
  }

  /** What the walk has reported once the streak open before day i is closed. */
  function Closing(marks: seq<bool>, i: int): seq<Span>
    requires 0 <= i <= |marks|
    decreases i, 1
  {
    Reported(marks, i) + Closed(StreakStart(marks, i), i)
  }

  /** The runs a walk over the whole year reports. */
  function LongRuns(marks: seq<bool>): seq<Span> {
    Closing(marks, |marks|)
  }

  /** The walk reports the maximal runs of two or more marked days, in
      chronological order, and leaves none out. */
  lemma LongRunsFacts(marks: seq<bool>)
    ensures AreLongRuns(marks, LongRuns(marks))
  {
    ClosingFacts(marks, |marks|);
  }

  lemma CoversLeft(a: seq<Span>, b: seq<Span>, k: int)
    requires Covers(a, k)
    ensures Covers(a + b, k)
  {
    var i :| 0 <= i < |a| && a[i].first <= k <= a[i].last;
    assert (a + b)[i] == a[i];
  }

  /** The open streak runs over marked days only, and starts on Jan 1 or
      right after an unmarked day. */
  lemma {:induction false} StreakFacts(marks: seq<bool>, i: int)
    requires 0 <= i <= |marks|
    ensures forall k :: StreakStart(marks, i) <= k < i ==> marks[k]
    ensures StreakStart(marks, i) == 0 || !marks[StreakStart(marks, i) - 1]
  {
    if i > 0 && marks[i - 1] {
      StreakFacts(marks, i - 1);
    }
  }

  /** Before day i the walk has reported maximal runs, in order, all ending
      before the open streak, and covering every day of a run before it. */
  lemma {:induction false} ReportedFacts(marks: seq<bool>, i: int)
    requires 0 <= i <= |marks|
    ensures forall j :: 0 <= j < |Reported(marks, i)| ==>
      LongRun(marks, Reported(marks, i)[j]) && Reported(marks, i)[j].last + 1 < StreakStart(marks, i)
    ensures Chronological(Reported(marks, i))
    ensures forall k :: 0 <= k < StreakStart(marks, i) && InLongRun(marks, k) ==> Covers(Reported(marks, i), k)
    decreases i, 0
  {
    if i > 0 {
      if marks[i - 1] {
        ReportedFacts(marks, i - 1);
      } else {
        ClosingFacts(marks, i - 1);
      }
    }
  }

  /** Closing the streak open before day i, where day i is unmarked or past
      the end, reports maximal runs, in order, ending before day i and
      covering every day of a run before day i. */
  lemma {:induction false} ClosingFacts(marks: seq<bool>, i: int)
    requires 0 <= i <= |marks|
    requires i == |marks| || !marks[i]
    ensures forall j :: 0 <= j < |Closing(marks, i)| ==>
      LongRun(marks, Closing(marks, i)[j]) && Closing(marks, i)[j].last < i
    ensures Chronological(Closing(marks, i))
    ensures forall k :: 0 <= k < i && InLongRun(marks, k) ==> Covers(Closing(marks, i), k)
    decreases i, 1
  {
    var r, s := Reported(marks, i), StreakStart(marks, i);
    ReportedFacts(marks, i);
    StreakFacts(marks, i);
    ClosingLong(marks, r, s, i);
    ClosingInOrder(r, s, i);
    ClosingCovers(marks, r, s, i);
  }

  /** The runs reported before the streak [s, i), with the streak if it is
      long enough, are maximal runs ending before i. */
  lemma ClosingLong(marks: seq<bool>, r: seq<Span>, s: int, i: int)
    requires 0 <= s <= i <= |marks| && (i == |marks| || !marks[i])
    requires forall k :: s <= k < i ==> marks[k]
    requires s == 0 || !marks[s - 1]
    requires forall j :: 0 <= j < |r| ==> LongRun(marks, r[j]) && r[j].last + 1 < s
    ensures forall j :: 0 <= j < |r + Closed(s, i)| ==>
      LongRun(marks, (r + Closed(s, i))[j]) && (r + Closed(s, i))[j].last < i
  {
    var c := Closed(s, i);
    forall j | 0 <= j < |r + c| ensures LongRun(marks, (r + c)[j]) && (r + c)[j].last < i {
      if j < |r| {
        assert (r + c)[j] == r[j];
      } else {
        assert (r + c)[j] == c[0] == Span(s, i - 1);
      }
    }
  }

  lemma ClosingInOrder(r: seq<Span>, s: int, i: int)
    requires Chronological(r)
    requires forall j :: 0 <= j < |r| ==> r[j].last + 1 < s
    ensures Chronological(r + Closed(s, i))
  {
    var c := Closed(s, i);
    var all := r + c;
    forall j, j' | 0 <= j < j' < |all| ensures all[j].last < all[j'].first {
      if j' < |r| {
        assert all[j] == r[j] && all[j'] == r[j'];
      } else {
        assert all[j] == r[j] && all[j'] == c[0];
      }
    }
  }

  lemma ClosingCovers(marks: seq<bool>, r: seq<Span>, s: int, i: int)
    requires 0 <= s <= i <= |marks| && (i == |marks| || !marks[i])
    requires s == 0 || !marks[s - 1]
    requires forall k :: 0 <= k < s && InLongRun(marks, k) ==> Covers(r, k)
    ensures forall k :: 0 <= k < i && InLongRun(marks, k) ==> Covers(r + Closed(s, i), k)
  {
    var c := Closed(s, i);
    forall k | 0 <= k < i && InLongRun(marks, k) ensures Covers(r + c, k) {
      if k < s {
        CoversLeft(r, c, k);
      } else {
        assert (r + c)[|r|] == c[0];
      }
    }
  }

  // ---------------------------------------------------------------------------
  // The description determines the runs

  /** Two maximal runs that share a day are the same run. */
  lemma SharedDaySameRun(marks: seq<bool>, x: Span, y: Span, k: int)
    requires LongRun(marks, x) && LongRun(marks, y)
    requires x.first <= k <= x.last && y.first <= k <= y.last
    ensures x == y
  {
  }

  /** Every run one description lists, the other lists too. */
  lemma ListedByBoth(marks: seq<bool>, a: seq<Span>, b: seq<Span>)
    requires AreLongRuns(marks, a) && AreLongRuns(marks, b)
    ensures forall x :: x in a ==> x in b
  {
    forall x | x in a ensures x in b {
      var i :| 0 <= i < |a| && a[i] == x;
      assert LongRun(marks, x);
      assert InLongRun(marks, x.first);
      var j :| 0 <= j < |b| && b[j].first <= x.first <= b[j].last;
      SharedDaySameRun(marks, x, b[j], x.first);
    }
  }

  /** In a chronological list every other span comes after the first one,
      so the tail holds exactly the members other than the head. */
  lemma HeadFirst(a: seq<Span>)
    requires Chronological(a) && a != []
    requires forall i :: 0 <= i < |a| ==> a[i].first <= a[i].last
    ensures forall x :: x in a ==> x == a[0] || a[0].last < x.first
    ensures forall x :: x in a[1..] <==> x in a && x != a[0]
  {
    forall x | x in a[1..] ensures x in a && x != a[0] {
      var p :| 0 <= p < |a[1..]| && a[1..][p] == x;
      assert a[p + 1] == x;
    }
    forall x | x in a && x != a[0] ensures x in a[1..] {
      var p :| 0 <= p < |a| && a[p] == x;
      assert a[1..][p - 1] == x;
    }
  }

  /** A non-empty list has its head among its members. */
  lemma HeadIsMember(b: seq<Span>)
    ensures b != [] ==> b[0] in b
  {
  }

  /** Two chronological lists of non-empty spans with the same members
      start with the same span. */
  lemma SameHead(a: seq<Span>, b: seq<Span>)
    requires Chronological(a) && Chronological(b) && a != [] && b != []
    requires forall i :: 0 <= i < |a| ==> a[i].first <= a[i].last
    requires forall x :: x in a <==> x in b
    ensures a[0] == b[0]
    ensures forall i :: 0 <= i < |b| ==> b[i].first <= b[i].last
    ensures forall x :: x in a[1..] <==> x in b[1..]
  {
    forall i | 0 <= i < |b| ensures b[i].first <= b[i].last {
      assert b[i] in a;
    }
    HeadFirst(a);
    HeadFirst(b);
    assert a[0] in b && b[0] in a;
  }

  /** Two chronological lists of non-empty spans with the same members are equal. */
  lemma {:induction false} ChronologicalSame(a: seq<Span>, b: seq<Span>)
    requires Chronological(a) && Chronological(b)
    requires forall i :: 0 <= i < |a| ==> a[i].first <= a[i].last
    requires forall x :: x in a <==> x in b
    ensures a == b
  {
    HeadIsMember(a);
    HeadIsMember(b);
    if a != [] && b != [] {
      SameHead(a, b);
      ChronologicalSame(a[1..], b[1..]);
      assert a == [a[0]] + a[1..] && b == [b[0]] + b[1..];
    }
  }

  /** AreLongRuns has one solution: any list meeting the description is the
      one the walk reports. */
  lemma LongRunsUnique(marks: seq<bool>, spans: seq<Span>)
    requires AreLongRuns(marks, spans)
    ensures spans == LongRuns(marks)
  {
    var w := LongRuns(marks);
    LongRunsFacts(marks);
    ListedByBoth(marks, spans, w);
    ListedByBoth(marks, w, spans);
    ChronologicalSame(spans, w);
  }
}
