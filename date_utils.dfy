/** The date helpers of src/utils/dateUtils.ts, used by the combination
    optimiser.  Days are ordinals of the planning year (module Calendar); a
    holiday falls on a day when its ordinal is that day, which is what
    date-fns `isSameDay` decides for two dates of the same calendar day. */
module DateUtils {
  import opened Calendar
  import opened IsoDate
  import opened Runs
  import BridgeFinder

  /** isWeekendDay: Saturday or Sunday. */
  predicate IsWeekendDay(year: int, d: Day) {
    IsWeekend(year, d)
  }

  /** isHoliday: some holiday of the list falls on day d. */
  function IsHoliday(d: Day, holidays: seq<Holiday>): (b: bool)
    ensures b <==> exists i :: 0 <= i < |holidays| && holidays[i].date == d
  {
    if holidays == [] then false
    else if holidays[0].date == d then true
    else
      var b := IsHoliday(d, holidays[1..]);
      assert b ==> exists i :: 0 <= i < |holidays| && holidays[i].date == d by {
        if b {
          var i :| 0 <= i < |holidays[1..]| && holidays[1..][i].date == d;
          assert holidays[i + 1].date == d;
        }
      }
      b
  }

  /** getHolidayDetails: the first holiday of the list that falls on day d,
      or None (the source's null) when there is none. */
  function GetHolidayDetails(d: Day, holidays: seq<Holiday>): (r: Option<Holiday>)
    ensures r.Some? <==> IsHoliday(d, holidays)
    ensures r.Some? ==> exists i :: 0 <= i < |holidays| && holidays[i] == r.value && r.value.date == d
                                    && forall j :: 0 <= j < i ==> holidays[j].date != d
  {
    if holidays == [] then None
    else if holidays[0].date == d then Some(holidays[0])
    else
      var r := GetHolidayDetails(d, holidays[1..]);
      assert r.Some? ==> exists i :: 0 <= i < |holidays| && holidays[i] == r.value && r.value.date == d
                                    && forall j :: 0 <= j < i ==> holidays[j].date != d by {
        if r.Some? {
          var i :| 0 <= i < |holidays[1..]| && holidays[1..][i] == r.value && r.value.date == d
                   && forall j :: 0 <= j < i ==> holidays[1..][j].date != d;
          assert holidays[i + 1] == r.value;
          forall j | 0 <= j < i + 1 ensures holidays[j].date != d {
            if j > 0 {
              assert holidays[j] == holidays[1..][j - 1];
            }
          }
        }
      }
      r
  }

  /** isFreeDay: a weekend day or a holiday. */
  predicate IsFreeDay(year: int, holidays: seq<Holiday>, d: Day) {
    IsWeekendDay(year, d) || IsHoliday(d, holidays)
  }

  /** Both engines classify days alike: isFreeDay here and the free-day test
      of the bridge finder (weekend, or in the set of holiday dates). */
  lemma FreeDayAgrees(year: int, holidays: seq<Holiday>, d: Day)
    ensures IsFreeDay(year, holidays, d) <==> BridgeFinder.IsFree(year, holidays, d)
  {
    var dates := BridgeFinder.HolidayDates(holidays);
    if d in dates {
      var i :| 0 <= i < |holidays| && holidays[i].date == d;
    }
  }

  // ---------------------------------------------------------------------------
  // Ranges of days

  /** getDateRange: the days from startDate to endDate inclusive, one after
      the other; empty when the range is empty. */
  method GetDateRange(startDate: Day, endDate: Day) returns (dates: seq<Day>)
    ensures |dates| == if startDate <= endDate then endDate - startDate + 1 else 0
    ensures forall i :: 0 <= i < |dates| ==> dates[i] == startDate + i
  {
    dates := [];
    var current := startDate;
    while current <= endDate
      invariant current == startDate + |dates|
      invariant startDate <= endDate ==> current <= endDate + 1
      invariant startDate > endDate ==> dates == []
      invariant forall i :: 0 <= i < |dates| ==> dates[i] == startDate + i
      decreases endDate - current
    {
      dates := dates + [current];
      current := current + 1;
    }
  }

  /** The ordinal (relative to Jan 1 of `year`) of the first day of month
      `month`, counted from 0 and rolling over into the neighbouring years
      as `new Date(year, month, 1)` does. */
  function MonthStart(year: int, month: int): Day {
    var y := year + month / 12;
    YearStart(y) - YearStart(year) + DaysBeforeMonth(y, month % 12 + 1)
  }

  /** Stepping to the next month index carries into the next year after
      the twelfth month. */
  lemma MonthIndexStep(month: int)
    ensures month % 12 == 11 ==> (month + 1) / 12 == month / 12 + 1 && (month + 1) % 12 == 0
    ensures month % 12 != 11 ==> (month + 1) / 12 == month / 12 && (month + 1) % 12 == month % 12 + 1
  {
  }

  /** The month after `month` starts where `month` ends. */
  lemma NextMonthStart(year: int, month: int)
    ensures MonthStart(year, month + 1) == MonthStart(year, month) + DaysInMonth(year + month / 12, month % 12 + 1)
  {
    var y := year + month / 12;
    MonthsTileYear(y, month % 12 + 1);
    MonthIndexStep(month);
    if month % 12 == 11 {
      YearStartStep(y);
    }
  }

  /** A month index from 0 to 11 names a month of the year itself. */
  lemma MonthOfYear(year: int, month: int)
    requires 0 <= month < 12
    ensures MonthStart(year, month) == DaysBeforeMonth(year, month + 1)
    ensures year + month / 12 == year && month % 12 + 1 == month + 1
  {
  }

  /** Day i (from 0) of month m of the year is the date (year, m, i + 1). */
  lemma DayOfMonth(year: int, m: int, i: int)
    requires 1 <= m <= 12 && 0 <= i < DaysInMonth(year, m)
    ensures 0 <= DaysBeforeMonth(year, m) + i < DaysInYear(year)
    ensures DateOf(year, DaysBeforeMonth(year, m) + i) == Date(year, m, i + 1)
  {
    var dt := Date(year, m, i + 1);
    assert DayOfYear(dt) == DaysBeforeMonth(year, m) + i;
    DateOfDayOfYear(dt);
  }

  /** getDatesInMonth (month counted from 0): the days from the first of the
      month to `new Date(year, month + 1, 0)`, its last day.  For a month of
      the year, entry i is the date (year, month + 1, i + 1). */
  method GetDatesInMonth(year: int, month: int) returns (dates: seq<Day>)
    ensures |dates| == DaysInMonth(year + month / 12, month % 12 + 1)
    ensures forall i :: 0 <= i < |dates| ==> dates[i] == MonthStart(year, month) + i
    ensures 0 <= month < 12 ==> forall i :: 0 <= i < |dates| ==>
      0 <= dates[i] < DaysInYear(year) && DateOf(year, dates[i]) == Date(year, month + 1, i + 1)
  {
    var firstDay := MonthStart(year, month);
    var lastDay := MonthStart(year, month + 1) - 1;
    NextMonthStart(year, month);
    dates := GetDateRange(firstDay, lastDay);
    if 0 <= month < 12 {
      MonthOfYear(year, month);
      forall i | 0 <= i < |dates|
        ensures 0 <= dates[i] < DaysInYear(year) && DateOf(year, dates[i]) == Date(year, month + 1, i + 1)
      {
        DayOfMonth(year, month + 1, i);
      }
    }
  }

  /** getDatesInYear: Jan 1 to Dec 31, that is every ordinal of the year
      (365 or 366 of them). */
  method GetDatesInYear(year: int) returns (dates: seq<Day>)
    ensures |dates| == DaysInYear(year)
    ensures |dates| == 365 || |dates| == 366
    ensures forall i :: 0 <= i < |dates| ==> dates[i] == i
    ensures dates == YearDays(year)
  {
    var firstDay := DayOfYear(Date(year, 1, 1));
    var lastDay := DayOfYear(Date(year, 12, 31));
    MonthsTileYear(year, 12);
    dates := GetDateRange(firstDay, lastDay);
  }

  /** The days of the year in order: what getDatesInYear lists. */
  function YearDays(year: int): (days: seq<Day>)
    ensures |days| == DaysInYear(year)
    ensures forall i :: 0 <= i < |days| ==> days[i] == i
  {
    seq(DaysInYear(year), i => i)
  }

  // ---------------------------------------------------------------------------
  // Runs of free days

  /** A run of free days as findConsecutiveFreeDays reports it. */
  datatype FreeStreak = FreeStreak(start: Day, end: Day, days: int)

  /** The test findConsecutiveFreeDays applies to each day. */
  function FreeTest(year: int, holidays: seq<Holiday>): Day -> bool {
    d => IsFreeDay(year, holidays, d)
  }

  /** The outcome of a test for each of the days 0 .. n - 1. */
  function Marks(n: nat, test: Day -> bool): (marks: seq<bool>)
    ensures |marks| == n
    ensures forall d :: 0 <= d < n ==> marks[d] == test(d)
  {
    seq(n, d => test(d))
  }

  /** The free/working status of each day of the year. */
  function FreeMarks(year: int, holidays: seq<Holiday>): (marks: seq<bool>)
    ensures |marks| == DaysInYear(year)
    ensures forall d :: 0 <= d < |marks| ==> marks[d] == IsFreeDay(year, holidays, d)
  {
    Marks(DaysInYear(year), FreeTest(year, holidays))
  }

  /** The streaks reported for a list of runs, one for one. */
  function ToStreaks(spans: seq<Span>): (r: seq<FreeStreak>)
    ensures |r| == |spans|
    ensures forall i :: 0 <= i < |spans| ==>
      r[i] == FreeStreak(spans[i].first, spans[i].last, spans[i].last - spans[i].first + 1)
  {
    seq(|spans|, i requires 0 <= i < |spans| => FreeStreak(spans[i].first, spans[i].last, spans[i].last - spans[i].first + 1))
  }

  lemma ToStreaksAppend(a: seq<Span>, b: seq<Span>)
    ensures ToStreaks(a + b) == ToStreaks(a) + ToStreaks(b)
  {
    var l, r := ToStreaks(a + b), ToStreaks(a) + ToStreaks(b);
    forall i | 0 <= i < |l| ensures l[i] == r[i] {
      if i >= |a| {
        assert (a + b)[i] == b[i - |a|];
      }
    }
  }

  /** findConsecutiveFreeDays: the maximal runs of two or more free days of
      the year, in chronological order, each with its length; a run still
      open on Dec 31 is reported too. */
  method FindConsecutiveFreeDays(year: int, holidays: seq<Holiday>) returns (result: seq<FreeStreak>)
    ensures result == ToStreaks(LongRuns(FreeMarks(year, holidays)))
  {
    var allDates := GetDatesInYear(year);
    result := CollectStreaks(allDates, FreeTest(year, holidays));
    assert Closing(FreeMarks(year, holidays), |allDates|) == LongRuns(FreeMarks(year, holidays));
  }

  /** The loop of findConsecutiveFreeDays over the days of the year, with
      the free-day test as a parameter: a free day joins the current streak,
      a workday reports it (when it holds two days or more) and starts a new
      one, and the streak still open on Dec 31 is reported last. */
  method CollectStreaks(allDates: seq<Day>, isFree: Day -> bool) returns (result: seq<FreeStreak>)
    requires forall i :: 0 <= i < |allDates| ==> allDates[i] == i
    ensures result == ToStreaks(Closing(Marks(|allDates|, isFree), |allDates|))
  {
    ghost var marks := Marks(|allDates|, isFree);
    result := [];
    var currentStreak: seq<Day> := [];
    var i := 0;
    while i < |allDates|
      invariant 0 <= i <= |allDates|
      invariant i - |currentStreak| == StreakStart(marks, i)
      invariant forall j :: 0 <= j < |currentStreak| ==> currentStreak[j] == i - |currentStreak| + j
      invariant result == ToStreaks(Reported(marks, i))
    {
      var date := allDates[i];
      if isFree(date) {
        assert Reported(marks, i + 1) == Reported(marks, i);
        currentStreak := currentStreak + [date];
      } else {
        assert Reported(marks, i + 1) == Closing(marks, i);
        result := ReportStreak(result, currentStreak, Reported(marks, i), i - |currentStreak|);
        currentStreak := [];
      }
      i := i + 1;
    }
    result := ReportStreak(result, currentStreak, Reported(marks, i), i - |currentStreak|);
  }

  /** Reports the streak of days s, s + 1, ... as a FreeStreak when it holds
      more than one day. */
  method ReportStreak(result: seq<FreeStreak>, currentStreak: seq<Day>, ghost spans: seq<Span>, ghost s: int)
    returns (result': seq<FreeStreak>)
    requires forall j :: 0 <= j < |currentStreak| ==> currentStreak[j] == s + j
    requires result == ToStreaks(spans)
    ensures result' == ToStreaks(spans + Closed(s, s + |currentStreak|))
  {
    ToStreaksAppend(spans, Closed(s, s + |currentStreak|));
    result' := result;
    if |currentStreak| > 1 {
      var streak := FreeStreak(currentStreak[0], currentStreak[|currentStreak| - 1], |currentStreak|);
      result' := result + [streak];
      assert ToStreaks(Closed(s, s + |currentStreak|)) == [streak];
    } else {
      assert ToStreaks(Closed(s, s + |currentStreak|)) == [];
    }
  }
}
