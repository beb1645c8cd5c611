/** Gregorian calendar arithmetic shared by both leave engines.

    Inside the engines a day is an integer ordinal counted from Jan 1 of the
    planning year (Jan 1 is 0, Dec 31 is DaysInYear(year) - 1).  Days of other
    years are simply ordinals outside that range.  Calendar dates
    (year, month, day) and their YYYY-MM-DD keys live at the boundary. */
module Calendar {

  /** A day, as an ordinal counted from Jan 1 of the planning year. */
  type Day = int

  /** A calendar date; month and day are 1-based, as in a YYYY-MM-DD key. */
  datatype Date = Date(year: int, month: int, day: int) {
    predicate Valid() {
      1 <= month <= 12 && 1 <= day <= DaysInMonth(year, month)
    }
  }

  /** A public-holiday record.  Only its date is read by the engines. */
  datatype Holiday = Holiday(date: Day, name: string)

  predicate IsLeapYear(y: int) {
    y % 4 == 0 && (y % 100 != 0 || y % 400 == 0)
  }

  function DaysInYear(y: int): int {
    if IsLeapYear(y) then 366 else 365
  }

  function DaysInMonth(y: int, m: int): int
    requires 1 <= m <= 12
  {
    if m == 2 then (if IsLeapYear(y) then 29 else 28)
    else if m == 4 || m == 6 || m == 9 || m == 11 then 30
    else 31
  }

  /** Days of year y that lie in the months before month m. */
  function DaysBeforeMonth(y: int, m: int): int
    requires 1 <= m <= 12
  {
    [0, 31, 59, 90, 120, 151, 181, 212, 243, 273, 304, 334][m - 1]
    + (if m > 2 && IsLeapYear(y) then 1 else 0)
  }

  /** The months tile the year: each starts where the previous one ends and
      December ends on the last day of the year. */
  lemma MonthsTileYear(y: int, m: int)
    requires 1 <= m <= 12
    ensures m < 12 ==> DaysBeforeMonth(y, m + 1) == DaysBeforeMonth(y, m) + DaysInMonth(y, m)
    ensures m == 12 ==> DaysBeforeMonth(y, m) + DaysInMonth(y, m) == DaysInYear(y)
    ensures 0 <= DaysBeforeMonth(y, m)
  {
  }

  lemma {:induction false} MonthsOrdered(y: int, m1: int, m2: int)
    requires 1 <= m1 < m2 <= 12
    ensures DaysBeforeMonth(y, m1) + DaysInMonth(y, m1) <= DaysBeforeMonth(y, m2)
    decreases m2 - m1
  {
    MonthsTileYear(y, m1);
    if m1 + 1 < m2 {
      MonthsOrdered(y, m1 + 1, m2);
      MonthsTileYear(y, m1 + 1);
    }
  }

  /** Zero-based day of the year of a valid date. */
  function DayOfYear(dt: Date): (k: Day)
    requires dt.Valid()
    ensures 0 <= k < DaysInYear(dt.year)
  {
    MonthsTileYear(dt.year, dt.month);
    MonthsTileYear(dt.year, 12);
    assert DaysBeforeMonth(dt.year, dt.month) + DaysInMonth(dt.year, dt.month) <= DaysInYear(dt.year) by {
      if dt.month < 12 {
        MonthsOrdered(dt.year, dt.month, 12);
      }
    }
    DaysBeforeMonth(dt.year, dt.month) + dt.day - 1
  }

  /** The month (1..12) of year y in which ordinal k falls, searching from month m. */
  function MonthContaining(y: int, k: Day, m: int): (r: int)
    requires 1 <= m <= 12
    requires DaysBeforeMonth(y, m) <= k < DaysInYear(y)
    ensures m <= r <= 12
    ensures DaysBeforeMonth(y, r) <= k < DaysBeforeMonth(y, r) + DaysInMonth(y, r)
    decreases 12 - m
  {
    MonthsTileYear(y, m);
    if k < DaysBeforeMonth(y, m) + DaysInMonth(y, m) then m
    else MonthContaining(y, k, m + 1)
  }

  /** The calendar date of ordinal k of year y. */
  function DateOf(y: int, k: Day): (dt: Date)
    requires 0 <= k < DaysInYear(y)
    ensures dt.Valid() && dt.year == y && DayOfYear(dt) == k
  {
    var m := MonthContaining(y, k, 1);
    Date(y, m, k - DaysBeforeMonth(y, m) + 1)
  }

  /** Dates and ordinals of a year are in one-to-one correspondence. */
  lemma DateOfDayOfYear(dt: Date)
    requires dt.Valid()
    ensures DateOf(dt.year, DayOfYear(dt)) == dt
  {
    var k := DayOfYear(dt);
    var m := MonthContaining(dt.year, k, 1);
    if m < dt.month {
      MonthsOrdered(dt.year, m, dt.month);
    } else if dt.month < m {
      MonthsOrdered(dt.year, dt.month, m);
    }
  }

  /** Chronological order of dates: by year, then month, then day. */
  predicate Before(a: Date, b: Date) {
    a.year < b.year
    || (a.year == b.year && (a.month < b.month || (a.month == b.month && a.day < b.day)))
  }

  /** Within one year, ordinals are ordered as the dates are. */
  lemma DayOfYearOrder(a: Date, b: Date)
    requires a.Valid() && b.Valid() && a.year == b.year
    ensures DayOfYear(a) < DayOfYear(b) <==> Before(a, b)
  {
    if a.month < b.month {
      MonthsOrdered(a.year, a.month, b.month);
    } else if b.month < a.month {
      MonthsOrdered(a.year, b.month, a.month);
    }
  }

  // ---------------------------------------------------------------------------
  // Absolute day numbers and weekdays

  /** Days from 0000-01-01 (proleptic Gregorian) to Jan 1 of year y: 365 per
      year plus one per leap year in [0, y). */
  function YearStart(y: int): int {
    365 * y + (y + 3) / 4 - (y + 99) / 100 + (y + 399) / 400
  }

  lemma DivStep4(y: int)
    ensures (y + 4) / 4 - (y + 3) / 4 == (if y % 4 == 0 then 1 else 0)
  {
  }

  lemma DivStep100(y: int)
    ensures (y + 100) / 100 - (y + 99) / 100 == (if y % 100 == 0 then 1 else 0)
  {
  }

  lemma DivStep400(y: int)
    ensures (y + 400) / 400 - (y + 399) / 400 == (if y % 400 == 0 then 1 else 0)
  {
  }

  /** Consecutive years abut: the next year starts right after this one ends. */
  lemma YearStartStep(y: int)
    ensures YearStart(y + 1) == YearStart(y) + DaysInYear(y)
  {
    DivStep4(y);
    DivStep100(y);
    DivStep400(y);
    LeapDivisors(y);
    assert YearStart(y + 1) - YearStart(y)
      == 365 + ((y + 4) / 4 - (y + 3) / 4) - ((y + 100) / 100 - (y + 99) / 100)
         + ((y + 400) / 400 - (y + 399) / 400);
  }

  /** A multiple of 400 is a multiple of 100, which is a multiple of 4. */
  lemma LeapDivisors(y: int)
    ensures y % 400 == 0 ==> y % 100 == 0
    ensures y % 100 == 0 ==> y % 4 == 0
  {
    Mod400(y, y / 400);
    Mod100(y, y / 100);
  }

  lemma Mod400(y: int, q: int)
    requires q == y / 400
    ensures y % 400 == 0 ==> y % 100 == 0
  {
  }

  lemma Mod100(y: int, q: int)
    requires q == y / 100
    ensures y % 100 == 0 ==> y % 4 == 0
  {
  }


  lemma {:induction false} YearStartOrder(y1: int, y2: int)
    requires y1 < y2
    ensures YearStart(y1) + DaysInYear(y1) <= YearStart(y2)
    decreases y2 - y1
  {
    YearStartStep(y1);
    if y1 + 1 < y2 {
      YearStartOrder(y1 + 1, y2);
    }
  }

  /** Days from 0000-01-01 to a valid date. */
  function DayNumber(dt: Date): int
    requires dt.Valid()
  {
    YearStart(dt.year) + DayOfYear(dt)
  }

  /** The ordinal of a date counted from Jan 1 of year y (it may lie outside
      0 .. DaysInYear(y) - 1 when the date is in another year). */
  function OrdinalIn(y: int, dt: Date): Day
    requires dt.Valid()
  {
    DayNumber(dt) - YearStart(y)
  }

  /** Day numbers are ordered as the dates are, across years too. */
  lemma DayNumberOrder(a: Date, b: Date)
    requires a.Valid() && b.Valid()
    ensures DayNumber(a) < DayNumber(b) <==> Before(a, b)
    ensures DayNumber(a) == DayNumber(b) <==> a == b
  {
    if a.year < b.year {
      YearStartOrder(a.year, b.year);
    } else if b.year < a.year {
      YearStartOrder(b.year, a.year);
    } else {
      DayOfYearOrder(a, b);
      DayOfYearOrder(b, a);
    }
  }

  /** Day of the week of ordinal k of year y: 0 = Sunday, ..., 6 = Saturday.
      0000-01-01 of the proleptic Gregorian calendar was a Saturday. */
  function Weekday(y: int, k: Day): (w: int)
    ensures 0 <= w < 7
  {
    (YearStart(y) + k + 6) % 7
  }

  /** Weekdays run on without a break from one year into the next, so an
      ordinal past Dec 31 has the weekday of the matching day of year y + 1. */
  lemma WeekdayAcrossYears(y: int, k: Day)
    ensures Weekday(y, DaysInYear(y) + k) == Weekday(y + 1, k)
  {
    YearStartStep(y);
  }

  /** Saturday or Sunday. */
  predicate IsWeekend(y: int, k: Day) {
    var w := Weekday(y, k);
    w == 0 || w == 6
  }

  /** Seven consecutive integers leave seven different remainders modulo 7. */
  lemma DistinctRemainders(n: int, a: int, b: int)
    requires 0 <= a < b < 7
    ensures (n + a) % 7 != (n + b) % 7
  {
  }

  /** The offsets from n to the next multiple of 7 and to the next number
      that leaves remainder 6. */
  lemma ShiftToRemainder(n: int)
    ensures (n + (7 - n % 7) % 7) % 7 == 0
    ensures (n + (13 - n % 7) % 7) % 7 == 6
  {
  }

  /** Every run of seven consecutive days holds exactly one Saturday and one
      Sunday. */
  lemma WeekHasOneWeekend(y: int, k: Day)
    ensures exists i :: k <= i < k + 7 && Weekday(y, i) == 0
    ensures exists i :: k <= i < k + 7 && Weekday(y, i) == 6
    ensures forall i, j :: k <= i < j < k + 7 ==> Weekday(y, i) != Weekday(y, j)
  {
    var n := YearStart(y) + k + 6;
    var sun := k + (7 - n % 7) % 7;
    var sat := k + (13 - n % 7) % 7;
    ShiftToRemainder(n);
    assert Weekday(y, sun) == (n + (7 - n % 7) % 7) % 7;
    assert Weekday(y, sat) == (n + (13 - n % 7) % 7) % 7;
    forall i, j | k <= i < j < k + 7 ensures Weekday(y, i) != Weekday(y, j) {
      DistinctRemainders(n, i - k, j - k);
      assert Weekday(y, i) == (n + (i - k)) % 7;
      assert Weekday(y, j) == (n + (j - k)) % 7;
    }
  }

  /** Adding a multiple of 7 does not change the remainder. */
  lemma ModShift(q: int, r: int)
    requires 0 <= r < 7
    ensures (7 * q + r) % 7 == r
  {
  }

  /** Within a week of n there is an offset leaving remainder 6 whose
      successor leaves remainder 0. */
  lemma SaturdayOffset(n: int) returns (s: int)
    ensures 0 <= s < 7 && (n + s) % 7 == 6 && (n + s + 1) % 7 == 0
  {
    s := 6 - n % 7;
    var q := n / 7;
    assert n + s == 7 * q + 6;
    ModShift(q, 6);
    assert n + s + 1 == 7 * (q + 1) + 0;
    ModShift(q + 1, 0);
  }

  /** The first week of every year holds a Saturday followed by a Sunday. */
  lemma FirstSaturday(y: int) returns (sat: Day)
    ensures 0 <= sat < 7 && Weekday(y, sat) == 6 && Weekday(y, sat + 1) == 0
  {
    sat := SaturdayOffset(YearStart(y) + 6);
  }

  /** The calendar quarter (1..4) of a month (1..12): the ceiling of month / 3. */
  function Quarter(month: int): (q: int)
    requires 1 <= month <= 12
    ensures 1 <= q <= 4
    ensures 3 * (q - 1) < month <= 3 * q
  {
    (month + 2) / 3
  }
}
