/** The bridge finder of utils/leave_maximizer.ts: the year's free days
    (weekends and holidays) are grouped into maximal blocks, the workday gap
    between each pair of neighbouring blocks becomes a scored "bridge", and
    whole bridges are taken greedily, best score first, while the leave
    budget lasts.

    Days are ordinals of the planning year (see module Calendar); the source's
    YYYY-MM-DD keys compare as strings exactly as the ordinals compare
    (IsoDate.KeyOrderIsOrdinalOrder), so every string comparison of the
    source is an integer comparison here. */
module BridgeFinder {
  import opened Calendar
  import opened IsoDate
  import opened Ordering

  // ---------------------------------------------------------------------------
  // Free days and workdays

  /** The dates of a holiday list, as `new Set(holidays.map(h => h.date))`. */
  function HolidayDates(holidays: seq<Holiday>): (r: set<Day>)
    ensures forall i :: 0 <= i < |holidays| ==> holidays[i].date in r
    ensures forall d :: d in r ==> exists i :: 0 <= i < |holidays| && holidays[i].date == d
  {
    set h | h in holidays :: h.date
  }

  /** A day of the year is free when it is a Saturday, a Sunday or a holiday. */
  predicate IsFree(year: int, holidays: seq<Holiday>, d: Day) {
    IsWeekend(year, d) || d in HolidayDates(holidays)
  }

  /** The specification of getAllFreeDays: the free days from Jan 1 to Dec 31. */
  ghost function FreeDays(year: int, holidays: seq<Holiday>): set<Day> {
    set d | 0 <= d < DaysInYear(year) && IsFree(year, holidays, d)
  }

  /** getAllFreeDays: walks the year day by day and collects the free ones.
      Holidays of other years are never added. */
  method GetAllFreeDays(year: int, holidays: seq<Holiday>) returns (free: set<Day>)
    ensures forall d :: d in free <==> 0 <= d < DaysInYear(year) && IsFree(year, holidays, d)
    ensures free == FreeDays(year, holidays)
  {
    var holidayDates := HolidayDates(holidays);
    free := {};
    var d := 0;
    while d < DaysInYear(year)
      invariant 0 <= d <= DaysInYear(year)
      invariant forall e :: e in free <==> 0 <= e < d && IsFree(year, holidays, e)
    {
      if IsWeekend(year, d) || d in holidayDates {
        free := free + {d};
      }
      d := d + 1;
    }
    assert forall e :: e in free <==> e in FreeDays(year, holidays);
  }

  /** The workdays of the year with respect to a set of free days. */
  ghost function WorkdaySet(year: int, free: set<Day>): set<Day> {
    set d | 0 <= d < DaysInYear(year) && d !in free
  }

  /** The free days of `free` that come before day n. */
  ghost function FreeBelow(free: set<Day>, n: int): set<Day> {
    set d | d in free && d < n
  }

  /** getWorkdays: the days of the year not in the free set, in ascending
      order.  When the free set lies inside the year, workdays and free days
      together are exactly the days of the year. */
  method GetWorkdays(year: int, free: set<Day>) returns (workdays: seq<Day>)
    ensures StrictlyIncreasing(workdays)
    ensures forall d :: d in workdays <==> 0 <= d < DaysInYear(year) && d !in free
    ensures (forall d :: d in free ==> 0 <= d < DaysInYear(year)) ==> |workdays| + |free| == DaysInYear(year)
  {
    workdays := [];
    var d := 0;
    while d < DaysInYear(year)
      invariant 0 <= d <= DaysInYear(year)
      invariant StrictlyIncreasing(workdays)
      invariant forall e :: e in workdays <==> 0 <= e < d && e !in free
      invariant forall i :: 0 <= i < |workdays| ==> workdays[i] < d
      invariant (forall e :: e in free ==> 0 <= e) ==> |workdays| + |FreeBelow(free, d)| == d
    {
      if d !in free {
        workdays := workdays + [d];
        assert forall e :: e in FreeBelow(free, d + 1) <==> e in FreeBelow(free, d);
        assert FreeBelow(free, d + 1) == FreeBelow(free, d);
      } else {
        assert forall e :: e in FreeBelow(free, d + 1) <==> e in FreeBelow(free, d) + {d};
        assert FreeBelow(free, d + 1) == FreeBelow(free, d) + {d};
      }
      d := d + 1;
    }
    if forall e :: e in free ==> 0 <= e < DaysInYear(year) {
      assert forall e :: e in FreeBelow(free, d) <==> e in free;
      assert FreeBelow(free, d) == free;
    }
  }

  // ---------------------------------------------------------------------------
  // Blocks of consecutive free days

  /** A DateBlock: the first and last day of a run of free days and its length. */
  datatype Block = Block(start: Day, end: Day, length: int)

  /** Each block is a non-empty range whose length is its number of days, and
      the blocks are in ascending order with at least one missing day between
      any two of them. */
  ghost predicate ValidBlocks(bs: seq<Block>) {
    (forall i :: 0 <= i < |bs| ==> bs[i].length == bs[i].end - bs[i].start + 1 >= 1)
    && (forall i, j :: 0 <= i < j < |bs| ==> bs[i].end + 1 < bs[j].start)
  }

  /** Day d lies inside one of the blocks. */
  ghost predicate InBlocks(bs: seq<Block>, d: Day) {
    exists i :: 0 <= i < |bs| && bs[i].start <= d <= bs[i].end
  }

  function TotalLength(bs: seq<Block>): int {
    if bs == [] then 0 else TotalLength(bs[..|bs| - 1]) + bs[|bs| - 1].length
  }

  /** One step of findFreeBlocks: a day right after the last block's end
      extends that block, any other day opens a new block of length 1. */
  function Extend(bs: seq<Block>, x: Day): (r: seq<Block>)
    ensures |r| > 0 && r[|r| - 1].end == x
  {
    if bs != [] && bs[|bs| - 1].end + 1 == x then
      bs[..|bs| - 1] + [Block(bs[|bs| - 1].start, x, bs[|bs| - 1].length + 1)]
    else
      bs + [Block(x, x, 1)]
  }

  /** The specification of findFreeBlocks on the dates in ascending order. */
  function Blocks(xs: seq<Day>): (bs: seq<Block>)
    ensures |bs| == 0 <==> |xs| == 0
    ensures xs != [] ==> bs[|bs| - 1].end == xs[|xs| - 1]
  {
    if xs == [] then [] else Extend(Blocks(xs[..|xs| - 1]), xs[|xs| - 1])
  }

  lemma ExtendValid(bs: seq<Block>, x: Day)
    requires ValidBlocks(bs)
    requires bs != [] ==> bs[|bs| - 1].end < x
    ensures ValidBlocks(Extend(bs, x))
  {
    var r := Extend(bs, x);
    if bs != [] && bs[|bs| - 1].end + 1 == x {
      assert forall i :: 0 <= i < |r| - 1 ==> r[i] == bs[i];
    } else {
      assert forall i :: 0 <= i < |bs| ==> r[i] == bs[i];
      forall i | 0 <= i < |bs| ensures bs[i].end + 1 < x {
        if i < |bs| - 1 {
          assert bs[i].end + 1 < bs[|bs| - 1].start;
        }
      }
    }
  }

  lemma ExtendTotal(bs: seq<Block>, x: Day)
    ensures TotalLength(Extend(bs, x)) == TotalLength(bs) + 1
  {
    var r := Extend(bs, x);
    if bs != [] && bs[|bs| - 1].end + 1 == x {
      assert r[..|r| - 1] == bs[..|bs| - 1];
    } else {
      assert r[..|r| - 1] == bs;
    }
  }

  lemma ExtendCover(bs: seq<Block>, x: Day)
    requires ValidBlocks(bs)
    requires bs != [] ==> bs[|bs| - 1].end < x
    ensures forall d :: InBlocks(Extend(bs, x), d) <==> InBlocks(bs, d) || d == x
  {
    var r := Extend(bs, x);
    var grows := bs != [] && bs[|bs| - 1].end + 1 == x;
    forall d ensures InBlocks(r, d) <==> InBlocks(bs, d) || d == x {
      if InBlocks(bs, d) {
        var i :| 0 <= i < |bs| && bs[i].start <= d <= bs[i].end;
        assert r[i].start <= d <= r[i].end;
      }
      if InBlocks(r, d) {
        var i :| 0 <= i < |r| && r[i].start <= d <= r[i].end;
        if i < |r| - 1 || (grows && d < x) {
          assert bs[i].start <= d <= bs[i].end;
        }
      }
      if d == x {
        assert r[|r| - 1].start <= d <= r[|r| - 1].end;
      }
    }
  }

  /** The blocks of an ascending sequence of days are valid. */
  lemma {:induction false} BlocksValid(xs: seq<Day>)
    requires StrictlyIncreasing(xs)
    ensures ValidBlocks(Blocks(xs))
  {
    if xs != [] {
      var ys := xs[..|xs| - 1];
      BlocksValid(ys);
      ExtendValid(Blocks(ys), xs[|xs| - 1]);
    }
  }

  /** The block lengths add up to the number of days. */
  lemma {:induction false} BlocksTotal(xs: seq<Day>)
    ensures TotalLength(Blocks(xs)) == |xs|
  {
    if xs != [] {
      var ys := xs[..|xs| - 1];
      BlocksTotal(ys);
      ExtendTotal(Blocks(ys), xs[|xs| - 1]);
    }
  }

  /** The blocks cover exactly the days of the sequence. */
  lemma {:induction false} BlocksCover(xs: seq<Day>)
    requires StrictlyIncreasing(xs)
    ensures forall d :: d in xs <==> InBlocks(Blocks(xs), d)
  {
    if xs != [] {
      var ys := xs[..|xs| - 1];
      var x := xs[|xs| - 1];
      BlocksCover(ys);
      BlocksValid(ys);
      ExtendCover(Blocks(ys), x);
      assert xs == ys + [x];
      assert forall d :: d in xs <==> d in ys || d == x;
    }
  }

  /** Blocks that decompose a set are maximal: the day before each block and
      the day after it are not in the set. */
  lemma BlocksMaximal(bs: seq<Block>, s: set<Day>)
    requires ValidBlocks(bs)
    requires forall d :: d in s <==> InBlocks(bs, d)
    ensures forall i :: 0 <= i < |bs| ==> bs[i].start - 1 !in s && bs[i].end + 1 !in s
  {
    forall i, k | 0 <= i < |bs| && 0 <= k < |bs|
      ensures !(bs[k].start <= bs[i].start - 1 <= bs[k].end)
      ensures !(bs[k].start <= bs[i].end + 1 <= bs[k].end)
    {
      if k < i {
        assert bs[k].end + 1 < bs[i].start;
      } else if i < k {
        assert bs[i].end + 1 < bs[k].start;
      }
    }
  }

  /** All blocks are non-empty ranges inside days 0 .. n - 1. */
  ghost predicate BlocksWithin(bs: seq<Block>, n: int) {
    forall i :: 0 <= i < |bs| ==> 0 <= bs[i].start <= bs[i].end < n
  }

  /** The blocks of a set of days of the year lie inside the year. */
  lemma BlocksOfYear(bs: seq<Block>, s: set<Day>, n: int)
    requires ValidBlocks(bs)
    requires forall d :: d in s <==> InBlocks(bs, d)
    requires forall d :: d in s ==> 0 <= d < n
    ensures BlocksWithin(bs, n)
  {
    forall i | 0 <= i < |bs| ensures 0 <= bs[i].start <= bs[i].end < n {
      assert bs[i].start <= bs[i].start <= bs[i].end;
      assert InBlocks(bs, bs[i].start);
      assert InBlocks(bs, bs[i].end);
    }
  }

  /** findFreeBlocks: sorts the set and walks it once, extending the current
      block on a one-day step and closing it on a larger step.  The result is
      the maximal-block decomposition of the set. */
  method FindFreeBlocks(s: set<Day>) returns (bs: seq<Block>)
    ensures bs == Blocks(SortedSeq(s))
    ensures ValidBlocks(bs)
    ensures forall d :: d in s <==> InBlocks(bs, d)
    ensures TotalLength(bs) == |s|
    ensures |bs| == 0 <==> |s| == 0
  {
    var sorted := SortSet(s);
    bs := GroupIntoBlocks(sorted);
    SortedSeqFacts(s);
    BlocksValid(sorted);
    BlocksCover(sorted);
    BlocksTotal(sorted);
  }

  /** The loop of findFreeBlocks over the sorted days: a day one after the
      previous one extends the current block, any other day closes it and
      opens a new one; the last block is closed after the loop. */
  method GroupIntoBlocks(sorted: seq<Day>) returns (bs: seq<Block>)
    ensures bs == Blocks(sorted)
  {
    if |sorted| == 0 {
      return [];
    }
    bs := [];
    var start, end, length := sorted[0], sorted[0], 1;
    assert sorted[..1] == [] + [sorted[0]];
    var i := 1;
    while i < |sorted|
      invariant 1 <= i <= |sorted|
      invariant end == sorted[i - 1]
      invariant bs + [Block(start, end, length)] == Blocks(sorted[..i])
    {
      ghost var prev := bs + [Block(start, end, length)];
      assert sorted[..i + 1][..i] == sorted[..i];
      assert Blocks(sorted[..i + 1]) == Extend(prev, sorted[i]);
      if sorted[i] - sorted[i - 1] == 1 {
        assert prev[..|prev| - 1] == bs;
        end := sorted[i];
        length := length + 1;
      } else {
        bs := bs + [Block(start, end, length)];
        start, end, length := sorted[i], sorted[i], 1;
      }
      i := i + 1;
    }
    bs := bs + [Block(start, end, length)];
    assert sorted[..i] == sorted;
  }


  // ---------------------------------------------------------------------------
  // Gaps between blocks

  /** daysBetween: the distance in days between two days. */
  function DaysBetween(a: Day, b: Day): (r: int)
    ensures r >= 0 && (r == a - b || r == b - a)
  {
    if a <= b then b - a else a - b
  }

  /** The days strictly between a and b, in ascending order. */
  function DatesBetween(a: Day, b: Day): (r: seq<Day>)
    ensures |r| == if a < b then DaysBetween(a, b) - 1 else 0
    ensures forall i :: 0 <= i < |r| ==> r[i] == a + 1 + i
  {
    seq(if a < b then b - a - 1 else 0, i => a + 1 + i)
  }

  /** DatesBetween holds exactly the days strictly between a and b, each once. */
  lemma DatesBetweenMembers(a: Day, b: Day)
    ensures forall d :: d in DatesBetween(a, b) <==> a < d < b
    ensures StrictlyIncreasing(DatesBetween(a, b))
  {
    var r := DatesBetween(a, b);
    forall d | a < d < b ensures d in r {
      assert r[d - a - 1] == d;
    }
  }

  /** getDatesBetween: steps a day at a time from the day after a while the
      day is before b. */
  method GetDatesBetween(a: Day, b: Day) returns (dates: seq<Day>)
    ensures dates == DatesBetween(a, b)
  {
    dates := [];
    var current := a + 1;
    while current < b
      invariant a + 1 <= current
      invariant current <= b || current == a + 1
      invariant |dates| == current - a - 1
      invariant forall i :: 0 <= i < |dates| ==> dates[i] == a + 1 + i
    {
      dates := dates + [current];
      current := current + 1;
    }
  }

  /** `xs.filter(d => set.has(d))`: the days of xs that are in the set, in
      their order. */
  function FilterIn(xs: seq<Day>, s: set<Day>): (r: seq<Day>)
    ensures |r| <= |xs|
    ensures forall i :: 0 <= i < |r| ==> r[i] in xs && r[i] in s
  {
    if xs == [] then []
    else
      var rest := FilterIn(xs[1..], s);
      if xs[0] in s then [xs[0]] + rest else rest
  }

  /** Filtering keeps every day when all of them are in the set. */
  lemma {:induction false} FilterInKeepsAll(xs: seq<Day>, s: set<Day>)
    requires forall i :: 0 <= i < |xs| ==> xs[i] in s
    ensures FilterIn(xs, s) == xs
  {
    if xs != [] {
      assert xs[0] in s;
      FilterInKeepsAll(xs[1..], s);
      assert xs == [xs[0]] + xs[1..];
    }
  }

  // ---------------------------------------------------------------------------
  // Quarters

  /** getQuarter: reads the month of a YYYY-MM-DD key and returns
      ceil(month / 3); a key that is not of that shape has no quarter. */
  function GetQuarter(key: string): (q: Option<int>)
    ensures q.Some? <==> Parse(key).Some?
    ensures q.Some? ==> 0 <= q.value <= 33
    ensures q.Some? ==> 3 * (q.value - 1) < Parse(key).value.month <= 3 * q.value
    ensures q.Some? && 1 <= Parse(key).value.month <= 12 ==> q.value == Quarter(Parse(key).value.month)
  {
    match Parse(key)
    case Some(dt) => Some((dt.month + 2) / 3)
    case None => None
  }

  /** The quarter of day d of the year. */
  function QuarterOfDay(year: int, d: Day): (q: int)
    requires 0 <= d < DaysInYear(year)
    ensures 1 <= q <= 4
  {
    Quarter(DateOf(year, d).month)
  }

  /** getQuarter of a day's key is the quarter of its month, so the model may
      compare quarters of ordinals where the source parses keys. */
  lemma GetQuarterOfKey(year: int, d: Day)
    requires 0 <= year < 10000 && 0 <= d < DaysInYear(year)
    ensures GetQuarter(KeyOf(year, d)) == Some(QuarterOfDay(year, d))
  {
    ParseFormat(DateOf(year, d));
  }

  // ---------------------------------------------------------------------------
  // Bridge candidates

  /** A BridgeOpportunity: the workdays that join two neighbouring blocks. */
  datatype Bridge = Bridge(gapDays: seq<Day>, gapLength: int, blockBefore: Block,
                           blockAfter: Block, score: real, totalBlockLength: int)

  /** Score multiplier for a bridge whose middle day is in the priority quarter. */
  const QuarterBonus: real := 1.5

  /** The bridge over a gap of workdays between two blocks.  Its score is
      the length of the joined run per leave day, times QuarterBonus when a
      priority quarter is set (1..4; 0 or less stands for "any") and the
      middle gap day lies in it. */
  function Scored(year: int, before: Block, after: Block, gap: seq<Day>, priority: int): Bridge
    requires |gap| > 0 && 0 <= gap[|gap| / 2] < DaysInYear(year)
  {
    var total := before.length + |gap| + after.length;
    var base := total as real / |gap| as real;
    var inQuarter := priority > 0 && QuarterOfDay(year, gap[|gap| / 2]) == priority;
    Bridge(gap, |gap|, before, after, if inQuarter then base * QuarterBonus else base, total)
  }

  /** The bridge the source builds between two blocks, if any: there is none
      when the gap is empty or when it holds a day that is not a workday. */
  function BridgeOver(year: int, before: Block, after: Block, work: set<Day>, priority: int): Option<Bridge>
    requires 0 <= before.end && after.start < DaysInYear(year)
  {
    var daysInGap := DaysBetween(before.end, after.start) - 1;
    if daysInGap <= 0 then None
    else
      var gap := FilterIn(DatesBetween(before.end, after.start), work);
      if |gap| != daysInGap then None
      else
        assert gap[|gap| / 2] in DatesBetween(before.end, after.start);
        Some(Scored(year, before, after, gap, priority))
  }

  /** The bridge between blocks j and j + 1, if the source keeps one: a pair
      whose first block ended before the cutoff is skipped. */
  function Candidate(year: int, bs: seq<Block>, j: nat, work: set<Day>, cutoff: Option<Day>,
                     priority: int): Option<Bridge>
    requires j + 1 < |bs| && BlocksWithin(bs, DaysInYear(year))
  {
    if cutoff.Some? && bs[j].end < cutoff.value then None
    else BridgeOver(year, bs[j], bs[j + 1], work, priority)
  }

  /** The bridges of the first n block pairs, in block order. */
  function Candidates(year: int, bs: seq<Block>, work: set<Day>, cutoff: Option<Day>,
                      priority: int, n: nat): seq<Bridge>
    requires (n == 0 || n < |bs|) && BlocksWithin(bs, DaysInYear(year))
  {
    if n == 0 then []
    else
      Candidates(year, bs, work, cutoff, priority, n - 1)
      + Listed(Candidate(year, bs, n - 1, work, cutoff, priority))
  }

  /** The bridge as a list of zero or one element. */
  function Listed(b: Option<Bridge>): (r: seq<Bridge>)
    ensures |r| <= 1 && (r == [] <==> b.None?)
  {
    match b
    case Some(x) => [x]
    case None => []
  }

  /** The number of neighbouring block pairs. */
  function Pairs(bs: seq<Block>): (n: nat)
    ensures n < |bs| || n == 0
  {
    if |bs| < 2 then 0 else |bs| - 1
  }

  /** The body of step 1 of calculateOptimalLeave for one block pair: lists
      the days between the blocks, keeps the workdays, and scores the bridge
      when no day was dropped. */
  method ScoreGap(year: int, blockBefore: Block, blockAfter: Block, work: set<Day>, priority: int)
    returns (bridge: Option<Bridge>)
    requires 0 <= blockBefore.end && blockAfter.start < DaysInYear(year)
    ensures bridge == BridgeOver(year, blockBefore, blockAfter, work, priority)
  {
    var daysInGap := DaysBetween(blockBefore.end, blockAfter.start) - 1;
    if daysInGap <= 0 {
      return None;
    }
    var gapDays := GetDatesBetween(blockBefore.end, blockAfter.start);
    var bridgeWorkdays := FilterIn(gapDays, work);
    if |bridgeWorkdays| != daysInGap {
      return None;
    }
    var total := blockBefore.length + |bridgeWorkdays| + blockAfter.length;
    var score := total as real / |bridgeWorkdays| as real;
    if priority > 0 {
      // bridgeWorkdays is not empty here, so its middle day exists
      var midGapDate := bridgeWorkdays[|bridgeWorkdays| / 2];
      assert midGapDate in gapDays;
      if QuarterOfDay(year, midGapDate) == priority {
        score := score * QuarterBonus;
      }
    }
    assert bridgeWorkdays[|bridgeWorkdays| / 2] in gapDays;
    bridge := Some(Bridge(bridgeWorkdays, |bridgeWorkdays|, blockBefore, blockAfter, score, total));
  }

  /** Step 1 of calculateOptimalLeave: walks the neighbouring block pairs,
      skips those whose first block ended before the cutoff, and collects the
      scored bridges. */
  method PotentialBridges(year: int, bs: seq<Block>, work: set<Day>, cutoff: Option<Day>,
                          priority: int) returns (bridges: seq<Bridge>)
    requires |bs| >= 2 && BlocksWithin(bs, DaysInYear(year))
    ensures bridges == Candidates(year, bs, work, cutoff, priority, Pairs(bs))
  {
    bridges := [];
    var i := 0;
    while i < |bs| - 1
      invariant 0 <= i <= |bs| - 1
      invariant bridges == Candidates(year, bs, work, cutoff, priority, i)
    {
      ghost var next := Candidates(year, bs, work, cutoff, priority, i + 1);
      assert next == bridges + Listed(Candidate(year, bs, i, work, cutoff, priority));
      var blockBefore, blockAfter := bs[i], bs[i + 1];
      if cutoff.Some? && blockBefore.end < cutoff.value {
        i := i + 1;
        continue;
      }
      var bridge := ScoreGap(year, blockBefore, blockAfter, work, priority);
      if bridge.Some? {
        bridges := bridges + [bridge.value];
      }
      i := i + 1;
    }
  }

  /** The blocks decompose a set of free days of the year and `work` is the
      rest of the year: the situation calculateOptimalLeave builds. */
  ghost predicate Segmented(year: int, free: set<Day>, bs: seq<Block>, work: set<Day>) {
    ValidBlocks(bs) && BlocksWithin(bs, DaysInYear(year))
    && (forall d :: d in free <==> InBlocks(bs, d))
    && (forall d :: d in work <==> 0 <= d < DaysInYear(year) && d !in free)
  }

  /** Every day strictly between two neighbouring blocks is a workday, and
      there is at least one such day. */
  lemma GapIsWorkdays(year: int, free: set<Day>, bs: seq<Block>, work: set<Day>, j: nat)
    requires Segmented(year, free, bs, work) && j + 1 < |bs|
    ensures bs[j].end + 1 < bs[j + 1].start
    ensures forall d :: bs[j].end < d < bs[j + 1].start ==> d in work
  {
    forall d | bs[j].end < d < bs[j + 1].start ensures d in work {
      forall k | 0 <= k < |bs| ensures !(bs[k].start <= d <= bs[k].end) {
        if k < j {
          assert bs[k].end + 1 < bs[j].start;
        } else if j + 1 < k {
          assert bs[j + 1].end + 1 < bs[k].start;
        }
      }
      assert !InBlocks(bs, d);
    }
  }

  /** In the situation calculateOptimalLeave builds, the bridge between
      blocks j and j + 1 is the whole gap between them: the gap is never
      empty and the workday filter never drops a day, so the pair yields a
      bridge exactly when the first block does not end before the cutoff. */
  lemma CandidateWholeGap(year: int, free: set<Day>, bs: seq<Block>, work: set<Day>, j: nat,
                          cutoff: Option<Day>, priority: int)
    requires Segmented(year, free, bs, work) && j + 1 < |bs|
    ensures Candidate(year, bs, j, work, cutoff, priority).Some?
            <==> !(cutoff.Some? && bs[j].end < cutoff.value)
    ensures Candidate(year, bs, j, work, cutoff, priority).Some? ==>
      var b := Candidate(year, bs, j, work, cutoff, priority).value;
      && b.blockBefore == bs[j] && b.blockAfter == bs[j + 1]
      && b.gapDays == DatesBetween(bs[j].end, bs[j + 1].start)
      && b.gapLength == |b.gapDays|
  {
    GapIsWorkdays(year, free, bs, work, j);
    var gap := DatesBetween(bs[j].end, bs[j + 1].start);
    DatesBetweenMembers(bs[j].end, bs[j + 1].start);
    FilterInKeepsAll(gap, work);
    assert |gap| == DaysBetween(bs[j].end, bs[j + 1].start) - 1 >= 1;
  }

  /** A bridge of that situation: at least one leave day, each a workday
      after the cutoff, and the total length is the length of the joined run
      from the first block's start to the second block's end. */
  lemma CandidateGap(year: int, free: set<Day>, bs: seq<Block>, work: set<Day>, j: nat,
                     cutoff: Option<Day>, priority: int)
    requires Segmented(year, free, bs, work) && j + 1 < |bs|
    requires Candidate(year, bs, j, work, cutoff, priority).Some?
    ensures
      var b := Candidate(year, bs, j, work, cutoff, priority).value;
      && b.gapLength >= 1
      && (forall d :: d in b.gapDays ==> d in work)
      && (cutoff.Some? ==> b.gapDays[0] > cutoff.value)
      && b.totalBlockLength == bs[j + 1].end - bs[j].start + 1
  {
    CandidateWholeGap(year, free, bs, work, j, cutoff, priority);
    GapIsWorkdays(year, free, bs, work, j);
    var b := Candidate(year, bs, j, work, cutoff, priority).value;
    DatesBetweenMembers(bs[j].end, bs[j + 1].start);
    assert b.gapDays[0] == bs[j].end + 1;
  }

  /** The score of a bridge of that situation exceeds 1 and carries the
      bonus exactly when the middle gap day lies in the priority quarter. */
  lemma CandidateScore(year: int, free: set<Day>, bs: seq<Block>, work: set<Day>, j: nat,
                       cutoff: Option<Day>, priority: int)
    requires Segmented(year, free, bs, work) && j + 1 < |bs|
    requires Candidate(year, bs, j, work, cutoff, priority).Some?
    ensures
      var b := Candidate(year, bs, j, work, cutoff, priority).value;
      && b.score > 1.0
      && b.score == (if priority > 0 && QuarterOfDay(year, b.gapDays[b.gapLength / 2]) == priority
                     then QuarterBonus * (b.totalBlockLength as real / b.gapLength as real)
                     else b.totalBlockLength as real / b.gapLength as real)
  {
    CandidateWholeGap(year, free, bs, work, j, cutoff, priority);
    var gap := Candidate(year, bs, j, work, cutoff, priority).value.gapDays;
    assert bs[j].length >= 1 && bs[j + 1].length >= 1;
    ScoredScore(year, bs[j], bs[j + 1], gap, priority);
  }

  /** A scored bridge whose blocks are not empty scores above 1; the bonus
      multiplies the days-per-leave-day ratio. */
  lemma ScoredScore(year: int, before: Block, after: Block, gap: seq<Day>, priority: int)
    requires |gap| > 0 && 0 <= gap[|gap| / 2] < DaysInYear(year)
    requires before.length >= 1 && after.length >= 1
    ensures
      var b := Scored(year, before, after, gap, priority);
      && b.score > 1.0
      && b.score == (if priority > 0 && QuarterOfDay(year, b.gapDays[b.gapLength / 2]) == priority
                     then QuarterBonus * (b.totalBlockLength as real / b.gapLength as real)
                     else b.totalBlockLength as real / b.gapLength as real)
  {
    var b := Scored(year, before, after, gap, priority);
    var total := before.length + |gap| + after.length;
    var base := total as real / |gap| as real;
    assert b.totalBlockLength == total && b.gapLength == |gap| && b.gapDays == gap;
    RatioAboveOne(total as real, |gap| as real);
  }

  lemma RatioAboveOne(a: real, b: real)
    requires 0.0 < b < a
    ensures a / b > 1.0
  {
    var q := a / b;
    assert q * b == a;
    assert (q - 1.0) * b == a - b;
  }

  // ---------------------------------------------------------------------------
  // Greedy selection

  /** A bridge as step 1 builds it: a non-empty ascending gap whose length is
      recorded in gapLength. */
  ghost predicate WellFormedBridge(b: Bridge) {
    b.gapLength == |b.gapDays| >= 1 && StrictlyIncreasing(b.gapDays)
  }

  /** `gapDays.some(day => selected.has(day))`. */
  predicate AnyTaken(gapDays: seq<Day>, selected: set<Day>) {
    exists k :: 0 <= k < |gapDays| && gapDays[k] in selected
  }

  /** The bridge's first leave day is before the cutoff. */
  predicate StartsBeforeCutoff(b: Bridge, cutoff: Option<Day>) {
    cutoff.Some? && |b.gapDays| > 0 && b.gapDays[0] < cutoff.value
  }

  /** Every day of the bridge's gap has been selected. */
  ghost predicate WhollySelected(b: Bridge, selected: set<Day>) {
    GapSet(b) <= selected
  }

  /** Every selected day lies in one of the first n bridges, which is wholly
      selected and does not start before the cutoff. */
  ghost predicate Justified(bridges: seq<Bridge>, n: nat, selected: set<Day>, cutoff: Option<Day>)
    requires n <= |bridges|
  {
    forall d :: d in selected ==>
      exists j :: 0 <= j < n && d in bridges[j].gapDays
        && WhollySelected(bridges[j], selected) && !StartsBeforeCutoff(bridges[j], cutoff)
  }

  /** Each of the first n bridges overlaps the selection, starts before the
      cutoff, or is longer than the budget left. */
  predicate Explained(bridges: seq<Bridge>, n: nat, selected: set<Day>, remaining: int, cutoff: Option<Day>)
    requires n <= |bridges|
  {
    forall j :: 0 <= j < n ==>
      AnyTaken(bridges[j].gapDays, selected) || StartsBeforeCutoff(bridges[j], cutoff)
      || bridges[j].gapLength > remaining
  }

  /** The state after one turn of step 3's loop on bridge b: b is taken
      whole when it fits the leave left, does not start before the cutoff
      and shares no day with the selection; otherwise nothing changes. */
  function Turn(b: Bridge, selected: set<Day>, remaining: int, cutoff: Option<Day>): (set<Day>, int) {
    if b.gapLength <= remaining && !StartsBeforeCutoff(b, cutoff) && !AnyTaken(b.gapDays, selected)
    then (selected + GapSet(b), remaining - b.gapLength)
    else (selected, remaining)
  }

  /** A bridge that fits but starts before the cutoff: the source's
      `continue`, which also skips the used-up test of that turn. */
  predicate Continues(b: Bridge, remaining: int, cutoff: Option<Day>) {
    b.gapLength <= remaining && StartsBeforeCutoff(b, cutoff)
  }

  /** Step 3's loop from the given state: one turn per bridge, in list
      order, stopping after a turn that leaves no leave (`break`). */
  function TakeFrom(bridges: seq<Bridge>, selected: set<Day>, remaining: int, cutoff: Option<Day>): (set<Day>, int)
    decreases |bridges|
  {
    if bridges == [] then (selected, remaining)
    else
      var next := Turn(bridges[0], selected, remaining, cutoff);
      if next.1 == 0 && !Continues(bridges[0], remaining, cutoff) then next
      else TakeFrom(bridges[1..], next.0, next.1, cutoff)
  }

  /** Step 3 from no selected day and the whole budget: the selected days
      and the leave left. */
  function TakeInOrder(bridges: seq<Bridge>, budget: int, cutoff: Option<Day>): (set<Day>, int) {
    TakeFrom(bridges, {}, budget, cutoff)
  }

  /** The turns only ever add days to the selection. */
  lemma {:induction false} TakeFromKeeps(bridges: seq<Bridge>, selected: set<Day>, remaining: int, cutoff: Option<Day>)
    ensures selected <= TakeFrom(bridges, selected, remaining, cutoff).0
    decreases |bridges|
  {
    if bridges != [] {
      var next := Turn(bridges[0], selected, remaining, cutoff);
      if !(next.1 == 0 && !Continues(bridges[0], remaining, cutoff)) {
        TakeFromKeeps(bridges[1..], next.0, next.1, cutoff);
      }
    }
  }

  /** Step 3 of calculateOptimalLeave: takes the bridges in the given order,
      each one whole, when it fits the remaining budget, none of its days is
      taken yet and it does not start before the cutoff; stops when the
      budget is used up.  The outcome is TakeInOrder; besides, the budget
      accounting is exact, every selected day belongs to a wholly selected
      bridge that does not start before the cutoff, and every bridge left
      out overlaps the selection, starts before the cutoff, or is longer
      than the budget left. */
  method SelectBridges(bridges: seq<Bridge>, budget: int, cutoff: Option<Day>)
    returns (selected: set<Day>, remaining: int)
    requires budget >= 0
    requires forall i :: 0 <= i < |bridges| ==> WellFormedBridge(bridges[i])
    ensures (selected, remaining) == TakeInOrder(bridges, budget, cutoff)
    ensures 0 <= remaining <= budget
    ensures |selected| == budget - remaining
    ensures Justified(bridges, |bridges|, selected, cutoff)
    ensures Explained(bridges, |bridges|, selected, remaining, cutoff)
  {
    selected := {};
    remaining := budget;
    var i := 0;
    assert bridges[i..] == bridges;
    while i < |bridges|
      invariant 0 <= i <= |bridges|
      invariant TakeFrom(bridges[i..], selected, remaining, cutoff) == TakeInOrder(bridges, budget, cutoff)
      invariant 0 <= remaining <= budget
      invariant |selected| == budget - remaining
      invariant Justified(bridges, i, selected, cutoff)
      invariant Explained(bridges, i, selected, remaining, cutoff)
    {
      ghost var rest := bridges[i..];
      assert rest[0] == bridges[i] && rest[1..] == bridges[i + 1..];
      selected, remaining := ConsiderBridge(bridges, i, selected, remaining, cutoff);
      i := i + 1;
      if remaining == 0 {
        Exhausted(bridges, i, selected, cutoff);
        break;
      }
    }
    assert i == |bridges| ==> bridges[i..] == [];
    JustifiedMore(bridges, i, |bridges|, selected, cutoff);
  }

  /** One turn of step 3's loop: bridge i is taken when it fits the budget
      left, none of its days is taken yet and its first day is not before
      the cutoff; otherwise it is passed over.  (The source's `continue` for
      a bridge starting before the cutoff also skips the used-up test, which
      cannot fire there: the budget left is at least the bridge's length.) */
  method ConsiderBridge(bridges: seq<Bridge>, i: nat, selected: set<Day>, remaining: int, cutoff: Option<Day>)
    returns (selected': set<Day>, remaining': int)
    requires i < |bridges| && WellFormedBridge(bridges[i]) && 0 <= remaining
    requires Justified(bridges, i, selected, cutoff) && Explained(bridges, i, selected, remaining, cutoff)
    ensures (selected', remaining') == Turn(bridges[i], selected, remaining, cutoff)
    ensures Continues(bridges[i], remaining, cutoff) ==> remaining' != 0
    ensures 0 <= remaining' <= remaining && |selected'| == |selected| + (remaining - remaining')
    ensures Justified(bridges, i + 1, selected', cutoff)
    ensures Explained(bridges, i + 1, selected', remaining', cutoff)
  {
    var bridge := bridges[i];
    selected', remaining' := selected, remaining;
    if bridge.gapLength <= remaining {
      var alreadyTaken := AnyTaken(bridge.gapDays, selected);
      var firstLeaveDay := bridge.gapDays[0];
      if cutoff.Some? && firstLeaveDay < cutoff.value {
        Skip(bridges, i, selected, remaining, cutoff);
        return;
      }
      if !alreadyTaken {
        TakeKeeps(bridges, i, selected, remaining, cutoff);
        selected' := selected + GapSet(bridge);
        remaining' := remaining - bridge.gapLength;
      } else {
        Skip(bridges, i, selected, remaining, cutoff);
      }
    } else {
      Skip(bridges, i, selected, remaining, cutoff);
    }
  }

  /** A bridge that is passed over keeps both invariants. */
  lemma Skip(bridges: seq<Bridge>, i: nat, selected: set<Day>, remaining: int, cutoff: Option<Day>)
    requires i < |bridges|
    requires AnyTaken(bridges[i].gapDays, selected) || StartsBeforeCutoff(bridges[i], cutoff)
             || bridges[i].gapLength > remaining
    requires Justified(bridges, i, selected, cutoff) && Explained(bridges, i, selected, remaining, cutoff)
    ensures Justified(bridges, i + 1, selected, cutoff) && Explained(bridges, i + 1, selected, remaining, cutoff)
  {
    JustifiedMore(bridges, i, i + 1, selected, cutoff);
  }

  lemma JustifiedMore(bridges: seq<Bridge>, n: nat, m: nat, selected: set<Day>, cutoff: Option<Day>)
    requires n <= m <= |bridges| && Justified(bridges, n, selected, cutoff)
    ensures Justified(bridges, m, selected, cutoff)
  {
    forall d | d in selected
      ensures exists j :: 0 <= j < m && d in bridges[j].gapDays
                          && WhollySelected(bridges[j], selected) && !StartsBeforeCutoff(bridges[j], cutoff)
    {
      var j :| 0 <= j < n && d in bridges[j].gapDays
        && WhollySelected(bridges[j], selected) && !StartsBeforeCutoff(bridges[j], cutoff);
    }
  }

  /** Taking a bridge that fits, overlaps nothing and does not start before
      the cutoff keeps both invariants. */
  lemma TakeKeeps(bridges: seq<Bridge>, i: nat, selected: set<Day>, remaining: int, cutoff: Option<Day>)
    requires i < |bridges| && WellFormedBridge(bridges[i])
    requires !AnyTaken(bridges[i].gapDays, selected) && !StartsBeforeCutoff(bridges[i], cutoff)
    requires bridges[i].gapLength <= remaining
    requires Justified(bridges, i, selected, cutoff) && Explained(bridges, i, selected, remaining, cutoff)
    ensures |selected + GapSet(bridges[i])| == |selected| + bridges[i].gapLength
    ensures var grown := selected + GapSet(bridges[i]);
      Justified(bridges, i + 1, grown, cutoff)
      && Explained(bridges, i + 1, grown, remaining - bridges[i].gapLength, cutoff)
  {
    var b := bridges[i];
    var grown := selected + GapSet(b);
    Take(selected, b);
    forall d | d in grown
      ensures exists j :: 0 <= j < i + 1 && d in bridges[j].gapDays
                          && WhollySelected(bridges[j], grown) && !StartsBeforeCutoff(bridges[j], cutoff)
    {
      if d in selected {
        var j :| 0 <= j < i && d in bridges[j].gapDays
          && WhollySelected(bridges[j], selected) && !StartsBeforeCutoff(bridges[j], cutoff);
        assert WhollySelected(bridges[j], grown);
      } else {
        assert d in b.gapDays;
      }
    }
    forall j | 0 <= j < i + 1
      ensures AnyTaken(bridges[j].gapDays, grown) || StartsBeforeCutoff(bridges[j], cutoff)
              || bridges[j].gapLength > remaining - b.gapLength
    {
      if j < i && AnyTaken(bridges[j].gapDays, selected) {
        var k :| 0 <= k < |bridges[j].gapDays| && bridges[j].gapDays[k] in selected;
        assert bridges[j].gapDays[k] in grown;
      }
    }
  }

  /** Once the budget is used up, every bridge is longer than what is left. */
  lemma Exhausted(bridges: seq<Bridge>, i: nat, selected: set<Day>, cutoff: Option<Day>)
    requires i <= |bridges| && Explained(bridges, i, selected, 0, cutoff)
    requires forall j :: 0 <= j < |bridges| ==> WellFormedBridge(bridges[j])
    ensures Explained(bridges, |bridges|, selected, 0, cutoff)
  {
  }

  /** The days of a bridge's gap, as a set. */
  function GapSet(b: Bridge): set<Day> {
    set d | d in b.gapDays
  }

  /** Adding a bridge none of whose days is selected yet adds gapLength days,
      selects the bridge wholly and keeps every wholly selected bridge so. */
  lemma Take(selected: set<Day>, b: Bridge)
    requires WellFormedBridge(b) && !AnyTaken(b.gapDays, selected)
    ensures |selected + GapSet(b)| == |selected| + b.gapLength
    ensures WhollySelected(b, selected + GapSet(b))
    ensures AnyTaken(b.gapDays, selected + GapSet(b))
  {
    var days := GapSet(b);
    DistinctCount(b.gapDays);
    assert forall d :: d in days ==> d !in selected;
    assert selected * days == {} by {
      assert forall d :: d in selected * days <==> d in {};
    }
    assert b.gapDays[0] in days;
  }

  // ---------------------------------------------------------------------------
  // The bridges of a year

  /** What every bridge of the situation calculateOptimalLeave builds
      satisfies: its gap is all the days between its two blocks, at least
      one, each a workday, and its first block does not end before the
      cutoff. */
  ghost predicate GapBridge(b: Bridge, work: set<Day>, cutoff: Option<Day>) {
    && b.gapLength == |b.gapDays| >= 1
    && b.gapDays == DatesBetween(b.blockBefore.end, b.blockAfter.start)
    && (forall k :: 0 <= k < |b.gapDays| ==> b.gapDays[k] in work)
    && (cutoff.Some? ==> b.blockBefore.end >= cutoff.value)
  }

  /** The bridges of the first n pairs are gap bridges. */
  lemma CandidatesAreGapBridges(year: int, free: set<Day>, bs: seq<Block>, work: set<Day>,
                                cutoff: Option<Day>, priority: int, n: nat)
    requires Segmented(year, free, bs, work) && n < |bs|
    ensures forall k :: 0 <= k < |Candidates(year, bs, work, cutoff, priority, n)| ==>
      GapBridge(Candidates(year, bs, work, cutoff, priority, n)[k], work, cutoff)
  {
    forall j: nat | j + 1 < |bs| && Candidate(year, bs, j, work, cutoff, priority).Some?
      ensures GapBridge(Candidate(year, bs, j, work, cutoff, priority).value, work, cutoff)
    {
      NewCandidateIsGapBridge(year, free, bs, work, cutoff, priority, j);
    }
    CandidatesKeep(year, bs, work, cutoff, priority, n);
  }

  /** When every pair's bridge is a gap bridge, so is every listed one. */
  lemma {:induction false} CandidatesKeep(year: int, bs: seq<Block>, work: set<Day>,
                                           cutoff: Option<Day>, priority: int, n: nat)
    requires BlocksWithin(bs, DaysInYear(year)) && n < |bs|
    requires forall j: nat :: j + 1 < |bs| && Candidate(year, bs, j, work, cutoff, priority).Some? ==>
      GapBridge(Candidate(year, bs, j, work, cutoff, priority).value, work, cutoff)
    ensures forall k :: 0 <= k < |Candidates(year, bs, work, cutoff, priority, n)| ==>
      GapBridge(Candidates(year, bs, work, cutoff, priority, n)[k], work, cutoff)
  {
    if n > 0 {
      var prev := Candidates(year, bs, work, cutoff, priority, n - 1);
      var c := Candidate(year, bs, n - 1, work, cutoff, priority);
      CandidatesKeep(year, bs, work, cutoff, priority, n - 1);
      var cs := prev + Listed(c);
      assert Candidates(year, bs, work, cutoff, priority, n) == cs;
      forall k | 0 <= k < |cs| ensures GapBridge(cs[k], work, cutoff) {
        if k < |prev| {
          assert cs[k] == prev[k];
        } else {
          assert cs[k] == c.value;
        }
      }
    }
  }

  lemma NewCandidateIsGapBridge(year: int, free: set<Day>, bs: seq<Block>, work: set<Day>,
                                cutoff: Option<Day>, priority: int, j: nat)
    requires Segmented(year, free, bs, work) && j + 1 < |bs|
    requires Candidate(year, bs, j, work, cutoff, priority).Some?
    ensures GapBridge(Candidate(year, bs, j, work, cutoff, priority).value, work, cutoff)
    ensures Candidate(year, bs, j, work, cutoff, priority).value.blockBefore == bs[j]
    ensures Candidate(year, bs, j, work, cutoff, priority).value.blockAfter == bs[j + 1]
  {
    var b := Candidate(year, bs, j, work, cutoff, priority).value;
    CandidateWholeGap(year, free, bs, work, j, cutoff, priority);
    GapIsWorkdays(year, free, bs, work, j);
    forall k | 0 <= k < |b.gapDays| ensures b.gapDays[k] in work {
      assert b.gapDays[k] == bs[j].end + 1 + k;
    }
  }

  /** The bridge between blocks j and j + 1 joins exactly those blocks. */
  lemma CandidateBlocks(year: int, bs: seq<Block>, j: nat, work: set<Day>, cutoff: Option<Day>,
                        priority: int)
    requires j + 1 < |bs| && BlocksWithin(bs, DaysInYear(year))
    requires Candidate(year, bs, j, work, cutoff, priority).Some?
    ensures Candidate(year, bs, j, work, cutoff, priority).value.blockBefore == bs[j]
    ensures Candidate(year, bs, j, work, cutoff, priority).value.blockAfter == bs[j + 1]
  {
  }

  /** The bridges of the first n pairs join blocks that start no later
      than block n. */
  lemma {:induction false} CandidatesBounded(year: int, bs: seq<Block>, work: set<Day>,
                                              cutoff: Option<Day>, priority: int, n: nat)
    requires ValidBlocks(bs) && BlocksWithin(bs, DaysInYear(year)) && n < |bs|
    ensures forall k :: 0 <= k < |Candidates(year, bs, work, cutoff, priority, n)| ==>
      Candidates(year, bs, work, cutoff, priority, n)[k].blockAfter.start <= bs[n].start
  {
    if n > 0 {
      var prev := Candidates(year, bs, work, cutoff, priority, n - 1);
      var c := Candidate(year, bs, n - 1, work, cutoff, priority);
      CandidatesBounded(year, bs, work, cutoff, priority, n - 1);
      assert bs[n - 1].start < bs[n].start;
      var cs := prev + Listed(c);
      assert Candidates(year, bs, work, cutoff, priority, n) == cs;
      if c.Some? {
        CandidateBlocks(year, bs, n - 1, work, cutoff, priority);
      }
      forall k | 0 <= k < |cs| ensures cs[k].blockAfter.start <= bs[n].start {
        if k < |prev| {
          assert cs[k] == prev[k];
        } else {
          assert cs[k] == c.value;
        }
      }
    }
  }

  /** The bridges are listed in block order: each one's second block starts
      no later than the next one's first block ends. */
  lemma {:induction false} CandidatesInOrder(year: int, bs: seq<Block>, work: set<Day>,
                                              cutoff: Option<Day>, priority: int, n: nat)
    requires ValidBlocks(bs) && BlocksWithin(bs, DaysInYear(year)) && n < |bs|
    ensures forall k, k' :: 0 <= k < k' < |Candidates(year, bs, work, cutoff, priority, n)| ==>
      Candidates(year, bs, work, cutoff, priority, n)[k].blockAfter.start
        <= Candidates(year, bs, work, cutoff, priority, n)[k'].blockBefore.end
  {
    if n > 0 {
      var prev := Candidates(year, bs, work, cutoff, priority, n - 1);
      var c := Candidate(year, bs, n - 1, work, cutoff, priority);
      CandidatesInOrder(year, bs, work, cutoff, priority, n - 1);
      var cs := prev + Listed(c);
      assert Candidates(year, bs, work, cutoff, priority, n) == cs;
      if c.Some? {
        CandidatesBounded(year, bs, work, cutoff, priority, n - 1);
        CandidateBlocks(year, bs, n - 1, work, cutoff, priority);
        assert bs[n - 1].start <= bs[n - 1].end;
        forall k, k' | 0 <= k < k' < |cs| ensures cs[k].blockAfter.start <= cs[k'].blockBefore.end {
          if k' == |prev| {
            assert cs[k] == prev[k] && cs[k'] == c.value;
          } else {
            assert cs[k] == prev[k] && cs[k'] == prev[k'];
          }
        }
      }
    }
  }

  /** Two different bridges of the year never share a day, so the
      already-taken test of the greedy pass never rejects one. */
  lemma CandidateGapsDisjoint(year: int, free: set<Day>, bs: seq<Block>, work: set<Day>,
                              cutoff: Option<Day>, priority: int, n: nat)
    requires Segmented(year, free, bs, work) && n < |bs|
    ensures var cs := Candidates(year, bs, work, cutoff, priority, n);
      forall k, k', d :: 0 <= k < k' < |cs| && d in cs[k].gapDays ==> d !in cs[k'].gapDays
  {
    var cs := Candidates(year, bs, work, cutoff, priority, n);
    CandidatesAreGapBridges(year, free, bs, work, cutoff, priority, n);
    CandidatesInOrder(year, bs, work, cutoff, priority, n);
    forall k, k', d | 0 <= k < k' < |cs| && d in cs[k].gapDays ensures d !in cs[k'].gapDays {
      DatesBetweenMembers(cs[k].blockBefore.end, cs[k].blockAfter.start);
      DatesBetweenMembers(cs[k'].blockBefore.end, cs[k'].blockAfter.start);
    }
  }

  // ---------------------------------------------------------------------------
  // calculateOptimalLeave

  /** `holidays.filter(h => h.date >= cutoff)`, keeping the order. */
  function OnOrAfter(holidays: seq<Holiday>, cutoff: Day): (r: seq<Holiday>)
    ensures |r| <= |holidays|
    ensures forall i :: 0 <= i < |r| ==> r[i] in holidays && r[i].date >= cutoff
    ensures forall i :: 0 <= i < |holidays| && holidays[i].date >= cutoff ==> holidays[i] in r
  {
    if holidays == [] then []
    else
      var rest := OnOrAfter(holidays[1..], cutoff);
      assert forall i :: 1 <= i < |holidays| ==> holidays[i] == holidays[1..][i - 1];
      if holidays[0].date >= cutoff then [holidays[0]] + rest else rest
  }

  /** The filter keeps every holiday on or after the cutoff as often as it
      occurs, and no other. */
  lemma {:induction false} OnOrAfterCounts(holidays: seq<Holiday>, cutoff: Day)
    ensures forall h :: multiset(OnOrAfter(holidays, cutoff))[h] ==
                         (if h.date >= cutoff then multiset(holidays)[h] else 0)
  {
    if holidays != [] {
      OnOrAfterCounts(holidays[1..], cutoff);
      assert holidays == [holidays[0]] + holidays[1..];
    }
  }

  /** Filtering a list with one more holiday at the end filters the list
      and appends that holiday if it is on or after the cutoff: the filter
      keeps the order of the list. */
  lemma {:induction false} OnOrAfterAppend(holidays: seq<Holiday>, h: Holiday, cutoff: Day)
    ensures OnOrAfter(holidays + [h], cutoff) ==
      OnOrAfter(holidays, cutoff) + (if h.date >= cutoff then [h] else [])
  {
    if holidays == [] {
      assert holidays + [h] == [h];
    } else {
      assert (holidays + [h])[1..] == holidays[1..] + [h];
      OnOrAfterAppend(holidays[1..], h, cutoff);
    }
  }

  /** The holidays the bridge finder works with: with a cutoff, only those on
      or after it. */
  function Effective(holidays: seq<Holiday>, cutoff: Option<Day>): seq<Holiday> {
    if cutoff.Some? then OnOrAfter(holidays, cutoff.value) else holidays
  }

  /** The free blocks of the year for a holiday list. */
  ghost function PlanBlocks(year: int, holidays: seq<Holiday>): seq<Block> {
    Blocks(SortedSeq(FreeDays(year, holidays)))
  }

  /** The free days, their blocks and the workdays of a year are in the
      situation the candidate lemmas describe. */
  lemma PlanSegmented(year: int, holidays: seq<Holiday>)
    ensures Segmented(year, FreeDays(year, holidays), PlanBlocks(year, holidays),
                      WorkdaySet(year, FreeDays(year, holidays)))
  {
    var free := FreeDays(year, holidays);
    var xs := SortedSeq(free);
    SortedSeqFacts(free);
    BlocksValid(xs);
    BlocksCover(xs);
    BlocksOfYear(Blocks(xs), free, DaysInYear(year));
  }

  /** The bridges of the year, in block order, for a holiday list. */
  ghost function PlanBridges(year: int, holidays: seq<Holiday>, cutoff: Option<Day>, priority: int): seq<Bridge> {
    PlanSegmented(year, holidays);
    var bs := PlanBlocks(year, holidays);
    Candidates(year, bs, WorkdaySet(year, FreeDays(year, holidays)), cutoff, priority, Pairs(bs))
  }

  /** A workday of the year with respect to the full holiday list. */
  ghost predicate IsWorkday(year: int, holidays: seq<Holiday>, d: Day) {
    0 <= d < DaysInYear(year) && !IsFree(year, holidays, d)
  }

  /** A day after the cutoff that is a workday once the past holidays are
      dropped is a workday for the full holiday list too: the dropped
      holidays all lie before the cutoff. */
  lemma WorkdayForAllHolidays(year: int, holidays: seq<Holiday>, cutoff: Option<Day>, d: Day)
    requires d in WorkdaySet(year, FreeDays(year, Effective(holidays, cutoff)))
    requires cutoff.Some? ==> d > cutoff.value
    ensures IsWorkday(year, holidays, d)
  {
  }

  /** The bridges of the year: each is well formed, does not start before
      the cutoff, and consists of workdays of the full holiday list that lie
      after the cutoff. */
  lemma PlanBridgeFacts(year: int, holidays: seq<Holiday>, cutoff: Option<Day>, priority: int)
    ensures var cs := PlanBridges(year, Effective(holidays, cutoff), cutoff, priority);
      forall k :: 0 <= k < |cs| ==>
        && WellFormedBridge(cs[k]) && !StartsBeforeCutoff(cs[k], cutoff)
        && (forall j :: 0 <= j < |cs[k].gapDays| ==>
              cs[k].gapDays[j] in WorkdaySet(year, FreeDays(year, Effective(holidays, cutoff)))
              && IsWorkday(year, holidays, cs[k].gapDays[j])
              && (cutoff.Some? ==> cs[k].gapDays[j] > cutoff.value))
  {
    var eff := Effective(holidays, cutoff);
    var free := FreeDays(year, eff);
    var work := WorkdaySet(year, free);
    var bs := PlanBlocks(year, eff);
    PlanSegmented(year, eff);
    var cs := PlanBridges(year, eff, cutoff, priority);
    if |bs| > 0 {
      CandidatesAreGapBridges(year, free, bs, work, cutoff, priority, Pairs(bs));
    }
    forall k | 0 <= k < |cs|
      ensures WellFormedBridge(cs[k]) && !StartsBeforeCutoff(cs[k], cutoff)
      ensures forall j :: 0 <= j < |cs[k].gapDays| ==>
              cs[k].gapDays[j] in work && IsWorkday(year, holidays, cs[k].gapDays[j])
              && (cutoff.Some? ==> cs[k].gapDays[j] > cutoff.value)
    {
      var b := cs[k];
      DatesBetweenMembers(b.blockBefore.end, b.blockAfter.start);
      forall j | 0 <= j < |b.gapDays|
        ensures b.gapDays[j] in work && IsWorkday(year, holidays, b.gapDays[j])
        ensures cutoff.Some? ==> b.gapDays[j] > cutoff.value
      {
        assert b.gapDays[j] == b.blockBefore.end + 1 + j;
        WorkdayForAllHolidays(year, holidays, cutoff, b.gapDays[j]);
      }
    }
  }

  /** Days drawn from the bridges of the year are workdays of the full
      holiday list after the cutoff. */
  lemma PlanResultDays(year: int, holidays: seq<Holiday>, cutoff: Option<Day>, priority: int, r: seq<Day>)
    requires TakenWhole(PlanBridges(year, Effective(holidays, cutoff), cutoff, priority), r)
    ensures forall i :: 0 <= i < |r| ==>
      IsWorkday(year, holidays, r[i]) && (cutoff.Some? ==> r[i] > cutoff.value)
  {
    var cs := PlanBridges(year, Effective(holidays, cutoff), cutoff, priority);
    PlanBridgeFacts(year, holidays, cutoff, priority);
    forall i | 0 <= i < |r| ensures IsWorkday(year, holidays, r[i]) && (cutoff.Some? ==> r[i] > cutoff.value) {
      var k :| 0 <= k < |cs| && r[i] in cs[k].gapDays;
      var t :| 0 <= t < |cs[k].gapDays| && cs[k].gapDays[t] == r[i];
    }
  }

  /** Every day of the bridge's gap is in the list. */
  ghost predicate WhollyIn(b: Bridge, r: seq<Day>) {
    forall k :: 0 <= k < |b.gapDays| ==> b.gapDays[k] in r
  }

  /** Some day of the bridge's gap is in the list. */
  predicate Overlaps(b: Bridge, r: seq<Day>) {
    exists k :: 0 <= k < |b.gapDays| && b.gapDays[k] in r
  }

  /** Each day of the list lies in one of the bridges, and that bridge's
      days are all in the list. */
  ghost predicate TakenWhole(bridges: seq<Bridge>, r: seq<Day>) {
    forall i :: 0 <= i < |r| ==>
      exists k :: 0 <= k < |bridges| && r[i] in bridges[k].gapDays && WhollyIn(bridges[k], r)
  }

  /** Each bridge shares a day with the list or needs more than `left` days. */
  predicate LeftOutExplained(bridges: seq<Bridge>, r: seq<Day>, left: int) {
    forall k :: 0 <= k < |bridges| ==> Overlaps(bridges[k], r) || bridges[k].gapLength > left
  }

  /** What the greedy pass guarantees about the sorted bridges holds for the
      bridges in block order, read on the sorted list of selected days. */
  lemma SelectionOfBridges(bridges: seq<Bridge>, sorted: seq<Bridge>, selected: set<Day>,
                           remaining: int, cutoff: Option<Day>, r: seq<Day>)
    requires multiset(sorted) == multiset(bridges)
    requires forall j :: 0 <= j < |r| ==> r[j] in selected
    requires forall x :: x in selected ==> x in r
    requires forall k :: 0 <= k < |bridges| ==> !StartsBeforeCutoff(bridges[k], cutoff)
    requires Justified(sorted, |sorted|, selected, cutoff)
    requires Explained(sorted, |sorted|, selected, remaining, cutoff)
    ensures TakenWhole(bridges, r)
    ensures LeftOutExplained(bridges, r, remaining)
  {
    forall j | 0 <= j < |r|
      ensures exists k :: 0 <= k < |bridges| && r[j] in bridges[k].gapDays && WhollyIn(bridges[k], r)
    {
      var d := r[j];
      assert d in selected;
      assert exists i :: 0 <= i < |sorted| && d in sorted[i].gapDays && WhollySelected(sorted[i], selected);
      var i :| 0 <= i < |sorted| && r[j] in sorted[i].gapDays && WhollySelected(sorted[i], selected);
      assert sorted[i] in multiset(bridges);
      var k :| 0 <= k < |bridges| && bridges[k] == sorted[i];
      forall t | 0 <= t < |bridges[k].gapDays| ensures bridges[k].gapDays[t] in r {
        var x := sorted[i].gapDays[t];
        assert x in GapSet(sorted[i]);
        assert x in r;
      }
    }
    forall k | 0 <= k < |bridges| ensures Overlaps(bridges[k], r) || bridges[k].gapLength > remaining {
      assert bridges[k] in multiset(sorted);
      var i :| 0 <= i < |sorted| && sorted[i] == bridges[k];
      if AnyTaken(sorted[i].gapDays, selected) {
        var t :| 0 <= t < |sorted[i].gapDays| && sorted[i].gapDays[t] in selected;
        var x := sorted[i].gapDays[t];
        assert x in r;
        assert Overlaps(bridges[k], r);
      }
    }
  }

  /** Step 1 of calculateOptimalLeave with its preparation: the free days
      of the year, their blocks and the workdays, then the scored bridges;
      none when there are fewer than two blocks. */
  method BridgesOfYear(year: int, holidays: seq<Holiday>, cutoff: Option<Day>, priority: int)
    returns (bridges: seq<Bridge>)
    ensures bridges == PlanBridges(year, holidays, cutoff, priority)
  {
    PlanSegmented(year, holidays);
    var free := GetAllFreeDays(year, holidays);
    var blocks := FindFreeBlocks(free);
    var workdays := GetWorkdays(year, free);
    var workdaySet := set d | d in workdays;
    assert workdaySet == WorkdaySet(year, free) by {
      assert forall d :: d in workdaySet <==> d in WorkdaySet(year, free);
    }
    if |blocks| < 2 {
      return [];
    }
    bridges := PotentialBridges(year, blocks, workdaySet, cutoff, priority);
  }

  /** calculateOptimalLeave: nothing without leave or without holidays (after
      dropping those before the cutoff) or with fewer than two free blocks;
      otherwise the scored bridges are sorted best first and taken greedily,
      and the selected days are returned in ascending order.  The result
      never exceeds the budget; each day is a workday of the full holiday
      list after the cutoff and belongs to a bridge of the year that is
      taken whole; and a bridge left out overlaps the selection or is longer
      than the leave that was left. */
  method CalculateOptimalLeave(holidays: seq<Holiday>, budget: int, year: int, priority: int,
                               cutoff: Option<Day>) returns (r: seq<Day>)
    ensures budget <= 0 || Effective(holidays, cutoff) == [] ==> r == []
    ensures StrictlyIncreasing(r)
    ensures budget > 0 ==> |r| <= budget
    ensures forall i :: 0 <= i < |r| ==>
      IsWorkday(year, holidays, r[i]) && (cutoff.Some? ==> r[i] > cutoff.value)
    ensures TakenWhole(PlanBridges(year, Effective(holidays, cutoff), cutoff, priority), r)
    ensures budget > 0 && Effective(holidays, cutoff) != [] ==>
      LeftOutExplained(PlanBridges(year, Effective(holidays, cutoff), cutoff, priority), r, budget - |r|)
    ensures budget > 0 && Effective(holidays, cutoff) != [] ==>
      r == GreedyLeave(PlanBridges(year, Effective(holidays, cutoff), cutoff, priority), budget, cutoff)
  {
    if budget <= 0 {
      return [];
    }
    var effectiveHolidays := holidays;
    if cutoff.Some? {
      effectiveHolidays := OnOrAfter(holidays, cutoff.value);
    }
    if |effectiveHolidays| == 0 {
      return [];
    }
    assert effectiveHolidays == Effective(holidays, cutoff);
    var bridges := BridgesOfYear(year, effectiveHolidays, cutoff, priority);
    if |bridges| == 0 {
      assert Ranked(bridges) == [] && GreedyLeave(bridges, budget, cutoff) == SortedSeq({});
      return [];
    }
    assert forall k :: 0 <= k < |bridges| ==>
      WellFormedBridge(bridges[k]) && !StartsBeforeCutoff(bridges[k], cutoff) by {
      PlanBridgeFacts(year, holidays, cutoff, priority);
    }
    r := PlanLeave(bridges, budget, cutoff);
    PlanResultDays(year, holidays, cutoff, priority, r);
  }

  /** Step 2 of calculateOptimalLeave: the bridges sorted by score, highest
      first, and among equal scores by gap length, shortest first. */
  function Ranked(bridges: seq<Bridge>): (ranked: seq<Bridge>)
    ensures multiset(ranked) == multiset(bridges)
  {
    SortByKeys(bridges, (b: Bridge) => b.score, (b: Bridge) => b.gapLength)
  }

  /** The ranking is the comparator of step 2: a bridge stands before
      another only with a higher score, or with the same score and a gap
      no longer. */
  lemma RankedOrder(bridges: seq<Bridge>)
    ensures var ranked := Ranked(bridges);
      forall i, j :: 0 <= i < j < |ranked| ==>
        ranked[i].score > ranked[j].score
        || (ranked[i].score == ranked[j].score && ranked[i].gapLength <= ranked[j].gapLength)
  {
  }

  /** What steps 2 and 3 and the final sort return for a list of bridges:
      the days the greedy pass takes over the ranked bridges, ascending. */
  ghost function GreedyLeave(bridges: seq<Bridge>, budget: int, cutoff: Option<Day>): seq<Day> {
    SortedSeq(TakeInOrder(Ranked(bridges), budget, cutoff).0)
  }

  /** The bridge ranked first scores at least as high as every bridge, and
      it is taken whole whenever it fits the budget and does not start
      before the cutoff: the ranking decides which bridges are taken. */
  lemma TopBridgeTaken(bridges: seq<Bridge>, budget: int, cutoff: Option<Day>)
    requires bridges != []
    requires Ranked(bridges)[0].gapLength <= budget && !StartsBeforeCutoff(Ranked(bridges)[0], cutoff)
    ensures forall b :: b in bridges ==> b.score <= Ranked(bridges)[0].score
    ensures forall d :: d in Ranked(bridges)[0].gapDays ==> d in GreedyLeave(bridges, budget, cutoff)
  {
    var ranked := Ranked(bridges);
    RankedOrder(bridges);
    forall b | b in bridges ensures b.score <= ranked[0].score {
      assert b in multiset(ranked);
      var j :| 0 <= j < |ranked| && ranked[j] == b;
    }
    var top := ranked[0];
    var next := Turn(top, {}, budget, cutoff);
    assert next.0 == GapSet(top);
    if !(next.1 == 0 && !Continues(top, budget, cutoff)) {
      TakeFromKeeps(ranked[1..], next.0, next.1, cutoff);
    }
    SortedSeqFacts(TakeInOrder(ranked, budget, cutoff).0);
  }

  /** Steps 2 and 3 of calculateOptimalLeave and the final sort: the
      bridges are sorted best first, taken greedily, and the selected days
      are returned in ascending order: GreedyLeave.  Every day belongs to a
      bridge taken whole, the budget is respected, and a bridge left out
      overlaps the selection or is longer than the leave that was left. */
  method PlanLeave(bridges: seq<Bridge>, budget: int, cutoff: Option<Day>) returns (r: seq<Day>)
    requires budget >= 0
    requires forall k :: 0 <= k < |bridges| ==>
      WellFormedBridge(bridges[k]) && !StartsBeforeCutoff(bridges[k], cutoff)
    ensures r == GreedyLeave(bridges, budget, cutoff)
    ensures StrictlyIncreasing(r) && |r| <= budget
    ensures TakenWhole(bridges, r)
    ensures LeftOutExplained(bridges, r, budget - |r|)
  {
    var sorted := Ranked(bridges);
    forall i | 0 <= i < |sorted| ensures WellFormedBridge(sorted[i]) {
      assert sorted[i] in multiset(bridges);
    }
    var selected, remaining := SelectBridges(sorted, budget, cutoff);
    r := SortSet(selected);
    assert StrictlyIncreasing(r) && (forall x :: x in selected ==> x in r)
      && (forall j :: 0 <= j < |r| ==> r[j] in selected) by {
      SortedSeqFacts(selected);
      forall j | 0 <= j < |r| ensures r[j] in selected {
        assert r[j] in r;
      }
    }
    SelectionOfBridges(bridges, sorted, selected, remaining, cutoff, r);
  }
}
