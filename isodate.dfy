/** YYYY-MM-DD date keys: the complete calendar-date extended format of
    ISO 8601:2004 (section 4.1.2.2) used as set keys and compared as strings
    by the bridge finder (utils/leave_maximizer.ts). */
module IsoDate {
  import opened Calendar

  datatype Option<T> = None | Some(value: T)

  function Pow10(w: nat): (p: nat)
    ensures p >= 1
  {
    if w == 0 then 1 else 10 * Pow10(w - 1)
  }

  predicate IsDigit(c: char) {
    '0' <= c <= '9'
  }

  function DigitChar(d: nat): (c: char)
    requires d < 10
    ensures IsDigit(c)
  {
    ['0', '1', '2', '3', '4', '5', '6', '7', '8', '9'][d]
  }

  function DigitValue(c: char): (d: nat)
    requires IsDigit(c)
    ensures d < 10
  {
    if c == '0' then 0 else if c == '1' then 1 else if c == '2' then 2
    else if c == '3' then 3 else if c == '4' then 4 else if c == '5' then 5
    else if c == '6' then 6 else if c == '7' then 7 else if c == '8' then 8 else 9
  }

  /** n written with exactly w decimal digits, zero-padded on the left. */
  function Digits(n: nat, w: nat): (s: string)
    requires n < Pow10(w)
    ensures |s| == w
    ensures forall i :: 0 <= i < |s| ==> IsDigit(s[i])
  {
    if w == 0 then "" else Digits(n / 10, w - 1) + [DigitChar(n % 10)]
  }

  /** The number written by a string of decimal digits (as parseInt/Number read it). */
  function DigitsValue(s: string): nat
    requires forall i :: 0 <= i < |s| ==> IsDigit(s[i])
  {
    if s == [] then 0 else 10 * DigitsValue(s[..|s| - 1]) + DigitValue(s[|s| - 1])
  }

  lemma {:induction false} DigitsRoundTrip(n: nat, w: nat)
    requires n < Pow10(w)
    ensures DigitsValue(Digits(n, w)) == n
  {
    if w > 0 {
      var s := Digits(n, w);
      assert s[..|s| - 1] == Digits(n / 10, w - 1);
      DigitsRoundTrip(n / 10, w - 1);
      assert DigitValue(DigitChar(n % 10)) == n % 10;
    }
  }

  /** JavaScript's `<` on strings: lexicographic order of the characters. */
  predicate LexLess(a: string, b: string) {
    if |a| == 0 then |b| > 0
    else if |b| == 0 then false
    else if a[0] != b[0] then a[0] < b[0]
    else LexLess(a[1..], b[1..])
  }

  /** Comparing equal-length heads first: the tails decide only on a tie. */
  lemma {:induction false} LexLessConcat(p1: string, q1: string, p2: string, q2: string)
    requires |p1| == |p2|
    ensures LexLess(p1 + q1, p2 + q2) <==> LexLess(p1, p2) || (p1 == p2 && LexLess(q1, q2))
  {
    if |p1| > 0 {
      assert (p1 + q1)[0] == p1[0] && (p2 + q2)[0] == p2[0];
      assert (p1 + q1)[1..] == p1[1..] + q1;
      assert (p2 + q2)[1..] == p2[1..] + q2;
      LexLessConcat(p1[1..], q1, p2[1..], q2);
      if p1[0] == p2[0] && p1[1..] == p2[1..] {
        assert p1 == [p1[0]] + p1[1..] && p2 == [p2[0]] + p2[1..];
      }
    } else {
      assert p1 + q1 == q1 && p2 + q2 == q2;
    }
  }

  lemma DigitCharOrder(a: nat, b: nat)
    requires a < 10 && b < 10
    ensures DigitChar(a) < DigitChar(b) <==> a < b
    ensures DigitChar(a) == DigitChar(b) <==> a == b
  {
  }

  /** Zero-padded numerals of equal width compare as the numbers do. */
  lemma {:induction false} DigitsOrder(a: nat, b: nat, w: nat)
    requires a < Pow10(w) && b < Pow10(w)
    ensures LexLess(Digits(a, w), Digits(b, w)) <==> a < b
    ensures Digits(a, w) == Digits(b, w) <==> a == b
  {
    if w > 0 {
      DigitsOrder(a / 10, b / 10, w - 1);
      LexLessConcat(Digits(a / 10, w - 1), [DigitChar(a % 10)], Digits(b / 10, w - 1), [DigitChar(b % 10)]);
      DigitCharOrder(a % 10, b % 10);
      if Digits(a, w) == Digits(b, w) {
        var sa, sb := Digits(a, w), Digits(b, w);
        assert sa[..w - 1] == Digits(a / 10, w - 1) && sb[..w - 1] == Digits(b / 10, w - 1);
        assert sa[w - 1] == DigitChar(a % 10) && sb[w - 1] == DigitChar(b % 10);
      }
    }
  }

  /** A date the four-digit key format can write. */
  predicate Formattable(dt: Date) {
    dt.Valid() && 0 <= dt.year < 10000
  }

  /** formatDate: the YYYY-MM-DD key of a date. */
  function Format(dt: Date): (s: string)
    requires Formattable(dt)
    ensures |s| == 10 && s[4] == '-' && s[7] == '-'
  {
    Digits(dt.year, 4) + "-" + Digits(dt.month, 2) + "-" + Digits(dt.day, 2)
  }

  /** parseDateUTC: splits a key at its dashes and reads the three numbers.
      A string not of the shape DDDD-DD-DD is an invalid date (None). */
  function Parse(s: string): (r: Option<Date>)
    ensures r.Some? ==> 0 <= r.value.year < 10000 && 0 <= r.value.month < 100 && 0 <= r.value.day < 100
  {
    if |s| == 10 && s[4] == '-' && s[7] == '-'
       && (forall i :: 0 <= i < 10 && i != 4 && i != 7 ==> IsDigit(s[i]))
    then
      DigitsBound(s[..4]);
      DigitsBound(s[5..7]);
      DigitsBound(s[8..]);
      Some(Date(DigitsValue(s[..4]), DigitsValue(s[5..7]), DigitsValue(s[8..])))
    else None
  }

  lemma {:induction false} DigitsBound(s: string)
    requires forall i :: 0 <= i < |s| ==> IsDigit(s[i])
    ensures DigitsValue(s) < Pow10(|s|)
  {
    if s != [] {
      DigitsBound(s[..|s| - 1]);
    }
  }

  /** parseDateUTC undoes formatDate. */
  lemma ParseFormat(dt: Date)
    requires Formattable(dt)
    ensures Parse(Format(dt)) == Some(dt)
  {
    var s := Format(dt);
    assert s[..4] == Digits(dt.year, 4);
    assert s[5..7] == Digits(dt.month, 2);
    assert s[8..] == Digits(dt.day, 2);
    DigitsRoundTrip(dt.year, 4);
    DigitsRoundTrip(dt.month, 2);
    DigitsRoundTrip(dt.day, 2);
  }

  /** A fixed-width field, a dash and the rest compare field first. */
  lemma DashedOrder(a: string, x: string, b: string, y: string)
    requires |a| == |b|
    ensures LexLess(a + "-" + x, b + "-" + y) <==> LexLess(a, b) || (a == b && LexLess(x, y))
  {
    LexLessConcat(a, "-" + x, b, "-" + y);
    LexLessConcat("-", x, "-", y);
    assert a + "-" + x == a + ("-" + x);
    assert b + "-" + y == b + ("-" + y);
  }

  /** Three dash-separated fields of fixed widths compare field by field. */
  lemma JoinedOrder(ya: string, ma: string, da: string, yb: string, mb: string, db: string)
    requires |ya| == |yb| && |ma| == |mb|
    ensures LexLess(ya + "-" + ma + "-" + da, yb + "-" + mb + "-" + db)
        <==> LexLess(ya, yb) || (ya == yb && (LexLess(ma, mb) || (ma == mb && LexLess(da, db))))
  {
    var ta, tb := ma + "-" + da, mb + "-" + db;
    DashedOrder(ma, da, mb, db);
    DashedOrder(ya, ta, yb, tb);
    assert ya + "-" + ma + "-" + da == ya + "-" + ta;
    assert yb + "-" + mb + "-" + db == yb + "-" + tb;
  }

  /** Keys compare as strings exactly as their dates compare in time, so the
      string comparisons and the string sort of the bridge finder are
      chronological. */
  lemma FormatOrder(a: Date, b: Date)
    requires Formattable(a) && Formattable(b)
    ensures LexLess(Format(a), Format(b)) <==> Before(a, b)
    ensures Format(a) == Format(b) <==> a == b
  {
    DigitsOrder(a.year, b.year, 4);
    DigitsOrder(a.month, b.month, 2);
    DigitsOrder(a.day, b.day, 2);
    JoinedOrder(Digits(a.year, 4), Digits(a.month, 2), Digits(a.day, 2),
                Digits(b.year, 4), Digits(b.month, 2), Digits(b.day, 2));
    if Format(a) == Format(b) {
      ParseFormat(a);
      ParseFormat(b);
    }
  }

  /** Comparing the keys of two days of the planning year (or any two dates)
      as strings agrees with comparing their ordinals, so the model compares
      ordinals where the source compares keys. */
  lemma KeyOrderIsOrdinalOrder(y: int, a: Date, b: Date)
    requires Formattable(a) && Formattable(b)
    ensures LexLess(Format(a), Format(b)) <==> OrdinalIn(y, a) < OrdinalIn(y, b)
    ensures Format(a) == Format(b) <==> OrdinalIn(y, a) == OrdinalIn(y, b)
  {
    FormatOrder(a, b);
    DayNumberOrder(a, b);
  }

  /** The key of ordinal k of year y: what the loops over the year format. */
  function KeyOf(y: int, k: Day): (s: string)
    requires 0 <= y < 10000 && 0 <= k < DaysInYear(y)
  {
    Format(DateOf(y, k))
  }

  /** A holiday key matches the key of ordinal k exactly when the holiday's
      ordinal is k, so set membership by key is membership by ordinal. */
  lemma KeyMatchesOrdinal(y: int, k: Day, h: Date)
    requires 0 <= y < 10000 && 0 <= k < DaysInYear(y) && Formattable(h)
    ensures KeyOf(y, k) == Format(h) <==> OrdinalIn(y, h) == k
  {
    var dk := DateOf(y, k);
    KeyOrderIsOrdinalOrder(y, dk, h);
  }
}
