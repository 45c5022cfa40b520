/** Calendar dates as Python's `datetime` holds them (proleptic Gregorian, years
    1..9999), their `strftime("%Y-%m-%d")` text, chronological order, and
    `toordinal()`, which date subtraction is built on. */
module Dates {
  import opened PyStr

  datatype Ymd = Ymd(year: int, month: int, day: int)

  predicate IsLeap(y: int)
  {
    y % 4 == 0 && (y % 100 != 0 || y % 400 == 0)
  }

  function DaysInMonth(y: int, m: int): int
  {
    if m == 2 then (if IsLeap(y) then 29 else 28)
    else if m == 4 || m == 6 || m == 9 || m == 11 then 30
    else 31
  }

  function DaysInYear(y: int): int
  {
    if IsLeap(y) then 366 else 365
  }

  predicate ValidYmd(d: Ymd)
  {
    1 <= d.year <= 9999 && 1 <= d.month <= 12 && 1 <= d.day <= DaysInMonth(d.year, d.month)
  }

  /** A date that `datetime` can represent. */
  type Date = d: Ymd | ValidYmd(d) witness Ymd(1970, 1, 1)

  /** Chronological order: a is an earlier day than b. */
  predicate Before(a: Date, b: Date)
  {
    || a.year < b.year
    || (a.year == b.year && a.month < b.month)
    || (a.year == b.year && a.month == b.month && a.day < b.day)
  }

  /** Of two different days one is earlier. */
  lemma BeforeTotal(a: Date, b: Date)
    ensures a == b || Before(a, b) || Before(b, a)
    ensures !(Before(a, b) && Before(b, a))
  {
  }

  // ---------------------------------------------------------------------------
  // Text

  /** The w right-most decimal digits of n, zero-padded on the left. */
  function Padded(n: nat, w: nat): (s: string)
    ensures |s| == w
    decreases w
  {
    if w == 0 then [] else Padded(n / 10, w - 1) + [Digit(n % 10)]
  }

  function Pow10(w: nat): nat
  {
    if w == 0 then 1 else 10 * Pow10(w - 1)
  }

  /** `d.strftime("%Y-%m-%d")`, the text the servers store and compare. */
  function Format(d: Date): (s: string)
    ensures |s| == 10 && s[4] == '-' && s[7] == '-'
  {
    Padded(d.year, 4) + "-" + Padded(d.month, 2) + "-" + Padded(d.day, 2)
  }

  /** For numbers that fit in w digits, comparing their padded texts as strings
      compares the numbers. */
  lemma {:induction false} PaddedOrder(m: nat, n: nat, w: nat)
    requires m < Pow10(w) && n < Pow10(w)
    ensures StrLess(Padded(m, w), Padded(n, w)) <==> m < n
    ensures Padded(m, w) == Padded(n, w) <==> m == n
    decreases w
  {
    if w > 0 {
      var hm, hn, lm, ln := m / 10, n / 10, m % 10, n % 10;
      assert m == 10 * hm + lm && n == 10 * hn + ln;
      assert hm < Pow10(w - 1) && hn < Pow10(w - 1);
      PaddedOrder(hm, hn, w - 1);
      StrLessConcat(Padded(hm, w - 1), [Digit(lm)], Padded(hn, w - 1), [Digit(ln)]);
      assert StrLess([Digit(lm)], [Digit(ln)]) <==> lm < ln by {
        assert [Digit(lm)][1..] == [] && [Digit(ln)][1..] == [];
      }
    } else {
      assert Pow10(0) == 1;
    }
  }

  /** The pieces of a formatted date, split at the fixed-width fields. */
  lemma FormatSplit(d: Date)
    ensures Format(d) == Padded(d.year, 4) + ("-" + (Padded(d.month, 2) + ("-" + Padded(d.day, 2))))
  {
  }

  /** The fields of a formatted date can be read back at fixed positions. */
  lemma FormatFields(d: Date)
    ensures Format(d)[..4] == Padded(d.year, 4)
    ensures Format(d)[5..7] == Padded(d.month, 2)
    ensures Format(d)[8..] == Padded(d.day, 2)
  {
    var s := Format(d);
    assert s == Padded(d.year, 4) + "-" + Padded(d.month, 2) + "-" + Padded(d.day, 2);
  }

  /** ISO dates sort lexicographically: for any two dates, string `<` on their
      `YYYY-MM-DD` texts is exactly chronological order, and equal texts mean
      equal dates. */
  lemma FormatOrder(a: Date, b: Date)
    ensures StrLess(Format(a), Format(b)) <==> Before(a, b)
    ensures Format(a) == Format(b) <==> a == b
  {
    assert Pow10(4) == 10000 && Pow10(2) == 100 by {
      assert Pow10(1) == 10;
    }
    PaddedOrder(a.year, b.year, 4);
    PaddedOrder(a.month, b.month, 2);
    PaddedOrder(a.day, b.day, 2);
    FormatSplit(a);
    FormatSplit(b);
    var da, db := Padded(a.day, 2), Padded(b.day, 2);
    var ma, mb := Padded(a.month, 2) + ("-" + da), Padded(b.month, 2) + ("-" + db);
    StrLessConcat(Padded(a.year, 4), "-" + ma, Padded(b.year, 4), "-" + mb);
    StrLessConcat("-", ma, "-", mb);
    StrLessConcat(Padded(a.month, 2), "-" + da, Padded(b.month, 2), "-" + db);
    StrLessConcat("-", da, "-", db);
    assert !StrLess("-", "-");
  }

  /** `<=` on the texts is chronological `<=`. */
  lemma FormatOrderEq(a: Date, b: Date)
    ensures StrLessEq(Format(a), Format(b)) <==> !Before(b, a)
  {
    FormatOrder(a, b);
    BeforeTotal(a, b);
  }

  // ---------------------------------------------------------------------------
  // Day numbers

  /** Days in the years before y (Python's `_days_before_year`). */
  function DaysBeforeYear(y: int): int
    requires y >= 1
  {
    var p := y - 1;
    365 * p + p / 4 - p / 100 + p / 400
  }

  /** Days in year y before month m; m = 13 gives the whole year. */
  function DaysBeforeMonth(y: int, m: int): int
    requires 1 <= m <= 13
  {
    var table := [0, 0, 31, 59, 90, 120, 151, 181, 212, 243, 273, 304, 334, 365];
    table[m] + (if m > 2 && IsLeap(y) then 1 else 0)
  }

  /** `d.toordinal()`: 0001-01-01 is day 1, and each day of a year is numbered
      after the days of the years before it (within them, OrdinalBounds). */
  function Ordinal(d: Date): (n: int)
    ensures d == Ymd(1, 1, 1) ==> n == 1
    ensures DaysBeforeYear(d.year) < n
  {
    DaysBeforeYear(d.year) + DaysBeforeMonth(d.year, d.month) + d.day
  }

  /** b is the calendar day after a. */
  predicate IsNextDay(a: Date, b: Date)
  {
    if a.day < DaysInMonth(a.year, a.month) then b == Ymd(a.year, a.month, a.day + 1)
    else if a.month < 12 then b == Ymd(a.year, a.month + 1, 1)
    else b == Ymd(a.year + 1, 1, 1)
  }

  /** Consecutive days have consecutive ordinals. */
  lemma OrdinalNextDay(a: Date, b: Date)
    requires IsNextDay(a, b)
    ensures Ordinal(b) == Ordinal(a) + 1
  {
    if a.day == DaysInMonth(a.year, a.month) && a.month == 12 {
      YearStep(a.year);
    }
  }

  lemma QuarterStep(p: nat)
    ensures (p + 1) / 4 == p / 4 + (if (p + 1) % 4 == 0 then 1 else 0)
  {
  }

  lemma CenturyStep(p: nat)
    ensures (p + 1) / 100 == p / 100 + (if (p + 1) % 100 == 0 then 1 else 0)
  {
  }

  lemma QuadCenturyStep(p: nat)
    ensures (p + 1) / 400 == p / 400 + (if (p + 1) % 400 == 0 then 1 else 0)
  {
  }

  /** A multiple of k * m is a multiple of k. */
  lemma MultipleOf(y: int, k: int, m: int)
    requires k > 0 && m > 0 && y % (k * m) == 0
    ensures y % k == 0
  {
    var q := y / (k * m);
    assert y == (k * m) * q;
    assert y == k * (m * q);
  }

  /** A year adds its own length to the days before it. */
  lemma YearStep(y: int)
    requires y >= 1
    ensures DaysBeforeYear(y + 1) == DaysBeforeYear(y) + DaysInYear(y)
  {
    var p := y - 1;
    QuarterStep(p);
    CenturyStep(p);
    QuadCenturyStep(p);
    if y % 400 == 0 {
      MultipleOf(y, 100, 4);
      MultipleOf(y, 4, 100);
    } else if y % 100 == 0 {
      MultipleOf(y, 4, 25);
    }
  }

  lemma {:induction false} YearsAscend(y1: int, y2: int)
    requires 1 <= y1 <= y2
    ensures DaysBeforeYear(y1) + 365 * (y2 - y1) <= DaysBeforeYear(y2)
    decreases y2 - y1
  {
    if y1 < y2 {
      YearsAscend(y1 + 1, y2);
      YearStep(y1);
    }
  }

  /** A date is a day of its year and month: its ordinal lies in them. */
  lemma OrdinalBounds(d: Date)
    ensures DaysBeforeYear(d.year) + DaysBeforeMonth(d.year, d.month) < Ordinal(d)
    ensures Ordinal(d) <= DaysBeforeYear(d.year) + DaysBeforeMonth(d.year, d.month + 1)
    ensures Ordinal(d) <= DaysBeforeYear(d.year + 1)
  {
    YearStep(d.year);
  }

  /** Months ascend the year: all of month m1 lies before month m2 > m1. */
  lemma MonthsAscend(y: int, m1: int, m2: int)
    requires 1 <= m1 < m2 <= 12
    ensures DaysBeforeMonth(y, m1 + 1) <= DaysBeforeMonth(y, m2)
  {
  }

  /** An earlier day has a smaller ordinal. */
  lemma OrdinalIncreases(a: Date, b: Date)
    requires Before(a, b)
    ensures Ordinal(a) < Ordinal(b)
  {
    OrdinalBounds(a);
    OrdinalBounds(b);
    if a.year < b.year {
      YearsAscend(a.year + 1, b.year);
    } else if a.month < b.month {
      MonthsAscend(a.year, a.month, b.month);
    }
  }

  /** Earlier days have smaller ordinals, so date differences follow order. */
  lemma OrdinalOrder(a: Date, b: Date)
    ensures Before(a, b) <==> Ordinal(a) < Ordinal(b)
    ensures a == b <==> Ordinal(a) == Ordinal(b)
  {
    BeforeTotal(a, b);
    if Before(a, b) {
      OrdinalIncreases(a, b);
    } else if Before(b, a) {
      OrdinalIncreases(b, a);
    }
  }
}
