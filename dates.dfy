/**
 * Calendar dates as the application stores them (ISO `YYYY-MM-DD` text) and
 * compares them (Python `datetime.date`, whose order is that of `toordinal()`).
 * Ordinal 1 is 0001-01-01, a Monday, so `weekday()` is `(ordinal + 6) % 7`.
 */
module Dates {

  datatype Date = Date(year: int, month: int, day: int)

  predicate IsLeapYear(y: int) {
    y % 4 == 0 && (y % 100 != 0 || y % 400 == 0)
  }

  function DaysInMonth(y: int, m: int): int {
    if m == 2 then (if IsLeapYear(y) then 29 else 28)
    else if m == 4 || m == 6 || m == 9 || m == 11 then 30
    else 31
  }

  /** The dates `datetime.date` can represent. */
  predicate Valid(d: Date) {
    1 <= d.year <= 9999 && 1 <= d.month <= 12 && 1 <= d.day <= DaysInMonth(d.year, d.month)
  }

  /** Days in the years before `y` (Python's `_days_before_year`). */
  function DaysBeforeYear(y: int): int {
    var p := y - 1;
    p * 365 + p / 4 - p / 100 + p / 400
  }

  /** Days in the months of year `y` before month `m` (Python's `_days_before_month`). */
  function DaysBeforeMonth(y: int, m: int): int {
    if m <= 1 then 0 else DaysBeforeMonth(y, m - 1) + DaysInMonth(y, m - 1)
  }

  /** `date.toordinal()`: the proleptic Gregorian day number. */
  function Ordinal(d: Date): int {
    DaysBeforeYear(d.year) + DaysBeforeMonth(d.year, d.month) + d.day
  }

  /** `weekday()` of the day with ordinal `o`: Monday is 0, Sunday is 6. */
  function WeekdayOf(o: int): (w: int)
    ensures 0 <= w < 7
    ensures (o - w) % 7 == 1
  {
    (o + 6) % 7
  }

  function Weekday(d: Date): int {
    WeekdayOf(Ordinal(d))
  }

  /** Monday-based week number of the day with ordinal `o`. */
  function WeekNumber(o: int): int {
    (o + 6) / 7
  }

  /** The Monday on or before the day with ordinal `o`. */
  function MondayOf(o: int): (s: int)
    ensures o - 6 <= s <= o
    ensures WeekdayOf(s) == 0
  {
    var w := WeekdayOf(o);
    assert o + 6 == 7 * ((o + 6) / 7) + w;
    assert o - w + 6 == 7 * ((o + 6) / 7);
    o - w
  }

  /** Ordinal of `today - timedelta(days=today.weekday())`: this week's Monday. */
  function WeekStart(today: Date): (s: int)
    ensures Ordinal(today) - 6 <= s <= Ordinal(today)
    ensures WeekdayOf(s) == 0
  {
    MondayOf(Ordinal(today))
  }

  /**
   * The goal window `[WeekStart(today), today]` is exactly the days up to today
   * that fall in today's Monday-to-Sunday week.
   */
  lemma WeekWindowIsCalendarWeek(today: Date, o: int)
    ensures WeekStart(today) <= o <= Ordinal(today)
        <==> o <= Ordinal(today) && WeekNumber(o) == WeekNumber(Ordinal(today))
  {
    var t := Ordinal(today);
    var q := (t + 6) / 7;
    assert t + 6 == 7 * q + (t + 6) % 7;
    assert WeekStart(today) == 7 * q - 6;
    if WeekStart(today) <= o <= t {
      assert 7 * q <= o + 6 < 7 * q + 7;
      assert (o + 6) / 7 == q;
    }
    if o <= t && WeekNumber(o) == q {
      assert o + 6 == 7 * q + (o + 6) % 7;
    }
  }

  /** Grouping key of `to_period("M")`: months numbered consecutively. */
  function MonthKey(d: Date): int {
    d.year * 12 + (d.month - 1)
  }

  /** `Period.to_timestamp()`: the first day of the month with key `k`. */
  function MonthStart(k: int): (d: Date)
    ensures MonthKey(d) == k && d.day == 1
    ensures 1 <= d.month <= 12
  {
    Date(k / 12, k % 12 + 1, 1)
  }

  lemma MonthStartOfDate(d: Date)
    requires Valid(d)
    ensures MonthStart(MonthKey(d)) == Date(d.year, d.month, 1)
  {
    var k := MonthKey(d);
    assert k == 12 * d.year + (d.month - 1);
    assert k / 12 == d.year && k % 12 == d.month - 1;
  }

  /** The calendar day after `d`. */
  function NextDay(d: Date): Date {
    if d.day < DaysInMonth(d.year, d.month) then Date(d.year, d.month, d.day + 1)
    else if d.month < 12 then Date(d.year, d.month + 1, 1)
    else Date(d.year + 1, 1, 1)
  }

  /** The months before December hold 334 days, plus one in a leap year. */
  lemma DaysBeforeDecember(y: int)
    ensures DaysBeforeMonth(y, 12) == 306 + DaysInMonth(y, 2)
  {
    assert DaysBeforeMonth(y, 2) == 31;
    assert DaysBeforeMonth(y, 3) == 31 + DaysInMonth(y, 2);
    assert DaysBeforeMonth(y, 4) == 62 + DaysInMonth(y, 2);
    assert DaysBeforeMonth(y, 5) == 92 + DaysInMonth(y, 2);
    assert DaysBeforeMonth(y, 6) == 123 + DaysInMonth(y, 2);
    assert DaysBeforeMonth(y, 7) == 153 + DaysInMonth(y, 2);
    assert DaysBeforeMonth(y, 8) == 184 + DaysInMonth(y, 2);
    assert DaysBeforeMonth(y, 9) == 215 + DaysInMonth(y, 2);
    assert DaysBeforeMonth(y, 10) == 245 + DaysInMonth(y, 2);
    assert DaysBeforeMonth(y, 11) == 276 + DaysInMonth(y, 2);
  }

  /** Floor division by 4, 100 or 400 steps up by one exactly at the multiples. */
  lemma DivStep(y: int, n: int)
    requires n == 4 || n == 100 || n == 400
    ensures y / n - (y - 1) / n == if y % n == 0 then 1 else 0
  {
    if n == 4 {
      assert y / 4 - (y - 1) / 4 == if y % 4 == 0 then 1 else 0;
    } else if n == 100 {
      assert y / 100 - (y - 1) / 100 == if y % 100 == 0 then 1 else 0;
    } else {
      assert y / 400 - (y - 1) / 400 == if y % 400 == 0 then 1 else 0;
    }
  }

  /** A year has 365 days, 366 in a leap year, as `DaysBeforeYear` counts them. */
  lemma YearLength(y: int)
    ensures DaysBeforeMonth(y, 12) + 31 == DaysBeforeYear(y + 1) - DaysBeforeYear(y)
  {
    DaysBeforeDecember(y);
    DivStep(y, 4);
    DivStep(y, 100);
    DivStep(y, 400);
  }

  /**
   * Successive calendar days have successive ordinals, so `today - timedelta(days=n)`
   * is the day whose ordinal is `n` less; the day after a valid date is valid
   * unless it leaves year 9999.
   */
  lemma OrdinalOfNextDay(d: Date)
    requires Valid(d)
    ensures Ordinal(NextDay(d)) == Ordinal(d) + 1
    ensures d.year < 9999 || d.month < 12 || d.day < 31 ==> Valid(NextDay(d))
  {
    if d.day == DaysInMonth(d.year, d.month) && d.month == 12 {
      YearLength(d.year);
    }
  }

  /** `DaysBeforeMonth` grows by each month's length. */
  lemma {:induction false} DaysBeforeMonthGrows(y: int, m1: int, m2: int)
    requires 1 <= m1 < m2
    ensures DaysBeforeMonth(y, m1) + DaysInMonth(y, m1) <= DaysBeforeMonth(y, m2)
    decreases m2 - m1
  {
    if m1 + 1 < m2 {
      DaysBeforeMonthGrows(y, m1, m2 - 1);
    }
  }

  /** The first day of the month after month `k` comes right after month `k`'s last day. */
  lemma MonthStartStep(k: int)
    ensures Ordinal(MonthStart(k + 1)) == Ordinal(MonthStart(k)) + DaysInMonth(MonthStart(k).year, MonthStart(k).month)
  {
    var d := MonthStart(k);
    var q, r := k / 12, k % 12;
    assert k == 12 * q + r && 0 <= r < 12;
    if r == 11 {
      assert k + 1 == 12 * (q + 1) + 0;
      assert (k + 1) / 12 == q + 1 && (k + 1) % 12 == 0;
    } else {
      assert k + 1 == 12 * q + (r + 1);
      assert (k + 1) / 12 == q && (k + 1) % 12 == r + 1;
    }
    if d.month == 12 {
      assert MonthStart(k + 1) == Date(d.year + 1, 1, 1);
      YearLength(d.year);
    } else {
      assert MonthStart(k + 1) == Date(d.year, d.month + 1, 1);
    }
  }

  /** A later month starts after every day of an earlier one. */
  lemma {:induction false} MonthStartsAscend(k1: int, k2: int)
    requires k1 < k2
    ensures Ordinal(MonthStart(k1)) + DaysInMonth(MonthStart(k1).year, MonthStart(k1).month) <= Ordinal(MonthStart(k2))
    decreases k2 - k1
  {
    MonthStartStep(k2 - 1);
    if k1 + 1 < k2 {
      MonthStartsAscend(k1, k2 - 1);
    }
  }

  /**
   * Month keys follow the calendar: of two valid dates, the earlier one never
   * has the later month key, so ordering rows by `MonthKey` is ordering them
   * chronologically.
   */
  lemma MonthKeyFollowsDates(a: Date, b: Date)
    requires Valid(a) && Valid(b) && Ordinal(a) <= Ordinal(b)
    ensures MonthKey(a) <= MonthKey(b)
  {
    if MonthKey(b) < MonthKey(a) {
      MonthStartOfDate(a);
      MonthStartOfDate(b);
      MonthStartsAscend(MonthKey(b), MonthKey(a));
    }
  }

  /** Ordinal 1, 0001-01-01, is a Monday. */
  lemma FirstDayIsMonday()
    ensures Ordinal(Date(1, 1, 1)) == 1 && Weekday(Date(1, 1, 1)) == 0
  {
    assert DaysBeforeYear(1) == 0;
    assert DaysBeforeMonth(1, 1) == 0;
    assert WeekdayOf(1) == 0;
  }

  /** 2024-01-01 is a Monday too. */
  lemma NewYear2024IsMonday()
    ensures Ordinal(Date(2024, 1, 1)) == 738886 && Weekday(Date(2024, 1, 1)) == 0
  {
    assert 2023 / 4 == 505 && 2023 / 100 == 20 && 2023 / 400 == 5;
    assert DaysBeforeYear(2024) == 738885;
    assert (738886 + 6) % 7 == 0;
  }
}
