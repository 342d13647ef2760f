/**
 * Gregorian calendar dates as integer triples in local calendar terms, the
 * way the front end reads a JavaScript `Date` with getFullYear(), getMonth()
 * (0 = January) and getDate(). A day number (days since 1 January of year 0,
 * proleptic Gregorian) replaces "advance a Date by one day" loops.
 */
module Dates {

  datatype Date = Date(year: int, month: int, day: int)

  predicate IsLeapYear(y: int) {
    y % 4 == 0 && (y % 100 != 0 || y % 400 == 0)
  }

  predicate ValidMonth(m: int) { 0 <= m < 12 }

  /** Length of month `m` (0-based) of year `y`. */
  function DaysInMonth(y: int, m: int): (n: int)
    requires ValidMonth(m)
    ensures 28 <= n <= 31
    ensures n == 29 <==> m == 1 && IsLeapYear(y)
    ensures n == 28 <==> m == 1 && !IsLeapYear(y)
    ensures n == 30 <==> m == 3 || m == 5 || m == 8 || m == 10
  {
    if m == 1 then (if IsLeapYear(y) then 29 else 28)
    else if m == 3 || m == 5 || m == 8 || m == 10 then 30
    else 31
  }

  function DaysInYear(y: int): int {
    if IsLeapYear(y) then 366 else 365
  }

  predicate ValidDate(d: Date) {
    ValidMonth(d.month) && 1 <= d.day <= DaysInMonth(d.year, d.month)
  }

  /** Days of year `y` before the first of month `m`. */
  function DaysBeforeMonth(y: int, m: int): int
    requires 0 <= m <= 12
  {
    if m == 0 then 0 else DaysBeforeMonth(y, m - 1) + DaysInMonth(y, m - 1)
  }

  /** Days from 1 January of year 0 to 1 January of year `y`. */
  function DaysBeforeYear(y: int): int {
    365 * y + (y + 3) / 4 - (y + 99) / 100 + (y + 399) / 400
  }

  function DayNumber(d: Date): int
    requires ValidMonth(d.month)
  {
    DaysBeforeYear(d.year) + DaysBeforeMonth(d.year, d.month) + d.day - 1
  }

  /** Calendar order: what `<=` on two JavaScript dates of the same time of day decides. */
  predicate DateLe(a: Date, b: Date) {
    a.year < b.year ||
    (a.year == b.year && (a.month < b.month || (a.month == b.month && a.day <= b.day)))
  }

  /** The day after `d`, what `d.setDate(d.getDate() + 1)` produces. */
  function NextDay(d: Date): (r: Date)
    requires ValidDate(d)
    ensures ValidDate(r)
    ensures DateLe(d, r) && d != r
  {
    if d.day < DaysInMonth(d.year, d.month) then Date(d.year, d.month, d.day + 1)
    else if d.month < 11 then Date(d.year, d.month + 1, 1)
    else Date(d.year + 1, 0, 1)
  }

  /** `new Date(y, m, 1)` for any integer month index: JavaScript carries the month into the year. */
  function FirstOfMonth(y: int, m: int): (r: Date)
    ensures ValidDate(r) && r.day == 1
    ensures r.year * 12 + r.month == y * 12 + m
  {
    Date(y + m / 12, m % 12, 1)
  }

  /** The weekday of `d`, 0 = Sunday .. 6 = Saturday, as `getDay()` returns it. */
  function Weekday(d: Date): (w: int)
    requires ValidMonth(d.month)
    ensures 0 <= w < 7
  {
    // 1 January of year 0 (proleptic Gregorian) was a Saturday.
    (DayNumber(d) + 6) % 7
  }

  /**
   * The days from `lo` to `hi` inclusive, in order: the dates the source's
   * `for (d = start; d <= end; d.setDate(d.getDate() + 1))` loops visit.
   */
  function DayRange(lo: Date, hi: Date): (r: seq<Date>)
    requires ValidDate(lo) && ValidDate(hi)
    decreases DayNumber(hi) - DayNumber(lo) + 1
  {
    if !DateLe(lo, hi) then []
    else
      DateLeDayNumber(lo, hi);
      NextDayNumber(lo);
      [lo] + DayRange(NextDay(lo), hi)
  }

  // ---------------------------------------------------------------- lemmas

  lemma YearLength(y: int)
    ensures DaysBeforeMonth(y, 12) == DaysInYear(y)
    ensures DaysBeforeMonth(y, 11) + 31 == DaysInYear(y)
  {
    var feb := DaysInMonth(y, 1);
    assert DaysBeforeMonth(y, 1) == 31;
    assert DaysBeforeMonth(y, 2) == 31 + feb;
    assert DaysBeforeMonth(y, 3) == 62 + feb;
    assert DaysBeforeMonth(y, 4) == 92 + feb;
    assert DaysBeforeMonth(y, 5) == 123 + feb;
    assert DaysBeforeMonth(y, 6) == 153 + feb;
    assert DaysBeforeMonth(y, 7) == 184 + feb;
    assert DaysBeforeMonth(y, 8) == 215 + feb;
    assert DaysBeforeMonth(y, 9) == 245 + feb;
    assert DaysBeforeMonth(y, 10) == 276 + feb;
    assert DaysBeforeMonth(y, 11) == 306 + feb;
  }

  /** Advancing one day advances the day number by one, across month and year ends. */
  lemma NextDayNumber(d: Date)
    requires ValidDate(d)
    ensures DayNumber(NextDay(d)) == DayNumber(d) + 1
  {
    if d.day == DaysInMonth(d.year, d.month) && d.month == 11 {
      YearLength(d.year);
      DaysBeforeNextYear(d.year);
    }
  }

  lemma BlockDiff4(y: int)
    ensures (y + 4) / 4 - (y + 3) / 4 == (if y % 4 == 0 then 1 else 0)
  {
    var q, r := y / 4, y % 4;
    assert y == 4 * q + r && 0 <= r < 4;
  }

  lemma BlockDiff100(y: int)
    ensures (y + 100) / 100 - (y + 99) / 100 == (if y % 100 == 0 then 1 else 0)
  {
    var q, r := y / 100, y % 100;
    assert y == 100 * q + r && 0 <= r < 100;
  }

  lemma BlockDiff400(y: int)
    ensures (y + 400) / 400 - (y + 399) / 400 == (if y % 400 == 0 then 1 else 0)
  {
    var q, r := y / 400, y % 400;
    assert y == 400 * q + r && 0 <= r < 400;
  }

  lemma DaysBeforeNextYear(y: int)
    ensures DaysBeforeYear(y + 1) == DaysBeforeYear(y) + DaysInYear(y)
  {
    BlockDiff4(y);
    BlockDiff100(y);
    BlockDiff400(y);
    Div400IsDiv100(y);
    Div100IsDiv4(y);
  }

  lemma Div400IsDiv100(y: int)
    ensures y % 400 == 0 ==> y % 100 == 0
  {
    if y % 400 == 0 {
      var q := y / 400;
      assert y == 100 * (4 * q);
    }
  }

  lemma Div100IsDiv4(y: int)
    ensures y % 100 == 0 ==> y % 4 == 0
  {
    if y % 100 == 0 {
      var q := y / 100;
      assert y == 4 * (25 * q);
    }
  }

  lemma {:induction false} DaysBeforeYearGrows(y: int, k: nat)
    ensures DaysBeforeYear(y + k) >= DaysBeforeYear(y) + 365 * k
    decreases k
  {
    if k > 0 {
      DaysBeforeYearGrows(y, k - 1);
      DaysBeforeNextYear(y + k - 1);
    }
  }

  lemma {:induction false} DaysBeforeMonthGrows(y: int, m: int, n: int)
    requires 0 <= m <= n <= 12
    ensures DaysBeforeMonth(y, m) + 28 * (n - m) <= DaysBeforeMonth(y, n)
    decreases n - m
  {
    if m < n {
      DaysBeforeMonthGrows(y, m, n - 1);
    }
  }

  /** A valid date's day number lies inside its own year. */
  lemma DayNumberInYear(d: Date)
    requires ValidDate(d)
    ensures DaysBeforeYear(d.year) <= DayNumber(d) < DaysBeforeYear(d.year) + DaysInYear(d.year)
  {
    DaysBeforeMonthGrows(d.year, 0, d.month);
    DaysBeforeMonthGrows(d.year, d.month + 1, 12);
    YearLength(d.year);
    assert DaysBeforeMonth(d.year, d.month + 1) == DaysBeforeMonth(d.year, d.month) + DaysInMonth(d.year, d.month);
  }

  /** Day numbers are strictly increasing in calendar order. */
  lemma DayNumberMonotone(a: Date, b: Date)
    requires ValidDate(a) && ValidDate(b)
    requires DateLe(a, b) && a != b
    ensures DayNumber(a) < DayNumber(b)
  {
    if a.year < b.year {
      YearsApart(a, b);
    } else if a.month < b.month {
      DaysBeforeMonthGrows(a.year, a.month + 1, b.month);
    }
  }

  lemma YearsApart(a: Date, b: Date)
    requires ValidDate(a) && ValidDate(b) && a.year < b.year
    ensures DayNumber(a) < DayNumber(b)
  {
    DayNumberInYear(a);
    DayNumberInYear(b);
    DaysBeforeNextYear(a.year);
    var k := b.year - a.year - 1;
    DaysBeforeYearGrows(a.year + 1, k);
    assert a.year + 1 + k == b.year;
    assert DaysBeforeYear(a.year + 1) <= DaysBeforeYear(b.year);
  }

  /** Calendar order and day-number order agree on valid dates. */
  lemma DateLeDayNumber(a: Date, b: Date)
    requires ValidDate(a) && ValidDate(b)
    ensures DateLe(a, b) <==> DayNumber(a) <= DayNumber(b)
    ensures a == b <==> DayNumber(a) == DayNumber(b)
  {
    if a != b {
      if DateLe(a, b) { DayNumberMonotone(a, b); } else { DayNumberMonotone(b, a); }
    }
  }

  /** DayRange visits consecutive day numbers, one date per day. */
  lemma {:induction false} DayRangeIndex(lo: Date, hi: Date)
    requires ValidDate(lo) && ValidDate(hi)
    ensures |DayRange(lo, hi)| == if DayNumber(lo) <= DayNumber(hi) then DayNumber(hi) - DayNumber(lo) + 1 else 0
    ensures forall i :: 0 <= i < |DayRange(lo, hi)| ==>
              ValidDate(DayRange(lo, hi)[i]) && DayNumber(DayRange(lo, hi)[i]) == DayNumber(lo) + i
    decreases DayNumber(hi) - DayNumber(lo) + 1
  {
    DateLeDayNumber(lo, hi);
    if DateLe(lo, hi) {
      NextDayNumber(lo);
      DayRangeIndex(NextDay(lo), hi);
    }
  }

  /**
   * The dates DayRange visits are exactly the valid dates from `lo` to `hi`
   * inclusive in calendar order; there are none when `lo` is after `hi`.
   */
  lemma DayRangeMembers(lo: Date, hi: Date, d: Date)
    requires ValidDate(lo) && ValidDate(hi)
    ensures d in DayRange(lo, hi) <==> ValidDate(d) && DateLe(lo, d) && DateLe(d, hi)
  {
    DayRangeIndex(lo, hi);
    var r := DayRange(lo, hi);
    if d in r {
      var i :| 0 <= i < |r| && r[i] == d;
      DateLeDayNumber(lo, d);
      DateLeDayNumber(d, hi);
    }
    if ValidDate(d) && DateLe(lo, d) && DateLe(d, hi) {
      DateLeDayNumber(lo, d);
      DateLeDayNumber(d, hi);
      var i := DayNumber(d) - DayNumber(lo);
      DateLeDayNumber(r[i], d);
    }
  }

  /** Distinct positions of a DayRange hold distinct dates. */
  lemma DayRangeDistinct(lo: Date, hi: Date, i: int, j: int)
    requires ValidDate(lo) && ValidDate(hi)
    requires 0 <= i < j < |DayRange(lo, hi)|
    ensures DayRange(lo, hi)[i] != DayRange(lo, hi)[j]
  {
    DayRangeIndex(lo, hi);
  }

  /** Going one month forward from a first of month adds that month's length to the weekday. */
  lemma FirstOfNextMonthWeekday(y: int, m: int)
    requires ValidMonth(m)
    ensures Weekday(FirstOfMonth(y, m + 1)) == (Weekday(FirstOfMonth(y, m)) + DaysInMonth(y, m)) % 7
  {
    NextMonthDayNumber(y, m);
    var a, b := FirstOfMonth(y, m), FirstOfMonth(y, m + 1);
    assert DayNumber(b) == DayNumber(a) + DaysInMonth(y, m);
    ModShift(DayNumber(a), DaysInMonth(y, m));
  }

  lemma ModShift(x: int, k: int)
    ensures (x + k + 6) % 7 == ((x + 6) % 7 + k) % 7
  {
    var q := (x + 6) / 7;
    assert x + 6 == 7 * q + (x + 6) % 7;
    assert x + k + 6 == 7 * q + ((x + 6) % 7 + k);
  }

  /** The first of the next month lies a month's length after the first of this one. */
  lemma NextMonthDayNumber(y: int, m: int)
    requires ValidMonth(m)
    ensures DayNumber(FirstOfMonth(y, m + 1)) == DayNumber(Date(y, m, 1)) + DaysInMonth(y, m)
    ensures FirstOfMonth(y, m) == Date(y, m, 1)
  {
    var a, b := FirstOfMonth(y, m), FirstOfMonth(y, m + 1);
    assert a == Date(y, m, 1);
    if m < 11 {
      assert b == Date(y, m + 1, 1);
    } else {
      assert b == Date(y + 1, 0, 1);
      YearLength(y);
      DaysBeforeNextYear(y);
    }
  }

  /** A day number counts on linearly from the first of the month, also past its end. */
  lemma DayNumberShift(y: int, m: int, day: int)
    requires ValidMonth(m)
    ensures DayNumber(Date(y, m, day)) == DayNumber(Date(y, m, 1)) + day - 1
  {
  }

  /** The month before `m` is followed by `m` again. */
  lemma PrevMonthStep(y: int, m: int)
    requires ValidMonth(m)
    ensures var p := FirstOfMonth(y, m - 1);
            FirstOfMonth(p.year, p.month + 1) == Date(y, m, 1) &&
            DayNumber(Date(y, m, 1)) == DayNumber(Date(p.year, p.month, 1)) + DaysInMonth(p.year, p.month)
  {
    var p := FirstOfMonth(y, m - 1);
    if m == 0 {
      assert p == Date(y - 1, 11, 1);
    } else {
      assert p == Date(y, m - 1, 1);
    }
    NextMonthDayNumber(p.year, p.month);
  }

  /**
   * `new Date(y, m, day)` for a day number outside the month: JavaScript
   * carries the excess into the following months (or borrows from the
   * preceding ones) and yields the real date that many days from the first.
   */
  function MakeDate(y: int, m: int, day: int): (r: Date)
    requires ValidMonth(m)
    ensures ValidDate(r)
    ensures DayNumber(r) == DayNumber(Date(y, m, day))
    decreases if day < 1 then 1 else 0, if day < 1 then 1 - day else day
  {
    if day < 1 then
      var p := FirstOfMonth(y, m - 1);
      PrevMonthStep(y, m);
      DayNumberShift(y, m, day);
      DayNumberShift(p.year, p.month, day + DaysInMonth(p.year, p.month));
      MakeDate(p.year, p.month, day + DaysInMonth(p.year, p.month))
    else if day <= DaysInMonth(y, m) then Date(y, m, day)
    else
      var n := FirstOfMonth(y, m + 1);
      NextMonthDayNumber(y, m);
      DayNumberShift(y, m, day);
      DayNumberShift(n.year, n.month, day - DaysInMonth(y, m));
      MakeDate(n.year, n.month, day - DaysInMonth(y, m))
  }
}
