/** useCalendar: the displayed date and the month arithmetic around it. */
module Calendar {
  import opened Dates

  /**
   * getDaysInMonth builds `new Date(y, m + 1, 0)`, the day before the first
   * of the next month, and reads its day of the month: that day is the
   * month's last, whose number is the Gregorian month length.
   */
  lemma DayZeroOfNextMonth(y: int, m: int)
    requires ValidMonth(m)
    ensures ValidDate(Date(y, m, DaysInMonth(y, m)))
    ensures NextDay(Date(y, m, DaysInMonth(y, m))) == FirstOfMonth(y, m + 1)
    ensures DayNumber(Date(y, m, DaysInMonth(y, m))) + 1 == DayNumber(FirstOfMonth(y, m + 1))
  {
    var last := Date(y, m, DaysInMonth(y, m));
    NextDayNumber(last);
    if m < 11 {
      assert FirstOfMonth(y, m + 1) == Date(y, m + 1, 1);
    } else {
      assert FirstOfMonth(y, m + 1) == Date(y + 1, 0, 1);
    }
  }

  /** The month steps: forward and back by one, wrapping December and January into the next or previous year. */
  lemma MonthSteps(y: int, m: int)
    requires ValidMonth(m)
    ensures FirstOfMonth(y, m + 1) == if m == 11 then Date(y + 1, 0, 1) else Date(y, m + 1, 1)
    ensures FirstOfMonth(y, m - 1) == if m == 0 then Date(y - 1, 11, 1) else Date(y, m - 1, 1)
  {
  }

  /** Next followed by previous (and previous followed by next) lands on the first of the same month. */
  lemma NextThenPrev(y: int, m: int)
    requires ValidMonth(m)
    ensures var n := FirstOfMonth(y, m + 1); FirstOfMonth(n.year, n.month - 1) == Date(y, m, 1)
    ensures var p := FirstOfMonth(y, m - 1); FirstOfMonth(p.year, p.month + 1) == Date(y, m, 1)
  {
    MonthSteps(y, m);
    var n := FirstOfMonth(y, m + 1);
    MonthSteps(n.year, n.month);
    var p := FirstOfMonth(y, m - 1);
    MonthSteps(p.year, p.month);
  }

  /**
   * getFirstDayOfMonth: the weekday (0 = Sunday) of day 1; the next month's
   * first weekday is this one shifted by the month's length.
   */
  lemma FirstDayOfMonthSpec(y: int, m: int)
    requires ValidMonth(m)
    ensures 0 <= Weekday(Date(y, m, 1)) < 7
    ensures Weekday(FirstOfMonth(y, m + 1)) == (Weekday(Date(y, m, 1)) + DaysInMonth(y, m)) % 7
  {
    FirstOfNextMonthWeekday(y, m);
    assert FirstOfMonth(y, m) == Date(y, m, 1);
  }

  class CalendarState {
    var currentDate: Date

    constructor(today: Date)
      requires ValidDate(today)
      ensures currentDate == today && Valid()
    {
      currentDate := today;
    }

    /** The displayed date is a real calendar day. */
    predicate Valid()
      reads this
    {
      ValidDate(currentDate)
    }

    /** getDaysInMonth(currentDate). */
    function DaysInCurrentMonth(): (n: int)
      reads this
      requires Valid()
      ensures 28 <= n <= 31
      ensures currentDate.day <= n
    {
      DaysInMonth(currentDate.year, currentDate.month)
    }

    /** handlePrevMonth: day 1 of the previous month. */
    method PrevMonth()
      modifies this
      ensures currentDate == FirstOfMonth(old(currentDate.year), old(currentDate.month) - 1)
      ensures Valid() && currentDate.day == 1
    {
      currentDate := FirstOfMonth(currentDate.year, currentDate.month - 1);
    }

    /** handleNextMonth: day 1 of the next month. */
    method NextMonth()
      modifies this
      ensures currentDate == FirstOfMonth(old(currentDate.year), old(currentDate.month) + 1)
      ensures Valid() && currentDate.day == 1
    {
      currentDate := FirstOfMonth(currentDate.year, currentDate.month + 1);
    }
  }

  /** Stepping forward then back returns to day 1 of the month shown before. */
  method NextThenPrevOnState(start: Date) returns (endDate: Date)
    requires ValidDate(start)
    ensures endDate == Date(start.year, start.month, 1)
  {
    var cal := new CalendarState(start);
    cal.NextMonth();
    cal.PrevMonth();
    NextThenPrev(start.year, start.month);
    endDate := cal.currentDate;
  }
}
