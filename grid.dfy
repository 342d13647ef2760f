/**
 * The month grid of CalendarView: the day columns, the forward scans that
 * give a cell its colspan and its edit range, the backward scan that hides
 * cells, the weekday letters, the context menu and the memo comparator.
 */
module Grid {
  import opened Wrappers
  import opened Dates
  import opened Records

  /** What the component reads for one render: the index and the displayed month. */
  datatype View = View(schedule: Schedule, month: int, year: int, daysInMonth: int)

  /** The component's own getScheduleItem(day, person), keyed with the displayed month and year. */
  function Item(v: View, day: int, person: string): (r: Option<Entry>)
    ensures r.Some? <==> Key(v.month, v.year, day, person) in v.schedule
    ensures r.Some? ==> r.value == v.schedule[Key(v.month, v.year, day, person)]
  {
    GetScheduleItem(v.schedule, day, v.month, v.year, person)
  }

  predicate HasCode(v: View, day: int, person: string, code: string) {
    Item(v, day, person).Some? && Item(v, day, person).value.workTypeCode == code
  }

  // ------------------------------------------------------------ generateCalendarDays

  method GenerateCalendarDays(daysInMonth: int) returns (days: seq<int>)
    ensures |days| == if daysInMonth < 0 then 0 else daysInMonth
    ensures forall i :: 0 <= i < |days| ==> days[i] == i + 1
  {
    days := [];
    var i := 1;
    while i <= daysInMonth
      invariant 1 <= i <= (if daysInMonth < 0 then 0 else daysInMonth) + 1
      invariant |days| == i - 1
      invariant forall j :: 0 <= j < |days| ==> days[j] == j + 1
    {
      days := days + [i];
      i := i + 1;
    }
  }

  // ------------------------------------------------------------ getRangeEnd / getColspan

  /** From `e`, extend while the next day of the month has an entry with `code`. */
  function RunEnd(v: View, person: string, code: string, e: int): int
    decreases v.daysInMonth - e
  {
    if e + 1 <= v.daysInMonth && HasCode(v, e + 1, person, code) then RunEnd(v, person, code, e + 1) else e
  }

  /** The last day of the same-code run starting at `day`, or `day` itself when it is empty. */
  function RangeEnd(v: View, day: int, person: string): int {
    match Item(v, day, person)
    case None => day
    case Some(it) => RunEnd(v, person, it.workTypeCode, day)
  }

  lemma {:induction false} RunEndSpec(v: View, person: string, code: string, e: int)
    ensures e <= RunEnd(v, person, code, e)
    ensures RunEnd(v, person, code, e) == e || RunEnd(v, person, code, e) <= v.daysInMonth
    ensures forall q :: e < q <= RunEnd(v, person, code, e) ==> HasCode(v, q, person, code)
    ensures RunEnd(v, person, code, e) + 1 > v.daysInMonth || !HasCode(v, RunEnd(v, person, code, e) + 1, person, code)
    decreases v.daysInMonth - e
  {
    if e + 1 <= v.daysInMonth && HasCode(v, e + 1, person, code) {
      RunEndSpec(v, person, code, e + 1);
    }
  }

  /**
   * getRangeEnd: with no entry at `day` the result is `day`; otherwise it lies
   * in [day, daysInMonth] (or is `day`), every day from `day` to it has an
   * entry with `day`'s code, and the day after it is past the month's end or
   * lacks such an entry.
   */
  lemma RangeEndSpec(v: View, day: int, person: string)
    ensures Item(v, day, person).None? ==> RangeEnd(v, day, person) == day
    ensures Item(v, day, person).Some? ==>
              var code := Item(v, day, person).value.workTypeCode;
              var e := RangeEnd(v, day, person);
              day <= e && (e == day || e <= v.daysInMonth) &&
              (forall q :: day <= q <= e ==> HasCode(v, q, person, code)) &&
              (e + 1 > v.daysInMonth || !HasCode(v, e + 1, person, code))
  {
    if Item(v, day, person).Some? {
      RunEndSpec(v, person, Item(v, day, person).value.workTypeCode, day);
    }
  }

  /** A run that reaches `d` also reaches the next day when it has the same code. */
  lemma {:induction false} RunEndReaches(v: View, person: string, code: string, e: int, d: int)
    requires e <= d <= v.daysInMonth
    requires forall q :: e < q <= d ==> HasCode(v, q, person, code)
    ensures RunEnd(v, person, code, e) >= d
    decreases d - e
  {
    RunEndSpec(v, person, code, e);
    if e < d {
      assert HasCode(v, e + 1, person, code);
      RunEndReaches(v, person, code, e + 1, d);
    }
  }

  /** getRangeEnd: the loop that moves `endDay` forward until the code changes. */
  method GetRangeEnd(v: View, day: int, person: string) returns (endDay: int)
    ensures endDay == RangeEnd(v, day, person)
  {
    var currentType := Item(v, day, person);
    if currentType.None? {
      return day;
    }
    var code := currentType.value.workTypeCode;
    endDay := day;
    var nextDay := day + 1;
    while nextDay <= v.daysInMonth
      invariant endDay == nextDay - 1
      invariant RunEnd(v, person, code, endDay) == RunEnd(v, person, code, day)
      decreases v.daysInMonth - nextDay
    {
      var nextType := Item(v, nextDay, person);
      if nextType.Some? && nextType.value.workTypeCode == code {
        endDay := nextDay;
      } else {
        break;
      }
      nextDay := nextDay + 1;
    }
  }

  /** getColspan: the number of columns the cell at `day` spans. */
  method GetColspan(v: View, day: int, person: string) returns (colspan: int)
    ensures colspan == RangeEnd(v, day, person) - day + 1
    ensures Item(v, day, person).None? ==> colspan == 1
  {
    colspan := 1;
    var currentType := Item(v, day, person);
    if currentType.None? {
      return 1;
    }
    var code := currentType.value.workTypeCode;
    var nextDay := day + 1;
    while nextDay <= v.daysInMonth
      invariant colspan == nextDay - day
      invariant RunEnd(v, person, code, nextDay - 1) == RunEnd(v, person, code, day)
      decreases v.daysInMonth - nextDay
    {
      var nextType := Item(v, nextDay, person);
      if nextType.Some? && nextType.value.workTypeCode == code {
        colspan := colspan + 1;
      } else {
        break;
      }
      nextDay := nextDay + 1;
    }
  }

  // ------------------------------------------------------------ the skip scan

  /**
   * The backward scan of lines 339-352 from `p` down to day 1, for a cell
   * whose code is `code`: it stops with "skip" at a day with that code, stops
   * with "render" at an empty day, and carries on past a day holding a
   * different code.
   */
  function ScanBack(v: View, person: string, code: string, p: int): bool
    decreases p
  {
    if p < 1 then false
    else match Item(v, p, person)
      case None => false
      case Some(it) => if it.workTypeCode == code then true else ScanBack(v, person, code, p - 1)
  }

  /** The skip decision as written. */
  predicate SkippedAsWritten(v: View, day: int, person: string) {
    Item(v, day, person).Some? && ScanBack(v, person, Item(v, day, person).value.workTypeCode, day - 1)
  }

  /** The inline `isSkipped` loop. */
  method IsSkipped(v: View, day: int, person: string) returns (isSkipped: bool)
    ensures isSkipped == SkippedAsWritten(v, day, person)
  {
    var item := Item(v, day, person);
    isSkipped := false;
    var prevDay := day - 1;
    while prevDay >= 1
      invariant prevDay <= day - 1
      invariant !isSkipped
      invariant item.None? ==> prevDay == day - 1
      invariant item.Some? ==> ScanBack(v, person, item.value.workTypeCode, prevDay) == SkippedAsWritten(v, day, person)
    {
      var prevItem := Item(v, prevDay, person);
      if prevItem.Some? && item.Some? && prevItem.value.workTypeCode == item.value.workTypeCode {
        isSkipped := true;
        break;
      } else if prevItem.None? || item.None? {
        break;
      }
      prevDay := prevDay - 1;
    }
  }

  /**
   * What the scan decides: it finds an earlier day with the cell's code
   * reached across occupied days only, whatever their codes.
   */
  lemma {:induction false} ScanBackMeaning(v: View, person: string, code: string, p: int)
    ensures ScanBack(v, person, code, p) <==>
              exists q :: 1 <= q <= p && HasCode(v, q, person, code) &&
                (forall r :: q < r <= p ==> Item(v, r, person).Some?)
    decreases p
  {
    if p >= 1 {
      ScanBackMeaning(v, person, code, p - 1);
      if Item(v, p, person).Some? && Item(v, p, person).value.workTypeCode == code {
        assert HasCode(v, p, person, code);
      } else if Item(v, p, person).Some? {
        if ScanBack(v, person, code, p - 1) {
          var q :| 1 <= q <= p - 1 && HasCode(v, q, person, code) &&
                   (forall r :: q < r <= p - 1 ==> Item(v, r, person).Some?);
          assert forall r :: q < r <= p ==> Item(v, r, person).Some?;
        }
        if exists q :: 1 <= q <= p && HasCode(v, q, person, code) &&
                         (forall r :: q < r <= p ==> Item(v, r, person).Some?) {
          var q :| 1 <= q <= p && HasCode(v, q, person, code) &&
                   (forall r :: q < r <= p ==> Item(v, r, person).Some?);
          assert q != p;
          assert forall r :: q < r <= p - 1 ==> Item(v, r, person).Some?;
        }
      }
    }
  }

  /** Day 1 and empty days are never skipped; a day whose predecessor has its code is. */
  lemma SkipBasics(v: View, day: int, person: string)
    ensures day <= 1 ==> !SkippedAsWritten(v, day, person)
    ensures Item(v, day, person).None? ==> !SkippedAsWritten(v, day, person)
    ensures (day > 1 && Item(v, day, person).Some? &&
             HasCode(v, day - 1, person, Item(v, day, person).value.workTypeCode)) ==> SkippedAsWritten(v, day, person)
  {
  }

  /** The three-day row A, B, A used by the example below. */
  function AbaView(person: string): View {
    var a := Entry("a1", "A", Date(2024, 8, 1), Date(2024, 8, 1), "u1");
    var b := Entry("b1", "B", Date(2024, 8, 2), Date(2024, 8, 2), "u1");
    var a2 := Entry("a2", "A", Date(2024, 8, 3), Date(2024, 8, 3), "u1");
    View(map[Key(8, 2024, 1, person) := a, Key(8, 2024, 2, person) := b, Key(8, 2024, 3, person) := a2], 8, 2024, 30)
  }

  /**
   * In the row A, B, A day 3 is skipped although the cells of days 1 and 2
   * each span one column: no colspan covers day 3 and the row is one cell short.
   */
  lemma SkipQuirkExample(person: string)
    ensures SkippedAsWritten(AbaView(person), 3, person)
    ensures RangeEnd(AbaView(person), 1, person) == 1 && RangeEnd(AbaView(person), 2, person) == 2
    ensures !CoveredByEarlierSpan(AbaView(person), 3, person)
  {
    var v := AbaView(person);
    assert Item(v, 3, person).Some? && Item(v, 2, person).Some? && Item(v, 1, person).Some?;
    assert ScanBack(v, person, "A", 1);
    assert ScanBack(v, person, "A", 2);
  }

  /**
   * The evident intent: hide a cell exactly when the previous day's cell has
   * the same code, i.e. when an earlier cell's colspan already covers it.
   */
  predicate CoveredByEarlierSpan(v: View, day: int, person: string) {
    day > 1 && Item(v, day, person).Some? && HasCode(v, day - 1, person, Item(v, day, person).value.workTypeCode)
  }

  /** A drawn cell is one that is not covered. */
  predicate StartsCell(v: View, p: int, person: string) {
    1 <= p <= v.daysInMonth && !CoveredByEarlierSpan(v, p, person)
  }

  /** Inside a run, every day after the first is covered by its predecessor. */
  lemma RunInterior(v: View, p: int, q: int, person: string)
    requires 1 <= p && Item(v, p, person).Some? && p < q <= RangeEnd(v, p, person)
    ensures CoveredByEarlierSpan(v, q, person)
  {
    RangeEndSpec(v, p, person);
    var code := Item(v, p, person).value.workTypeCode;
    assert HasCode(v, q, person, code) && HasCode(v, q - 1, person, code);
  }

  /**
   * Row coverage with the corrected skip: every day of the month is covered
   * by exactly one drawn cell, the one starting at the latest uncovered
   * day, and no drawn cell runs past the month's end.
   */
  lemma {:induction false} RowCoverage(v: View, person: string, d: int)
    requires 1 <= d <= v.daysInMonth
    ensures exists p :: StartsCell(v, p, person) && p <= d <= RangeEnd(v, p, person)
    ensures forall p1, p2 ::
              (StartsCell(v, p1, person) && p1 <= d <= RangeEnd(v, p1, person) &&
               StartsCell(v, p2, person) && p2 <= d <= RangeEnd(v, p2, person)) ==> p1 == p2
    ensures forall p :: StartsCell(v, p, person) ==> RangeEnd(v, p, person) <= v.daysInMonth
    decreases d
  {
    forall p | StartsCell(v, p, person) ensures RangeEnd(v, p, person) <= v.daysInMonth {
      RangeEndSpec(v, p, person);
    }
    if !CoveredByEarlierSpan(v, d, person) {
      RangeEndSpec(v, d, person);
      assert StartsCell(v, d, person);
    } else {
      RowCoverage(v, person, d - 1);
      var p :| StartsCell(v, p, person) && p <= d - 1 <= RangeEnd(v, p, person);
      var code := Item(v, d, person).value.workTypeCode;
      if p == d - 1 {
        RangeEndSpec(v, p, person);
        assert Item(v, p, person).value.workTypeCode == code;
        RunEndReaches(v, person, code, p, d);
      } else {
        RangeEndSpec(v, p, person);
        assert Item(v, p, person).Some?;
        var pc := Item(v, p, person).value.workTypeCode;
        assert HasCode(v, d - 1, person, pc);
        assert pc == code;
        RunEndReaches(v, person, code, p, d);
      }
      assert StartsCell(v, p, person) && p <= d <= RangeEnd(v, p, person);
    }
    forall p1, p2 |
        StartsCell(v, p1, person) && p1 <= d <= RangeEnd(v, p1, person) &&
        StartsCell(v, p2, person) && p2 <= d <= RangeEnd(v, p2, person)
      ensures p1 == p2
    {
      if p1 < p2 {
        assert Item(v, p1, person).Some?;
        RunInterior(v, p1, p2, person);
      } else if p2 < p1 {
        assert Item(v, p2, person).Some?;
        RunInterior(v, p2, p1, person);
      }
    }
  }

  /**
   * No code returns after a different one inside an occupied stretch (no
   * A,B,A pattern): whenever a day's code appears earlier with only occupied
   * days in between, the day just before holds it too. Plain shift changes
   * such as A,A,B,B are allowed.
   */
  predicate NoCodeReturn(v: View, person: string) {
    forall q, d :: 1 <= q < d <= v.daysInMonth && Item(v, d, person).Some? &&
                   HasCode(v, q, person, Item(v, d, person).value.workTypeCode) &&
                   (forall r :: q < r < d ==> Item(v, r, person).Some?) ==>
      HasCode(v, d - 1, person, Item(v, d, person).value.workTypeCode)
  }

  /** Without an A,B,A pattern in the row, the scan as written hides exactly the covered days. */
  lemma AsWrittenAgreesWithoutCodeReturn(v: View, day: int, person: string)
    requires NoCodeReturn(v, person) && 1 <= day <= v.daysInMonth
    ensures SkippedAsWritten(v, day, person) <==> CoveredByEarlierSpan(v, day, person)
  {
    SkipBasics(v, day, person);
    if SkippedAsWritten(v, day, person) {
      var code := Item(v, day, person).value.workTypeCode;
      ScanBackMeaning(v, person, code, day - 1);
      var q :| 1 <= q <= day - 1 && HasCode(v, q, person, code) &&
               (forall r :: q < r <= day - 1 ==> Item(v, r, person).Some?);
      assert forall r :: q < r < day ==> Item(v, r, person).Some?;
    }
  }

  // ------------------------------------------------------------ getDayLetter

  /** The letter array of getDayLetter, Monday first. */
  const Letters: seq<char> := ['L', 'M', 'X', 'J', 'V', 'S', 'D']

  /** getDayLetter as written: the Monday-first array indexed by `getDay()`, which counts from Sunday. */
  function DayLetter(year: int, month: int, day: int): char
    requires ValidMonth(month)
  {
    Letters[Weekday(Date(year, month, day))]
  }

  /** The corrected letter: shift `getDay()` so that Monday reads 'L' and Sunday 'D'. */
  function DayLetterCorrected(year: int, month: int, day: int): char
    requires ValidMonth(month)
  {
    Letters[(Weekday(Date(year, month, day)) + 6) % 7]
  }

  /** The grey weekend shading of line 362 applies to letters 'D' and 'S'. */
  predicate ShadedAsWeekend(letter: char) {
    letter == 'D' || letter == 'S'
  }

  /** As written, Sunday reads 'L' and the shading falls on Friday (5) and Saturday (6). */
  lemma DayLetterAsWritten(year: int, month: int, day: int)
    requires ValidMonth(month)
    ensures Weekday(Date(year, month, day)) == 0 ==> DayLetter(year, month, day) == 'L'
    ensures ShadedAsWeekend(DayLetter(year, month, day)) <==> Weekday(Date(year, month, day)) in {5, 6}
  {
  }

  /** 1 September 2024 was a Sunday, and the grid labels it 'L'. */
  lemma SundayLabelledL()
    ensures Weekday(Date(2024, 8, 1)) == 0
    ensures DayLetter(2024, 8, 1) == 'L'
  {
    assert DaysBeforeMonth(2024, 8) == 244;
  }

  /** Corrected, Sunday reads 'D', Monday 'L', and the shading falls on Saturday and Sunday. */
  lemma DayLetterCorrectedSpec(year: int, month: int, day: int)
    requires ValidMonth(month)
    ensures Weekday(Date(year, month, day)) == 0 ==> DayLetterCorrected(year, month, day) == 'D'
    ensures Weekday(Date(year, month, day)) == 1 ==> DayLetterCorrected(year, month, day) == 'L'
    ensures ShadedAsWeekend(DayLetterCorrected(year, month, day)) <==> Weekday(Date(year, month, day)) in {0, 6}
  {
  }

  /**
   * A drawn cell's background: the code's colour when the code is in the
   * dictionary, then today's tint, then the weekend grey, then the
   * alternating row stripe. `today` is the day number when the displayed month
   * is the current one.
   */
  function CellBackground(v: View, workTypes: map<string, WorkTypeInfo>, today: Option<int>,
                          day: int, person: string, personIdx: int): string
    requires ValidMonth(v.month)
  {
    var item := Item(v, day, person);
    if item.Some? && item.value.workTypeCode in workTypes then workTypes[item.value.workTypeCode].color
    else if today == Some(day) then "#eff8ffff"
    else if ShadedAsWeekend(DayLetter(v.year, v.month, day)) then "#ebebeb"
    else if personIdx % 2 == 0 then "#fafafa" else "#fff"
  }

  /**
   * For a cell that is empty or whose code is not in the dictionary (so
   * `workData` is falsy) and that is not today, the grey weekend
   * background lands exactly on Fridays and Saturdays, and a Sunday gets
   * the plain stripe.
   */
  lemma WeekendShadingAsWritten(v: View, workTypes: map<string, WorkTypeInfo>, today: Option<int>,
                                day: int, person: string, personIdx: int)
    requires ValidMonth(v.month)
    requires !(Item(v, day, person).Some? && Item(v, day, person).value.workTypeCode in workTypes)
    requires today != Some(day)
    ensures CellBackground(v, workTypes, today, day, person, personIdx) == "#ebebeb" <==>
              Weekday(Date(v.year, v.month, day)) in {5, 6}
  {
    DayLetterAsWritten(v.year, v.month, day);
  }

  // ------------------------------------------------------------ clicks and the context menu

  datatype Action =
    | EditAssignment(startDay: int, endDay: int, person: string, code: string)
    | DateClick(day: int, person: string)
    | DeleteAssignment(assignmentId: string)

  /** The cell's onClick: edit the run starting here, or open a new assignment on an empty day. */
  function CellClick(v: View, day: int, person: string): Action {
    match Item(v, day, person)
    case Some(it) => EditAssignment(day, RangeEnd(v, day, person), person, it.workTypeCode)
    case None => DateClick(day, person)
  }

  /** What handleContextMenu captures: the cell, its entry and the end of its run. */
  datatype Selection = Selection(day: int, person: string, item: Entry, endDay: int)

  /** The context menu state of CalendarView (the mouse position is left out). */
  class ContextMenu {
    var selected: Option<Selection>
    var menuOpen: bool
    var confirmOpen: bool

    constructor()
      ensures selected == None && !menuOpen && !confirmOpen
    {
      selected, menuOpen, confirmOpen := None, false, false;
    }

    /** handleContextMenu: nothing happens on an empty cell. */
    method Open(v: View, day: int, person: string)
      modifies this
      ensures Item(v, day, person).None? ==> unchanged(this)
      ensures Item(v, day, person).Some? ==>
                selected == Some(Selection(day, person, Item(v, day, person).value, RangeEnd(v, day, person))) &&
                menuOpen && confirmOpen == old(confirmOpen)
    {
      var item := Item(v, day, person);
      if item.None? {
        return;
      }
      var endDay := GetRangeEnd(v, day, person);
      selected := Some(Selection(day, person, item.value, endDay));
      menuOpen := true;
    }

    /** handleEditFromContext: edits (day, endDay, person, code) of the selection and closes the menu. */
    method EditFromContext() returns (action: Option<Action>)
      modifies this
      ensures action == if old(selected).Some?
                        then Some(EditAssignment(old(selected).value.day, old(selected).value.endDay,
                                                 old(selected).value.person, old(selected).value.item.workTypeCode))
                        else None
      ensures !menuOpen && selected == old(selected) && confirmOpen == old(confirmOpen)
    {
      action := None;
      if selected.Some? {
        var s := selected.value;
        action := Some(EditAssignment(s.day, s.endDay, s.person, s.item.workTypeCode));
      }
      menuOpen := false;
    }

    /** handleDeleteFromContext: asks for confirmation and closes the menu. */
    method DeleteFromContext()
      modifies this
      ensures confirmOpen && !menuOpen && selected == old(selected)
    {
      confirmOpen := true;
      menuOpen := false;
    }

    /** handleConfirmDelete: deletes the selection's assignment id, then clears the selection. */
    method ConfirmDelete() returns (action: Option<Action>)
      modifies this
      ensures action == if old(selected).Some? then Some(DeleteAssignment(old(selected).value.item.assignmentId)) else None
      ensures !confirmOpen && selected == None && menuOpen == old(menuOpen)
    {
      action := None;
      if selected.Some? {
        action := Some(DeleteAssignment(selected.value.item.assignmentId));
      }
      confirmOpen := false;
      selected := None;
    }
  }

  /**
   * The click handler and the context menu's edit item hand the same
   * (day, getRangeEnd(day), person, code) to the edit callback, and delete
   * names the entry's assignment id.
   */
  method ContextMenuAgreesWithClick(v: View, day: int, person: string) returns (edit: Option<Action>, delete: Option<Action>)
    requires Item(v, day, person).Some?
    ensures edit == Some(CellClick(v, day, person))
    ensures CellClick(v, day, person) ==
              EditAssignment(day, RangeEnd(v, day, person), person, Item(v, day, person).value.workTypeCode)
    ensures delete == Some(DeleteAssignment(Item(v, day, person).value.assignmentId))
  {
    var menu := new ContextMenu();
    menu.Open(v, day, person);
    edit := menu.EditFromContext();
    menu.DeleteFromContext();
    delete := menu.ConfirmDelete();
  }

  // ------------------------------------------------------------ arePropsEqual

  /** The props the comparator reads: currentDate's time value, the name list, the index, the code dictionary. */
  datatype Props = Props(currentTime: int, personnel: seq<string>, schedule: Schedule, workTypes: map<string, WorkTypeInfo>)

  /** arePropsEqual as written: the index and the codes are compared by their key counts only. */
  function ArePropsEqual(prev: Props, next: Props): (r: bool)
    ensures r <==> prev.currentTime == next.currentTime && prev.personnel == next.personnel &&
                   |prev.schedule.Keys| == |next.schedule.Keys| && |prev.workTypes.Keys| == |next.workTypes.Keys|
  {
    if prev.currentTime != next.currentTime then false
    else if |prev.personnel| != |next.personnel| then false
    else if exists i :: 0 <= i < |prev.personnel| && prev.personnel[i] != next.personnel[i] then false
    else if |prev.schedule.Keys| != |next.schedule.Keys| then false
    else if |prev.workTypes.Keys| != |next.workTypes.Keys| then false
    else true
  }

  /**
   * Changing an entry's code keeps the key count, so the comparator reports
   * equal props and React.memo keeps the stale grid.
   */
  lemma StaleGridExample(e: Entry, k: Key, code: string)
    requires code != e.workTypeCode
    ensures var p := Props(0, ["ANA"], map[k := e], map[]);
            var q := p.(schedule := map[k := e.(workTypeCode := code)]);
            ArePropsEqual(p, q) && p.schedule != q.schedule
  {
    var p := Props(0, ["ANA"], map[k := e], map[]);
    var q := p.(schedule := map[k := e.(workTypeCode := code)]);
    assert p.schedule[k] != q.schedule[k];
  }

  /** The corrected comparator: skip a render only when everything the grid draws from is equal. */
  function ArePropsEqualCorrected(prev: Props, next: Props): bool {
    prev.currentTime == next.currentTime && prev.personnel == next.personnel &&
    prev.schedule == next.schedule && prev.workTypes == next.workTypes
  }

  /** With the corrected comparator, props reported equal are equal, so the skipped render would draw the same grid. */
  lemma CorrectedComparatorSound(prev: Props, next: Props)
    ensures ArePropsEqualCorrected(prev, next) <==> prev == next
    ensures ArePropsEqualCorrected(prev, next) ==> ArePropsEqual(prev, next)
  {
  }
}
