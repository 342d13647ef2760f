/**
 * PersonnelSchedule: the assignment dialog. Clicking a cell fills its
 * fields, the end-day input keeps the range forward, and saving checks the
 * fields before it asks the assignment cache to create or update a record.
 */
module PersonnelSchedule {
  import opened Wrappers
  import opened Dates
  import opened Records
  import opened Assignments

  // ------------------------------------------------------------ pure pieces

  /** `(parseInt(text) || selectedDate)` then `Math.max(selectedDate, ...)`; a text that does not parse is None. */
  function EndDayInput(selectedDate: int, parsed: Option<int>): (r: int)
    ensures r >= selectedDate
    ensures r == selectedDate || (parsed.Some? && r == parsed.value)
    ensures parsed.Some? && parsed.value != 0 && parsed.value > selectedDate ==> r == parsed.value
    ensures parsed.None? || parsed.value == 0 ==> r == selectedDate
  {
    var candidate := if parsed.Some? && parsed.value != 0 then parsed.value else selectedDate;
    if candidate > selectedDate then candidate else selectedDate
  }

  /** Nothing holds the end day inside the month: day 40 of a 30-day month goes through. */
  lemma EndDayNotClamped()
    ensures EndDayInput(3, Some(40)) == 40
    ensures MakeDate(2024, 8, 40) == Date(2024, 9, 10)
  {
    assert DaysInMonth(2024, 8) == 30;
    assert FirstOfMonth(2024, 9) == Date(2024, 9, 1);
    assert MakeDate(2024, 9, 10) == Date(2024, 9, 10);
  }

  /** `toUpperCase` on ASCII letters. */
  function ToUpper(s: string): (r: string)
    ensures |r| == |s|
    ensures forall i :: 0 <= i < |s| ==>
              r[i] == (if 'a' <= s[i] <= 'z' then (s[i] as int - 32) as char else s[i])
    ensures forall i :: 0 <= i < |s| ==> !('a' <= r[i] <= 'z')
  {
    seq(|s|, i requires 0 <= i < |s| => if 'a' <= s[i] <= 'z' then (s[i] as int - 32) as char else s[i])
  }

  /**
   * From handleEditAssignment: the assignment's user id is the person's, it
   * starts on `startDay`, and has `code`. An invalid start date is a `NaN`
   * date, whose `getDate()` equals no day.
   */
  predicate EditMatch(a: Assignment, userId: string, startDay: int, code: string) {
    AssignmentUserId(a) == Some(userId) && ValidDate(a.startDate) && a.startDate.day == startDay &&
    a.workTypeCode == code
  }

  /** An assignment with an invalid start date is never the edit target, whatever day is asked for. */
  lemma InvalidStartNeverEdited(assignments: seq<Assignment>, userId: string, startDay: int, code: string)
    requires forall i :: 0 <= i < |assignments| ==> !ValidDate(assignments[i].startDate)
    ensures FindEditTarget(assignments, userId, startDay, code) == None
  {
  }

  /** `assignments.find(...)` of handleEditAssignment: the first match in cache order. */
  function FindEditTarget(assignments: seq<Assignment>, userId: string, startDay: int, code: string): (r: Option<Assignment>)
    ensures r.Some? ==>
              exists i :: 0 <= i < |assignments| && assignments[i] == r.value && EditMatch(r.value, userId, startDay, code) &&
                (forall j :: 0 <= j < i ==> !EditMatch(assignments[j], userId, startDay, code))
    ensures r.None? <==> forall i :: 0 <= i < |assignments| ==> !EditMatch(assignments[i], userId, startDay, code)
  {
    if assignments == [] then None
    else if EditMatch(assignments[0], userId, startDay, code) then Some(assignments[0])
    else
      var r := FindEditTarget(assignments[1..], userId, startDay, code);
      assert forall i :: 0 < i < |assignments| ==> assignments[i] == assignments[1..][i - 1];
      r
  }

  /** What handleSaveSchedule sends: the user's id, the upper-cased code, and the two dates. */
  datatype Payload = Payload(userId: string, workTypeCode: string, startDate: Date, endDate: Date)

  datatype SaveDecision =
    | Incomplete
    | BadRange
    | UnknownUser
    | SendCreate(payload: Payload)
    | SendUpdate(id: string, payload: Payload)

  /** JavaScript falsiness of the dialog's fields (`null`, 0, ""). */
  predicate MissingDay(d: Option<int>) { d.None? || d.value == 0 }
  predicate MissingName(p: Option<string>) { p.None? || p.value == "" }

  /** The checks of handleSaveSchedule, in order, and the request it would send. */
  function DecideSave(workType: string, selectedDate: Option<int>, selectedPerson: Option<string>, endDate: Option<int>,
                      editingAssignmentId: Option<string>, users: seq<User>, month: int, year: int): SaveDecision
    requires ValidMonth(month)
  {
    if workType == "" || MissingDay(selectedDate) || MissingName(selectedPerson) || MissingDay(endDate) then Incomplete
    else if selectedDate.value > endDate.value then BadRange
    else match FindByName(users, selectedPerson.value)
      case None => UnknownUser
      case Some(user) =>
        var payload := Payload(user.id, ToUpper(workType), MakeDate(year, month, selectedDate.value), MakeDate(year, month, endDate.value));
        if editingAssignmentId.Some? && editingAssignmentId.value != "" then SendUpdate(editingAssignmentId.value, payload)
        else SendCreate(payload)
  }

  /**
   * A request goes out only when all four fields are set, the start is not
   * after the end and the person is a known user; it is an update exactly
   * when an assignment is being edited. Its payload carries that user's id,
   * the upper-cased code and start and end dates that lie the chosen numbers
   * of days into the displayed month, in order.
   */
  lemma DecideSaveSpec(workType: string, selectedDate: Option<int>, selectedPerson: Option<string>, endDate: Option<int>,
                       editingAssignmentId: Option<string>, users: seq<User>, month: int, year: int)
    requires ValidMonth(month)
    ensures var d := DecideSave(workType, selectedDate, selectedPerson, endDate, editingAssignmentId, users, month, year);
            (d == Incomplete <==> workType == "" || MissingDay(selectedDate) || MissingName(selectedPerson) || MissingDay(endDate)) &&
            ((d.SendCreate? || d.SendUpdate?) <==>
               !(workType == "" || MissingDay(selectedDate) || MissingName(selectedPerson) || MissingDay(endDate)) &&
               selectedDate.value <= endDate.value && FindByName(users, selectedPerson.value).Some?) &&
            (d.SendUpdate? <==> (d.SendCreate? || d.SendUpdate?) && editingAssignmentId.Some? && editingAssignmentId.value != "")
    ensures var d := DecideSave(workType, selectedDate, selectedPerson, endDate, editingAssignmentId, users, month, year);
            (d.SendCreate? || d.SendUpdate?) ==>
              var p := d.payload;
              p.userId == FindByName(users, selectedPerson.value).value.id &&
              FindByName(users, selectedPerson.value).value.name == selectedPerson.value &&
              p.workTypeCode == ToUpper(workType) &&
              DayNumber(p.startDate) == DayNumber(Date(year, month, 1)) + selectedDate.value - 1 &&
              DayNumber(p.endDate) == DayNumber(Date(year, month, 1)) + endDate.value - 1 &&
              DateLe(p.startDate, p.endDate) &&
              (1 <= selectedDate.value <= endDate.value <= DaysInMonth(year, month) ==>
                 p.startDate == Date(year, month, selectedDate.value) && p.endDate == Date(year, month, endDate.value))
  {
    var d := DecideSave(workType, selectedDate, selectedPerson, endDate, editingAssignmentId, users, month, year);
    if d.SendCreate? || d.SendUpdate? {
      var p := d.payload;
      if p.startDate != p.endDate {
        DateLeDayNumber(p.startDate, p.endDate);
        if !DateLe(p.startDate, p.endDate) {
          DateLeDayNumber(p.endDate, p.startDate);
          DayNumberMonotone(p.endDate, p.startDate);
        }
      }
    }
  }

  // ------------------------------------------------------------ the dialog's state

  datatype Snackbar = Snackbar(message: string, isError: bool)

  /**
   * The request part of handleSaveSchedule: update when an assignment is
   * being edited, create otherwise, and the message shown afterwards.
   */
  method Send(d: SaveDecision, store: AssignmentStore, outcome: Remote<Assignment>) returns (snackbar: Snackbar)
    requires d.SendCreate? || d.SendUpdate?
    modifies store
    ensures d.SendCreate? && outcome.Success? ==>
              store.assignments == AfterCreate(old(store.assignments), old(store.currentMonth), old(store.currentYear), outcome.data) &&
              snackbar == Snackbar("Asignación creada correctamente", false)
    ensures d.SendUpdate? && outcome.Success? ==>
              store.assignments == AfterUpdate(old(store.assignments), old(store.currentMonth), old(store.currentYear), d.id, outcome.data) &&
              snackbar == Snackbar("Asignación actualizada correctamente", false)
    ensures outcome.Failure? ==>
              store.assignments == old(store.assignments) &&
              snackbar == Snackbar(ErrorText(outcome.msg, "Error al guardar asignación"), true)
  {
    if d.SendUpdate? {
      var r := store.Update(d.id, outcome);
      snackbar := Snackbar("Asignación actualizada correctamente", false);
    } else {
      var r := store.Create(outcome);
      snackbar := Snackbar("Asignación creada correctamente", false);
    }
    if outcome.Failure? {
      snackbar := Snackbar(ErrorText(outcome.msg, "Error al guardar asignación"), true);
    }
  }

  class ScheduleDialog {
    var selectedDate: Option<int>
    var selectedPerson: Option<string>
    var workType: string
    var endDate: Option<int>
    var editingAssignmentId: Option<string>
    var open: bool

    constructor()
      ensures selectedDate == None && selectedPerson == None && workType == "" && endDate == None
      ensures editingAssignmentId == None && !open
    {
      selectedDate, selectedPerson, workType, endDate, editingAssignmentId, open := None, None, "", None, None, false;
    }

    /** handleDateClick: a fresh one-day assignment for the clicked cell. */
    method DateClick(day: int, person: string)
      modifies this
      ensures selectedDate == Some(day) && endDate == Some(day) && selectedPerson == Some(person)
      ensures editingAssignmentId == None && workType == "" && open
    {
      selectedDate := Some(day);
      selectedPerson := Some(person);
      endDate := Some(day);
      editingAssignmentId := None;
      workType := "";
      open := true;
    }

    /**
     * handleEditAssignment: fill the fields from the run; when the person is
     * a user, edit the first cached assignment that matches and open the
     * dialog; with no match the previous editing id stays.
     */
    method EditAssignment(startDay: int, endDay: int, person: string, code: string, users: seq<User>, assignments: seq<Assignment>)
      modifies this
      ensures selectedDate == Some(startDay) && endDate == Some(endDay) && selectedPerson == Some(person) && workType == code
      ensures FindByName(users, person).None? ==> editingAssignmentId == old(editingAssignmentId) && open == old(open)
      ensures FindByName(users, person).Some? ==>
                open &&
                var target := FindEditTarget(assignments, FindByName(users, person).value.id, startDay, code);
                editingAssignmentId == if target.Some? then Some(target.value.id) else old(editingAssignmentId)
    {
      selectedDate := Some(startDay);
      selectedPerson := Some(person);
      endDate := Some(endDay);
      workType := code;
      var user := FindByName(users, person);
      if user.None? {
        return;
      }
      var existing := FindEditTarget(assignments, user.value.id, startDay, code);
      if existing.Some? {
        editingAssignmentId := Some(existing.value.id);
      }
      open := true;
    }

    /** The end-day field's onChange. A dialog without a start day reads it as 0, as `Math.max(null, ...)` does. */
    method EndDayChange(parsed: Option<int>)
      modifies this
      ensures endDate == Some(EndDayInput(if old(selectedDate).Some? then old(selectedDate).value else 0, parsed))
      ensures selectedDate == old(selectedDate) && selectedPerson == old(selectedPerson) && workType == old(workType)
      ensures editingAssignmentId == old(editingAssignmentId) && open == old(open)
    {
      var sel := if selectedDate.Some? then selectedDate.value else 0;
      endDate := Some(EndDayInput(sel, parsed));
    }

    /**
     * handleSaveSchedule. A rejected check sends nothing and changes nothing
     * but the message; a sent request that succeeds closes and clears the
     * dialog; one that fails keeps the dialog as it was.
     */
    method Save(users: seq<User>, month: int, year: int, store: AssignmentStore, outcome: Remote<Assignment>)
      returns (snackbar: Snackbar, decision: SaveDecision)
      requires ValidMonth(month)
      modifies this, store
      ensures decision == DecideSave(old(workType), old(selectedDate), old(selectedPerson), old(endDate),
                                     old(editingAssignmentId), users, month, year)
      ensures decision.Incomplete? ==> snackbar == Snackbar("Por favor completa todos los campos", true)
      ensures decision.BadRange? ==> snackbar == Snackbar("La fecha inicial no puede ser mayor a la final", true)
      ensures decision.UnknownUser? ==> snackbar == Snackbar("Usuario no encontrado", true)
      ensures decision.Incomplete? || decision.BadRange? || decision.UnknownUser? ==> unchanged(this) && unchanged(store)
      ensures decision.SendCreate? && outcome.Success? ==>
                store.assignments == AfterCreate(old(store.assignments), old(store.currentMonth), old(store.currentYear), outcome.data) &&
                snackbar == Snackbar("Asignación creada correctamente", false)
      ensures decision.SendUpdate? && outcome.Success? ==>
                store.assignments == AfterUpdate(old(store.assignments), old(store.currentMonth), old(store.currentYear), decision.id, outcome.data) &&
                snackbar == Snackbar("Asignación actualizada correctamente", false)
      ensures (decision.SendCreate? || decision.SendUpdate?) && outcome.Failure? ==>
                unchanged(this) && store.assignments == old(store.assignments) &&
                snackbar == Snackbar(ErrorText(outcome.msg, "Error al guardar asignación"), true)
      ensures (decision.SendCreate? || decision.SendUpdate?) && outcome.Success? ==>
                !open && workType == "" && endDate == None && selectedDate == None &&
                selectedPerson == None && editingAssignmentId == None
    {
      decision := DecideSave(workType, selectedDate, selectedPerson, endDate, editingAssignmentId, users, month, year);
      if decision.Incomplete? {
        return Snackbar("Por favor completa todos los campos", true), decision;
      } else if decision.BadRange? {
        return Snackbar("La fecha inicial no puede ser mayor a la final", true), decision;
      } else if decision.UnknownUser? {
        return Snackbar("Usuario no encontrado", true), decision;
      }
      snackbar := Send(decision, store, outcome);
      if outcome.Failure? {
        return;
      }
      Reset();
    }

    /** The reset after a successful save: the dialog closes and every field is cleared. */
    method Reset()
      modifies this
      ensures !open && workType == "" && endDate == None && selectedDate == None
      ensures selectedPerson == None && editingAssignmentId == None
    {
      open, workType, endDate, selectedDate, selectedPerson, editingAssignmentId := false, "", None, None, None, None;
    }
  }
}
