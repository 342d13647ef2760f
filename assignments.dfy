/**
 * useAssignments: the client-side cache of assignment records, with the
 * month/year window it was loaded for. Each remote call's outcome is a
 * parameter; a rejected mutation leaves the cache alone, records the
 * message and hands the rejection back to the caller.
 */
module Assignments {
  import opened Wrappers
  import opened Records
  import opened Dates
  import opened SeqOps

  // ------------------------------------------------------------ the window

  /**
   * Whether a record belongs in the cache: always when no month filter is
   * set, otherwise when its start date's month and year are the filter's.
   * An invalid start date is JavaScript's `NaN` date, whose month matches no filter.
   */
  predicate InWindow(a: Assignment, currentMonth: Option<int>, currentYear: Option<int>) {
    currentMonth.None? ||
    (ValidDate(a.startDate) && Some(a.startDate.month) == currentMonth && Some(a.startDate.year) == currentYear)
  }

  predicate AllInWindow(list: seq<Assignment>, currentMonth: Option<int>, currentYear: Option<int>) {
    forall a :: a in list ==> InWindow(a, currentMonth, currentYear)
  }

  function HasId(id: string): Assignment -> bool {
    (a: Assignment) => a.id == id
  }

  /** The filter of deleteAssignmentsByUserAndMonth: userId, month and year all equal the arguments. */
  function OfUserAndMonth(userId: string, month: int, year: int): Assignment -> bool {
    (a: Assignment) => a.userRef == ById(userId) && a.monthTag == Some(month) && a.yearTag == Some(year)
  }

  // ------------------------------------------------------------ the list updates

  /** createAssignment's list update. */
  function AfterCreate(list: seq<Assignment>, cm: Option<int>, cy: Option<int>, created: Assignment): seq<Assignment> {
    if InWindow(created, cm, cy) then list + [created] else list
  }

  /** updateAssignment's list update: replace in place while in the window, otherwise drop. */
  function AfterUpdate(list: seq<Assignment>, cm: Option<int>, cy: Option<int>, id: string, updated: Assignment): seq<Assignment> {
    if InWindow(updated, cm, cy) then Replace(list, HasId(id), updated) else Filter(list, Not(HasId(id)))
  }

  /** deleteAssignment's list update. */
  function AfterDelete(list: seq<Assignment>, id: string): seq<Assignment> {
    Filter(list, Not(HasId(id)))
  }

  /** deleteAssignmentsByUserAndMonth's list update. */
  function AfterDeleteOfUserAndMonth(list: seq<Assignment>, userId: string, month: int, year: int): seq<Assignment> {
    Filter(list, Not(OfUserAndMonth(userId, month, year)))
  }

  /** Create appends the record at the end exactly when it is in the window. */
  lemma CreateSpec(list: seq<Assignment>, cm: Option<int>, cy: Option<int>, created: Assignment)
    ensures InWindow(created, cm, cy) ==>
              |AfterCreate(list, cm, cy, created)| == |list| + 1 &&
              AfterCreate(list, cm, cy, created)[..|list|] == list &&
              AfterCreate(list, cm, cy, created)[|list|] == created
    ensures !InWindow(created, cm, cy) ==> AfterCreate(list, cm, cy, created) == list
  {
    if InWindow(created, cm, cy) {
      assert (list + [created])[..|list|] == list;
    }
  }

  /**
   * A kept record replaces every element with the id in place and changes
   * nothing else; a record that left the window takes every element with the
   * id out of the cache.
   */
  lemma UpdateSpec(list: seq<Assignment>, cm: Option<int>, cy: Option<int>, id: string, updated: Assignment, a: Assignment)
    ensures InWindow(updated, cm, cy) ==>
              |AfterUpdate(list, cm, cy, id, updated)| == |list| &&
              forall i :: 0 <= i < |list| ==>
                AfterUpdate(list, cm, cy, id, updated)[i] == if list[i].id == id then updated else list[i]
    ensures !InWindow(updated, cm, cy) ==>
              (a in AfterUpdate(list, cm, cy, id, updated) <==> a in list && a.id != id) &&
              IsSubsequence(AfterUpdate(list, cm, cy, id, updated), list)
  {
    ReplaceAt(list, HasId(id), updated);
    FilterMembers(list, Not(HasId(id)), a);
    FilterIsSubsequence(list, Not(HasId(id)));
  }

  /**
   * A record whose start date is invalid (a `NaN` date once parsed) is never
   * in a filtered window: create leaves the cache alone and update drops
   * every element with the id. 30 February 2024 is such a date.
   */
  lemma InvalidStartOutsideWindow(list: seq<Assignment>, cm: Option<int>, cy: Option<int>, id: string, a: Assignment)
    requires cm.Some? && !ValidDate(a.startDate)
    ensures AfterCreate(list, cm, cy, a) == list
    ensures AfterUpdate(list, cm, cy, id, a) == Filter(list, Not(HasId(id)))
    ensures !ValidDate(Date(2024, 1, 30))
  {
  }

  /** Delete keeps exactly the elements with another id, in their order. */
  lemma DeleteSpec(list: seq<Assignment>, id: string, a: Assignment)
    ensures a in AfterDelete(list, id) <==> a in list && a.id != id
    ensures IsSubsequence(AfterDelete(list, id), list)
  {
    FilterMembers(list, Not(HasId(id)), a);
    FilterIsSubsequence(list, Not(HasId(id)));
  }

  /** The bulk delete keeps exactly the elements not matching all three of userId, month and year. */
  lemma DeleteOfUserAndMonthSpec(list: seq<Assignment>, userId: string, month: int, year: int, a: Assignment)
    ensures a in AfterDeleteOfUserAndMonth(list, userId, month, year) <==>
              a in list && !(a.userRef == ById(userId) && a.monthTag == Some(month) && a.yearTag == Some(year))
    ensures IsSubsequence(AfterDeleteOfUserAndMonth(list, userId, month, year), list)
  {
    FilterMembers(list, Not(OfUserAndMonth(userId, month, year)), a);
    FilterIsSubsequence(list, Not(OfUserAndMonth(userId, month, year)));
  }

  /**
   * The cache never holds a record outside its window: every update keeps
   * that true, provided the loaded data was itself in the window.
   */
  lemma WindowPreserved(list: seq<Assignment>, cm: Option<int>, cy: Option<int>, id: string, r: Assignment,
                        userId: string, month: int, year: int)
    requires AllInWindow(list, cm, cy)
    ensures AllInWindow(AfterCreate(list, cm, cy, r), cm, cy)
    ensures AllInWindow(AfterUpdate(list, cm, cy, id, r), cm, cy)
    ensures AllInWindow(AfterDelete(list, id), cm, cy)
    ensures AllInWindow(AfterDeleteOfUserAndMonth(list, userId, month, year), cm, cy)
  {
    forall a | a in AfterUpdate(list, cm, cy, id, r) ensures InWindow(a, cm, cy) {
      if InWindow(r, cm, cy) {
        ReplaceAt(list, HasId(id), r);
        var i :| 0 <= i < |Replace(list, HasId(id), r)| && Replace(list, HasId(id), r)[i] == a;
        assert list[i] in list;
      } else {
        FilterMembers(list, Not(HasId(id)), a);
      }
    }
    forall a | a in AfterDelete(list, id) ensures InWindow(a, cm, cy) {
      FilterMembers(list, Not(HasId(id)), a);
    }
    forall a | a in AfterDeleteOfUserAndMonth(list, userId, month, year) ensures InWindow(a, cm, cy) {
      FilterMembers(list, Not(OfUserAndMonth(userId, month, year)), a);
    }
  }

  // ------------------------------------------------------------ the hook's state

  class AssignmentStore {
    var assignments: seq<Assignment>
    var currentMonth: Option<int>
    var currentYear: Option<int>
    var error: Option<string>

    /** useAssignments(month, year): an empty cache with the given window. */
    constructor(month: Option<int>, year: Option<int>)
      ensures assignments == [] && currentMonth == month && currentYear == year && error == None
    {
      assignments, currentMonth, currentYear, error := [], month, year, None;
    }

    predicate Consistent()
      reads this
    {
      AllInWindow(assignments, currentMonth, currentYear)
    }

    /** loadAssignmentsByMonth: on success the data replaces the cache and becomes the window's contents. */
    method LoadByMonth(targetMonth: int, targetYear: int, outcome: Remote<seq<Assignment>>) returns (r: seq<Assignment>)
      modifies this
      ensures outcome.Success? ==>
                r == outcome.data && assignments == outcome.data &&
                currentMonth == Some(targetMonth) && currentYear == Some(targetYear) && error == None
      ensures outcome.Failure? ==>
                r == [] && assignments == old(assignments) &&
                currentMonth == old(currentMonth) && currentYear == old(currentYear) &&
                error == Some(ErrorText(outcome.msg, "Error al cargar asignaciones del mes"))
    {
      error := None;
      match outcome {
        case Success(data) =>
          assignments := data;
          currentMonth := Some(targetMonth);
          currentYear := Some(targetYear);
          r := data;
        case Failure(msg) =>
          error := Some(ErrorText(msg, "Error al cargar asignaciones del mes"));
          r := [];
      }
    }

    /** loadAllAssignments: on success the data replaces the cache and the window is cleared. */
    method LoadAll(outcome: Remote<seq<Assignment>>)
      modifies this
      ensures outcome.Success? ==>
                assignments == outcome.data && currentMonth == None && currentYear == None && error == None
      ensures outcome.Success? ==> Consistent()
      ensures outcome.Failure? ==>
                assignments == old(assignments) &&
                currentMonth == old(currentMonth) && currentYear == old(currentYear) &&
                error == Some(ErrorText(outcome.msg, "Error al cargar asignaciones"))
    {
      error := None;
      match outcome {
        case Success(data) =>
          assignments := data;
          currentMonth := None;
          currentYear := None;
        case Failure(msg) =>
          error := Some(ErrorText(msg, "Error al cargar asignaciones"));
      }
    }

    /** loadAssignmentsByUser: hands the data back and leaves the cache and the window alone. */
    method LoadByUser(userId: string, outcome: Remote<seq<Assignment>>) returns (r: seq<Assignment>)
      modifies this
      ensures r == if outcome.Success? then outcome.data else []
      ensures assignments == old(assignments) && currentMonth == old(currentMonth) && currentYear == old(currentYear)
      ensures error == if outcome.Success? then None
                       else Some(ErrorText(outcome.msg, "Error al cargar asignaciones del usuario"))
    {
      error := None;
      match outcome {
        case Success(data) =>
          r := data;
        case Failure(msg) =>
          error := Some(ErrorText(msg, "Error al cargar asignaciones del usuario"));
          r := [];
      }
    }

    /** loadAssignmentsByDateRange: hands the data back and leaves the cache and the window alone. */
    method LoadByDateRange(startDate: string, endDate: string, outcome: Remote<seq<Assignment>>) returns (r: seq<Assignment>)
      modifies this
      ensures r == if outcome.Success? then outcome.data else []
      ensures assignments == old(assignments) && currentMonth == old(currentMonth) && currentYear == old(currentYear)
      ensures error == if outcome.Success? then None
                       else Some(ErrorText(outcome.msg, "Error al cargar asignaciones por rango"))
    {
      error := None;
      match outcome {
        case Success(data) =>
          r := data;
        case Failure(msg) =>
          error := Some(ErrorText(msg, "Error al cargar asignaciones por rango"));
          r := [];
      }
    }

    /** createAssignment: the created record joins the cache only when it is in the window. */
    method Create(outcome: Remote<Assignment>) returns (r: Remote<Assignment>)
      modifies this
      ensures r == outcome
      ensures currentMonth == old(currentMonth) && currentYear == old(currentYear)
      ensures outcome.Success? ==>
                assignments == AfterCreate(old(assignments), currentMonth, currentYear, outcome.data) && error == None
      ensures outcome.Failure? ==>
                assignments == old(assignments) && error == Some(ErrorText(outcome.msg, "Error al crear asignación"))
      ensures old(Consistent()) ==> Consistent()
    {
      error := None;
      match outcome {
        case Success(created) =>
          if Consistent() {
            WindowPreserved(assignments, currentMonth, currentYear, "", created, "", 0, 0);
          }
          assignments := AfterCreate(assignments, currentMonth, currentYear, created);
        case Failure(msg) =>
          error := Some(ErrorText(msg, "Error al crear asignación"));
      }
      r := outcome;
    }

    /** updateAssignment: replace the elements with the id, or drop them when the record left the window. */
    method Update(id: string, outcome: Remote<Assignment>) returns (r: Remote<Assignment>)
      modifies this
      ensures r == outcome
      ensures currentMonth == old(currentMonth) && currentYear == old(currentYear)
      ensures outcome.Success? ==>
                assignments == AfterUpdate(old(assignments), currentMonth, currentYear, id, outcome.data) && error == None
      ensures outcome.Failure? ==>
                assignments == old(assignments) && error == Some(ErrorText(outcome.msg, "Error al actualizar asignación"))
      ensures old(Consistent()) ==> Consistent()
    {
      error := None;
      match outcome {
        case Success(updated) =>
          if Consistent() {
            WindowPreserved(assignments, currentMonth, currentYear, id, updated, "", 0, 0);
          }
          assignments := AfterUpdate(assignments, currentMonth, currentYear, id, updated);
        case Failure(msg) =>
          error := Some(ErrorText(msg, "Error al actualizar asignación"));
      }
      r := outcome;
    }

    /** deleteAssignment: every element with the id leaves the cache once the server agrees. */
    method Delete(id: string, outcome: Remote<()>) returns (r: Remote<()>)
      modifies this
      ensures r == outcome
      ensures currentMonth == old(currentMonth) && currentYear == old(currentYear)
      ensures outcome.Success? ==> assignments == AfterDelete(old(assignments), id) && error == None
      ensures outcome.Failure? ==>
                assignments == old(assignments) && error == Some(ErrorText(outcome.msg, "Error al eliminar asignación"))
      ensures old(Consistent()) ==> Consistent()
    {
      error := None;
      match outcome {
        case Success(_) =>
          forall a | a in AfterDelete(assignments, id) ensures a in assignments {
            FilterMembers(assignments, Not(HasId(id)), a);
          }
          assignments := AfterDelete(assignments, id);
        case Failure(msg) =>
          error := Some(ErrorText(msg, "Error al eliminar asignación"));
      }
      r := outcome;
    }

    /** deleteAssignmentsByUserAndMonth: drops the elements matching user id, month and year. */
    method DeleteOfUserAndMonth(userId: string, month: int, year: int, outcome: Remote<()>) returns (r: Remote<()>)
      modifies this
      ensures r == outcome
      ensures currentMonth == old(currentMonth) && currentYear == old(currentYear)
      ensures outcome.Success? ==>
                assignments == AfterDeleteOfUserAndMonth(old(assignments), userId, month, year) && error == None
      ensures outcome.Failure? ==>
                assignments == old(assignments) &&
                error == Some(ErrorText(outcome.msg, "Error al eliminar asignaciones del mes"))
      ensures old(Consistent()) ==> Consistent()
    {
      error := None;
      match outcome {
        case Success(_) =>
          forall a | a in AfterDeleteOfUserAndMonth(assignments, userId, month, year)
            ensures a in assignments
          {
            FilterMembers(assignments, Not(OfUserAndMonth(userId, month, year)), a);
          }
          assignments := AfterDeleteOfUserAndMonth(assignments, userId, month, year);
        case Failure(msg) =>
          error := Some(ErrorText(msg, "Error al eliminar asignaciones del mes"));
      }
      r := outcome;
    }
  }
}
