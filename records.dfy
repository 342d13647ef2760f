/**
 * The records the front end receives from its REST collaborators and the
 * derived occupancy entry, as values.
 */
module Records {
  import opened Wrappers
  import opened Dates

  /** A person (`{_id, name}`). The empty string stands for a missing or falsy field. */
  datatype User = User(id: string, name: string)

  /**
   * The `userId` field of an assignment: a populated person object, a bare
   * id string, or anything else (null, a number, ...).
   */
  datatype UserRef = Populated(refId: string, refName: string) | ById(userId: string) | Malformed

  /**
   * An assignment record. `monthTag`/`yearTag` are the optional `month`/`year`
   * properties that deleteAssignmentsByUserAndMonth compares against; records
   * built from start and end dates alone do not carry them.
   */
  datatype Assignment = Assignment(
    id: string,
    userRef: UserRef,
    workTypeCode: string,
    startDate: Date,
    endDate: Date,
    monthTag: Option<int>,
    yearTag: Option<int>)

  /** `{label, color}`; `label` is a reserved word in Dafny, so the field is called `caption`. */
  datatype WorkTypeInfo = WorkTypeInfo(caption: string, color: string)

  datatype WorkType = WorkType(code: string, caption: string, color: string)

  /** One day of the occupancy index. */
  datatype Entry = Entry(assignmentId: string, workTypeCode: string, startDate: Date, endDate: Date, userId: string)

  /** The key `${month}-${year}-${day}-${person}`, as a tuple (month is 0-based). */
  datatype Key = Key(month: int, year: int, day: int, person: string)

  type Schedule = map<Key, Entry>

  /** `schedule[key] || null`. */
  function GetScheduleItem(schedule: Schedule, day: int, month: int, year: int, person: string): (r: Option<Entry>)
    ensures r.Some? <==> Key(month, year, day, person) in schedule
    ensures r.Some? ==> r.value == schedule[Key(month, year, day, person)]
  {
    var key := Key(month, year, day, person);
    if key in schedule then Some(schedule[key]) else None
  }

  /**
   * The id an assignment refers to, as ReportsPage and handleEditAssignment
   * read it: the populated object's `_id`, otherwise the field itself.
   */
  function AssignmentUserId(a: Assignment): Option<string> {
    match a.userRef
    case Populated(id, _) => Some(id)
    case ById(id) => Some(id)
    case Malformed => None
  }

  /** `users.find(u => u.name === name)`: the first user with that name. */
  function FindByName(users: seq<User>, name: string): (r: Option<User>)
    ensures r.Some? ==> r.value in users && r.value.name == name
    ensures r.Some? ==> exists i :: 0 <= i < |users| && users[i] == r.value &&
                          forall j :: 0 <= j < i ==> users[j].name != name
    ensures r.None? <==> forall i :: 0 <= i < |users| ==> users[i].name != name
  {
    if users == [] then None
    else if users[0].name == name then Some(users[0])
    else FindByName(users[1..], name)
  }
}
