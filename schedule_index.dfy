/**
 * The occupancy index of useScheduleData: assignment records projected into
 * one entry per (month, year, day, person name), the local edit helpers
 * beside it, and the queries that read it.
 */
module ScheduleIndex {
  import opened Wrappers
  import opened Dates
  import opened Records
  import opened SeqOps

  // ------------------------------------------------------------ userIdToNameMap

  /** The id → name dictionary, filled in list order from the users that have an `_id`. */
  function IdToName(users: seq<User>): map<string, string>
  {
    if users == [] then map[]
    else
      var m := IdToName(users[..|users| - 1]);
      var u := users[|users| - 1];
      if u.id != "" then m[u.id := u.name] else m
  }

  /** Ids present are exactly the non-empty ids of the list; the last user with an id gives its name. */
  lemma {:induction false} IdToNameLookup(users: seq<User>, id: string)
    ensures id in IdToName(users) <==> id != "" && exists i :: 0 <= i < |users| && users[i].id == id
    ensures forall i ::
              (0 <= i < |users| && users[i].id == id && id != "" &&
               (forall j :: i < j < |users| ==> users[j].id != id)) ==>
              id in IdToName(users) && IdToName(users)[id] == users[i].name
  {
    if users != [] {
      var init := users[..|users| - 1];
      IdToNameLookup(init, id);
      assert forall i :: 0 <= i < |init| ==> init[i] == users[i];
    }
  }

  /** userIdToNameMap: the `forEach` that fills the dictionary. */
  method UserIdToNameMap(users: seq<User>) returns (m: map<string, string>)
    ensures m == IdToName(users)
  {
    m := map[];
    var i := 0;
    while i < |users|
      invariant 0 <= i <= |users|
      invariant m == IdToName(users[..i])
    {
      assert users[..i + 1][..i] == users[..i];
      if users[i].id != "" {
        m := m[users[i].id := users[i].name];
      }
      i := i + 1;
    }
    assert users[..|users|] == users;
  }

  // ------------------------------------------------------------ resolving a person

  datatype Resolved = Resolved(userId: string, userName: string)

  /**
   * A populated `userId` supplies its own `_id` and name; a string id is
   * looked up in the id → name dictionary; anything else, or a falsy name,
   * does not resolve.
   */
  function Resolve(ref: UserRef, names: map<string, string>): Option<Resolved>
  {
    match ref
    case Populated(id, name) => if name != "" then Some(Resolved(id, name)) else None
    case ById(id) => if id in names && names[id] != "" then Some(Resolved(id, names[id])) else None
    case Malformed => None
  }

  /** A bare id resolves exactly when the last user carrying it has a non-empty name. */
  lemma ResolveById(users: seq<User>, id: string, i: int)
    requires 0 <= i < |users| && users[i].id == id
    requires forall j :: i < j < |users| ==> users[j].id != id
    ensures id != "" && users[i].name != "" <==> Resolve(ById(id), IdToName(users)).Some?
    ensures Resolve(ById(id), IdToName(users)).Some? ==>
              Resolve(ById(id), IdToName(users)).value == Resolved(id, users[i].name)
  {
    IdToNameLookup(users, id);
  }

  /** A bare id that no user carries never resolves. */
  lemma ResolveUnknownId(users: seq<User>, id: string)
    requires forall j :: 0 <= j < |users| ==> users[j].id != id
    ensures Resolve(ById(id), IdToName(users)).None?
  {
    IdToNameLookup(users, id);
  }

  // ------------------------------------------------------------ buildScheduleMap

  /** The days an assignment covers; a malformed date makes the source's loop run zero times. */
  function DaysOf(a: Assignment): seq<Date> {
    if ValidDate(a.startDate) && ValidDate(a.endDate) then DayRange(a.startDate, a.endDate) else []
  }

  function KeyOf(d: Date, person: string): Key {
    Key(d.month, d.year, d.day, person)
  }

  function KeysOf(days: seq<Date>, person: string): set<Key> {
    set d | d in days :: KeyOf(d, person)
  }

  function EntryOf(a: Assignment, r: Resolved): Entry {
    Entry(a.id, a.workTypeCode, a.startDate, a.endDate, r.userId)
  }

  /** The keys one assignment writes. */
  function CoveredKeys(a: Assignment, names: map<string, string>): set<Key> {
    match Resolve(a.userRef, names)
    case None => {}
    case Some(r) => KeysOf(DaysOf(a), r.userName)
  }

  /** The inner loop: `map[key] = entry` for each day in turn. */
  function WriteDays(m: Schedule, days: seq<Date>, person: string, e: Entry): Schedule
    decreases |days|
  {
    if days == [] then m else WriteDays(m[KeyOf(days[0], person) := e], days[1..], person, e)
  }

  /** One iteration of the outer `forEach`: every covered key is (over)written with this assignment's entry. */
  function Write(m: Schedule, a: Assignment, names: map<string, string>): Schedule {
    match Resolve(a.userRef, names)
    case None => m
    case Some(r) => WriteDays(m, DaysOf(a), r.userName, EntryOf(a, r))
  }

  /** The whole `forEach`, in array order, from an empty map. */
  function Fold(assignments: seq<Assignment>, names: map<string, string>): Schedule {
    if assignments == [] then map[]
    else Write(Fold(assignments[..|assignments| - 1], names), assignments[|assignments| - 1], names)
  }

  /** The index buildScheduleMap returns for these inputs. */
  function Index(assignments: seq<Assignment>, users: seq<User>): (r: Schedule)
    ensures |assignments| == 0 || |users| == 0 ==> r == map[]
  {
    if |assignments| == 0 || |users| == 0 then map[] else Fold(assignments, IdToName(users))
  }

  /**
   * An assignment writes the key (month, year, day, name) exactly when its
   * person resolves to that name and the day is a calendar day from its start
   * date to its end date inclusive (none at all when start is after end).
   */
  lemma CoveredKeysExactly(a: Assignment, names: map<string, string>, k: Key)
    ensures k in CoveredKeys(a, names) <==>
              Resolve(a.userRef, names).Some? && k.person == Resolve(a.userRef, names).value.userName &&
              ValidDate(a.startDate) && ValidDate(a.endDate) &&
              ValidDate(Date(k.year, k.month, k.day)) &&
              DateLe(a.startDate, Date(k.year, k.month, k.day)) && DateLe(Date(k.year, k.month, k.day), a.endDate)
  {
    if ValidDate(a.startDate) && ValidDate(a.endDate) {
      DayRangeMembers(a.startDate, a.endDate, Date(k.year, k.month, k.day));
    }
  }

  lemma {:induction false} WriteDaysEffect(m: Schedule, days: seq<Date>, person: string, e: Entry, k: Key)
    ensures k in KeysOf(days, person) ==> k in WriteDays(m, days, person, e) && WriteDays(m, days, person, e)[k] == e
    ensures k !in KeysOf(days, person) ==>
              (k in WriteDays(m, days, person, e) <==> k in m) && (k in m ==> WriteDays(m, days, person, e)[k] == m[k])
    decreases |days|
  {
    if days != [] {
      WriteDaysEffect(m[KeyOf(days[0], person) := e], days[1..], person, e, k);
      assert days == [days[0]] + days[1..];
      assert KeysOf(days, person) == {KeyOf(days[0], person)} + KeysOf(days[1..], person);
    }
  }

  lemma WriteEffect(m: Schedule, a: Assignment, names: map<string, string>, k: Key)
    ensures k in CoveredKeys(a, names) ==>
              k in Write(m, a, names) && Write(m, a, names)[k] == EntryOf(a, Resolve(a.userRef, names).value)
    ensures k !in CoveredKeys(a, names) ==>
              (k in Write(m, a, names) <==> k in m) && (k in m ==> Write(m, a, names)[k] == m[k])
  {
    var r := Resolve(a.userRef, names);
    if r.Some? {
      WriteDaysEffect(m, DaysOf(a), r.value.userName, EntryOf(a, r.value), k);
    }
  }

  /** A key is in the index exactly when some assignment covers it. */
  lemma {:induction false} FoldKeys(assignments: seq<Assignment>, names: map<string, string>, k: Key)
    ensures k in Fold(assignments, names) <==>
              exists j :: 0 <= j < |assignments| && k in CoveredKeys(assignments[j], names)
  {
    if assignments != [] {
      var init := assignments[..|assignments| - 1];
      FoldKeys(init, names, k);
      WriteEffect(Fold(init, names), assignments[|assignments| - 1], names, k);
      assert forall j :: 0 <= j < |init| ==> init[j] == assignments[j];
    }
  }

  /** Last write wins: the entry is the one of the last assignment in array order covering the key. */
  lemma {:induction false} FoldLastWins(assignments: seq<Assignment>, names: map<string, string>, j: int, k: Key)
    requires 0 <= j < |assignments| && k in CoveredKeys(assignments[j], names)
    requires forall i :: j < i < |assignments| ==> k !in CoveredKeys(assignments[i], names)
    ensures k in Fold(assignments, names)
    ensures Fold(assignments, names)[k] == EntryOf(assignments[j], Resolve(assignments[j].userRef, names).value)
  {
    var init := assignments[..|assignments| - 1];
    var last := assignments[|assignments| - 1];
    WriteEffect(Fold(init, names), last, names, k);
    if j < |assignments| - 1 {
      assert forall i :: 0 <= i < |init| ==> init[i] == assignments[i];
      FoldLastWins(init, names, j, k);
    }
  }

  /** Every entry in the index is the entry of some assignment that covers its key. */
  lemma {:induction false} FoldEntrySource(assignments: seq<Assignment>, names: map<string, string>, k: Key)
    requires k in Fold(assignments, names)
    ensures exists j :: 0 <= j < |assignments| && k in CoveredKeys(assignments[j], names) &&
              Fold(assignments, names)[k] == EntryOf(assignments[j], Resolve(assignments[j].userRef, names).value)
  {
    var init := assignments[..|assignments| - 1];
    var last := assignments[|assignments| - 1];
    WriteEffect(Fold(init, names), last, names, k);
    if k !in CoveredKeys(last, names) {
      FoldEntrySource(init, names, k);
      var j :| 0 <= j < |init| && k in CoveredKeys(init[j], names) &&
               Fold(init, names)[k] == EntryOf(init[j], Resolve(init[j].userRef, names).value);
      assert init[j] == assignments[j];
    }
  }

  /**
   * The index as a whole: its keys are exactly the keys some assignment
   * covers (so none at all without users), and each value is the entry of
   * the last assignment in array order that covers the key, carrying that
   * assignment's `_id`, code, dates and resolved user id.
   */
  lemma IndexCharacterization(assignments: seq<Assignment>, users: seq<User>, k: Key)
    ensures k in Index(assignments, users) <==>
              |users| > 0 && exists j :: 0 <= j < |assignments| && k in CoveredKeys(assignments[j], IdToName(users))
    ensures forall j ::
              (0 <= j < |assignments| && |users| > 0 &&
               k in CoveredKeys(assignments[j], IdToName(users)) &&
               (forall i :: j < i < |assignments| ==> k !in CoveredKeys(assignments[i], IdToName(users)))) ==>
              k in Index(assignments, users) &&
              Index(assignments, users)[k] == EntryOf(assignments[j], Resolve(assignments[j].userRef, IdToName(users)).value)
  {
    if |users| > 0 {
      FoldKeys(assignments, IdToName(users), k);
      forall j | 0 <= j < |assignments| &&
          k in CoveredKeys(assignments[j], IdToName(users)) &&
          (forall i :: j < i < |assignments| ==> k !in CoveredKeys(assignments[i], IdToName(users)))
        ensures Index(assignments, users)[k] == EntryOf(assignments[j], Resolve(assignments[j].userRef, IdToName(users)).value)
      {
        FoldLastWins(assignments, IdToName(users), j, k);
      }
    }
  }

  /**
   * Deletion completeness: once every record with a given `_id` is taken out
   * of the list, the rebuilt index holds no entry carrying that id.
   */
  lemma RebuildAfterDelete(assignments: seq<Assignment>, users: seq<User>, id: string, k: Key)
    requires k in Index(Filter(assignments, (a: Assignment) => a.id != id), users)
    ensures Index(Filter(assignments, (a: Assignment) => a.id != id), users)[k].assignmentId != id
  {
    var keep := (a: Assignment) => a.id != id;
    var rest := Filter(assignments, keep);
    FoldEntrySource(rest, IdToName(users), k);
    var j :| 0 <= j < |rest| && k in CoveredKeys(rest[j], IdToName(users)) &&
             Fold(rest, IdToName(users))[k] == EntryOf(rest[j], Resolve(rest[j].userRef, IdToName(users)).value);
    FilterMembers(assignments, keep, rest[j]);
  }

  /** One iteration of buildScheduleMap's `forEach`: resolve the person, then walk the days writing the entry. */
  method WriteAssignment(m0: Schedule, a: Assignment, names: map<string, string>) returns (m: Schedule)
    ensures m == Write(m0, a, names)
  {
    m := m0;
    var r := Resolve(a.userRef, names);
    if r.None? {
      return;
    }
    if !(ValidDate(a.startDate) && ValidDate(a.endDate)) {
      return;
    }
    var e := EntryOf(a, r.value);
    var name := r.value.userName;
    var d := a.startDate;
    while DateLe(d, a.endDate)
      invariant ValidDate(d)
      invariant WriteDays(m, DayRange(d, a.endDate), name, e) == Write(m0, a, names)
      decreases DayNumber(a.endDate) - DayNumber(d) + 1
    {
      DateLeDayNumber(d, a.endDate);
      NextDayNumber(d);
      m := m[KeyOf(d, name) := e];
      d := NextDay(d);
    }
  }

  // ------------------------------------------------------------ queries

  /** getPersonAssignments: one `{day, ...item}` per occupied day. */
  datatype DayEntry = DayEntry(day: int, entry: Entry)

  /** getPersonAssignments: the person's occupied days 1..31 of a month, ascending, with their entries. */
  method GetPersonAssignments(schedule: Schedule, person: string, month: int, year: int) returns (r: seq<DayEntry>)
    ensures forall i :: 0 <= i < |r| ==>
              1 <= r[i].day <= 31 && GetScheduleItem(schedule, r[i].day, month, year, person) == Some(r[i].entry)
    ensures forall i, j :: 0 <= i < j < |r| ==> r[i].day < r[j].day
    ensures forall d :: 1 <= d <= 31 && GetScheduleItem(schedule, d, month, year, person).Some? ==>
              exists i :: 0 <= i < |r| && r[i].day == d
  {
    r := [];
    var day := 1;
    while day <= 31
      invariant 1 <= day <= 32
      invariant forall i :: 0 <= i < |r| ==>
                  1 <= r[i].day < day && GetScheduleItem(schedule, r[i].day, month, year, person) == Some(r[i].entry)
      invariant forall i, j :: 0 <= i < j < |r| ==> r[i].day < r[j].day
      invariant forall d :: 1 <= d < day && GetScheduleItem(schedule, d, month, year, person).Some? ==>
                  exists i :: 0 <= i < |r| && r[i].day == d
    {
      var item := GetScheduleItem(schedule, day, month, year, person);
      if item.Some? {
        ghost var prev := r;
        r := r + [DayEntry(day, item.value)];
        forall d | 1 <= d <= day && GetScheduleItem(schedule, d, month, year, person).Some?
          ensures exists i :: 0 <= i < |r| && r[i].day == d
        {
          if d == day {
            assert r[|r| - 1].day == d;
          } else {
            var i :| 0 <= i < |prev| && prev[i].day == d;
            assert r[i] == prev[i];
          }
        }
      }
      day := day + 1;
    }
  }

  /** An element of `users.map(u => u.name || u)`: the name, or the user object itself when the name is falsy. */
  datatype PersonLabel = Named(name: string) | UserObject(user: User)

  /** The text a label contributes to a key: an object interpolates as "[object Object]". */
  function LabelText(p: PersonLabel): string {
    match p
    case Named(name) => name
    case UserObject(_) => "[object Object]"
  }

  function UserNames(users: seq<User>): seq<PersonLabel> {
    seq(|users|, i requires 0 <= i < |users| => if users[i].name != "" then Named(users[i].name) else UserObject(users[i]))
  }

  function Occupied(schedule: Schedule, day: int, month: int, year: int): PersonLabel -> bool {
    p => GetScheduleItem(schedule, day, month, year, LabelText(p)).Some?
  }

  function AvailablePersonnel(schedule: Schedule, users: seq<User>, day: int, month: int, year: int): seq<PersonLabel> {
    Filter(UserNames(users), Not(Occupied(schedule, day, month, year)))
  }

  function UnavailablePersonnel(schedule: Schedule, users: seq<User>, day: int, month: int, year: int): seq<PersonLabel> {
    Filter(UserNames(users), Occupied(schedule, day, month, year))
  }

  /**
   * The available and unavailable lists split the names: each keeps the
   * order of `users.map(u => u.name || u)`, a label is in exactly one of them
   * according to whether the index has an entry for it that day, and the
   * two lengths add up to the number of users.
   */
  lemma PersonnelPartition(schedule: Schedule, users: seq<User>, day: int, month: int, year: int, p: PersonLabel)
    ensures |AvailablePersonnel(schedule, users, day, month, year)| +
            |UnavailablePersonnel(schedule, users, day, month, year)| == |users|
    ensures p in AvailablePersonnel(schedule, users, day, month, year) <==>
              p in UserNames(users) && Key(month, year, day, LabelText(p)) !in schedule
    ensures p in UnavailablePersonnel(schedule, users, day, month, year) <==>
              p in UserNames(users) && Key(month, year, day, LabelText(p)) in schedule
    ensures IsSubsequence(AvailablePersonnel(schedule, users, day, month, year), UserNames(users))
    ensures IsSubsequence(UnavailablePersonnel(schedule, users, day, month, year), UserNames(users))
  {
    var occ := Occupied(schedule, day, month, year);
    FilterPartition(UserNames(users), occ);
    FilterMembers(UserNames(users), occ, p);
    FilterMembers(UserNames(users), Not(occ), p);
    FilterIsSubsequence(UserNames(users), occ);
    FilterIsSubsequence(UserNames(users), Not(occ));
  }

  // ------------------------------------------------------------ the hook's state

  /** Days `startDay..endDay` of one (month, year, person): what removeScheduleRange deletes. */
  predicate InDayRange(k: Key, startDay: int, endDay: int, month: int, year: int, person: string) {
    k.month == month && k.year == year && k.person == person && startDay <= k.day <= endDay
  }

  /** The `schedule` state of useScheduleData. */
  class ScheduleData {
    var schedule: Schedule

    constructor()
      ensures schedule == map[]
    {
      schedule := map[];
    }

    /**
     * buildScheduleMap: starts from an empty map whatever the previous state,
     * so rebuilding from the same inputs yields the same index.
     */
    method BuildScheduleMap(assignments: seq<Assignment>, users: seq<User>) returns (m: Schedule)
      modifies this
      ensures m == Index(assignments, users)
      ensures schedule == m
    {
      m := map[];
      if |assignments| == 0 || |users| == 0 {
        schedule := m;
        return;
      }
      var names := UserIdToNameMap(users);
      var i := 0;
      while i < |assignments|
        invariant 0 <= i <= |assignments|
        invariant m == Fold(assignments[..i], names)
      {
        var a := assignments[i];
        assert assignments[..i + 1][..i] == assignments[..i];
        m := WriteAssignment(m, a, names);
        i := i + 1;
      }
      assert assignments[..|assignments|] == assignments;
      schedule := m;
    }

    /** addScheduleItem: sets one key and leaves every other key as it was. */
    method AddScheduleItem(day: int, month: int, year: int, person: string, data: Entry)
      modifies this
      ensures schedule == old(schedule)[Key(month, year, day, person) := data]
    {
      schedule := schedule[Key(month, year, day, person) := data];
    }

    /** removeScheduleItem: deletes one key and leaves every other key as it was. */
    method RemoveScheduleItem(day: int, month: int, year: int, person: string)
      modifies this
      ensures schedule == old(schedule) - {Key(month, year, day, person)}
    {
      schedule := schedule - {Key(month, year, day, person)};
    }

    /** removeScheduleRange: deletes exactly the person's keys for days startDay..endDay of one month. */
    method RemoveScheduleRange(startDay: int, endDay: int, month: int, year: int, person: string)
      modifies this
      ensures forall k :: k in schedule <==> k in old(schedule) && !InDayRange(k, startDay, endDay, month, year, person)
      ensures forall k :: k in schedule ==> schedule[k] == old(schedule)[k]
    {
      var updated := schedule;
      var day := startDay;
      while day <= endDay
        invariant day == startDay || startDay <= day <= endDay + 1
        invariant forall k :: k in updated <==> k in schedule && !InDayRange(k, startDay, day - 1, month, year, person)
        invariant forall k :: k in updated ==> updated[k] == schedule[k]
      {
        updated := updated - {Key(month, year, day, person)};
        day := day + 1;
      }
      schedule := updated;
    }
  }
}
