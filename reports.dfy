/**
 * ReportsPage: per-user, per-code day counts for the selected month,
 * their totals over all users, and the sorted name list.
 */
module Reports {
  import opened Wrappers
  import opened Dates
  import opened Records
  import opened SeqOps
  import opened ScheduleIndex

  // ------------------------------------------------------------ counting days

  predicate InMonth(d: Date, month: int, year: int) {
    d.month == month && d.year == year
  }

  /** How many of the visited days fall in the selected month and year. */
  function CountInMonth(days: seq<Date>, month: int, year: int): (n: int)
    ensures 0 <= n <= |days|
  {
    if days == [] then 0
    else (if InMonth(days[0], month, year) then 1 else 0) + CountInMonth(days[1..], month, year)
  }

  /** A range lying inside the selected month counts every one of its days. */
  lemma {:induction false} CountWholeRange(lo: Date, hi: Date, month: int, year: int)
    requires ValidDate(lo) && ValidDate(hi) && DateLe(lo, hi)
    requires InMonth(lo, month, year) && InMonth(hi, month, year)
    ensures CountInMonth(DayRange(lo, hi), month, year) == DayNumber(hi) - DayNumber(lo) + 1
  {
    DayRangeIndex(lo, hi);
    CountAllIn(DayRange(lo, hi), month, year, lo, hi);
  }

  lemma {:induction false} CountAllIn(days: seq<Date>, month: int, year: int, lo: Date, hi: Date)
    requires ValidDate(lo) && ValidDate(hi)
    requires InMonth(lo, month, year) && InMonth(hi, month, year)
    requires forall d :: d in days ==> d in DayRange(lo, hi)
    ensures CountInMonth(days, month, year) == |days|
    decreases |days|
  {
    if days != [] {
      DayRangeMembers(lo, hi, days[0]);
      assert days[0] in days;
      assert forall d :: d in days[1..] ==> d in days;
      CountAllIn(days[1..], month, year, lo, hi);
    }
  }

  // ------------------------------------------------------------ the specification of calculateUserStats

  function OfUser(userId: string): Assignment -> bool {
    (a: Assignment) => AssignmentUserId(a) == Some(userId)
  }

  /** The days in the selected month, summed over the listed assignments with `code`. */
  function CodeDays(list: seq<Assignment>, code: string, month: int, year: int): int
    decreases |list|
  {
    if list == [] then 0
    else
      var a := list[|list| - 1];
      CodeDays(list[..|list| - 1], code, month, year) +
        (if a.workTypeCode == code then CountInMonth(DaysOf(a), month, year) else 0)
  }

  function ZeroStats(workTypesMap: map<string, WorkTypeInfo>): map<string, int> {
    map k | k in workTypesMap :: 0
  }

  /** One count per code of `keys`, over the listed assignments. */
  function CodeStats(keys: set<string>, list: seq<Assignment>, month: int, year: int): map<string, int> {
    map k | k in keys :: CodeDays(list, k, month, year)
  }

  /** What calculateUserStats(userName) computes. */
  function UserStats(users: seq<User>, assignments: seq<Assignment>, workTypesMap: map<string, WorkTypeInfo>,
                     userName: string, month: int, year: int): map<string, int> {
    match FindByName(users, userName)
    case None => ZeroStats(workTypesMap)
    case Some(u) => CodeStats(workTypesMap.Keys, Filter(assignments, OfUser(u.id)), month, year)
  }

  /**
   * The counts: one key per dictionary code and no other; an unknown name
   * gets all zeros; otherwise a code's count adds up, over that user's
   * assignments with the code, the days of each range inside the month.
   */
  lemma UserStatsSpec(users: seq<User>, assignments: seq<Assignment>, workTypesMap: map<string, WorkTypeInfo>,
                      userName: string, month: int, year: int, k: string)
    ensures UserStats(users, assignments, workTypesMap, userName, month, year).Keys == workTypesMap.Keys
    ensures (forall i :: 0 <= i < |users| ==> users[i].name != userName) ==>
              UserStats(users, assignments, workTypesMap, userName, month, year) == ZeroStats(workTypesMap)
    ensures k in workTypesMap && FindByName(users, userName).Some? ==>
              UserStats(users, assignments, workTypesMap, userName, month, year)[k] ==
              CodeDays(Filter(assignments, OfUser(FindByName(users, userName).value.id)), k, month, year)
    ensures k in workTypesMap ==> UserStats(users, assignments, workTypesMap, userName, month, year)[k] >= 0
  {
    if k in workTypesMap && FindByName(users, userName).Some? {
      CodeDaysNonNegative(Filter(assignments, OfUser(FindByName(users, userName).value.id)), k, month, year);
    }
  }

  lemma {:induction false} CodeDaysNonNegative(list: seq<Assignment>, code: string, month: int, year: int)
    ensures CodeDays(list, code, month, year) >= 0
    decreases |list|
  {
    if list != [] {
      CodeDaysNonNegative(list[..|list| - 1], code, month, year);
    }
  }

  /**
   * Two assignments of one user with the same code on the same day of the
   * month both count: that day is reported twice, while the index keeps
   * only the later of them.
   */
  lemma OverlapCountsTwice(u: User, code: string, d: Date, id1: string, id2: string)
    requires ValidDate(d)
    ensures var a1 := Assignment(id1, ById(u.id), code, d, d, None, None);
            var a2 := Assignment(id2, ById(u.id), code, d, d, None, None);
            var m := map[code := WorkTypeInfo("", "")];
            UserStats([u], [a1, a2], m, u.name, d.month, d.year)[code] == 2
  {
    var a1 := Assignment(id1, ById(u.id), code, d, d, None, None);
    var a2 := Assignment(id2, ById(u.id), code, d, d, None, None);
    assert DayRange(d, d) == [d] by {
      NextDayNumber(d);
      DateLeDayNumber(NextDay(d), d);
    }
    assert Filter([a1, a2], OfUser(u.id)) == [a1, a2] by {
      assert [a1, a2][1..] == [a2];
    }
    assert [a1, a2][..1] == [a1];
    assert [a1, a2][..2][..1] == [a1];
    assert CountInMonth(DaysOf(a1), d.month, d.year) == 1;
    assert CountInMonth(DaysOf(a2), d.month, d.year) == 1;
    assert CodeDays([a1], code, d.month, d.year) == 1 by {
      assert [a1][..0] == [];
    }
    assert CodeDays([a1, a2], code, d.month, d.year) == 2;
    assert FindByName([u], u.name) == Some(u);
  }

  // ------------------------------------------------------------ calculateUserStats

  /** The inner `while (currentDate <= endDate)` for one assignment: add its days in the month to its code. */
  method CountAssignment(stats0: map<string, int>, a: Assignment, month: int, year: int) returns (stats: map<string, int>)
    ensures stats == if a.workTypeCode in stats0
                     then stats0[a.workTypeCode := stats0[a.workTypeCode] + CountInMonth(DaysOf(a), month, year)]
                     else stats0
  {
    stats := stats0;
    if !(ValidDate(a.startDate) && ValidDate(a.endDate)) {
      return;
    }
    var code := a.workTypeCode;
    var currentDate := a.startDate;
    ghost var counted := 0;
    while DateLe(currentDate, a.endDate)
      invariant ValidDate(currentDate)
      invariant counted + CountInMonth(DayRange(currentDate, a.endDate), month, year) == CountInMonth(DaysOf(a), month, year)
      invariant stats == if code in stats0 then stats0[code := stats0[code] + counted] else stats0
      decreases DayNumber(a.endDate) - DayNumber(currentDate) + 1
    {
      DateLeDayNumber(currentDate, a.endDate);
      NextDayNumber(currentDate);
      if InMonth(currentDate, month, year) {
        if code in stats {
          stats := stats[code := stats[code] + 1];
        }
        counted := counted + 1;
      }
      currentDate := NextDay(currentDate);
    }
  }

  lemma StatsStep(keys: set<string>, list: seq<Assignment>, i: int, month: int, year: int, stats: map<string, int>)
    requires 0 <= i < |list|
    requires stats == CodeStats(keys, list[..i], month, year)
    ensures (if list[i].workTypeCode in stats
             then stats[list[i].workTypeCode := stats[list[i].workTypeCode] + CountInMonth(DaysOf(list[i]), month, year)]
             else stats) == CodeStats(keys, list[..i + 1], month, year)
  {
    assert list[..i + 1][..i] == list[..i];
  }

  /** Before any assignment is counted every code stands at zero. */
  lemma ZeroStatsIsEmptyCount(workTypesMap: map<string, WorkTypeInfo>, month: int, year: int)
    ensures ZeroStats(workTypesMap) == CodeStats(workTypesMap.Keys, [], month, year)
  {
  }

  /** The `userAssignments.forEach` of calculateUserStats, from the all-zero stats. */
  method CountAssignments(workTypesMap: map<string, WorkTypeInfo>, list: seq<Assignment>, month: int, year: int)
    returns (stats: map<string, int>)
    ensures stats == CodeStats(workTypesMap.Keys, list, month, year)
  {
    stats := ZeroStats(workTypesMap);
    ZeroStatsIsEmptyCount(workTypesMap, month, year);
    assert list[..0] == [];
    var i := 0;
    while i < |list|
      invariant 0 <= i <= |list|
      invariant stats == CodeStats(workTypesMap.Keys, list[..i], month, year)
    {
      StatsStep(workTypesMap.Keys, list, i, month, year, stats);
      stats := CountAssignment(stats, list[i], month, year);
      i := i + 1;
    }
    assert list[..|list|] == list;
  }

  /** calculateUserStats(userName). */
  method CalculateUserStats(users: seq<User>, assignments: seq<Assignment>, workTypesMap: map<string, WorkTypeInfo>,
                            userName: string, month: int, year: int) returns (stats: map<string, int>)
    ensures stats == UserStats(users, assignments, workTypesMap, userName, month, year)
  {
    var user := FindByName(users, userName);
    if user.None? {
      return ZeroStats(workTypesMap);
    }
    var userAssignments := Filter(assignments, OfUser(user.value.id));
    stats := CountAssignments(workTypesMap, userAssignments, month, year);
  }

  // ------------------------------------------------------------ calculateTotals

  /** A code's count summed over the listed names. */
  function SumOver(users: seq<User>, assignments: seq<Assignment>, workTypesMap: map<string, WorkTypeInfo>,
                   names: seq<string>, k: string, month: int, year: int): int
    requires k in workTypesMap
    decreases |names|
  {
    if names == [] then 0
    else
      SumOver(users, assignments, workTypesMap, names[..|names| - 1], k, month, year) +
        UserStats(users, assignments, workTypesMap, names[|names| - 1], month, year)[k]
  }

  /** The inner forEach over `Object.keys(stats)`: add one user's counts to the running totals. */
  method AddStats(totals0: map<string, int>, stats: map<string, int>) returns (totals: map<string, int>)
    requires stats.Keys == totals0.Keys
    ensures totals == map k | k in totals0 :: totals0[k] + stats[k]
  {
    totals := totals0;
    var rest := stats.Keys;
    while rest != {}
      invariant rest <= stats.Keys
      invariant totals.Keys == totals0.Keys
      invariant forall k :: k in totals ==> totals[k] == totals0[k] + (if k in rest then 0 else stats[k])
      decreases rest
    {
      var key :| key in rest;
      totals := totals[key := totals[key] + stats[key]];
      rest := rest - {key};
    }
  }

  /** calculateTotals: totals[k] is the sum over the sorted names of each user's count for k. */
  method CalculateTotals(users: seq<User>, assignments: seq<Assignment>, workTypesMap: map<string, WorkTypeInfo>,
                         sortedNames: seq<string>, month: int, year: int) returns (totals: map<string, int>)
    ensures totals.Keys == workTypesMap.Keys
    ensures forall k :: k in totals ==> totals[k] == SumOver(users, assignments, workTypesMap, sortedNames, k, month, year)
  {
    totals := ZeroStats(workTypesMap);
    var i := 0;
    while i < |sortedNames|
      invariant 0 <= i <= |sortedNames|
      invariant totals.Keys == workTypesMap.Keys
      invariant forall k :: k in totals ==> totals[k] == SumOver(users, assignments, workTypesMap, sortedNames[..i], k, month, year)
    {
      var stats := CalculateUserStats(users, assignments, workTypesMap, sortedNames[i], month, year);
      UserStatsSpec(users, assignments, workTypesMap, sortedNames[i], month, year, "");
      totals := AddStats(totals, stats);
      assert sortedNames[..i + 1][..i] == sortedNames[..i];
      i := i + 1;
    }
    assert sortedNames[..|sortedNames|] == sortedNames;
  }

  // ------------------------------------------------------------ sortedUsers

  /** `Array.prototype.sort`'s default order on strings: character by character, a prefix first. */
  predicate StrLe(a: string, b: string)
    decreases |a|
  {
    a == [] || (b != [] && (a[0] < b[0] || (a[0] == b[0] && StrLe(a[1..], b[1..]))))
  }

  lemma {:induction false} StrLeTotal(a: string, b: string)
    ensures StrLe(a, b) || StrLe(b, a)
    decreases |a|
  {
    if a != [] && b != [] && a[0] == b[0] {
      StrLeTotal(a[1..], b[1..]);
    }
  }

  predicate Sorted(s: seq<string>) {
    forall i :: 0 < i < |s| ==> StrLe(s[i - 1], s[i])
  }

  function Insert(x: string, s: seq<string>): (r: seq<string>)
    ensures |r| == |s| + 1
    ensures multiset(r) == multiset(s) + multiset{x}
    ensures r[0] == x || (s != [] && r[0] == s[0])
  {
    if s == [] then [x]
    else if StrLe(x, s[0]) then [x] + s
    else
      assert s == [s[0]] + s[1..];
      [s[0]] + Insert(x, s[1..])
  }

  function Sort(s: seq<string>): (r: seq<string>)
    ensures multiset(r) == multiset(s)
  {
    if s == [] then []
    else
      assert s == [s[0]] + s[1..];
      Insert(s[0], Sort(s[1..]))
  }

  /** sortedUsers: the users' names in sort order. */
  function SortedNames(users: seq<User>): seq<string> {
    Sort(seq(|users|, i requires 0 <= i < |users| => users[i].name))
  }

  lemma {:induction false} InsertSorted(x: string, s: seq<string>)
    requires Sorted(s)
    ensures Sorted(Insert(x, s))
    decreases |s|
  {
    if s != [] && !StrLe(x, s[0]) {
      StrLeTotal(x, s[0]);
      InsertSorted(x, s[1..]);
      var r := Insert(x, s[1..]);
      assert Insert(x, s) == [s[0]] + r;
      if s[1..] != [] {
        assert StrLe(s[0], s[1]);
      }
    }
  }

  lemma {:induction false} SortSorted(s: seq<string>)
    ensures Sorted(Sort(s))
    decreases |s|
  {
    if s != [] {
      SortSorted(s[1..]);
      InsertSorted(s[0], Sort(s[1..]));
    }
  }

  /** sortedUsers is a sorted permutation of the users' names. */
  lemma SortedNamesSpec(users: seq<User>)
    ensures Sorted(SortedNames(users))
    ensures multiset(SortedNames(users)) == multiset(seq(|users|, i requires 0 <= i < |users| => users[i].name))
    ensures |SortedNames(users)| == |users|
  {
    var names := seq(|users|, i requires 0 <= i < |users| => users[i].name);
    SortSorted(names);
    assert |multiset(SortedNames(users))| == |multiset(names)|;
  }
}
