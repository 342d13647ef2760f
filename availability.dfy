/**
 * AvailabilityView: for one selected date, the names on the roster are
 * split into those free that day and those holding an entry, and each
 * occupied person's chip shows the code and its caption.
 */
module Availability {
  import opened Wrappers
  import opened Dates
  import opened Records
  import opened SeqOps

  /**
   * The view's getScheduleItem(day, month, year, person): the same lookup,
   * with the same (month, year, day, name) key, that the index builder writes.
   */
  function ItemOn(schedule: Schedule, date: Date, person: string): (r: Option<Entry>)
    ensures r.Some? <==> Key(date.month, date.year, date.day, person) in schedule
    ensures r.Some? ==> r.value == schedule[Key(date.month, date.year, date.day, person)]
  {
    GetScheduleItem(schedule, date.day, date.month, date.year, person)
  }

  function IsBusy(schedule: Schedule, date: Date): string -> bool {
    person => ItemOn(schedule, date, person).Some?
  }

  /** getAvailablePersonnel: the persons without an entry that day, in input order. */
  function AvailableOn(schedule: Schedule, personnel: seq<string>, date: Date): seq<string> {
    Filter(personnel, Not(IsBusy(schedule, date)))
  }

  /** getUnavailablePersonnel: the persons holding an entry that day, in input order. */
  function UnavailableOn(schedule: Schedule, personnel: seq<string>, date: Date): seq<string> {
    Filter(personnel, IsBusy(schedule, date))
  }

  /**
   * The two lists: a name is available exactly when it is on the roster and
   * has no entry, unavailable exactly when it has one; both keep the roster's
   * order, and the counts in the summary line add up to personnel.length.
   */
  lemma AvailabilityPartition(schedule: Schedule, personnel: seq<string>, date: Date, person: string)
    ensures person in AvailableOn(schedule, personnel, date) <==>
              person in personnel && Key(date.month, date.year, date.day, person) !in schedule
    ensures person in UnavailableOn(schedule, personnel, date) <==>
              person in personnel && Key(date.month, date.year, date.day, person) in schedule
    ensures !(person in AvailableOn(schedule, personnel, date) && person in UnavailableOn(schedule, personnel, date))
    ensures |AvailableOn(schedule, personnel, date)| + |UnavailableOn(schedule, personnel, date)| == |personnel|
    ensures multiset(AvailableOn(schedule, personnel, date)) + multiset(UnavailableOn(schedule, personnel, date)) ==
            multiset(personnel)
    ensures IsSubsequence(AvailableOn(schedule, personnel, date), personnel)
    ensures IsSubsequence(UnavailableOn(schedule, personnel, date), personnel)
  {
    var busy := IsBusy(schedule, date);
    FilterPartition(personnel, busy);
    FilterMembers(personnel, busy, person);
    FilterMembers(personnel, Not(busy), person);
    FilterIsSubsequence(personnel, busy);
    FilterIsSubsequence(personnel, Not(busy));
  }

  /** On a day nobody holds, everyone is available and nobody is listed as taken. */
  lemma EmptyDayAllAvailable(schedule: Schedule, personnel: seq<string>, date: Date)
    requires forall i :: 0 <= i < |personnel| ==> Key(date.month, date.year, date.day, personnel[i]) !in schedule
    ensures AvailableOn(schedule, personnel, date) == personnel
    ensures UnavailableOn(schedule, personnel, date) == []
  {
    FilterKeepsAll(personnel, Not(IsBusy(schedule, date)));
    FilterPartition(personnel, IsBusy(schedule, date));
  }

  /**
   * The chip beside an unavailable person: "code - caption" when the entry's
   * code is in the dictionary, nothing otherwise.
   */
  function ChipLabel(schedule: Schedule, workTypes: map<string, WorkTypeInfo>, date: Date, person: string): Option<string> {
    match ItemOn(schedule, date, person)
    case None => None
    case Some(item) =>
      if item.workTypeCode in workTypes then Some(item.workTypeCode + " - " + workTypes[item.workTypeCode].caption)
      else None
  }

  /** The chip is shown exactly when the person's entry has a known code, and then reads "code - caption". */
  lemma ChipShownIffKnownCode(schedule: Schedule, workTypes: map<string, WorkTypeInfo>, date: Date, person: string)
    ensures ChipLabel(schedule, workTypes, date, person).Some? <==>
              Key(date.month, date.year, date.day, person) in schedule &&
              schedule[Key(date.month, date.year, date.day, person)].workTypeCode in workTypes
    ensures ChipLabel(schedule, workTypes, date, person).Some? ==>
              var code := schedule[Key(date.month, date.year, date.day, person)].workTypeCode;
              var text := ChipLabel(schedule, workTypes, date, person).value;
              |text| == |code| + 3 + |workTypes[code].caption| &&
              text[..|code|] == code && text[|code|..|code| + 3] == " - " &&
              text[|code| + 3..] == workTypes[code].caption
  {
  }
}
