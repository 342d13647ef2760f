/**
 * useWorkTypes: the list of work types and the code dictionary derived
 * from it, kept side by side and updated together.
 */
module WorkTypes {
  import opened Wrappers
  import opened Records
  import opened SeqOps

  function InfoOf(w: WorkType): WorkTypeInfo {
    WorkTypeInfo(w.caption, w.color)
  }

  /** The codes present in a list. */
  function Codes(list: seq<WorkType>): set<string> {
    set w | w in list :: w.code
  }

  /**
   * The dictionary loadAllWorkTypes derives from a list, with the later of two
   * records sharing a code winning (written from the front: a record counts
   * only when no later one has its code).
   */
  function MapOfList(list: seq<WorkType>): map<string, WorkTypeInfo>
    decreases |list|
  {
    if list == [] then map[]
    else
      var rest := MapOfList(list[1..]);
      if list[0].code in rest then rest else rest[list[0].code := InfoOf(list[0])]
  }

  function WithCode(code: string): WorkType -> bool {
    (w: WorkType) => w.code == code
  }

  /**
   * The dictionary's keys are the list's codes, and each key holds the
   * caption and colour of the last record with that code.
   */
  lemma {:induction false} MapOfListLookup(list: seq<WorkType>, code: string)
    ensures code in MapOfList(list) <==> code in Codes(list)
    ensures code in MapOfList(list) ==>
              exists j :: 0 <= j < |list| && list[j].code == code && MapOfList(list)[code] == InfoOf(list[j]) &&
                (forall k :: j < k < |list| ==> list[k].code != code)
    decreases |list|
  {
    if list != [] {
      MapOfListLookup(list[1..], code);
      assert Codes(list) == {list[0].code} + Codes(list[1..]);
      if code in MapOfList(list[1..]) {
        var j :| 0 <= j < |list[1..]| && list[1..][j].code == code && MapOfList(list[1..])[code] == InfoOf(list[1..][j]) &&
                 (forall k :: j < k < |list[1..]| ==> list[1..][k].code != code);
        assert list[j + 1].code == code;
        assert forall k :: j + 1 < k < |list| ==> list[k] == list[1..][k - 1];
      } else if code == list[0].code {
        assert forall k :: 0 < k < |list| ==> list[k] == list[1..][k - 1] && list[1..][k - 1] in list[1..];
      }
    }
  }

  /** Appending a record sets its code to its caption and colour. */
  lemma {:induction false} MapOfListAppend(list: seq<WorkType>, w: WorkType)
    ensures MapOfList(list + [w]) == MapOfList(list)[w.code := InfoOf(w)]
    decreases |list|
  {
    if list == [] {
      assert MapOfList([w]) == MapOfList([])[w.code := InfoOf(w)];
    } else {
      assert (list + [w])[1..] == list[1..] + [w];
      MapOfListAppend(list[1..], w);
      if list[0].code == w.code {
        assert MapOfList(list + [w]) == MapOfList(list[1..])[w.code := InfoOf(w)];
      }
    }
  }

  /** The dictionary's keys are exactly the list's codes. */
  lemma {:induction false} MapOfListKeys(list: seq<WorkType>)
    ensures MapOfList(list).Keys == Codes(list)
    decreases |list|
  {
    if list != [] {
      MapOfListKeys(list[1..]);
      assert Codes(list) == {list[0].code} + Codes(list[1..]);
    }
  }

  /** Dropping every record with a code drops exactly that key. */
  lemma {:induction false} MapOfListRemove(list: seq<WorkType>, code: string)
    ensures MapOfList(Filter(list, Not(WithCode(code)))) == MapOfList(list) - {code}
    decreases |list|
  {
    if list != [] {
      MapOfListRemove(list[1..], code);
      var rest := MapOfList(list[1..]);
      var f := Filter(list[1..], Not(WithCode(code)));
      var d := list[0].code;
      if d != code {
        assert Filter(list, Not(WithCode(code))) == [list[0]] + f;
        assert ([list[0]] + f)[1..] == f;
        assert MapOfList([list[0]] + f) == if d in rest - {code} then rest - {code} else (rest - {code})[d := InfoOf(list[0])];
        assert rest[d := InfoOf(list[0])] - {code} == (rest - {code})[d := InfoOf(list[0])];
      } else {
        assert Filter(list, Not(WithCode(code))) == f;
        assert rest[d := InfoOf(list[0])] - {code} == rest - {code};
      }
    }
  }

  /** One step of MapOfList: a record counts only when no later record has its code. */
  lemma MapOfListCons(x: WorkType, t: seq<WorkType>)
    ensures MapOfList([x] + t) == if x.code in MapOfList(t) then MapOfList(t) else MapOfList(t)[x.code := InfoOf(x)]
  {
    assert ([x] + t)[1..] == t;
  }

  /**
   * The map step behind MapOfListReplace: setting `code` before or after
   * adding the head record `d` gives the same dictionary.
   */
  lemma ReplaceStep(rest: map<string, WorkTypeInfo>, d: string, code: string, a: WorkTypeInfo, u: WorkTypeInfo)
    ensures var rest' := if code in rest then rest[code := u] else rest;
            var ml := if d in rest then rest else rest[d := a];
            var xInfo := if d == code then u else a;
            (if d in rest' then rest' else rest'[d := xInfo]) == (if code in ml then ml[code := u] else ml)
  {
  }

  /** Replacing every record with code `code` by one with the same code sets that key to its values. */
  lemma {:induction false} MapOfListReplace(list: seq<WorkType>, code: string, updated: WorkType)
    requires updated.code == code
    ensures MapOfList(Replace(list, WithCode(code), updated)) ==
              if code in Codes(list) then MapOfList(list)[code := InfoOf(updated)] else MapOfList(list)
    decreases |list|
  {
    MapOfListKeys(list);
    if list != [] {
      var tail := list[1..];
      var x := if list[0].code == code then updated else list[0];
      var r' := Replace(tail, WithCode(code), updated);
      assert Replace(list, WithCode(code), updated) == [x] + r';
      assert list == [list[0]] + tail;
      MapOfListCons(x, r');
      MapOfListCons(list[0], tail);
      MapOfListReplace(tail, code, updated);
      MapOfListKeys(tail);
      ReplaceStep(MapOfList(tail), list[0].code, code, InfoOf(list[0]), InfoOf(updated));
    }
  }

  class WorkTypeStore {
    var workTypes: seq<WorkType>
    var workTypesMap: map<string, WorkTypeInfo>
    var error: Option<string>

    constructor()
      ensures workTypes == [] && workTypesMap == map[] && error == None
      ensures Synced()
    {
      workTypes, workTypesMap, error := [], map[], None;
    }

    /** The dictionary is the one derived from the list. */
    predicate Synced()
      reads this
    {
      workTypesMap == MapOfList(workTypes)
    }

    /** The forEach of loadAllWorkTypes. */
    static method BuildMap(data: seq<WorkType>) returns (m: map<string, WorkTypeInfo>)
      ensures m == MapOfList(data)
    {
      m := map[];
      var i := 0;
      while i < |data|
        invariant 0 <= i <= |data|
        invariant m == MapOfList(data[..i])
      {
        MapOfListAppend(data[..i], data[i]);
        assert data[..i + 1] == data[..i] + [data[i]];
        m := m[data[i].code := InfoOf(data[i])];
        i := i + 1;
      }
      assert data[..|data|] == data;
    }

    /** loadAllWorkTypes: on success both the list and its dictionary are replaced. */
    method LoadAll(outcome: Remote<seq<WorkType>>)
      modifies this
      ensures outcome.Success? ==> workTypes == outcome.data && workTypesMap == MapOfList(outcome.data) && error == None
      ensures outcome.Success? ==> Synced()
      ensures outcome.Failure? ==>
                workTypes == old(workTypes) && workTypesMap == old(workTypesMap) &&
                error == Some(ErrorText(outcome.msg, "Error al cargar tipos de trabajo"))
    {
      error := None;
      match outcome {
        case Success(data) =>
          workTypes := data;
          workTypesMap := BuildMap(data);
        case Failure(msg) =>
          error := Some(ErrorText(msg, "Error al cargar tipos de trabajo"));
      }
    }

    /** createWorkType: append the created record and set its code. */
    method Create(outcome: Remote<WorkType>) returns (r: Remote<WorkType>)
      modifies this
      ensures r == outcome
      ensures outcome.Success? ==>
                workTypes == old(workTypes) + [outcome.data] &&
                workTypesMap == old(workTypesMap)[outcome.data.code := InfoOf(outcome.data)] && error == None
      ensures outcome.Failure? ==>
                workTypes == old(workTypes) && workTypesMap == old(workTypesMap) &&
                error == Some(ErrorText(outcome.msg, "Error al crear tipo de trabajo"))
      ensures old(Synced()) ==> Synced()
    {
      error := None;
      match outcome {
        case Success(created) =>
          MapOfListAppend(workTypes, created);
          workTypes := workTypes + [created];
          workTypesMap := workTypesMap[created.code := InfoOf(created)];
        case Failure(msg) =>
          error := Some(ErrorText(msg, "Error al crear tipo de trabajo"));
      }
      r := outcome;
    }

    /**
     * updateWorkType: every record with `code` becomes the returned one and
     * the key `code` takes its caption and colour. The two stay in step when
     * the returned record keeps the code and the code was already listed.
     */
    method Update(code: string, outcome: Remote<WorkType>) returns (r: Remote<WorkType>)
      modifies this
      ensures r == outcome
      ensures outcome.Success? ==>
                workTypes == Replace(old(workTypes), WithCode(code), outcome.data) &&
                workTypesMap == old(workTypesMap)[code := InfoOf(outcome.data)] && error == None
      ensures outcome.Failure? ==>
                workTypes == old(workTypes) && workTypesMap == old(workTypesMap) &&
                error == Some(ErrorText(outcome.msg, "Error al actualizar tipo de trabajo"))
      ensures old(Synced()) && outcome.Success? && outcome.data.code == code && code in Codes(old(workTypes)) ==> Synced()
      ensures old(Synced()) && outcome.Failure? ==> Synced()
    {
      error := None;
      match outcome {
        case Success(updated) =>
          if updated.code == code {
            MapOfListReplace(workTypes, code, updated);
          }
          workTypes := Replace(workTypes, WithCode(code), updated);
          workTypesMap := workTypesMap[code := InfoOf(updated)];
        case Failure(msg) =>
          error := Some(ErrorText(msg, "Error al actualizar tipo de trabajo"));
      }
      r := outcome;
    }

    /** deleteWorkType: every record with the code and the key itself go. */
    method Delete(code: string, outcome: Remote<()>) returns (r: Remote<()>)
      modifies this
      ensures r == outcome
      ensures outcome.Success? ==>
                workTypes == Filter(old(workTypes), Not(WithCode(code))) &&
                workTypesMap == old(workTypesMap) - {code} && error == None
      ensures outcome.Failure? ==>
                workTypes == old(workTypes) && workTypesMap == old(workTypesMap) &&
                error == Some(ErrorText(outcome.msg, "Error al eliminar tipo de trabajo"))
      ensures old(Synced()) ==> Synced()
    {
      error := None;
      match outcome {
        case Success(_) =>
          MapOfListRemove(workTypes, code);
          workTypes := Filter(workTypes, Not(WithCode(code)));
          workTypesMap := workTypesMap - {code};
        case Failure(msg) =>
          error := Some(ErrorText(msg, "Error al eliminar tipo de trabajo"));
      }
      r := outcome;
    }
  }

  /** An update answered with a record of another code leaves a key no listed record carries: list and dictionary drift apart. */
  lemma UpdateWithOtherCodeDesyncs(w: WorkType, other: string)
    requires other != w.code
    ensures var updated := w.(code := other);
            var list := Replace([w], WithCode(w.code), updated);
            var m := MapOfList([w])[w.code := InfoOf(updated)];
            m.Keys != MapOfList(list).Keys
  {
    var updated := w.(code := other);
    assert Replace([w], WithCode(w.code), updated) == [updated];
    assert MapOfList([updated]) == map[other := InfoOf(updated)];
    assert w.code in MapOfList([w])[w.code := InfoOf(updated)];
  }
}
