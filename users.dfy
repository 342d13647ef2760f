/** useUsers: the client-side list of users. */
module Users {
  import opened Wrappers
  import opened Records
  import opened SeqOps

  function HasUserId(id: string): User -> bool {
    (u: User) => u.id == id
  }

  /**
   * The list updates: an update replaces every user with the id in place
   * and keeps the length; a delete keeps exactly the users with another id,
   * in order.
   */
  lemma UserListSpec(list: seq<User>, id: string, updated: User, u: User)
    ensures |Replace(list, HasUserId(id), updated)| == |list|
    ensures forall i :: 0 <= i < |list| ==>
              Replace(list, HasUserId(id), updated)[i] == if list[i].id == id then updated else list[i]
    ensures u in Filter(list, Not(HasUserId(id))) <==> u in list && u.id != id
    ensures IsSubsequence(Filter(list, Not(HasUserId(id))), list)
  {
    ReplaceAt(list, HasUserId(id), updated);
    FilterMembers(list, Not(HasUserId(id)), u);
    FilterIsSubsequence(list, Not(HasUserId(id)));
  }

  function Ids(list: seq<User>): set<string> {
    set u | u in list :: u.id
  }

  /** Updating with a record that keeps its id leaves the set of ids as it was. */
  lemma UpdateKeepsIds(list: seq<User>, id: string, updated: User)
    requires updated.id == id
    ensures Ids(Replace(list, HasUserId(id), updated)) == Ids(list)
  {
    var r := Replace(list, HasUserId(id), updated);
    ReplaceAt(list, HasUserId(id), updated);
    forall x | x in Ids(r) ensures x in Ids(list) {
      var v :| v in r && v.id == x;
      var i :| 0 <= i < |r| && r[i] == v;
      assert list[i] in list && list[i].id == x;
    }
    forall x | x in Ids(list) ensures x in Ids(r) {
      var v :| v in list && v.id == x;
      var i :| 0 <= i < |list| && list[i] == v;
      assert r[i] in r && r[i].id == x;
    }
  }

  class UserStore {
    var users: seq<User>
    var error: Option<string>

    constructor()
      ensures users == [] && error == None
    {
      users, error := [], None;
    }

    /** loadUsers: on success the data replaces the list. */
    method Load(outcome: Remote<seq<User>>)
      modifies this
      ensures outcome.Success? ==> users == outcome.data && error == None
      ensures outcome.Failure? ==> users == old(users) && error == Some(ErrorText(outcome.msg, "Error al cargar usuarios"))
    {
      error := None;
      match outcome {
        case Success(data) =>
          users := data;
        case Failure(msg) =>
          error := Some(ErrorText(msg, "Error al cargar usuarios"));
      }
    }

    /** createUser: the returned user goes at the end. */
    method Create(outcome: Remote<User>) returns (r: Remote<User>)
      modifies this
      ensures r == outcome
      ensures outcome.Success? ==> users == old(users) + [outcome.data] && error == None
      ensures outcome.Failure? ==> users == old(users) && error == Some(ErrorText(outcome.msg, "Error al crear usuario"))
    {
      error := None;
      match outcome {
        case Success(created) =>
          users := users + [created];
        case Failure(msg) =>
          error := Some(ErrorText(msg, "Error al crear usuario"));
      }
      r := outcome;
    }

    /** updateUserData: every user with the id becomes the returned one. */
    method Update(id: string, outcome: Remote<User>) returns (r: Remote<User>)
      modifies this
      ensures r == outcome
      ensures outcome.Success? ==> users == Replace(old(users), HasUserId(id), outcome.data) && error == None
      ensures outcome.Success? ==> |users| == |old(users)|
      ensures outcome.Failure? ==> users == old(users) && error == Some(ErrorText(outcome.msg, "Error al actualizar usuario"))
    {
      error := None;
      match outcome {
        case Success(updated) =>
          ReplaceAt(users, HasUserId(id), updated);
          users := Replace(users, HasUserId(id), updated);
        case Failure(msg) =>
          error := Some(ErrorText(msg, "Error al actualizar usuario"));
      }
      r := outcome;
    }

    /** deleteUserData: every user with the id leaves the list. */
    method Delete(id: string, outcome: Remote<()>) returns (r: Remote<()>)
      modifies this
      ensures r == outcome
      ensures outcome.Success? ==> users == Filter(old(users), Not(HasUserId(id))) && error == None
      ensures outcome.Failure? ==> users == old(users) && error == Some(ErrorText(outcome.msg, "Error al eliminar usuario"))
    {
      error := None;
      match outcome {
        case Success(_) =>
          users := Filter(users, Not(HasUserId(id)));
        case Failure(msg) =>
          error := Some(ErrorText(msg, "Error al eliminar usuario"));
      }
      r := outcome;
    }
  }
}
