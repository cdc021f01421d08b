/** The ManageUsers admin page: the search over names and e-mail addresses,
    and deleting users, which the page refuses for administrators. */
module ManageUsersPage {
  import opened Common
  import opened Records
  import opened Store

  const DELETE_FAILED := "Failed to delete user"

  /** A user is listed when the search text occurs in the name or in the
      e-mail address, ignoring the case of ASCII letters. */
  function UserMatches(searchText: string): Row<User> -> bool
  {
    (u: Row<User>) => IncludesIgnoringCase(u.val.name, searchText) || IncludesIgnoringCase(u.val.email, searchText)
  }

  /** filteredUsers. */
  function FilteredUsers(users: seq<Row<User>>, searchText: string): seq<Row<User>>
  {
    Filter(users, UserMatches(searchText))
  }

  /** The list shows, in the fetched order, exactly the users whose name or
      e-mail contains the search text; an empty search shows everyone. */
  lemma FilteredUsersExactly(users: seq<Row<User>>, searchText: string)
    ensures forall x :: x in FilteredUsers(users, searchText) <==>
              x in users && (IncludesIgnoringCase(x.val.name, searchText) || IncludesIgnoringCase(x.val.email, searchText))
    ensures IsSubsequence(FilteredUsers(users, searchText), users)
    ensures FilteredUsers(users, "") == users
  {
    forall i | 0 <= i < |users| ensures UserMatches("")(users[i]) {
      IncludesEmpty(users[i].val.name);
    }
  }

  /** The delete button and its confirmation are disabled on an
      administrator's row. */
  predicate DeleteEnabled(u: User)
  {
    u.role != ADMIN
  }

  class UsersPage {
    var users: seq<Row<User>>
    var searchText: string

    constructor ()
      ensures users == [] && searchText == ""
    {
      users, searchText := [], "";
    }

    method FetchUsers(db: Db, reachable: bool)
      modifies this`users
      ensures users == if reachable then db.users else old(users)
    {
      if reachable {
        users := db.users;
      }
    }

    method Search(text: string)
      modifies this`searchText
      ensures searchText == text
    {
      searchText := text;
    }

    /** handleDeleteUser: the user goes from the store and from the list; a
        failed request leaves both as they were. */
    method DeleteUser(db: Db, id: int, reachable: bool) returns (r: Outcome)
      requires db.Valid()
      modifies db`users, this`users
      ensures db.Valid()
      ensures r == Done <==> reachable && Has(old(db.users), id)
      ensures r == Done ==> db.users == Remove(old(db.users), id) && users == Remove(old(users), id)
      ensures r != Done ==> r == Failed(DELETE_FAILED) && unchanged(db) && users == old(users)
    {
      if !reachable || !Has(db.users, id) {
        return Failed(DELETE_FAILED);
      }
      RemoveOk(db.users, id, db.nextId);
      db.users := Remove(db.users, id);
      users := Remove(users, id);
      r := Done;
    }

    /** Confirming the delete on a row: nothing happens on an administrator's
        row, since its button is disabled. */
    method ConfirmDelete(db: Db, row: Row<User>, reachable: bool) returns (sent: bool)
      requires db.Valid()
      modifies db`users, this`users
      ensures db.Valid()
      ensures sent <==> DeleteEnabled(row.val)
      ensures !sent ==> unchanged(db) && users == old(users)
      ensures sent && reachable && Has(old(db.users), row.id) ==>
                db.users == Remove(old(db.users), row.id) && users == Remove(old(users), row.id)
      ensures sent && !(reachable && Has(old(db.users), row.id)) ==> unchanged(db) && users == old(users)
    {
      if !DeleteEnabled(row.val) {
        return false;
      }
      var _ := DeleteUser(db, row.id, reachable);
      sent := true;
    }
  }
}
