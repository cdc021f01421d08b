/** AuthProvider: the session held by the application — the current user,
    the admin flag, the loading flag and the user id kept in local storage —
    and the transitions its functions perform. */
module AuthContext {
  import opened Common
  import opened Records
  import opened Store
  import opened UserUtil
  import opened Routes

  class Session {
    var currentUser: Option<Row<User>>
    var isAdmin: bool
    var loading: bool
    /** `localStorage.userId`. */
    var storedUserId: Option<int>

    /** The admin flag agrees with the role of the current user. */
    predicate Consistent()
      reads this
    {
      isAdmin <==> currentUser.Some? && currentUser.value.val.role == ADMIN
    }

    /** The provider's first render: nobody logged in, still loading, with
        whatever id local storage kept from an earlier visit. */
    constructor (stored: Option<int>)
      ensures currentUser.None? && !isAdmin && loading && storedUserId == stored
      ensures Consistent()
    {
      currentUser := None;
      isAdmin := false;
      loading := true;
      storedUserId := stored;
    }

    /** The mount effect (`checkLoggedIn`): a stored id that resolves becomes
        the current user; one that does not (a 404 or a failed request) is
        removed from storage. Loading ends either way. */
    method Rehydrate(db: Db, reachable: bool)
      modifies this
      ensures !loading
      ensures old(storedUserId).None? ==>
                currentUser == old(currentUser) && isAdmin == old(isAdmin) && storedUserId.None?
      ensures old(storedUserId).Some? && reachable && Has(db.users, old(storedUserId).value) ==>
                currentUser == Find(db.users, old(storedUserId).value) &&
                isAdmin == (currentUser.value.val.role == ADMIN) &&
                storedUserId == old(storedUserId)
      ensures old(storedUserId).Some? && !(reachable && Has(db.users, old(storedUserId).value)) ==>
                currentUser == old(currentUser) && isAdmin == old(isAdmin) && storedUserId.None?
      ensures old(Consistent()) ==> Consistent()
    {
      if storedUserId.Some? {
        var found := Find(db.users, storedUserId.value);
        if reachable && found.Some? {
          currentUser := found;
          isAdmin := found.value.val.role == ADMIN;
        } else {
          storedUserId := None;
        }
      }
      loading := false;
    }

    /** login: the same decision as `UserUtil.Login`; only a successful one
        touches the session. */
    method Login(db: Db, email: string, password: string, reachable: bool) returns (ok: bool)
      modifies this`currentUser, this`isAdmin, this`storedUserId
      ensures var res := UserUtil.Login(db.users, email, password, reachable);
              && (ok <==> res.LoggedIn?)
              && (ok ==> currentUser == Some(res.user) && isAdmin == (res.user.val.role == ADMIN) &&
                         storedUserId == Some(res.user.id))
      ensures !ok ==> currentUser == old(currentUser) && isAdmin == old(isAdmin) && storedUserId == old(storedUserId)
      ensures ok ==> Consistent()
    {
      var res := UserUtil.Login(db.users, email, password, reachable);
      if res.LoggedIn? {
        currentUser := Some(res.user);
        isAdmin := res.user.val.role == ADMIN;
        storedUserId := Some(res.user.id);
        ok := true;
      } else {
        ok := false;
      }
    }

    /** signup: creates a role "user" account and makes it the current user,
        but leaves `isAdmin` as it was. */
    method Signup(db: Db, name: string, email: string, password: string, now: int, reachable: bool)
      returns (ok: bool)
      requires db.Valid()
      modifies db`users, db`nextId, this`currentUser, this`storedUserId
      ensures db.Valid()
      ensures ok <==> reachable && !EmailTaken(old(db.users), email)
      ensures ok ==>
                var u := Row(old(db.nextId), NewUser(SignupData(name, email, password, None, None, None), now));
                db.users == old(db.users) + [u] && currentUser == Some(u) && storedUserId == Some(u.id)
      ensures !ok ==> unchanged(db) && currentUser == old(currentUser) && storedUserId == old(storedUserId)
      ensures isAdmin == old(isAdmin)
      /* An admin who signs up a new account keeps the admin flag for an
         account whose role is "user", and the admin gate lets it through. */
      ensures ok && old(isAdmin) ==>
                !Consistent() && currentUser.value.val.role != ADMIN &&
                AdminRoute(false, currentUser, isAdmin) == Outlet
    {
      var res := UserUtil.Signup(db, SignupData(name, email, password, None, None, None), now, reachable);
      if res.SignedUp? {
        currentUser := Some(res.user);
        storedUserId := Some(res.user.id);
        ok := true;
      } else {
        ok := false;
      }
    }

    method Logout()
      modifies this`currentUser, this`isAdmin, this`storedUserId
      ensures currentUser.None? && !isAdmin && storedUserId.None?
      ensures Consistent()
    {
      currentUser := None;
      isAdmin := false;
      storedUserId := None;
    }

    /** updateProfile: patches the current user's record and takes the
        store's answer as the new current user; with nobody logged in the
        request is never made. `isAdmin` is left as it was. */
    method UpdateProfile(db: Db, p: UserPatch, reachable: bool) returns (ok: bool)
      requires db.Valid()
      modifies db`users, this`currentUser
      ensures db.Valid()
      ensures ok <==> reachable && old(currentUser).Some? && Has(old(db.users), old(currentUser).value.id)
      ensures ok ==>
                var id := old(currentUser).value.id;
                var n := ApplyPatch(Find(old(db.users), id).value.val, p);
                db.users == Replace(old(db.users), id, n) && currentUser == Some(Row(id, n))
      ensures !ok ==> unchanged(db) && currentUser == old(currentUser)
      ensures isAdmin == old(isAdmin)
      ensures ok && old(Consistent()) && old(currentUser).value.val.role == Find(old(db.users), old(currentUser).value.id).value.val.role ==>
                Consistent()
    {
      if currentUser.None? {
        return false;
      }
      var res := UserUtil.UpdateProfile(db, currentUser.value.id, p, reachable);
      if res.Updated? {
        currentUser := Some(res.user);
        ok := true;
      } else {
        ok := false;
      }
    }
  }
}
