/** userUtil: the login decision, signup with its duplicate-email guard and
    forced role, and the profile patch. Passwords are stored and compared as
    plain text. */
module UserUtil {
  import opened Common
  import opened Records
  import opened Store

  datatype LoginResult = LoggedIn(user: Row<User>) | LoginFailed(message: string)

  /** What a caller hands to signup; `role` and `profilePic` may be supplied
      but are always overridden. */
  datatype SignupData = SignupData(
    name: string,
    email: string,
    password: string,
    role: Option<string>,
    profilePic: Option<string>,
    bio: Option<string>)

  datatype SignupResult = SignedUp(user: Row<User>) | SignupFailed(message: string)

  /** The fields a profile update may carry; an absent field is left alone. */
  datatype UserPatch = UserPatch(
    name: Option<string>,
    email: Option<string>,
    password: Option<string>,
    profilePic: Option<string>,
    bio: Option<string>)

  datatype ProfileResult = Updated(user: Row<User>) | ProfileFailed(message: string)

  const USER_NOT_FOUND := "User not found"
  const INVALID_PASSWORD := "Invalid password"
  const LOGIN_FAILED := "Login failed"
  const USER_EXISTS := "User already exists"
  const SIGNUP_FAILED := "Signup failed"
  const PROFILE_FAILED := "Failed to update profile"
  const USER_ROLE := "user"

  /** `email=<e>`. */
  function WithEmail(email: string): Row<User> -> bool
  {
    (u: Row<User>) => u.val.email == email
  }

  predicate EmailTaken(users: seq<Row<User>>, email: string)
  {
    exists i | 0 <= i < |users| :: users[i].val.email == email
  }

  /** login: looks at the first user with the email only. */
  function Login(users: seq<Row<User>>, email: string, password: string, reachable: bool): (r: LoginResult)
    ensures !reachable ==> r == LoginFailed(LOGIN_FAILED)
    ensures reachable && !EmailTaken(users, email) ==> r == LoginFailed(USER_NOT_FOUND)
    ensures reachable && EmailTaken(users, email) && r.LoginFailed? ==> r.message == INVALID_PASSWORD
    ensures r.LoggedIn? ==> r.user in users && r.user.val.email == email && r.user.val.password == password
  {
    if !reachable then LoginFailed(LOGIN_FAILED)
    else
      var found := Filter(users, WithEmail(email));
      FilterEmpty(users, WithEmail(email));
      assert found != [] ==> found[0] in users;
      if found == [] then LoginFailed(USER_NOT_FOUND)
      else if found[0].val.password != password then LoginFailed(INVALID_PASSWORD)
      else LoggedIn(found[0])
  }

  /** Login succeeds exactly when the FIRST user with the email (in store
      order) has the password; a later user with the same email and the right
      password is never reached. */
  lemma LoginDecision(users: seq<Row<User>>, email: string, password: string)
    ensures Login(users, email, password, true).LoggedIn? <==>
            exists i :: 0 <= i < |users| && users[i].val.email == email && users[i].val.password == password &&
                        forall k :: 0 <= k < i ==> users[k].val.email != email
    ensures Login(users, email, password, true).LoggedIn? ==>
            exists i :: 0 <= i < |users| && Login(users, email, password, true).user == users[i] &&
                        forall k :: 0 <= k < i ==> users[k].val.email != email
  {
    var found := Filter(users, WithEmail(email));
    if found != [] {
      var i := FilterHead(users, WithEmail(email));
      forall j | 0 <= j < |users| && users[j].val.email == email &&
                 forall k :: 0 <= k < j ==> users[k].val.email != email
        ensures j == i
      {
      }
    }
  }

  /** The record signup posts: the caller's fields with `role: "user"`, the
      default picture and the creation time. */
  function NewUser(d: SignupData, now: int): (u: User)
    ensures u.role == USER_ROLE && u.role != ADMIN && u.profilePic == DEFAULT_PROFILE_PIC && u.createdAt == now
    ensures u.name == d.name && u.email == d.email && u.password == d.password && u.bio == d.bio
  {
    User(d.name, d.email, d.password, USER_ROLE, DEFAULT_PROFILE_PIC, d.bio, now)
  }

  method Signup(db: Db, d: SignupData, now: int, reachable: bool) returns (r: SignupResult)
    requires db.Valid()
    modifies db`users, db`nextId
    ensures db.Valid()
    ensures !reachable ==> r == SignupFailed(SIGNUP_FAILED) && unchanged(db)
    ensures reachable && EmailTaken(old(db.users), d.email) ==> r == SignupFailed(USER_EXISTS) && unchanged(db)
    ensures reachable && !EmailTaken(old(db.users), d.email) ==>
              r == SignedUp(Row(old(db.nextId), NewUser(d, now))) &&
              db.users == old(db.users) + [r.user] && db.nextId == old(db.nextId) + 1
  {
    if !reachable {
      return SignupFailed(SIGNUP_FAILED);
    }
    if EmailTaken(db.users, d.email) {
      return SignupFailed(USER_EXISTS);
    }
    var u := NewUser(d, now);
    AppendOk(db.users, u, db.nextId);
    r := SignedUp(Row(db.nextId, u));
    db.users := db.users + [r.user];
    db.nextId := db.nextId + 1;
  }

  /** After a successful signup, logging in with the same email and password
      succeeds and yields the new account. */
  lemma SignupThenLogin(users: seq<Row<User>>, d: SignupData, id: int, now: int)
    requires !EmailTaken(users, d.email)
    ensures Login(users + [Row(id, NewUser(d, now))], d.email, d.password, true) == LoggedIn(Row(id, NewUser(d, now)))
  {
    var added := Row(id, NewUser(d, now));
    FilterAppend(users, [added], WithEmail(d.email));
    FilterEmpty(users, WithEmail(d.email));
    assert Filter([added], WithEmail(d.email)) == [added];
  }

  /** Signup only ever adds accounts with role "user": a store without admins
      stays without admins. */
  lemma SignupAddsNoAdmin(users: seq<Row<User>>, d: SignupData, id: int, now: int)
    requires forall i :: 0 <= i < |users| ==> users[i].val.role != ADMIN
    ensures var after := users + [Row(id, NewUser(d, now))];
            forall i :: 0 <= i < |after| ==> after[i].val.role != ADMIN
  {
  }

  /** The PATCH of updateProfile: the supplied fields replace the stored ones;
      role and creation time are never touched. */
  function ApplyPatch(u: User, p: UserPatch): (n: User)
    ensures n.role == u.role && n.createdAt == u.createdAt
    ensures n.name == (if p.name.Some? then p.name.value else u.name)
    ensures n.email == (if p.email.Some? then p.email.value else u.email)
    ensures n.password == (if p.password.Some? then p.password.value else u.password)
    ensures n.profilePic == (if p.profilePic.Some? then p.profilePic.value else u.profilePic)
    ensures n.bio == (if p.bio.Some? then p.bio else u.bio)
  {
    User(
      if p.name.Some? then p.name.value else u.name,
      if p.email.Some? then p.email.value else u.email,
      if p.password.Some? then p.password.value else u.password,
      u.role,
      if p.profilePic.Some? then p.profilePic.value else u.profilePic,
      if p.bio.Some? then p.bio else u.bio,
      u.createdAt)
  }

  /** Applying the same patch twice is the same as applying it once. */
  lemma PatchIdempotent(u: User, p: UserPatch)
    ensures ApplyPatch(ApplyPatch(u, p), p) == ApplyPatch(u, p)
  {
  }

  /** updateProfile: a missing user is a 404. */
  method UpdateProfile(db: Db, userId: int, p: UserPatch, reachable: bool) returns (r: ProfileResult)
    requires db.Valid()
    modifies db`users
    ensures db.Valid()
    ensures reachable && Has(old(db.users), userId) ==>
              var n := ApplyPatch(Find(old(db.users), userId).value.val, p);
              r == Updated(Row(userId, n)) && db.users == Replace(old(db.users), userId, n)
    ensures !(reachable && Has(old(db.users), userId)) ==> r == ProfileFailed(PROFILE_FAILED) && unchanged(db)
  {
    var found := Find(db.users, userId);
    if !reachable || found.None? {
      return ProfileFailed(PROFILE_FAILED);
    }
    var n := ApplyPatch(found.value.val, p);
    ReplaceOk(db.users, userId, n, db.nextId);
    db.users := Replace(db.users, userId, n);
    r := Updated(Row(userId, n));
  }
}
