/** The two route gates: what AdminRoute and ProtectedRoute render from the
    session's `loading`, `currentUser` and `isAdmin`. */
module Routes {
  import opened Common
  import opened Records
  import opened Store

  /** The loading placeholder, the nested route, or a redirect. */
  datatype Gate = Placeholder | Outlet | Redirect(to: string)

  function AdminRoute(loading: bool, currentUser: Option<Row<User>>, isAdmin: bool): (g: Gate)
    ensures loading ==> g == Placeholder
    ensures !loading ==> (g == Outlet <==> currentUser.Some? && isAdmin)
    ensures !loading && !(currentUser.Some? && isAdmin) ==> g == Redirect("/")
  {
    if loading then Placeholder
    else if currentUser.Some? && isAdmin then Outlet
    else Redirect("/")
  }

  function ProtectedRoute(loading: bool, currentUser: Option<Row<User>>): (g: Gate)
    ensures loading ==> g == Placeholder
    ensures !loading ==> (g == Outlet <==> currentUser.Some?)
    ensures !loading && currentUser.None? ==> g == Redirect("/login")
  {
    if loading then Placeholder
    else if currentUser.Some? then Outlet
    else Redirect("/login")
  }

  /** Every session the admin gate lets through, the authenticated gate lets
      through too; the converse fails for a logged-in non-admin, whom the
      admin gate sends to "/". */
  lemma AdminAdmitsOnlyAuthenticated(loading: bool, currentUser: Option<Row<User>>, isAdmin: bool)
    ensures AdminRoute(loading, currentUser, isAdmin) == Outlet ==> ProtectedRoute(loading, currentUser) == Outlet
    ensures !loading && currentUser.Some? && !isAdmin ==>
              ProtectedRoute(loading, currentUser) == Outlet && AdminRoute(loading, currentUser, isAdmin) == Redirect("/")
  {
  }

  /** The two gates disagree on where a visitor with no session goes. */
  lemma AnonymousRedirects(currentUser: Option<Row<User>>, isAdmin: bool)
    requires currentUser.None?
    ensures AdminRoute(false, currentUser, isAdmin) == Redirect("/")
    ensures ProtectedRoute(false, currentUser) == Redirect("/login")
  {
  }
}
