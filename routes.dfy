/**
 * The client's route guard and route table: which paths are public, which
 * roles each guarded path admits, and what a visit renders.
 */
module Routes {
  import opened Tables

  /** The logged-in user the auth context holds; only the role matters here. */
  datatype SessionUser = SessionUser(id: int, name: string, role: string)

  /** `<Navigate to="/login" replace />` or `<Outlet />`. */
  datatype Outcome = Redirect(to: string) | Outlet

  const LoginPath: string := "/login"

  /** `PrivateRoute`: no user, or a role not allowed, redirects to the login page. */
  function PrivateRoute(user: Option<SessionUser>, allowedRoles: seq<string>): (o: Outcome)
    ensures o == Outlet <==> user.Some? && user.value.role in allowedRoles
    ensures o != Outlet ==> o == Redirect(LoginPath)
  {
    if user.None? then Redirect(LoginPath)
    else if user.value.role !in allowedRoles then Redirect(LoginPath)
    else Outlet
  }

  /** The decision depends only on whether someone is logged in and whether the role is allowed. */
  lemma PrivateRouteDependsOnRoleOnly(u1: Option<SessionUser>, a1: seq<string>,
                                      u2: Option<SessionUser>, a2: seq<string>)
    requires (u1.Some? && u1.value.role in a1) == (u2.Some? && u2.value.role in a2)
    ensures PrivateRoute(u1, a1) == PrivateRoute(u2, a2)
  {
  }

  /** How a path of the table is reached. */
  datatype Guard = Public | Guarded(allowedRoles: seq<string>)

  /** The `<Routes>` of `App`: each path with its guard. */
  const RouteTable: map<string, Guard> := map[
    "/login" := Public,
    "/signup" := Public,
    "/admin-dashboard" := Guarded([AdminRole]),
    "/add-store" := Guarded([AdminRole]),
    "/add-user" := Guarded([AdminRole]),
    "/storeowner-dashboard" := Guarded([OwnerRole]),
    "/user-dashboard" := Guarded([UserRole]),
    "/update-password" := Guarded([UserRole])
  ]

  /** What a visit to a path renders. */
  datatype Visit = NoRoute | RenderPage | Guard(outcome: Outcome)

  function VisitPath(path: string, user: Option<SessionUser>): (v: Visit)
    ensures v == NoRoute <==> path !in RouteTable
    ensures v == RenderPage <==> path in RouteTable && RouteTable[path] == Public
    ensures v.Guard? ==> v.outcome == PrivateRoute(user, RouteTable[path].allowedRoles)
  {
    if path !in RouteTable then NoRoute
    else match RouteTable[path]
      case Public => RenderPage
      case Guarded(roles) => Guard(PrivateRoute(user, roles))
  }

  /** The one role a guarded path admits. */
  function RoleFor(path: string): Option<string> {
    if path in {"/admin-dashboard", "/add-store", "/add-user"} then Some(AdminRole)
    else if path == "/storeowner-dashboard" then Some(OwnerRole)
    else if path in {"/user-dashboard", "/update-password"} then Some(UserRole)
    else None
  }

  /** The login and signup pages render for anyone, logged in or not. */
  lemma PublicPaths(user: Option<SessionUser>)
    ensures VisitPath("/login", user) == RenderPage
    ensures VisitPath("/signup", user) == RenderPage
  {
  }

  /**
   * Every guarded path admits exactly one role: a logged-in user sees the
   * page iff the role is the path's, and is sent to the login page otherwise;
   * nobody logged in is sent to the login page.
   */
  lemma GuardedPathsAdmitOneRole(path: string, user: SessionUser)
    requires RoleFor(path).Some?
    ensures VisitPath(path, Some(user)) ==
              if user.role == RoleFor(path).value then Guard(Outlet) else Guard(Redirect(LoginPath))
    ensures VisitPath(path, None) == Guard(Redirect(LoginPath))
  {
  }

  /** Every path of the table is public or admits the single role `RoleFor` names. */
  lemma TableIsPublicOrSingleRole(path: string)
    requires path in RouteTable
    ensures RouteTable[path] == Public <==> RoleFor(path).None?
    ensures RouteTable[path].Guarded? ==> RouteTable[path].allowedRoles == [RoleFor(path).value]
  {
  }
}
