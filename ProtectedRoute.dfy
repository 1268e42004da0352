/** The route guard of the web client (src/auth/ProtectedRoute.tsx). */
module ProtectedRoute {
  import opened Optional

  datatype Route =
    | RedirectToLogin          // <Navigate to="/login" />
    | RedirectToUnauthorized   // <Navigate to="/unauthorized" />
    | Outlet                   // the protected page

  /** `userRoles.some((r) => roles.includes(r))` */
  function HasRole(userRoles: seq<string>, roles: seq<string>): (b: bool)
    ensures b <==> exists u :: u in userRoles && u in roles
  {
    if userRoles == [] then false
    else userRoles[0] in roles || HasRole(userRoles[1..], roles)
  }

  /** The guard: anyone signed out goes to the login page whatever the
      required roles; a signed-in user who holds none of a non-empty set of
      required roles goes to the unauthorized page; everyone else is let in. */
  function Guard(isAuthenticated: bool, roles: Option<seq<string>>, userRoles: seq<string>): (r: Route)
    ensures r == RedirectToLogin <==> !isAuthenticated
    ensures r == RedirectToUnauthorized <==>
      isAuthenticated && roles.Some? && |roles.value| > 0 && forall u :: u in userRoles ==> u !in roles.value
    ensures r == Outlet <==>
      isAuthenticated && (roles.None? || roles.value == [] || exists u :: u in userRoles && u in roles.value)
  {
    if !isAuthenticated then RedirectToLogin
    else if roles.Some? && |roles.value| > 0 && !HasRole(userRoles, roles.value) then RedirectToUnauthorized
    else Outlet
  }

  /** Requiring more roles never admits fewer users. */
  lemma {:induction false} MoreRolesAdmitMore(isAuthenticated: bool, roles: seq<string>, more: seq<string>, userRoles: seq<string>)
    requires roles != [] && forall x :: x in roles ==> x in more
    requires Guard(isAuthenticated, Some(roles), userRoles) == Outlet
    ensures Guard(isAuthenticated, Some(more), userRoles) == Outlet
  {
    var u :| u in userRoles && u in roles;
    assert u in more;
  }
}
