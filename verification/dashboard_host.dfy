/** The dashboard host page: it resolves the signed-in role and issues one
    navigation to the matching dashboard. */
module DashboardHost {
  import opened Wrappers
  import opened Json
  import opened Storage
  import opened AuthModel
  import AuthService

  const AdminDashboard := "/dashboard/admin"
  const UserDashboard := "/dashboard/user"

  /** `user?.['role']`. */
  function RoleOf(user: Option<Record>): Option<Value> {
    if user.Some? then Field(user.value, "role") else None
  }

  /** `state.user?.['role'] || this.auth.decodeToken()?.['role'] || 'user'`:
      the state's user role if truthy, else the stored token's role claim if
      truthy, else `user`. The result is always truthy. */
  function ResolveRole(state: AuthState, store: Store, codec: Codec): (role: Value)
    ensures Present(RoleOf(state.user)) ==> role == RoleOf(state.user).value
    ensures !Present(RoleOf(state.user)) && Present(RoleOf(AuthService.DecodeToken(store, None, codec))) ==>
      role == RoleOf(AuthService.DecodeToken(store, None, codec)).value
    ensures !Present(RoleOf(state.user)) && !Present(RoleOf(AuthService.DecodeToken(store, None, codec))) ==>
      role == Str("user")
    ensures Truthy(role)
  {
    if Present(RoleOf(state.user)) then RoleOf(state.user).value
    else OrElse(RoleOf(AuthService.DecodeToken(store, None, codec)), Str("user"))
  }

  /** `ngOnInit`: exactly one navigation, to the admin dashboard when the role
      is the string `admin` and to the user dashboard otherwise. */
  function Navigations(state: AuthState, store: Store, codec: Codec): (nav: seq<string>)
    ensures |nav| == 1
    ensures nav[0] == AdminDashboard <==> ResolveRole(state, store, codec) == Str("admin")
    ensures nav[0] == UserDashboard <==> ResolveRole(state, store, codec) != Str("admin")
  {
    if ResolveRole(state, store, codec) == Str("admin") then [AdminDashboard] else [UserDashboard]
  }

  /** Where the route table sends a navigation: `/dashboard/admin` redirects to
      `/admin-page`; the other paths used here are routes of their own. */
  function Landing(path: string): string {
    if path == AdminDashboard then "/admin-page" else path
  }

  /** With no role anywhere (no user and no decodable token), the host lands on
      the user dashboard; an `admin` user lands on the admin page. */
  lemma RoleRouting(state: AuthState, store: Store, codec: Codec)
    ensures state.user.None? && AuthService.DecodeToken(store, None, codec).None? ==>
      Navigations(state, store, codec) == [UserDashboard]
    ensures RoleOf(state.user) == Some(Str("admin")) ==>
      Landing(Navigations(state, store, codec)[0]) == "/admin-page"
  {
  }
}
