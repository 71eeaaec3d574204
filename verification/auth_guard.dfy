/** The route guards: the class-based guard that admits authenticated sessions
    and sends everyone else to the sign-in page, and the guard function the
    route table actually uses, which admits everything. */
module AuthGuard {
  import opened Json
  import opened Storage
  import AuthService

  /** Whether the route is entered, and the navigations issued on the way. */
  datatype Decision = Decision(allow: bool, navigation: seq<string>)

  /** `AuthGuard.canActivate`. */
  function CanActivate(store: Store, nowMs: nat, codec: Codec): (d: Decision)
    ensures d.allow <==> AuthService.IsAuthenticated(store, nowMs, codec)
    ensures d.allow ==> d.navigation == []
    ensures !d.allow ==> d.navigation == ["/sign-in"]
  {
    if AuthService.IsAuthenticated(store, nowMs, codec) then Decision(true, [])
    else Decision(false, ["/sign-in"])
  }

  /** The exported `authGuard` function: it admits every route. */
  function AuthGuardFn<R, S>(route: R, state: S): (allow: bool)
    ensures allow
  {
    true
  }
}
