/** Facts that span several parts of the application: what the tokens issued
    by the simulated backend and by the sign-in page's built-in accounts mean
    to the session checks, where a sign-in lands, and what a sign-in with
    unknown credentials shows. */
module Flows {
  import opened Wrappers
  import opened Text
  import opened Json
  import opened Storage
  import opened AuthModel
  import AuthService
  import MockApi
  import SignIn
  import AuthGuard
  import DashboardHost

  /** A token without a dot never validates, whatever the clock and decoder. */
  lemma DotlessTokenNeverValid(store: Store, token: string, nowMs: nat, codec: Codec)
    requires token != "" && '.' !in token
    ensures !AuthService.IsTokenValid(store, token, nowMs, codec)
  {
    SplitCount(token, '.');
    SplitWithoutSeparator(token, '.');
    AuthService.MalformedTokenNeverValid(store, token, nowMs, codec);
  }

  /** Starting the service afresh on `store` (a page reload) signs out and
      leaves neither token nor user stored; it cannot throw when the JSON
      codec round-trips. */
  ghost predicate ReloadSignsOut(store: Store, nowMs: nat, codec: Codec) {
    var init := AuthService.InitializeAuth(store, nowMs, codec);
    && (RoundTrips(codec) ==> init.Some?)
    && (init.Some? ==>
          && init.value.state == SignedOut
          && GetItem(init.value.store, AuthService.TokenKey).None?
          && GetItem(init.value.store, AuthService.UserKey).None?)
  }

  /** A successful login against the simulated backend publishes an
      authenticated state, yet the stored token fails `isAuthenticated`, so the
      class-based guard sends the user to the sign-in page and a reload signs
      the session out. */
  lemma MockLoginNeverPassesGuard(users: seq<Record>, body: Record, issuedAt: nat,
                                  s: AuthService.Session, nowMs: nat, codec: Codec)
    requires MockApi.Login(users, body, issuedAt).Respond?
    ensures
      var r := AuthService.HandleAuthResponse(s, MockApi.Login(users, body, issuedAt).body, codec);
      && r.state.isAuthenticated
      && !AuthService.IsAuthenticated(r.store, nowMs, codec)
      && AuthGuard.CanActivate(r.store, nowMs, codec) == AuthGuard.Decision(false, ["/sign-in"])
      && ReloadSignsOut(r.store, nowMs, codec)
  {
    var token := MockApi.MockAccessToken(issuedAt);
    MockApi.MockAccessTokenHasNoDot(issuedAt);
    var r := AuthService.HandleAuthResponse(s, MockApi.Login(users, body, issuedAt).body, codec);
    DotlessTokenNeverValid(r.store, token, nowMs, codec);
  }

  /** The tokens the built-in accounts store contain no dot. */
  lemma BuiltInTokensHaveNoDot()
    ensures '.' !in SignIn.UserAccountToken && '.' !in SignIn.AdminAccountToken
  {
  }

  /** Signing in with a built-in account stores a token that never
      authenticates: the class-based guard refuses it, and a reload clears the
      stored token and user. */
  lemma BuiltInAccountsNeverAuthenticate(page: SignIn.Page, form: SignIn.Form, store: Store,
                                          looksLikeEmail: string -> bool, codec: Codec,
                                          outcome: SignIn.LoginOutcome, nowMs: nat)
    requires !SignIn.FormInvalid(form, looksLikeEmail)
    requires (form.email == SignIn.UserAccountEmail && form.password == SignIn.UserAccountPassword)
          || (form.email == SignIn.AdminAccountEmail && form.password == SignIn.AdminAccountPassword)
    ensures
      var sub := SignIn.OnSubmit(page, form, store, looksLikeEmail, codec, outcome);
      && !AuthService.IsAuthenticated(sub.store, nowMs, codec)
      && !AuthGuard.CanActivate(sub.store, nowMs, codec).allow
      && ReloadSignsOut(sub.store, nowMs, codec)
  {
    var sub := SignIn.OnSubmit(page, form, store, looksLikeEmail, codec, outcome);
    BuiltInTokensHaveNoDot();
    var token := GetItem(sub.store, AuthService.TokenKey).value;
    DotlessTokenNeverValid(sub.store, token, nowMs, codec);
  }

  /** The built-in admin account lands on the admin page: its navigation
      `/dashboard/admin` is redirected there, and the route's guard function
      admits it even though no valid token is stored. */
  lemma AdminAccountReachesAdminPage(page: SignIn.Page, store: Store, looksLikeEmail: string -> bool,
                                     codec: Codec, outcome: SignIn.LoginOutcome, nowMs: nat)
    requires looksLikeEmail(SignIn.AdminAccountEmail)
    ensures
      var sub := SignIn.OnSubmit(page, SignIn.Form(SignIn.AdminAccountEmail, SignIn.AdminAccountPassword),
                                 store, looksLikeEmail, codec, outcome);
      && sub.navigation == ["/dashboard/admin"]
      && DashboardHost.Landing(sub.navigation[0]) == "/admin-page"
      && AuthGuard.AuthGuardFn(DashboardHost.Landing(sub.navigation[0]), sub.store)
      && !AuthService.IsAuthenticated(sub.store, nowMs, codec)
  {
    var form := SignIn.Form(SignIn.AdminAccountEmail, SignIn.AdminAccountPassword);
    assert !SignIn.FormInvalid(form, looksLikeEmail);
    BuiltInAccountsNeverAuthenticate(page, form, store, looksLikeEmail, codec, outcome, nowMs);
  }

  /** The login request the service sends is one the simulated backend
      answers itself. */
  lemma LoginRequestIsIntercepted(body: Record)
    ensures StartsWith(AuthService.LoginUrl, AuthService.ApiUrl)
    ensures MockApi.IsLoginRoute(MockApi.Request(AuthService.LoginUrl, "POST", body))
  {
    var url := AuthService.LoginUrl;
    assert url[|url| - |"/login"|..] == "/login";
  }

  /** Signing in with credentials no stored record has, against the simulated
      backend: the backend refuses with 401, the service turns that into the
      message `Invalid credentials`, and the sign-in page shows exactly that. */
  lemma UnknownCredentialsShowInvalid(users: seq<Record>, page: SignIn.Page, form: SignIn.Form, store: Store,
                                      looksLikeEmail: string -> bool, codec: Codec, s: AuthService.Session,
                                      nowMs: nat, createdAt: string)
    requires !SignIn.FormInvalid(form, looksLikeEmail)
    requires !(form.email == SignIn.UserAccountEmail && form.password == SignIn.UserAccountPassword)
    requires !(form.email == SignIn.AdminAccountEmail && form.password == SignIn.AdminAccountPassword)
    requires forall i :: 0 <= i < |users| ==>
      !MockApi.HasCredentials(users[i], map["email" := Str(form.email), "password" := Str(form.password)])
    ensures
      var credentials := map["email" := Str(form.email), "password" := Str(form.password)];
      var req := MockApi.Request(AuthService.LoginUrl, "POST", credentials);
      var handled := MockApi.Intercept(true, AuthService.ApiUrl, req, users, nowMs, createdAt);
      && handled.outcome == MockApi.Reject(MockApi.InvalidCredentials)
      && handled.users == users
      && var call := AuthService.Authenticate(s, AuthService.Failed(handled.outcome.error), codec);
         && call.result == Failure(AuthService.Message("Invalid credentials"))
         && SignIn.OnSubmit(page, form, store, looksLikeEmail, codec, SignIn.LoginError(Some("Invalid credentials")))
              .page.errorMessage == Some("Invalid credentials")
         && SignIn.OnSubmit(page, form, store, looksLikeEmail, codec, SignIn.LoginError(Some("Invalid credentials")))
              .loginCall == Some(credentials)
  {
    var credentials := map["email" := Str(form.email), "password" := Str(form.password)];
    LoginRequestIsIntercepted(credentials);
    assert AuthService.ErrorMessage(MockApi.InvalidCredentials) == "Invalid credentials";
  }
}
