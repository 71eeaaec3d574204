/** The simulated backend: a request interceptor that answers `POST …/login`
    and `POST …/signup` from a list of user records kept in browser storage
    under the key `users`, and lets every other request through to the network.
    The list is held in its parsed form; the clock and the creation timestamp
    are parameters; the artificial delay is not modelled. */
module MockApi {
  import opened Wrappers
  import opened Text
  import opened Json
  import opened Seqs
  import opened AuthModel

  /** An outgoing HTTP request with a JSON object body. */
  datatype Request = Request(url: string, verb: string, body: Record)

  /** What the interceptor does with a request: hand it to the next handler,
      answer it, or fail it with an HTTP error. */
  datatype Outcome = PassThrough | Respond(status: int, body: AuthResponse) | Reject(error: HttpError)

  /** The outcome and the stored user list afterwards. */
  datatype Handled = Handled(outcome: Outcome, users: seq<Record>)

  const InvalidCredentials := HttpError(401, ErrorBody(Some("Invalid credentials")))
  const UserExists := HttpError(400, ErrorBody(Some("User already exists")))

  /** `'mock-jwt-token-' + Date.now()`. */
  function MockAccessToken(nowMs: nat): string {
    "mock-jwt-token-" + NatToString(nowMs)
  }

  /** `'mock-refresh-token-' + Date.now()`. */
  function MockRefreshToken(nowMs: nat): string {
    "mock-refresh-token-" + NatToString(nowMs)
  }

  /** The issued access tokens contain no dot, so they never have the three
      segments of a JSON Web Token. */
  lemma MockAccessTokenHasNoDot(nowMs: nat)
    ensures '.' !in MockAccessToken(nowMs)
    ensures Count(MockAccessToken(nowMs), '.') == 0
  {
    var t := MockAccessToken(nowMs);
    NatToStringHasNoDot(nowMs);
    assert forall i :: 0 <= i < |t| ==> t[i] != '.' by {
      forall i | 0 <= i < |t| ensures t[i] != '.' {
        if i >= 15 { assert t[i] == NatToString(nowMs)[i - 15]; }
      }
    }
    SplitCount(t, '.');
    SplitWithoutSeparator(t, '.');
  }

  /** `url.endsWith('/login') && method === 'POST'`. No sign-up URL is a
      login URL, so the order in which the handlers are tried does not
      matter. */
  function IsLoginRoute(req: Request): (b: bool)
    ensures b ==> req.verb == "POST" && !EndsWith(req.url, "/signup")
  {
    LoginAndSignUpDisjoint(req.url);
    EndsWith(req.url, "/login") && req.verb == "POST"
  }

  /** `url.endsWith('/signup') && method === 'POST'`. */
  function IsSignUpRoute(req: Request): (b: bool)
    ensures b ==> req.verb == "POST" && !IsLoginRoute(req)
  {
    LoginAndSignUpDisjoint(req.url);
    EndsWith(req.url, "/signup") && req.verb == "POST"
  }

  /** A URL never ends with both `/login` and `/signup`: their last
      characters differ. */
  lemma LoginAndSignUpDisjoint(url: string)
    ensures !(EndsWith(url, "/login") && EndsWith(url, "/signup"))
  {
    if EndsWith(url, "/login") {
      assert url[|url| - 1] == "/login"[5] == 'n';
    }
  }

  /** The stored record has the body's email and password (`===` on both). */
  predicate HasCredentials(u: Record, body: Record) {
    Field(u, "email") == Field(body, "email") && Field(u, "password") == Field(body, "password")
  }

  /** `const { password, ...rest } = u`: the record without its password. */
  function PublicView(u: Record): (r: Record)
    ensures "password" !in r
    ensures forall k :: k in u && k != "password" ==> k in r && r[k] == u[k]
    ensures r.Keys <= u.Keys
  {
    u - {"password"}
  }

  /** The login handler: the first stored record with matching email and
      password is answered with fresh mock tokens and the record without its
      password; no match is a 401. */
  function Login(users: seq<Record>, body: Record, nowMs: nat): (o: Outcome)
    ensures o.Respond? <==> exists i :: 0 <= i < |users| && HasCredentials(users[i], body)
    ensures o.Respond? ==>
      && o.status == 200
      && o.body.accessToken == MockAccessToken(nowMs)
      && o.body.refreshToken == Some(MockRefreshToken(nowMs))
      && exists i :: 0 <= i < |users| && HasCredentials(users[i], body)
           && (forall j :: 0 <= j < i ==> !HasCredentials(users[j], body))
           && o.body.user == Some(PublicView(users[i]))
    ensures !o.Respond? ==> o == Reject(InvalidCredentials)
  {
    match FirstIndex(users, u => HasCredentials(u, body))
    case Some(i) =>
      Respond(200, AuthResponse(MockAccessToken(nowMs), Some(MockRefreshToken(nowMs)), Some(PublicView(users[i]))))
    case None =>
      Reject(InvalidCredentials)
  }

  /** The record sign-up stores: the next id, the body's email, password and
      names (an absent one leaves no key), role `user` and the creation time. */
  function NewUser(id: int, body: Record, createdAt: string): (u: Record)
    ensures Field(u, "id") == Some(Num(id))
    ensures Field(u, "role") == Some(Str("user"))
    ensures Field(u, "createdAt") == Some(Str(createdAt))
    ensures forall k :: k in {"email", "password", "firstName", "lastName"} ==> Field(u, k) == Field(body, k)
    ensures u.Keys <= {"id", "email", "password", "firstName", "lastName", "role", "createdAt"}
  {
    var base := map["id" := Num(id), "role" := Str("user"), "createdAt" := Str(createdAt)];
    var withEmail := Assign(base, "email", Field(body, "email"));
    var withPassword := Assign(withEmail, "password", Field(body, "password"));
    var withFirst := Assign(withPassword, "firstName", Field(body, "firstName"));
    Assign(withFirst, "lastName", Field(body, "lastName"))
  }

  /** Some stored record has the given email. */
  predicate EmailTaken(users: seq<Record>, email: Option<Value>) {
    exists i :: 0 <= i < |users| && Field(users[i], "email") == email
  }

  /** The sign-up handler: an email already stored is a 400 and the list is
      unchanged; otherwise exactly one record is appended with id
      `length + 1` and role `user`, and it is answered without its password. */
  function SignUp(users: seq<Record>, body: Record, nowMs: nat, createdAt: string): (h: Handled)
    ensures h.outcome.Reject? <==> EmailTaken(users, Field(body, "email"))
    ensures h.outcome.Reject? ==> h.outcome.error == UserExists && h.users == users
    ensures !h.outcome.Reject? ==>
      && |h.users| == |users| + 1
      && h.users[..|users|] == users
      && Field(h.users[|users|], "id") == Some(Num(|users| + 1))
      && Field(h.users[|users|], "role") == Some(Str("user"))
      && Field(h.users[|users|], "email") == Field(body, "email")
      && Field(h.users[|users|], "password") == Field(body, "password")
      && h.outcome == Respond(200, AuthResponse(
           MockAccessToken(nowMs), Some(MockRefreshToken(nowMs)), Some(PublicView(h.users[|users|]))))
  {
    var email := Field(body, "email");
    match FirstIndex(users, u => Field(u, "email") == email)
    case Some(_) =>
      Handled(Reject(UserExists), users)
    case None =>
      var created := NewUser(|users| + 1, body, createdAt);
      assert (users + [created])[..|users|] == users;
      Handled(
        Respond(200, AuthResponse(MockAccessToken(nowMs), Some(MockRefreshToken(nowMs)), Some(PublicView(created)))),
        users + [created])
  }

  /** The store invariant: record `i` has id `i + 1`, and no two records share
      an email. */
  predicate WellFormedStore(users: seq<Record>) {
    && (forall i :: 0 <= i < |users| ==> Field(users[i], "id") == Some(Num(i + 1)))
    && (forall i, j :: 0 <= i < j < |users| ==> Field(users[i], "email") != Field(users[j], "email"))
  }

  /** A successful sign-up keeps the store well formed. */
  lemma SignUpPreservesStore(users: seq<Record>, body: Record, nowMs: nat, createdAt: string)
    ensures WellFormedStore(users) ==> WellFormedStore(SignUp(users, body, nowMs, createdAt).users)
  {
    var h := SignUp(users, body, nowMs, createdAt);
    if WellFormedStore(users) && !h.outcome.Reject? {
      var n := |users|;
      assert forall i :: 0 <= i < n ==> h.users[i] == users[i] by {
        forall i | 0 <= i < n ensures h.users[i] == users[i] {
          assert h.users[..n][i] == users[i];
        }
      }
      assert !EmailTaken(users, Field(body, "email"));
    }
  }

  /** `intercept`: with mocking off or a URL outside `apiUrl` the request passes
      through; under `apiUrl` a POST to `…/login` or `…/signup` is answered by
      its handler and anything else passes through. Only a sign-up changes the
      store, no answer carries a password, and the store stays well formed. */
  function Intercept(mockApi: bool, apiUrl: string, req: Request, users: seq<Record>, nowMs: nat, createdAt: string)
    : (h: Handled)
    ensures !mockApi || !StartsWith(req.url, apiUrl) ==> h == Handled(PassThrough, users)
    ensures h.outcome.PassThrough? <==>
      (!mockApi || !StartsWith(req.url, apiUrl) || (!IsLoginRoute(req) && !IsSignUpRoute(req)))
    ensures h.outcome.PassThrough? ==> h.users == users
    ensures mockApi && StartsWith(req.url, apiUrl) && IsLoginRoute(req) ==>
      h == Handled(Login(users, req.body, nowMs), users)
    ensures mockApi && StartsWith(req.url, apiUrl) && IsSignUpRoute(req) ==>
      h == SignUp(users, req.body, nowMs, createdAt)
    ensures h.users != users ==> mockApi && StartsWith(req.url, apiUrl) && !IsLoginRoute(req) && IsSignUpRoute(req)
    ensures h.outcome.Respond? ==> h.outcome.body.user.Some? && "password" !in h.outcome.body.user.value
    ensures WellFormedStore(users) ==> WellFormedStore(h.users)
  {
    if !mockApi || !StartsWith(req.url, apiUrl) then Handled(PassThrough, users)
    else if IsLoginRoute(req) then Handled(Login(users, req.body, nowMs), users)
    else if IsSignUpRoute(req) then
      SignUpPreservesStore(users, req.body, nowMs, createdAt);
      SignUp(users, req.body, nowMs, createdAt)
    else Handled(PassThrough, users)
  }

  /** One request as the interceptor saw it, with the clock readings. */
  datatype Exchange = Exchange(req: Request, nowMs: nat, createdAt: string)

  /** The stored list after the interceptor has handled `exchanges` in order. */
  function Replay(mockApi: bool, apiUrl: string, users: seq<Record>, exchanges: seq<Exchange>): seq<Record>
    decreases |exchanges|
  {
    if |exchanges| == 0 then users
    else
      var e := exchanges[0];
      Replay(mockApi, apiUrl, Intercept(mockApi, apiUrl, e.req, users, e.nowMs, e.createdAt).users, exchanges[1..])
  }

  /** Any run of requests keeps a well-formed store well formed. */
  lemma {:induction false} ReplayPreservesStore(mockApi: bool, apiUrl: string, users: seq<Record>, exchanges: seq<Exchange>)
    requires WellFormedStore(users)
    ensures WellFormedStore(Replay(mockApi, apiUrl, users, exchanges))
    decreases |exchanges|
  {
    if |exchanges| > 0 {
      var e := exchanges[0];
      ReplayPreservesStore(mockApi, apiUrl, Intercept(mockApi, apiUrl, e.req, users, e.nowMs, e.createdAt).users, exchanges[1..]);
    }
  }

  /** Starting from an empty store, the ids are exactly 1..n in order and the
      emails are pairwise distinct, whatever requests were made. */
  lemma StoreFromScratch(mockApi: bool, apiUrl: string, exchanges: seq<Exchange>)
    ensures
      var users := Replay(mockApi, apiUrl, [], exchanges);
      && (forall i :: 0 <= i < |users| ==> Field(users[i], "id") == Some(Num(i + 1)))
      && (forall i, j :: 0 <= i < j < |users| ==> Field(users[i], "email") != Field(users[j], "email"))
  {
    ReplayPreservesStore(mockApi, apiUrl, [], exchanges);
  }
}
