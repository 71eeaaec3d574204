/** The authentication service: the session state it publishes, the three
    storage keys it owns, token decoding and expiry, and the state changes on
    start-up, login/sign-up responses, errors, logout and token refresh.
    Storage is an explicit map, the clock is a millisecond count, and the HTTP
    exchange is represented by the reply the backend gave. */
module AuthService {
  import opened Wrappers
  import opened Text
  import opened Json
  import opened Storage
  import opened AuthModel

  const ApiUrl := "http://localhost:3000/api/auth"
  const TokenKey := "access_token"
  const RefreshTokenKey := "refresh_token"
  const UserKey := "user"

  /** The storage keys `clearAuthData` removes. */
  const AuthKeys: set<string> := {TokenKey, RefreshTokenKey, UserKey}

  /** Browser storage together with the published state. */
  datatype Session = Session(store: Store, state: AuthState)

  /** What the backend answered to a POST. */
  datatype Reply = Answered(response: AuthResponse) | Failed(error: HttpError)

  /** The error a call's observable fails with: an `Error` carrying a message,
      or the HTTP error passed on unchanged. */
  datatype Failure = Message(text: string) | Http(error: HttpError)

  /** The session after a call, and what its observable delivers. */
  datatype Call = Call(session: Session, result: Result<AuthResponse, Failure>)

  // ---------------------------------------------------------------------------
  // Tokens

  /** `token || this.getToken()`: an empty or missing argument falls back to the
      stored access token. */
  function TokenToDecode(store: Store, token: Option<string>): Option<string> {
    if token.Some? && token.value != "" then token else GetItem(store, TokenKey)
  }

  /** `decodeToken`: the claims in the middle segment of a three-segment token,
      or `None` when there is no token or it does not have exactly three parts. */
  function DecodeToken(store: Store, token: Option<string>, codec: Codec): (claims: Option<Record>)
    ensures claims.Some? ==>
      var t := TokenToDecode(store, token);
      t.Some? && t.value != "" && Count(t.value, '.') == 2
    ensures
      var t := TokenToDecode(store, token);
      t.Some? && t.value != "" && |Split(t.value, '.')| == 3 ==>
        claims == codec.decodePayload(Split(t.value, '.')[1])
  {
    var t := TokenToDecode(store, token);
    if t.None? || t.value == "" then None
    else
      var parts := Split(t.value, '.');
      SplitCount(t.value, '.');
      if |parts| != 3 then None else codec.decodePayload(parts[1])
  }

  /** `!decoded.exp` fails and `decoded.exp > currentTime` holds: the claim
      is truthy and, converted with `Number`, later than `seconds`. A numeric
      string counts by its value. */
  predicate ExpiresAfter(exp: Option<Value>, seconds: int) {
    Present(exp) && ToNumber(exp.value).Some? && ToNumber(exp.value).value > seconds
  }

  /** `isTokenValid`: the token decodes and its expiry is strictly later than
      the current second, `floor(now / 1000)`. An empty token falls back to the
      stored one; either way only a token of three segments can be valid. */
  function IsTokenValid(store: Store, token: string, nowMs: nat, codec: Codec): (r: bool)
    ensures r ==>
      var t := TokenToDecode(store, Some(token));
      t.Some? && t.value != "" && Count(t.value, '.') == 2
  {
    var claims := DecodeToken(store, Some(token), codec);
    claims.Some? && ExpiresAfter(Field(claims.value, "exp"), nowMs / 1000)
  }

  /** `isAuthenticated`: a token is stored and it is valid. It reads storage,
      not the published state, so without a stored three-segment token it is
      false. */
  function IsAuthenticated(store: Store, nowMs: nat, codec: Codec): (r: bool)
    ensures r ==> TokenKey in store && store[TokenKey] != "" && Count(store[TokenKey], '.') == 2
    ensures r ==> IsTokenValid(store, store[TokenKey], nowMs, codec)
  {
    var token := GetItem(store, TokenKey);
    token.Some? && IsTokenValid(store, token.value, nowMs, codec)
  }

  /** A non-empty token that does not contain exactly two dots is never valid,
      whatever the clock and the decoder. */
  lemma MalformedTokenNeverValid(store: Store, token: string, nowMs: nat, codec: Codec)
    requires token != "" && Count(token, '.') != 2
    ensures !IsTokenValid(store, token, nowMs, codec)
  {
  }

  /** A token whose numeric `exp` claim is `e` is valid exactly before the
      millisecond `e * 1000`: the comparison is strict. */
  lemma ValidExactlyBeforeExpiry(store: Store, token: string, nowMs: nat, codec: Codec, e: int)
    requires token != "" && |Split(token, '.')| == 3
    requires codec.decodePayload(Split(token, '.')[1]).Some?
    requires Field(codec.decodePayload(Split(token, '.')[1]).value, "exp") == Some(Num(e))
    ensures IsTokenValid(store, token, nowMs, codec) <==> nowMs < e * 1000
  {
  }

  /** A valid token decodes to claims whose `exp` is truthy and converts to a
      number later than the current second: a missing, zero, empty, `false`,
      `null` or non-numeric `exp` never validates. */
  lemma ValidNeedsExpiry(store: Store, token: string, nowMs: nat, codec: Codec)
    ensures IsTokenValid(store, token, nowMs, codec) ==>
      var claims := DecodeToken(store, Some(token), codec);
      && claims.Some? && Field(claims.value, "exp").Some?
      && var exp := Field(claims.value, "exp").value;
         Truthy(exp) && ToNumber(exp).Some? && ToNumber(exp).value > nowMs / 1000
  {
  }

  /** An `exp` claim written as a decimal string counts by its value, as the
      comparison converts it: the token is valid exactly before the
      millisecond `n * 1000`. */
  lemma StringExpiryCoerced(store: Store, token: string, nowMs: nat, codec: Codec, n: nat)
    requires token != "" && |Split(token, '.')| == 3
    requires codec.decodePayload(Split(token, '.')[1]).Some?
    requires Field(codec.decodePayload(Split(token, '.')[1]).value, "exp") == Some(Str(NatToString(n)))
    ensures IsTokenValid(store, token, nowMs, codec) <==> nowMs < n * 1000
  {
    ToNumberOfDecimal(n);
  }

  // ---------------------------------------------------------------------------
  // Storage

  /** `clearAuthData`: the three authentication keys removed, all others kept. */
  function ClearAuthData(store: Store): (r: Store)
    ensures r.Keys == store.Keys - AuthKeys
    ensures forall k :: k in r ==> r[k] == store[k]
  {
    store - AuthKeys
  }

  /** The error `JSON.parse` throws on a text that is not JSON. */
  const ParseError := "SyntaxError"

  /** `getStoredUser`: no user when the `user` entry is missing or empty, the
      parsed record otherwise; a text `JSON.parse` cannot read makes it throw. */
  function StoredUser(store: Store, codec: Codec): (r: Result<Option<Record>, string>)
    ensures r == Success(None) <==> UserKey !in store || store[UserKey] == ""
    ensures r.Failure? <==> UserKey in store && store[UserKey] != "" && codec.parse(store[UserKey]).None?
    ensures r.Failure? ==> r.error == ParseError
  {
    var json := GetItem(store, UserKey);
    if json.Some? && json.value != "" then
      match codec.parse(json.value)
      case Some(u) => Success(Some(u))
      case None => Failure(ParseError)
    else Success(None)
  }

  /** A user stored with `JSON.stringify` is read back by `getStoredUser`
      when the codec round-trips. */
  lemma StoredUserRoundTrip(store: Store, codec: Codec, u: Record)
    requires RoundTrips(codec) && GetItem(store, UserKey) == Some(codec.stringify(u))
    ensures StoredUser(store, codec) == Success(Some(u))
  {
  }

  // ---------------------------------------------------------------------------
  // State transitions

  /** `initializeAuth`, run by the constructor from the signed-out state. It
      reads the stored user first, so an unreadable `user` entry makes the
      constructor throw (None) whatever the token. Otherwise a valid stored
      token yields an authenticated state carrying the stored user, and
      anything else clears the authentication keys. */
  function InitializeAuth(store: Store, nowMs: nat, codec: Codec): (s: Option<Session>)
    ensures s.None? <==> StoredUser(store, codec).Failure?
    ensures s.Some? ==>
      var r := s.value;
      && r.state.isAuthenticated == IsAuthenticated(store, nowMs, codec)
      && (r.state.isAuthenticated ==>
            r.store == store && r.state.token == GetItem(store, TokenKey)
            && r.state.user == StoredUser(store, codec).value && r.state.error == None && !r.state.loading)
      && (!r.state.isAuthenticated ==> r.store == ClearAuthData(store) && r.state == SignedOut)
  {
    var token := GetItem(store, TokenKey);
    match StoredUser(store, codec)
    case Failure(_) => None
    case Success(user) =>
      if token.Some? && token.value != "" && IsTokenValid(store, token.value, nowMs, codec) then
        Some(Session(store, AuthState(true, user, token, false, None)))
      else
        Some(Session(ClearAuthData(store), SignedOut))
  }

  /** `logout`: the three authentication keys are removed, every other key is
      kept, and the state is signed out; afterwards no clock reading makes the
      session authenticated. */
  function Logout(s: Session): (r: Session)
    ensures r.store.Keys == s.store.Keys - AuthKeys
    ensures forall k :: k in r.store ==> r.store[k] == s.store[k]
    ensures r.state == SignedOut
    ensures forall nowMs: nat, codec: Codec :: !IsAuthenticated(r.store, nowMs, codec)
  {
    Session(ClearAuthData(s.store), SignedOut)
  }

  /** `handleAuthResponse`: nothing happens for an empty access token;
      otherwise the tokens and user that are present are stored and the state
      becomes authenticated with the new token and no error. */
  function HandleAuthResponse(s: Session, response: AuthResponse, codec: Codec): (r: Session)
    ensures response.accessToken == "" ==> r == s
    ensures response.accessToken != "" ==>
      && GetItem(r.store, TokenKey) == Some(response.accessToken)
      && GetItem(r.store, RefreshTokenKey)
         == (if response.refreshToken.Some? && response.refreshToken.value != ""
             then response.refreshToken else GetItem(s.store, RefreshTokenKey))
      && GetItem(r.store, UserKey)
         == (if response.user.Some? then Some(codec.stringify(response.user.value))
             else GetItem(s.store, UserKey))
      && r.store.Keys == s.store.Keys + {TokenKey} + (r.store.Keys * AuthKeys)
      && (forall k :: k in s.store && k !in AuthKeys ==> r.store[k] == s.store[k])
      && r.state.isAuthenticated && r.state.token == Some(response.accessToken)
      && r.state.error == None && !r.state.loading
      && r.state.user == (if response.user.Some? then response.user
                          else DecodeToken(r.store, Some(response.accessToken), codec))
  {
    if response.accessToken == "" then s
    else
      var withToken := s.store[TokenKey := response.accessToken];
      var withRefresh :=
        if response.refreshToken.Some? && response.refreshToken.value != ""
        then withToken[RefreshTokenKey := response.refreshToken.value] else withToken;
      var withUser :=
        if response.user.Some? then withRefresh[UserKey := codec.stringify(response.user.value)]
        else withRefresh;
      var decoded := DecodeToken(withUser, Some(response.accessToken), codec);
      Session(withUser, AuthState(
        true,
        if response.user.Some? then response.user else decoded,
        Some(response.accessToken),
        false,
        None))
  }

  /** The message `handleError` derives from an HTTP error. A server-side
      error always yields a message to show. */
  function ErrorMessage(error: HttpError): (r: string)
    ensures error.payload.ErrorBody? ==> r != ""
    ensures error.payload.ErrorEvent? ==> r == error.payload.eventMessage
  {
    match error.payload
    case ErrorEvent(m) => m
    case ErrorBody(m) =>
      if error.status == 0 then "An error occurred"
      else if m.Some? && m.value != "" then m.value
      else "HTTP Error: " + IntToString(error.status)
  }

  /** The precedence of `handleError`'s message: a client-side event's message;
      otherwise, only when a status is present, the body's message or else
      `HTTP Error: <status>`; otherwise the generic text, even when the body
      carries a message. */
  lemma ErrorMessagePrecedence(error: HttpError)
    ensures error.payload.ErrorEvent? ==> ErrorMessage(error) == error.payload.eventMessage
    ensures error.payload.ErrorBody? && error.status != 0 && error.payload.bodyMessage.Some?
            && error.payload.bodyMessage.value != ""
            ==> ErrorMessage(error) == error.payload.bodyMessage.value
    ensures error.payload.ErrorBody? && error.status != 0
            && (error.payload.bodyMessage.None? || error.payload.bodyMessage.value == "")
            ==> ErrorMessage(error) == "HTTP Error: " + IntToString(error.status)
    ensures error.payload.ErrorBody? && error.status == 0 ==> ErrorMessage(error) == "An error occurred"
  {
  }

  /** `handleError`: storage is untouched; the state keeps every field except
      that `error` becomes the derived message and `loading` becomes false. */
  function HandleError(s: Session, error: HttpError): (r: (Session, string))
    ensures r.0.store == s.store
    ensures r.0.state.isAuthenticated == s.state.isAuthenticated
    ensures r.0.state.user == s.state.user && r.0.state.token == s.state.token
    ensures r.0.state.error == Some(r.1) && !r.0.state.loading
    ensures r.1 == ErrorMessage(error)
  {
    (Session(s.store, s.state.(error := Some(ErrorMessage(error)), loading := false)),
     ErrorMessage(error))
  }

  /** `login` and `signUp` after the backend answered: a response goes through
      `handleAuthResponse` and is delivered; an error goes through
      `handleError` and is delivered as an `Error` with the derived message. */
  function Authenticate(s: Session, reply: Reply, codec: Codec): (c: Call)
    ensures reply.Answered? ==>
      c.session == HandleAuthResponse(s, reply.response, codec) && c.result == Success(reply.response)
    ensures reply.Failed? ==>
      c.session.store == s.store && c.session.state.error == Some(ErrorMessage(reply.error))
      && c.result == Failure(Message(ErrorMessage(reply.error)))
  {
    match reply
    case Answered(response) => Call(HandleAuthResponse(s, response, codec), Success(response))
    case Failed(error) =>
      var (next, message) := HandleError(s, error);
      Call(next, Failure(Message(message)))
  }

  /** The URL `login` posts its credentials to. */
  const LoginUrl := ApiUrl + "/login"

  /** The URL `signUp` posts its form to. */
  const SignUpUrl := ApiUrl + "/signup"

  /** The URL `refreshToken` posts the refresh token to. */
  const RefreshUrl := ApiUrl + "/refresh"

  /** The body `refreshToken` posts, or `None` when it makes no request because
      no refresh token is stored. */
  function RefreshRequestBody(store: Store): Option<Record> {
    var rt := GetItem(store, RefreshTokenKey);
    if rt.Some? && rt.value != "" then Some(map["refreshToken" := Str(rt.value)]) else None
  }

  /** `refreshToken`: without a stored refresh token it fails at once and
      changes nothing; a failed request clears the authentication keys (the
      published state is left as it was) and passes the error on; a response
      goes through `handleAuthResponse`. */
  function RefreshToken(s: Session, reply: Reply, codec: Codec): (c: Call)
    ensures RefreshRequestBody(s.store).None? ==>
      c == Call(s, Failure(Message("No refresh token available")))
    ensures RefreshRequestBody(s.store).Some? && reply.Failed? ==>
      c.session == Session(ClearAuthData(s.store), s.state) && c.result == Failure(Http(reply.error))
    ensures RefreshRequestBody(s.store).Some? && reply.Answered? ==>
      c.session == HandleAuthResponse(s, reply.response, codec) && c.result == Success(reply.response)
  {
    if RefreshRequestBody(s.store).None? then
      Call(s, Failure(Message("No refresh token available")))
    else
      match reply
      case Answered(response) => Call(HandleAuthResponse(s, response, codec), Success(response))
      case Failed(error) => Call(Session(ClearAuthData(s.store), s.state), Failure(Http(error)))
  }

  // ---------------------------------------------------------------------------
  // Properties across operations

  /** Storing a response and then starting the service afresh (a page reload)
      gives back the same token and, when the JSON codec round-trips, the same
      user, provided the token is still valid at the time of the reload;
      otherwise the reload signs out. */
  lemma ReloadAfterResponse(s: Session, response: AuthResponse, nowMs: nat, codec: Codec)
    requires response.accessToken != "" && response.user.Some?
    requires RoundTrips(codec)
    ensures
      var stored := HandleAuthResponse(s, response, codec);
      var reloaded := InitializeAuth(stored.store, nowMs, codec);
      && reloaded.Some?
      && (reloaded.value.state.isAuthenticated <==> IsTokenValid(stored.store, response.accessToken, nowMs, codec))
      && (reloaded.value.state.isAuthenticated ==>
            reloaded.value.state.token == stored.state.token && reloaded.value.state.user == stored.state.user)
  {
    var stored := HandleAuthResponse(s, response, codec);
    StoredUserRoundTrip(stored.store, codec, response.user.value);
  }

  /** After a response with a non-empty access token, the published state says
      authenticated, but `isAuthenticated` (which checks the stored token) says
      so only if that token is valid. */
  lemma ResponseAuthenticatesOnlyValidTokens(s: Session, response: AuthResponse, nowMs: nat, codec: Codec)
    requires response.accessToken != ""
    ensures HandleAuthResponse(s, response, codec).state.isAuthenticated
    ensures IsAuthenticated(HandleAuthResponse(s, response, codec).store, nowMs, codec)
            <==> IsTokenValid(s.store, response.accessToken, nowMs, codec)
  {
  }
}
