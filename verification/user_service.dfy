/** The profile service: with mocking on it answers from the `users` list the
    simulated backend keeps (held in parsed form), otherwise it issues an HTTP
    request. The timers that delay the mock answers are not modelled. */
module UserService {
  import opened Wrappers
  import opened Text
  import opened Json
  import MockApi

  const MockEmail := "mock.user@example.com"

  /** `v.toString()` for a stored id; `None` when the id is `null` or absent,
      where the source throws a `TypeError`. */
  function IdString(v: Option<Value>): Option<string> {
    match v
    case None => None
    case Some(Null) => None
    case Some(Str(s)) => Some(s)
    case Some(Num(n)) => Some(IntToString(n))
    case Some(Bool(b)) => Some(if b then "true" else "false")
  }

  /** The id of record `u` renders as `userId`. */
  predicate IdMatches(u: Record, userId: string) {
    IdString(Field(u, "id")) == Some(userId)
  }

  /** The result of the `findIndex` over stored ids: a position, no match, or
      the `TypeError` raised at a record whose id cannot be rendered. */
  datatype Lookup = Found(index: nat) | Missing | Thrown

  /** `users.findIndex(u => u.id.toString() === userId)`, scanning from `k`. */
  function FindFrom(users: seq<Record>, userId: string, k: nat): (r: Lookup)
    requires k <= |users|
    ensures r.Found? ==> k <= r.index < |users| && IdMatches(users[r.index], userId)
    ensures r.Found? || r.Missing? ==>
      forall j :: k <= j < (if r.Found? then r.index else |users|) ==>
        IdString(Field(users[j], "id")).Some? && !IdMatches(users[j], userId)
    ensures r.Thrown? <==>
      exists j :: k <= j < |users| && IdString(Field(users[j], "id")).None?
        && forall l :: k <= l < j ==> !IdMatches(users[l], userId)
    decreases |users| - k
  {
    if k == |users| then Missing
    else
      match IdString(Field(users[k], "id"))
      case None => Thrown
      case Some(s) =>
        if s == userId then Found(k)
        else
          FindFrom(users, userId, k + 1)
  }

  function FindById(users: seq<Record>, userId: string): Lookup {
    FindFrom(users, userId, 0)
  }

  /** The profile `getMockProfile` answers when no stored record matches. */
  function FallbackProfile(userId: string): Record {
    map[
      "id" := Str(userId),
      "firstName" := Str("Mock"),
      "lastName" := Str("User"),
      "email" := Str(MockEmail),
      "role" := Str("user"),
      "bio" := Str("This is a mock profile loaded from the client-side service.")]
  }

  /** `getMockProfile`: the first stored record whose id renders as `userId`,
      otherwise the fallback profile for `userId`; `None` is the `TypeError` of
      an unrenderable id met first. */
  function GetMockProfile(users: seq<Record>, userId: string): (r: Option<Record>)
    ensures FindById(users, userId).Found? ==>
      r == Some(users[FindById(users, userId).index]) && IdMatches(r.value, userId)
    ensures FindById(users, userId).Missing? ==>
      r == Some(FallbackProfile(userId))
      && forall i :: 0 <= i < |users| ==> !IdMatches(users[i], userId)
    ensures r.None? <==> FindById(users, userId).Thrown?
  {
    match FindById(users, userId)
    case Found(i) => Some(users[i])
    case Missing => Some(FallbackProfile(userId))
    case Thrown => None
  }

  /** The profile `updateMockProfile` answers when no stored record matches: a
      truthy `firstName`, `lastName` or `bio` in the update is used, otherwise a
      default, and the email is always the fixed mock address. */
  function FallbackUpdate(userId: string, data: Record): Record {
    map[
      "id" := Str(userId),
      "firstName" := OrElse(Field(data, "firstName"), Str("Mock")),
      "lastName" := OrElse(Field(data, "lastName"), Str("User")),
      "email" := Str(MockEmail),
      "role" := Str("user"),
      "bio" := OrElse(Field(data, "bio"), Str("Updated bio"))]
  }

  /** The answer of `updateMockProfile` and the stored list afterwards. */
  datatype Update = Update(profile: Option<Record>, users: seq<Record>)

  /** `updateMockProfile`: the first matching record is replaced by the merge
      `{ ...record, ...data }` and the list is written back with every other
      record unchanged; without a match the list is not touched and a fallback
      profile is answered. */
  function UpdateMockProfile(users: seq<Record>, userId: string, data: Record): (u: Update)
    ensures FindById(users, userId).Found? ==>
      var i := FindById(users, userId).index;
      && |u.users| == |users|
      && u.users[i] == users[i] + data
      && (forall j :: 0 <= j < |users| && j != i ==> u.users[j] == users[j])
      && u.profile == Some(users[i] + data)
    ensures FindById(users, userId).Missing? ==>
      u == Update(Some(FallbackUpdate(userId, data)), users)
    ensures FindById(users, userId).Thrown? ==> u == Update(None, users)
  {
    match FindById(users, userId)
    case Found(i) => Update(Some(users[i] + data), users[i := users[i] + data])
    case Missing => Update(Some(FallbackUpdate(userId, data)), users)
    case Thrown => Update(None, users)
  }

  /** In the fallback, a field the update supplies as a non-empty string is
      kept, and anything falsy is replaced by the default. */
  lemma FallbackUpdateFields(userId: string, data: Record, name: string)
    requires Field(data, "firstName") == Some(Str(name))
    ensures name != "" ==> FallbackUpdate(userId, data)["firstName"] == Str(name)
    ensures name == "" ==> FallbackUpdate(userId, data)["firstName"] == Str("Mock")
    ensures FallbackUpdate(userId, data)["email"] == Str(MockEmail)
  {
  }

  /** In a store kept by the simulated backend, looking up the decimal id `k`
      finds record `k`, and an update through it reads back merged. */
  lemma LookupInWellFormedStore(users: seq<Record>, k: nat, data: Record)
    requires MockApi.WellFormedStore(users)
    requires 1 <= k <= |users|
    ensures GetMockProfile(users, NatToString(k)) == Some(users[k - 1])
    ensures UpdateMockProfile(users, NatToString(k), data).users[k - 1] == users[k - 1] + data
  {
    var r := FindById(users, NatToString(k));
    assert IdMatches(users[k - 1], NatToString(k));
    if r.Found? {
      assert IdString(Field(users[r.index], "id")) == Some(NatToString(r.index + 1));
      NatToStringInjective(r.index + 1, k);
    } else {
      assert false;
    }
  }

  /** Where a profile request goes. */
  datatype Dispatch = Mock | HttpGet(url: string) | HttpPut(url: string, body: Record)

  /** The profile endpoint, `apiUrl` with its first `/auth` replaced by
      `/users`. */
  function UsersApiUrl(apiUrl: string): string {
    ReplaceFirst(apiUrl, "/auth", "/users")
  }

  /** `getProfile`: the mock path exactly when mocking is on, otherwise a GET of
      `<users url>/<userId>`. */
  function GetProfileRoute(mockApi: bool, apiUrl: string, userId: string): (d: Dispatch)
    ensures d.Mock? <==> mockApi
    ensures !mockApi ==> d.url == UsersApiUrl(apiUrl) + "/" + userId
  {
    if mockApi then Mock else HttpGet(UsersApiUrl(apiUrl) + "/" + userId)
  }

  /** `updateProfile`: the mock path exactly when mocking is on, otherwise a PUT
      of the update to `<users url>/<userId>`. */
  function UpdateProfileRoute(mockApi: bool, apiUrl: string, userId: string, data: Record): (d: Dispatch)
    ensures d.Mock? <==> mockApi
    ensures !mockApi ==> d == HttpPut(UsersApiUrl(apiUrl) + "/" + userId, data)
  {
    if mockApi then Mock else HttpPut(UsersApiUrl(apiUrl) + "/" + userId, data)
  }
}
