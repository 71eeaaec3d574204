/** The filter bar of the user-management page: a free-text search over name
    and email, a registration-date window, and a CV-score band. The age of a
    registration date in whole days (`Math.ceil` of the absolute difference
    from the current time) is a parameter; `None` stands for the `NaN` an
    unparseable date yields, which no window admits. */
module UserFilters {
  import opened Wrappers
  import opened Text
  import opened Seqs
  import opened UserTable

  /** The four filter fields; `lastLogin` is carried but never consulted. */
  datatype Filters = Filters(searchQuery: string, registrationDate: string, lastLogin: string, cvScoreRange: string)

  /** The filters `clearFilters` restores. */
  const NoFilters := Filters("", "", "", "")

  /** The search test once a non-blank query is lowercased: the lowercased
      name or email contains it. The query is not trimmed for the test. */
  predicate SearchHit(u: User, query: string) {
    Contains(Lower(u.fullName), query) || Contains(Lower(u.email), query)
  }

  /** The registration window: `24h` admits an age of at most one day,
      `week` at most seven, and any other key admits everything. */
  predicate RegistrationKeeps(window: string, age: Option<nat>) {
    if window == "24h" then age.Some? && age.value <= 1
    else if window == "week" then age.Some? && age.value <= 7
    else true
  }

  /** The CV-score band: `low` is 0 to 30, `mid` 31 to 70, `high` 71 to 100,
      and any other key admits every score. */
  predicate InCvRange(band: string, score: real) {
    if band == "low" then 0.0 <= score <= 30.0
    else if band == "mid" then 31.0 <= score <= 70.0
    else if band == "high" then 71.0 <= score <= 100.0
    else true
  }

  /** The three named bands are pairwise disjoint, and every other key admits
      every score. */
  lemma CvBandsDisjoint(score: real)
    ensures !(InCvRange("low", score) && InCvRange("mid", score))
    ensures !(InCvRange("low", score) && InCvRange("high", score))
    ensures !(InCvRange("mid", score) && InCvRange("high", score))
    ensures forall band :: band != "low" && band != "mid" && band != "high" ==> InCvRange(band, score)
  {
  }

  /** The score badge agrees with the band a score falls in. */
  lemma BadgeMatchesBand(score: real)
    ensures InCvRange("low", score) ==> CvScoreBadgeClass(score) == LowScoreBadge
    ensures InCvRange("mid", score) ==> CvScoreBadgeClass(score) == MidScoreBadge
    ensures InCvRange("high", score) ==> CvScoreBadgeClass(score) == HighScoreBadge
  {
  }

  /** One stage of `applyFilters`: a filter that is switched on narrows the
      list, one that is off leaves it alone. */
  function Refine(s: seq<User>, active: bool, keep: User -> bool): seq<User> {
    if active then Filter(s, keep) else s
  }

  /** The search stage's test; it is switched on by a query that is not blank
      once trimmed. */
  function SearchTest(f: Filters): User -> bool {
    (u: User) => SearchHit(u, Lower(f.searchQuery))
  }

  function RegistrationTest(f: Filters, daysSince: string -> Option<nat>): User -> bool {
    (u: User) => RegistrationKeeps(f.registrationDate, daysSince(u.registrationDate))
  }

  function CvTest(f: Filters): User -> bool {
    (u: User) => InCvRange(f.cvScoreRange, u.cvScore)
  }

  /** `applyFilters` up to the pagination step, stage by stage as the page
      runs it: search, then registration window, then CV band. The three
      stages together are one filter by the per-record test `Keeps`. */
  function FilterUsers(users: seq<User>, f: Filters, daysSince: string -> Option<nat>): (r: seq<User>)
    ensures r == Filter(users, Keeper(f, daysSince))
  {
    var searched := Refine(users, Trim(f.searchQuery) != "", SearchTest(f));
    var registered := Refine(searched, f.registrationDate != "", RegistrationTest(f, daysSince));
    TrimEmptyIffBlank(f.searchQuery);
    var t1: User -> bool := (u: User) => IsBlank(f.searchQuery) || SearchHit(u, Lower(f.searchQuery));
    var t2: User -> bool := (u: User) => f.registrationDate == "" || RegistrationKeeps(f.registrationDate, daysSince(u.registrationDate));
    var t3: User -> bool := (u: User) => f.cvScoreRange == "" || InCvRange(f.cvScoreRange, u.cvScore);
    var t12: User -> bool := (u: User) => t1(u) && t2(u);
    RefineIsFilter(users, Trim(f.searchQuery) != "", SearchTest(f), t1);
    RefineIsFilter(searched, f.registrationDate != "", RegistrationTest(f, daysSince), t2);
    RefineIsFilter(registered, f.cvScoreRange != "", CvTest(f), t3);
    FilterTwice(users, t1, t2, t12);
    FilterTwice(users, t12, t3, Keeper(f, daysSince));
    Refine(registered, f.cvScoreRange != "", CvTest(f))
  }

  /** Whether one record survives all three stages, stated on its own. */
  predicate Keeps(f: Filters, daysSince: string -> Option<nat>, u: User) {
    && (IsBlank(f.searchQuery) || SearchHit(u, Lower(f.searchQuery)))
    && RegistrationKeeps(f.registrationDate, daysSince(u.registrationDate))
    && InCvRange(f.cvScoreRange, u.cvScore)
  }

  function Keeper(f: Filters, daysSince: string -> Option<nat>): User -> bool {
    (u: User) => Keeps(f, daysSince, u)
  }

  /** A stage is a filter by "off, or passes". */
  lemma RefineIsFilter(s: seq<User>, active: bool, keep: User -> bool, test: User -> bool)
    requires forall u :: test(u) == (!active || keep(u))
    ensures Refine(s, active, keep) == Filter(s, test)
  {
    if active {
      FilterExtensional(s, keep, test);
    } else {
      FilterKeepsAll(s, test);
    }
  }

  /** The filtered list keeps its records in their original order, and a
      record is in it exactly when it is in the table and passes every
      switched-on filter. */
  lemma FilteredMembers(users: seq<User>, f: Filters, daysSince: string -> Option<nat>, u: User)
    ensures IsSubsequence(FilterUsers(users, f, daysSince), users)
    ensures u in FilterUsers(users, f, daysSince) <==> u in users && Keeps(f, daysSince, u)
  {
    FilterIsSubsequence(users, Keeper(f, daysSince));
    FilterMembership(users, Keeper(f, daysSince), u);
  }

  /** With only a search query set: a blank query keeps the whole table, and
      otherwise a record stays exactly when its lowercased name or email
      contains the lowercased (untrimmed) query. */
  lemma SearchOnly(users: seq<User>, query: string, daysSince: string -> Option<nat>, u: User)
    ensures IsBlank(query) ==> FilterUsers(users, Filters(query, "", "", ""), daysSince) == users
    ensures !IsBlank(query) ==>
      (u in FilterUsers(users, Filters(query, "", "", ""), daysSince) <==>
        u in users && (Contains(Lower(u.fullName), Lower(query)) || Contains(Lower(u.email), Lower(query))))
  {
    var f := Filters(query, "", "", "");
    FilteredMembers(users, f, daysSince, u);
    if IsBlank(query) {
      TrimEmptyIffBlank(query);
    }
  }

  /** The `lastLogin` field has no effect on the result. */
  lemma LastLoginIgnored(users: seq<User>, f: Filters, daysSince: string -> Option<nat>, lastLogin: string)
    ensures FilterUsers(users, f.(lastLogin := lastLogin), daysSince) == FilterUsers(users, f, daysSince)
  {
    FilterExtensional(users, Keeper(f, daysSince), Keeper(f.(lastLogin := lastLogin), daysSince));
  }

  /** With no filters set, the whole table is shown. */
  lemma NoFiltersKeepAll(users: seq<User>, daysSince: string -> Option<nat>)
    ensures FilterUsers(users, NoFilters, daysSince) == users
  {
    assert Trim("") == "";
  }
}
