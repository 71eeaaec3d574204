/** The user table behind the admin user-management page: the record shape,
    and the list operations the page performs on it (prepend, update, delete
    and look up by id, account-status changes, selection count, bulk delete,
    and the score badge). Every lookup acts on the first record with the id,
    as `findIndex` and `find` do. */
module UserTable {
  import opened Wrappers
  import opened Seqs

  datatype Status = Active | Suspended | Pending

  /** One row of the table. The optional `selected` flag is `false` when
      absent. The CV score is a real number, as a JavaScript number may be. */
  datatype User = User(
    id: string,
    fullName: string,
    email: string,
    cvScore: real,
    lastLogin: string,
    registrationDate: string,
    initials: string,
    avatarColor: string,
    status: Status,
    selected: bool)

  /** A `Partial<User>`: each present field overrides the record's. */
  datatype Patch = Patch(
    id: Option<string>,
    fullName: Option<string>,
    email: Option<string>,
    cvScore: Option<real>,
    lastLogin: Option<string>,
    registrationDate: Option<string>,
    initials: Option<string>,
    avatarColor: Option<string>,
    status: Option<Status>,
    selected: Option<bool>)

  /** `{ ...u, ...p }`. */
  function Merge(u: User, p: Patch): (r: User)
    ensures p == Patch(None, None, None, None, None, None, None, None, None, None) ==> r == u
    ensures p.status.None? ==> r.status == u.status
    ensures p.status.Some? ==> r.status == p.status.value
    ensures p.id.None? ==> r.id == u.id
    ensures p.id.Some? ==> r.id == p.id.value
  {
    User(
      p.id.GetOr(u.id),
      p.fullName.GetOr(u.fullName),
      p.email.GetOr(u.email),
      p.cvScore.GetOr(u.cvScore),
      p.lastLogin.GetOr(u.lastLogin),
      p.registrationDate.GetOr(u.registrationDate),
      p.initials.GetOr(u.initials),
      p.avatarColor.GetOr(u.avatarColor),
      p.status.GetOr(u.status),
      p.selected.GetOr(u.selected))
  }

  predicate HasId(u: User, id: string) {
    u.id == id
  }

  /** `users.findIndex(u => u.id === id)`. */
  function Find(users: seq<User>, id: string): (r: Option<nat>)
    ensures r.Some? ==> r.value < |users| && users[r.value].id == id
    ensures r.Some? ==> forall j :: 0 <= j < r.value ==> users[j].id != id
    ensures r.None? <==> forall j :: 0 <= j < |users| ==> users[j].id != id
  {
    FirstIndex(users, u => HasId(u, id))
  }

  /** `getUserById`: the first record with the id. */
  function GetUserById(users: seq<User>, id: string): (r: Option<User>)
    ensures r.Some? <==> exists j :: 0 <= j < |users| && users[j].id == id
    ensures r.Some? ==> r.value.id == id && r.value in users
    ensures r.Some? ==> exists j :: 0 <= j < |users| && users[j] == r.value
                                    && forall k :: 0 <= k < j ==> users[k].id != id
  {
    match Find(users, id)
    case Some(i) => Some(users[i])
    case None => None
  }

  /** `addUser`: `unshift`, so the new record comes first. */
  function AddUser(users: seq<User>, u: User): (r: seq<User>)
    ensures |r| == |users| + 1
    ensures r[0] == u && r[1..] == users
  {
    [u] + users
  }

  /** `updateUser`: the first record with the id becomes its merge with the
      patch; every other record, and the order, stay; an unknown id leaves the
      list as it was. */
  function UpdateUser(users: seq<User>, id: string, p: Patch): (r: seq<User>)
    ensures |r| == |users|
    ensures Find(users, id).None? ==> r == users
    ensures Find(users, id).Some? ==>
      var i := Find(users, id).value;
      r[i] == Merge(users[i], p) && forall j :: 0 <= j < |users| && j != i ==> r[j] == users[j]
  {
    match Find(users, id)
    case Some(i) => users[i := Merge(users[i], p)]
    case None => users
  }

  /** `deleteUser`: the first record with the id is spliced out; the others
      keep their order; an unknown id leaves the list as it was. */
  function DeleteUser(users: seq<User>, id: string): (r: seq<User>)
    ensures Find(users, id).None? ==> r == users
    ensures Find(users, id).Some? ==>
      var i := Find(users, id).value;
      && |r| == |users| - 1
      && multiset(r) + multiset{users[i]} == multiset(users)
      && IsSubsequence(r, users)
      && (forall j :: 0 <= j < |r| ==> r[j] == (if j < i then users[j] else users[j + 1]))
  {
    match Find(users, id)
    case Some(i) => RemoveAt(users, i)
    case None => users
  }

  /** Deleting a just-added record by its id gives the list back. */
  lemma DeleteUndoesAdd(users: seq<User>, u: User)
    ensures DeleteUser(AddUser(users, u), u.id) == users
  {
    var r := DeleteUser(AddUser(users, u), u.id);
    assert Find(AddUser(users, u), u.id) == Some(0);
    assert |r| == |users|;
    assert forall j :: 0 <= j < |r| ==> r[j] == users[j];
  }

  /** Deleting the id the first record carries drops exactly that record. */
  lemma DeleteHead(u: User, rest: seq<User>)
    ensures DeleteUser([u] + rest, u.id) == rest
  {
    var d := DeleteUser([u] + rest, u.id);
    assert Find([u] + rest, u.id) == Some(0);
    assert forall j :: 0 <= j < |d| ==> d[j] == rest[j];
  }

  /** Deleting an id that the first record does not carry leaves that record
      in front. */
  lemma DeleteBehindHead(u: User, rest: seq<User>, id: string)
    requires u.id != id
    ensures DeleteUser([u] + rest, id) == [u] + DeleteUser(rest, id)
  {
    var s := [u] + rest;
    assert s[1..] == rest;
    match Find(rest, id)
    case None =>
    case Some(i) =>
      var a := DeleteUser(s, id);
      var b := [u] + DeleteUser(rest, id);
      assert |a| == |b|;
      forall j | 0 <= j < |a| ensures a[j] == b[j] {
        if j > 0 {
          assert b[j] == DeleteUser(rest, id)[j - 1];
        }
      }
  }

  /** Deleting a record never lets more records through a filter. */
  lemma DeleteShrinksFilter(users: seq<User>, id: string, keep: User -> bool)
    ensures |Filter(DeleteUser(users, id), keep)| <= |Filter(users, keep)|
  {
    match Find(users, id)
    case Some(i) => FilterRemoveAt(users, i, keep);
    case None =>
  }

  /** `suspendUser`: the first record with the id, when not already
      suspended, becomes suspended; nothing else changes. */
  function SuspendUser(users: seq<User>, id: string): (r: seq<User>)
    ensures |r| == |users|
    ensures forall j :: 0 <= j < |users| ==> r[j] == users[j] || (r[j] == users[j].(status := Suspended) && users[j].status != Suspended)
    ensures Find(users, id).None? ==> r == users
    ensures Find(users, id).Some? ==>
      var i := Find(users, id).value;
      r[i].status == Suspended && forall j :: 0 <= j < |users| && j != i ==> r[j] == users[j]
  {
    match Find(users, id)
    case Some(i) =>
      if users[i].status != Suspended then users[i := users[i].(status := Suspended)] else users
    case None => users
  }

  /** `unsuspendUser`: the first record with the id, when suspended, becomes
      active; nothing else changes. */
  function UnsuspendUser(users: seq<User>, id: string): (r: seq<User>)
    ensures |r| == |users|
    ensures forall j :: 0 <= j < |users| ==> r[j] == users[j] || (r[j] == users[j].(status := Active) && users[j].status == Suspended)
    ensures Find(users, id).None? ==> r == users
    ensures Find(users, id).Some? ==>
      var i := Find(users, id).value;
      (users[i].status == Suspended ==> r[i].status == Active)
      && forall j :: 0 <= j < |users| && j != i ==> r[j] == users[j]
  {
    match Find(users, id)
    case Some(i) =>
      if users[i].status == Suspended then users[i := users[i].(status := Active)] else users
    case None => users
  }

  /** Unsuspending never touches a pending account; suspending is idempotent;
      and unsuspending after suspending an active account restores the list. */
  lemma StatusTransitions(users: seq<User>, id: string)
    ensures forall j :: 0 <= j < |users| && users[j].status == Pending ==> UnsuspendUser(users, id)[j] == users[j]
    ensures SuspendUser(SuspendUser(users, id), id) == SuspendUser(users, id)
    ensures GetUserById(users, id).Some? && GetUserById(users, id).value.status == Active ==>
      UnsuspendUser(SuspendUser(users, id), id) == users
  {
    var s := SuspendUser(users, id);
    assert Find(s, id) == Find(users, id) by {
      assert forall j :: 0 <= j < |users| ==> (s[j].id == id <==> users[j].id == id);
      FindRespectsIds(users, s, id);
    }
  }

  /** `findIndex` by id only looks at ids. */
  lemma {:induction false} FindRespectsIds(a: seq<User>, b: seq<User>, id: string)
    requires |a| == |b|
    requires forall j :: 0 <= j < |a| ==> (a[j].id == id <==> b[j].id == id)
    ensures Find(a, id) == Find(b, id)
    decreases |a|
  {
    if |a| > 0 && a[0].id != id {
      FindRespectsIds(a[1..], b[1..], id);
    }
  }

  predicate IsSelected(u: User) {
    u.selected
  }

  predicate IsUnselected(u: User) {
    !u.selected
  }

  /** `getSelectedCount`: the number of records with `selected` set. */
  function SelectedCount(users: seq<User>): (n: nat)
    ensures n <= |users|
    ensures n == 0 <==> forall j :: 0 <= j < |users| ==> !users[j].selected
    ensures n == |SelectedIds(users)|
    ensures n + |Filter(users, IsUnselected)| == |users|
  {
    FilterSplitsCount(users);
    SelectedCountZero(users);
    |Filter(users, IsSelected)|
  }

  lemma {:induction false} SelectedCountZero(users: seq<User>)
    ensures |Filter(users, IsSelected)| == 0 <==> forall j :: 0 <= j < |users| ==> !users[j].selected
    decreases |users|
  {
    if |users| > 0 {
      SelectedCountZero(users[1..]);
      assert forall j :: 1 <= j < |users| ==> users[j] == users[1..][j - 1];
    }
  }

  /** Counting record by record: a selected first record adds one to the
      count of the rest, an unselected one adds nothing. */
  lemma SelectedCountStep(u: User, rest: seq<User>)
    ensures SelectedCount([u] + rest) == (if u.selected then 1 else 0) + SelectedCount(rest)
  {
    assert ([u] + rest)[1..] == rest;
  }

  /** The ids of the selected records, in list order
      (`users.filter(u => u.selected).map(u => u.id)`). */
  function SelectedIds(users: seq<User>): (ids: seq<string>)
    ensures |ids| == |Filter(users, IsSelected)|
    decreases |users|
  {
    if |users| == 0 then []
    else (if users[0].selected then [users[0].id] else []) + SelectedIds(users[1..])
  }

  /** `ids.forEach(id => deleteUser(id))`. */
  function DeleteAll(users: seq<User>, ids: seq<string>): (r: seq<User>)
    ensures |r| <= |users|
    decreases |ids|
  {
    if |ids| == 0 then users else DeleteAll(DeleteUser(users, ids[0]), ids[1..])
  }

  /** `bulkDelete` as written: it collects the selected ids and deletes each
      by id, so each deletion removes the FIRST record carrying that id,
      selected or not. */
  function BulkDeleteAsWritten(users: seq<User>): (r: seq<User>)
    ensures |r| == |users| - SelectedCount(users)
    ensures SelectedCount(users) == 0 ==> r == users
  {
    SelectedIdsOccur(users);
    DeleteAllCount(users, SelectedIds(users));
    DeleteAll(users, SelectedIds(users))
  }

  /** The number of records carrying `id`. */
  function CountId(users: seq<User>, id: string): nat
    decreases |users|
  {
    if |users| == 0 then 0 else (if users[0].id == id then 1 else 0) + CountId(users[1..], id)
  }

  /** The number of times `id` occurs in `ids`. */
  function Occurrences(ids: seq<string>, id: string): nat
    decreases |ids|
  {
    if |ids| == 0 then 0 else (if ids[0] == id then 1 else 0) + Occurrences(ids[1..], id)
  }

  /** Some record carries an id that is counted. */
  lemma {:induction false} CountIdWitness(users: seq<User>, id: string)
    requires CountId(users, id) > 0
    ensures Find(users, id).Some?
    decreases |users|
  {
    if users[0].id != id {
      CountIdWitness(users[1..], id);
      var j := Find(users[1..], id).value;
      assert users[j + 1].id == id;
    }
  }

  /** Counting distributes over concatenation. */
  lemma {:induction false} CountIdAppend(a: seq<User>, b: seq<User>, id: string)
    ensures CountId(a + b, id) == CountId(a, id) + CountId(b, id)
    decreases |a|
  {
    if |a| == 0 {
      assert a + b == b;
    } else {
      assert (a + b)[1..] == a[1..] + b;
      CountIdAppend(a[1..], b, id);
    }
  }

  /** Splicing out one record lowers the count of its id by one and leaves
      every other id's count alone. */
  lemma CountIdRemoveAt(users: seq<User>, i: nat, id: string)
    requires i < |users|
    ensures CountId(RemoveAt(users, i), id) + (if users[i].id == id then 1 else 0) == CountId(users, id)
  {
    var front, back := users[..i], users[i + 1..];
    assert RemoveAt(users, i) == front + back;
    assert users == front + ([users[i]] + back);
    assert ([users[i]] + back)[1..] == back;
    CountIdAppend(front, back, id);
    CountIdAppend(front, [users[i]] + back, id);
  }

  /** Each selected record contributes its id once, so no id is listed more
      often than records carry it. */
  lemma {:induction false} SelectedIdsOccur(users: seq<User>)
    ensures forall id :: Occurrences(SelectedIds(users), id) <= CountId(users, id)
    ensures |SelectedIds(users)| == SelectedCount(users)
    decreases |users|
  {
    if |users| > 0 {
      SelectedIdsOccur(users[1..]);
      var rest := SelectedIds(users[1..]);
      if users[0].selected {
        assert SelectedIds(users) == [users[0].id] + rest;
        assert ([users[0].id] + rest)[1..] == rest;
      } else {
        assert SelectedIds(users) == rest;
      }
    }
  }

  /** Deleting ids one by one, where no id is listed more often than records
      carry it, finds a record every time: the table shrinks by exactly the
      number of ids. */
  lemma {:induction false} DeleteAllCount(users: seq<User>, ids: seq<string>)
    requires forall id :: Occurrences(ids, id) <= CountId(users, id)
    ensures |DeleteAll(users, ids)| == |users| - |ids|
    decreases |ids|
  {
    if |ids| > 0 {
      var x := ids[0];
      assert Occurrences(ids, x) >= 1;
      CountIdWitness(users, x);
      var i := Find(users, x).value;
      var next := DeleteUser(users, x);
      assert next == RemoveAt(users, i);
      forall id ensures Occurrences(ids[1..], id) <= CountId(next, id) {
        CountIdRemoveAt(users, i, id);
      }
      DeleteAllCount(next, ids[1..]);
    }
  }

  /** `bulkDelete` as intended: exactly the selected records go, and the rest
      keep their order. */
  function BulkDelete(users: seq<User>): (r: seq<User>)
    ensures forall u :: u in r <==> u in users && !u.selected
    ensures IsSubsequence(r, users)
    ensures |r| == |users| - SelectedCount(users)
    ensures SelectedCount(r) == 0
    ensures SelectedCount(users) == 0 ==> r == users
  {
    var kept := Filter(users, IsUnselected);
    forall u ensures u in kept <==> u in users && !u.selected {
      FilterMembership(users, IsUnselected, u);
    }
    assert forall j :: 0 <= j < |kept| ==> kept[j] in kept;
    FilterIsSubsequence(users, IsUnselected);
    FilterSplitsCount(users);
    if SelectedCount(users) == 0 then
      FilterKeepsAll(users, IsUnselected);
      kept
    else
      kept
  }

  lemma {:induction false} FilterSplitsCount(users: seq<User>)
    ensures |Filter(users, IsUnselected)| + |Filter(users, IsSelected)| == |users|
    decreases |users|
  {
    if |users| > 0 {
      FilterSplitsCount(users[1..]);
    }
  }

  /** No two records share an id. */
  predicate UniqueIds(users: seq<User>) {
    forall i, j :: 0 <= i < j < |users| ==> users[i].id != users[j].id
  }

  /** Deleting ids the head record does not carry leaves it in front. */
  lemma {:induction false} DeleteAllBehindHead(u: User, rest: seq<User>, ids: seq<string>)
    requires forall k :: 0 <= k < |ids| ==> ids[k] != u.id
    ensures DeleteAll([u] + rest, ids) == [u] + DeleteAll(rest, ids)
    decreases |ids|
  {
    if |ids| > 0 {
      DeleteBehindHead(u, rest, ids[0]);
      DeleteAllBehindHead(u, DeleteUser(rest, ids[0]), ids[1..]);
    }
  }

  /** An id no record carries is not among the selected ids. */
  lemma {:induction false} SelectedIdsAvoid(users: seq<User>, x: string)
    requires forall j :: 0 <= j < |users| ==> users[j].id != x
    ensures forall k :: 0 <= k < |SelectedIds(users)| ==> SelectedIds(users)[k] != x
    decreases |users|
  {
    if |users| > 0 {
      SelectedIdsAvoid(users[1..], x);
    }
  }

  /** With a selected head, the written bulk delete removes the head first. */
  lemma BulkDeleteSelectedHead(u: User, rest: seq<User>)
    requires u.selected
    ensures BulkDeleteAsWritten([u] + rest) == DeleteAll(rest, SelectedIds(rest))
    ensures BulkDelete([u] + rest) == BulkDelete(rest)
  {
    var users := [u] + rest;
    assert users[1..] == rest;
    var ids := SelectedIds(users);
    assert ids == [u.id] + SelectedIds(rest);
    assert ids[1..] == SelectedIds(rest);
    DeleteHead(u, rest);
  }

  /** With an unselected head whose id is unique, the head survives. */
  lemma BulkDeleteUnselectedHead(u: User, rest: seq<User>)
    requires !u.selected
    requires forall j :: 0 <= j < |rest| ==> rest[j].id != u.id
    ensures BulkDeleteAsWritten([u] + rest) == [u] + DeleteAll(rest, SelectedIds(rest))
    ensures BulkDelete([u] + rest) == [u] + BulkDelete(rest)
  {
    var users := [u] + rest;
    assert users[1..] == rest;
    assert SelectedIds(users) == SelectedIds(rest);
    SelectedIdsAvoid(rest, u.id);
    DeleteAllBehindHead(u, rest, SelectedIds(rest));
  }

  /** When ids are unique, the written bulk delete does what is intended. */
  lemma {:induction false} BulkDeleteAgrees(users: seq<User>)
    requires UniqueIds(users)
    ensures BulkDeleteAsWritten(users) == BulkDelete(users)
    decreases |users|
  {
    if |users| > 0 {
      var u, rest := users[0], users[1..];
      assert users == [u] + rest;
      assert UniqueIds(rest) by {
        forall i, j | 0 <= i < j < |rest| ensures rest[i].id != rest[j].id {
          assert rest[i] == users[i + 1] && rest[j] == users[j + 1];
        }
      }
      BulkDeleteAgrees(rest);
      if u.selected {
        BulkDeleteSelectedHead(u, rest);
      } else {
        assert forall j :: 0 <= j < |rest| ==> rest[j].id != u.id by {
          forall j | 0 <= j < |rest| ensures rest[j].id != u.id {
            assert rest[j] == users[j + 1];
          }
        }
        BulkDeleteUnselectedHead(u, rest);
      }
    }
  }

  /** Two records with the same id, only the second selected: the written
      bulk delete removes the first (unselected) one and keeps the selected
      one. */
  lemma BulkDeleteDuplicateIds(a: User, b: User)
    requires a.id == b.id && !a.selected && b.selected
    ensures BulkDeleteAsWritten([a, b]) == [b]
    ensures BulkDelete([a, b]) == [a]
  {
    var users := [a] + [b];
    assert users == [a, b];
    assert users[1..] == [b];
    assert [b][1..] == [];
    assert SelectedIds([b][1..]) == [];
    assert SelectedIds([b]) == [b.id] + [];
    var ids := SelectedIds(users);
    assert ids == [] + SelectedIds(users[1..]);
    assert ids == [b.id];
    calc {
      BulkDeleteAsWritten(users);
      DeleteAll(DeleteUser(users, a.id), ids[1..]);
      { DeleteHead(a, [b]); assert ids[1..] == []; }
      [b];
    }
    assert Filter(users, IsUnselected) == [a] + Filter([b], IsUnselected);
    assert Filter([b], IsUnselected) == [];
  }

  const HighScoreBadge := "bg-purple-100 text-purple-700 border-purple-200"
  const MidScoreBadge := "bg-purple-50 text-purple-600 border-purple-100"
  const LowScoreBadge := "bg-slate-100 text-slate-500 border-slate-200"

  /** `getCvScoreBadgeClass`: three bands with lower bounds 71 and 31. */
  function CvScoreBadgeClass(score: real): (c: string)
    ensures c == HighScoreBadge <==> score >= 71.0
    ensures c == MidScoreBadge <==> 31.0 <= score < 71.0
    ensures c == LowScoreBadge <==> score < 31.0
  {
    if score >= 71.0 then HighScoreBadge
    else if score >= 31.0 then MidScoreBadge
    else LowScoreBadge
  }
}
