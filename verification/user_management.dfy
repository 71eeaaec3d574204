/** The admin user-management page as a whole: the table, the filters, the
    filtered rows, the pager with the rows on the current page, and the
    select-all flag. Every change to the table or the filters recomputes the
    filtered rows and the pager, as `applyFilters` does. The current time
    enters through `daysSince`, the age in days of a registration date. */
module UserManagement {
  import opened Wrappers
  import opened Seqs
  import opened UserTable
  import opened UserFilters
  import opened Pagination

  datatype State = State(
    users: seq<User>,
    filters: Filters,
    filtered: seq<User>,
    paged: Paged<User>,
    selectAll: bool)

  /** The derived fields agree with the table and the filters: the filtered
      rows are the table filtered, the pager describes them, and the rows
      shown are the current page. */
  predicate Coherent(s: State, daysSince: string -> Option<nat>) {
    && s.filtered == FilterUsers(s.users, s.filters, daysSince)
    && PagerOk(s.paged.pager, |s.filtered|)
    && s.paged.displayed == Slice(s.filtered, PageStart(s.paged.pager.currentPage, s.paged.pager.itemsPerPage),
                                  PageStart(s.paged.pager.currentPage, s.paged.pager.itemsPerPage) + s.paged.pager.itemsPerPage)
  }

  /** `r`'s pager is `s`'s pager recomputed by `updatePagination` for `r`'s
      filtered rows: same page size, the current page kept while it still
      exists and otherwise moved to the last page (or 1), and that page's
      rows displayed. */
  predicate Repaged(s: State, r: State) {
    r.paged == UpdatePagination(s.paged.pager, r.filtered)
  }

  /** `applyFilters`: the filtered rows are recomputed from the table and the
      filters, then the pager. The table, the filters and the selection flag
      are untouched. */
  function ApplyFilters(s: State, daysSince: string -> Option<nat>): (r: State)
    ensures r.users == s.users && r.filters == s.filters && r.selectAll == s.selectAll
    ensures r.filtered == Filter(s.users, Keeper(s.filters, daysSince))
    ensures Repaged(s, r)
    ensures s.paged.pager.currentPage <= r.paged.pager.totalPages ==>
      r.paged.pager.currentPage == s.paged.pager.currentPage
    ensures s.paged.pager.currentPage > r.paged.pager.totalPages ==>
      r.paged.pager.currentPage == Max(1, r.paged.pager.totalPages)
    ensures 1 <= s.paged.pager.currentPage ==> Coherent(r, daysSince)
  {
    var filtered := FilterUsers(s.users, s.filters, daysSince);
    var paged := UpdatePagination(s.paged.pager, filtered);
    PageShown(s.paged.pager, filtered);
    s.(filtered := filtered, paged := paged)
  }

  /** On a coherent state, `applyFilters` changes nothing. */
  lemma ApplyFiltersSettled(s: State, daysSince: string -> Option<nat>)
    requires Coherent(s, daysSince)
    ensures ApplyFilters(s, daysSince) == s
  {
    UpdatePaginationSettled(s.paged, s.filtered);
  }

  /** The state the constructor builds: the seed table, no filters, page 1 of
      size 10, nothing selected. */
  function Initial(seed: seq<User>, daysSince: string -> Option<nat>): (s: State)
    ensures Coherent(s, daysSince)
    ensures s.filtered == seed && s.paged.pager.currentPage == 1
    ensures s.paged.displayed == seed[..Min(10, |seed|)]
  {
    NoFiltersKeepAll(seed, daysSince);
    var s := ApplyFilters(State(seed, NoFilters, [], Paged(Pager(1, 10, 0, 1), []), false), daysSince);
    PageShown(Pager(1, 10, 0, 1), seed);
    s
  }

  /** `addUser`. */
  function AddUser(s: State, u: User, daysSince: string -> Option<nat>): (r: State)
    ensures r.users == [u] + s.users && r.filters == s.filters && r.selectAll == s.selectAll
    ensures Repaged(s, r)
    ensures Coherent(s, daysSince) ==> Coherent(r, daysSince)
  {
    ApplyFilters(s.(users := UserTable.AddUser(s.users, u)), daysSince)
  }

  /** `updateUser`: the table and the derived fields change only when the id
      is found. */
  function UpdateUser(s: State, id: string, p: Patch, daysSince: string -> Option<nat>): (r: State)
    ensures r.users == UserTable.UpdateUser(s.users, id, p)
    ensures Find(s.users, id).None? ==> r == s
    ensures Find(s.users, id).Some? ==> Repaged(s, r)
    ensures Coherent(s, daysSince) ==> Coherent(r, daysSince)
  {
    if Find(s.users, id).Some? then ApplyFilters(s.(users := UserTable.UpdateUser(s.users, id, p)), daysSince)
    else s
  }

  /** `deleteUser`: deleting a record never adds a filtered row. */
  function DeleteUser(s: State, id: string, daysSince: string -> Option<nat>): (r: State)
    ensures r.users == UserTable.DeleteUser(s.users, id)
    ensures r.filters == s.filters && r.selectAll == s.selectAll
    ensures Find(s.users, id).None? ==> r == s
    ensures Find(s.users, id).Some? ==> Repaged(s, r)
    ensures Coherent(s, daysSince) ==> Coherent(r, daysSince) && |r.filtered| <= |s.filtered|
  {
    if Find(s.users, id).Some? then
      DeleteShrinksFilter(s.users, id, Keeper(s.filters, daysSince));
      ApplyFilters(s.(users := UserTable.DeleteUser(s.users, id)), daysSince)
    else s
  }

  /** `ids.forEach(id => this.deleteUser(id))`: one deletion after another,
      each recomputing the derived fields. */
  function DeleteEach(s: State, ids: seq<string>, daysSince: string -> Option<nat>): (r: State)
    ensures r.users == DeleteAll(s.users, ids)
    ensures r.filters == s.filters && r.selectAll == s.selectAll
    decreases |ids|
  {
    if |ids| == 0 then s
    else DeleteEach(DeleteUser(s, ids[0], daysSince), ids[1..], daysSince)
  }

  /** On a coherent state, deleting ids one by one ends in one recomputation
      from the first pager, since the filtered rows only shrink on the way. */
  lemma {:induction false} DeleteEachRepages(s: State, ids: seq<string>, daysSince: string -> Option<nat>)
    requires Coherent(s, daysSince)
    ensures var r := DeleteEach(s, ids, daysSince);
      Coherent(r, daysSince) && |r.filtered| <= |s.filtered| && Repaged(s, r)
    decreases |ids|
  {
    UpdatePaginationSettled(s.paged, s.filtered);
    if |ids| > 0 {
      var t := DeleteUser(s, ids[0], daysSince);
      DeleteEachRepages(t, ids[1..], daysSince);
      var r := DeleteEach(t, ids[1..], daysSince);
      assert DeleteEach(s, ids, daysSince) == r;
      ClampAfterShrink(s.paged.pager, t.filtered, r.filtered);
    }
  }

  /** `suspendUser`: the derived fields are recomputed only when a status
      actually changes. */
  function SuspendUser(s: State, id: string, daysSince: string -> Option<nat>): (r: State)
    ensures r.users == UserTable.SuspendUser(s.users, id)
    ensures r.users == s.users ==> r == s
    ensures r.users != s.users ==> Repaged(s, r)
    ensures Coherent(s, daysSince) ==> Coherent(r, daysSince)
  {
    match Find(s.users, id)
    case Some(i) =>
      if s.users[i].status != Suspended then ApplyFilters(s.(users := UserTable.SuspendUser(s.users, id)), daysSince)
      else s
    case None => s
  }

  /** `unsuspendUser`. */
  function UnsuspendUser(s: State, id: string, daysSince: string -> Option<nat>): (r: State)
    ensures r.users == UserTable.UnsuspendUser(s.users, id)
    ensures r.users == s.users ==> r == s
    ensures r.users != s.users ==> Repaged(s, r)
    ensures Coherent(s, daysSince) ==> Coherent(r, daysSince)
  {
    match Find(s.users, id)
    case Some(i) =>
      if s.users[i].status == Suspended then ApplyFilters(s.(users := UserTable.UnsuspendUser(s.users, id)), daysSince)
      else s
    case None => s
  }

  /** `clearFilters`: every filter is reset, so the whole table is filtered in. */
  function ClearFilters(s: State, daysSince: string -> Option<nat>): (r: State)
    ensures r.filters == NoFilters && r.filtered == s.users && r.users == s.users
    ensures Repaged(s, r)
    ensures Coherent(s, daysSince) ==> Coherent(r, daysSince)
  {
    NoFiltersKeepAll(s.users, daysSince);
    ApplyFilters(s.(filters := NoFilters), daysSince)
  }

  /** `changePage`. */
  function ChangePage(s: State, page: int): (r: State)
    ensures r.users == s.users && r.filters == s.filters && r.filtered == s.filtered
    ensures !(1 <= page <= s.paged.pager.totalPages) ==> r == s
    ensures forall daysSince: string -> Option<nat> :: Coherent(s, daysSince) ==>
      Coherent(r, daysSince) && (1 <= page <= s.paged.pager.totalPages ==> r.paged.pager.currentPage == page)
  {
    s.(paged := Pagination.ChangePage(s.paged, s.filtered, page))
  }

  /** `getPageNumbers` for the current pager: every page when there are at
      most five; otherwise a row from page 1 to the last page holding the
      current page, at most seven entries, each a page or the ellipsis -1. */
  function GetPageNumbers(s: State): (r: seq<int>)
    ensures var t := s.paged.pager.totalPages;
      t <= 5 ==> |r| == Max(0, t) && forall k :: 0 <= k < |r| ==> r[k] == k + 1
    ensures var t, c := s.paged.pager.totalPages, s.paged.pager.currentPage;
      5 < t && 1 <= c <= t ==>
        && 0 < |r| <= 7 && r[0] == 1 && r[|r| - 1] == t && c in r
        && forall k :: 0 <= k < |r| ==> r[k] == -1 || 1 <= r[k] <= t
  {
    var t, c := s.paged.pager.totalPages, s.paged.pager.currentPage;
    if 5 < t && 1 <= c <= t then
      PageWindowBounds(t, c);
      PageNumbers(t, c)
    else PageNumbers(t, c)
  }

  /** `getSelectedCount`: one per selected record. */
  function GetSelectedCount(s: State): (n: nat)
    ensures n == |SelectedIds(s.users)| && n <= |s.users|
    ensures n == 0 <==> forall j :: 0 <= j < |s.users| ==> !s.users[j].selected
  {
    SelectedCount(s.users)
  }

  /** `bulkDelete` as written: the ids of the selected records are collected
      and each is deleted with `deleteUser`, which removes the FIRST record
      carrying it; then the select-all flag is cleared. As many records leave
      as were selected, and when no two records share an id they are exactly
      the selected ones. */
  function BulkDelete(s: State, daysSince: string -> Option<nat>): (r: State)
    ensures !r.selectAll && r.filters == s.filters
    ensures r.users == BulkDeleteAsWritten(s.users)
    ensures |r.users| == |s.users| - GetSelectedCount(s)
    ensures UniqueIds(s.users) ==> r.users == UserTable.BulkDelete(s.users) && GetSelectedCount(r) == 0
    ensures GetSelectedCount(s) == 0 ==> r == s.(selectAll := false)
    ensures Coherent(s, daysSince) ==> Coherent(r, daysSince) && Repaged(s, r)
  {
    BulkDeleteSteps(s, daysSince);
    var t := DeleteEach(s, SelectedIds(s.users), daysSince);
    if Coherent(t, daysSince) then
      SelectionFlagIgnored(t, false, daysSince);
      t.(selectAll := false)
    else t.(selectAll := false)
  }

  /** What the deletions of `bulkDelete` do before the flag is cleared. */
  lemma BulkDeleteSteps(s: State, daysSince: string -> Option<nat>)
    ensures var t := DeleteEach(s, SelectedIds(s.users), daysSince);
      && t.users == BulkDeleteAsWritten(s.users)
      && |t.users| == |s.users| - SelectedCount(s.users)
      && (SelectedCount(s.users) == 0 ==> t == s)
      && (UniqueIds(s.users) ==> t.users == UserTable.BulkDelete(s.users) && SelectedCount(t.users) == 0)
      && (Coherent(s, daysSince) ==> Coherent(t, daysSince) && Repaged(s, t))
  {
    var ids := SelectedIds(s.users);
    var t := DeleteEach(s, ids, daysSince);
    assert t.users == BulkDeleteAsWritten(s.users);
    if SelectedCount(s.users) == 0 {
      assert ids == [];
    }
    if UniqueIds(s.users) {
      BulkDeleteAgrees(s.users);
    }
    if Coherent(s, daysSince) {
      DeleteEachRepages(s, ids, daysSince);
    }
  }

  /** The derived fields do not depend on the select-all flag. */
  lemma SelectionFlagIgnored(s: State, flag: bool, daysSince: string -> Option<nat>)
    requires Coherent(s, daysSince)
    ensures Coherent(s.(selectAll := flag), daysSince)
  {
    var r := s.(selectAll := flag);
    assert r.users == s.users && r.filters == s.filters && r.filtered == s.filtered && r.paged == s.paged;
  }

  /** `bulkDelete` as intended: exactly the selected records leave the table,
      the rest keep their order, the derived fields are recomputed once when
      anything was deleted, and the select-all flag is cleared. */
  function BulkDeleteIntended(s: State, daysSince: string -> Option<nat>): (r: State)
    ensures !r.selectAll && r.filters == s.filters
    ensures r.users == UserTable.BulkDelete(s.users)
    ensures forall u :: u in r.users <==> u in s.users && !u.selected
    ensures GetSelectedCount(r) == 0
    ensures GetSelectedCount(s) == 0 ==> r == s.(selectAll := false)
    ensures GetSelectedCount(s) > 0 ==> Repaged(s, r)
    ensures Coherent(s, daysSince) ==> Coherent(r, daysSince)
  {
    if SelectedCount(s.users) == 0 then s.(selectAll := false)
    else ApplyFilters(s.(users := UserTable.BulkDelete(s.users), selectAll := false), daysSince)
  }

  /** On a coherent state whose ids are unique, the page's bulk delete as
      written and as intended end in the same state. */
  lemma BulkDeleteMatchesIntended(s: State, daysSince: string -> Option<nat>)
    requires Coherent(s, daysSince) && UniqueIds(s.users)
    ensures BulkDelete(s, daysSince) == BulkDeleteIntended(s, daysSince)
  {
    var a, b := BulkDelete(s, daysSince), BulkDeleteIntended(s, daysSince);
    assert a.users == b.users && a.filtered == b.filtered;
  }

  /** The page-number row of a coherent state with more than five pages has
      the shape the pager promises. */
  lemma PageNumbersOfCoherentState(s: State, daysSince: string -> Option<nat>)
    requires Coherent(s, daysSince) && s.paged.pager.totalPages > 5
    ensures
      var r := GetPageNumbers(s);
      && r[0] == 1 && r[|r| - 1] == s.paged.pager.totalPages
      && s.paged.pager.currentPage in r && |r| <= 7
      && GapsMarked(r)
  {
    PageWindowBounds(s.paged.pager.totalPages, s.paged.pager.currentPage);
    PageWindowOrder(s.paged.pager.totalPages, s.paged.pager.currentPage);
  }
}
