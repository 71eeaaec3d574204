# GDSMinerva frontend — a Dafny model of its rule-bearing core

This project models the parts of the GDSMinerva Angular front end that hold actual rules. Everything is stated as pure functions over immutable values.

- **Admin user table** (`UserManagementComponent`):
  - prepend, update, delete and look up by id, with first-match semantics;
  - account-status changes and the selection count;
  - bulk delete, both as written (per-id deletion) and as intended;
  - the search, registration-date and CV-score filters;
  - the pager: page count, clamping, the slice shown, page changes;
  - the row of page buttons, with `-1` for an ellipsis.
- **Simulated backend** (`MockApiInterceptor.intercept`): pass-through, login and sign-up over the `users` list kept in browser storage. It also keeps a store invariant: ids are 1..n and emails are distinct.
- **Authentication service** (`AuthService`):
  - token shape and expiry;
  - start-up;
  - handling of a login/sign-up response and of an HTTP error;
  - logout;
  - token refresh.
- **Route guards:** the class-based `AuthGuard` and the exported `authGuard` function.
- **Profile service** (`UserService`): mock lookup by stringified id with a fallback, a merge written back to the list, and the HTTP dispatch.
- **Sign-in page:** form validity, field error messages, the two built-in accounts, and delegation to `login`.
- **Dashboard host:** role resolution and the one navigation it issues.
- **Theme service:**
  - initial theme and toggle;
  - the class set on the document element;
  - the two storage keys;
  - the DOM-observer rule.

Things the model takes as parameters or simplifies:

- **Storage** is a `map<string, string>`.
- **The clock** is a parameter: milliseconds for the service, and a `daysSince` function for the registration filter.
- **JSON and base64** are a `Codec` of uninterpreted functions. `RoundTrips` states when parsing undoes stringifying.
- **HTTP exchanges** are the reply the backend gave.
- **The email pattern** of Angular's `Validators.email` is a predicate parameter.
- **JSON objects** are flat maps from keys to primitive values. An absent key is `undefined`.

The code is followed wherever it differs from the project's own test expectations:

- After the built-in admin sign-in, and for an `admin` role on the dashboard host, the code navigates to `/dashboard/admin`. The route table redirects that path to `/admin-page` (src/app/app.routes.ts:29-33). Some tests expect a direct navigation to `/admin-page`.
- `handleError` reads the response body's `message` only when the error carries a truthy `status`. Without one the message is `An error occurred`, even when the body has a message.

Several facts cross file boundaries:

- The tokens issued by the simulated backend and by the built-in accounts contain no dot. So they never pass `isTokenValid`. The class-based guard refuses them and a reload signs the session out.
- The route table's guard function admits everything anyway.

## Model

| member | source | states |
|---|---|---|
| UserTable.Merge | src/app/pages/admin-page/components/user-management/user-management.component.ts:104 | the spread `{ ...user, ...patch }`: an empty patch changes nothing, a present `status`/`id` overrides the record's and an absent one keeps it |
| UserTable.Find | src/app/pages/admin-page/components/user-management/user-management.component.ts:102 | `findIndex` by id: the index of a record with that id and no earlier one, and no index exactly when no record carries the id |
| UserTable.GetUserById | src/app/pages/admin-page/components/user-management/user-management.component.ts:125-127 | a record is returned exactly when some record has the id; it is the FIRST record carrying that id, as `find` returns it |
| UserTable.AddUser | src/app/pages/admin-page/components/user-management/user-management.component.ts:92-93 | `unshift`: the new record is first, the old table follows unchanged, length grows by one |
| UserTable.UpdateUser | src/app/pages/admin-page/components/user-management/user-management.component.ts:101-104 | only the first record with the id is replaced by its merge with the patch; all other positions and the length are unchanged; an unknown id leaves the table as it was |
| UserTable.DeleteUser | src/app/pages/admin-page/components/user-management/user-management.component.ts:113-116 | exactly one record, the first with the id, is removed: length drops by one, the multiset loses just that record, the rest keep their order (index shift described position by position); an unknown id changes nothing |
| UserTable.DeleteUndoesAdd | src/app/pages/admin-page/components/user-management/user-management.component.ts:92-119 | deleting by the id of a just-prepended record gives the old table back, whatever ids the old table holds |
| UserTable.DeleteHead | src/app/pages/admin-page/components/user-management/user-management.component.ts:113-116 | deleting the first record's id removes exactly the first record |
| UserTable.DeleteBehindHead | src/app/pages/admin-page/components/user-management/user-management.component.ts:113-116 | deleting an id the first record does not carry keeps that record in front and deletes in the rest |
| UserTable.DeleteShrinksFilter | src/app/pages/admin-page/components/user-management/user-management.component.ts:113-116 | deleting a record never lets more records through a filter |
| UserTable.SuspendUser | src/app/pages/admin-page/components/user-management/user-management.component.ts:132-139 | the first record with the id becomes suspended; every record is either unchanged or a formerly non-suspended record with only its status set to suspended; an unknown id changes nothing |
| UserTable.UnsuspendUser | src/app/pages/admin-page/components/user-management/user-management.component.ts:144-151 | only a suspended first match becomes active, with no other field changed; all other records are unchanged |
| UserTable.StatusTransitions | src/app/pages/admin-page/components/user-management/user-management.component.ts:132-151 | unsuspending never changes a pending account; suspending twice equals suspending once; suspending then unsuspending an active account restores the table |
| UserTable.FindRespectsIds | src/app/pages/admin-page/components/user-management/user-management.component.ts:102 | the lookup by id depends only on which positions carry the id, so a status change does not move it |
| UserTable.SelectedCount | src/app/pages/admin-page/components/user-management/user-management.component.ts:287-289 | the count is the number of selected ids collected record by record; together with the unselected records it makes up the table; it is zero exactly when no record is selected |
| UserTable.SelectedCountStep | src/app/pages/admin-page/components/user-management/user-management.component.ts:287-289 | counting record by record: a selected first record adds one to the count of the rest, an unselected one adds nothing |
| UserTable.SelectedIds | src/app/pages/admin-page/components/user-management/user-management.component.ts:295 | one id per selected record |
| UserTable.DeleteAll | src/app/pages/admin-page/components/user-management/user-management.component.ts:296 | deleting a list of ids one by one never grows the table |
| UserTable.BulkDeleteAsWritten | src/app/pages/admin-page/components/user-management/user-management.component.ts:294-298 | the code as written: exactly as many records leave as were selected (each collected id still finds a record when its turn comes), and with nothing selected the table is unchanged |
| UserTable.DeleteAllCount | src/app/pages/admin-page/components/user-management/user-management.component.ts:296 | deleting ids one by one, none listed more often than records carry it, finds a record every time, so the table shrinks by exactly the number of ids |
| UserTable.CountIdRemoveAt | src/app/pages/admin-page/components/user-management/user-management.component.ts:116 | splicing out one record lowers the count of its id by one and leaves every other id's count alone |
| UserTable.BulkDelete | src/app/pages/admin-page/components/user-management/user-management.component.ts:294-298 | a record survives exactly when it was in the table and not selected; survivors keep their order; the size drops by the selected count; nothing selected remains; with nothing selected the table is unchanged |
| UserTable.BulkDeleteSelectedHead | src/app/pages/admin-page/components/user-management/user-management.component.ts:295-296 | with a selected first record, both bulk deletes drop it and continue on the rest |
| UserTable.BulkDeleteUnselectedHead | src/app/pages/admin-page/components/user-management/user-management.component.ts:295-296 | an unselected first record whose id no other record carries survives both bulk deletes |
| UserTable.BulkDeleteAgrees | src/app/pages/admin-page/components/user-management/user-management.component.ts:294-298 | when ids are unique, deleting the selected ids one by one removes exactly the selected records |
| UserTable.BulkDeleteDuplicateIds | src/app/pages/admin-page/components/user-management/user-management.component.ts:295-296 | two records sharing an id, only the second selected: the code as written deletes the unselected one and keeps the selected one |
| UserTable.CvScoreBadgeClass | src/app/pages/admin-page/components/user-management/user-management.component.ts:314-318 | the high badge exactly for scores of at least 71, the middle badge exactly for 31 up to 71, the low badge exactly below 31 |
| UserFilters.CvBandsDisjoint | src/app/pages/admin-page/components/user-management/user-management.component.ts:188-197 | the `low`, `mid` and `high` bands are pairwise disjoint and any other key keeps every score |
| UserFilters.BadgeMatchesBand | src/app/pages/admin-page/components/user-management/user-management.component.ts:314-318 | a score in a filter band gets that band's badge |
| UserFilters.RefineIsFilter | src/app/pages/admin-page/components/user-management/user-management.component.ts:162-197 | a filter stage that is switched on narrows by its test and one that is off keeps everything, i.e. filtering by "off, or passes" |
| UserFilters.FilterUsers | src/app/pages/admin-page/components/user-management/user-management.component.ts:158-199 | the three successive filter stages (search, registration window, CV band) equal one filter by the combined per-record test |
| UserFilters.FilteredMembers | src/app/pages/admin-page/components/user-management/user-management.component.ts:158-199 | the filtered rows are an order-preserving subsequence of the table, and a record is in them exactly when it is in the table and passes every switched-on filter |
| UserFilters.SearchOnly | src/app/pages/admin-page/components/user-management/user-management.component.ts:162-168 | a query blank after trimming keeps every record; otherwise a record stays exactly when its lowercased name or email contains the lowercased, untrimmed query |
| UserFilters.LastLoginIgnored | src/app/pages/admin-page/components/user-management/user-management.component.ts:158-199 | the `lastLogin` filter field has no effect on the filtered rows |
| UserFilters.NoFiltersKeepAll | src/app/pages/admin-page/components/user-management/user-management.component.ts:206-213 | with the cleared filters every record is shown, in order |
| Pagination.CapacityIsProduct | src/app/pages/admin-page/components/user-management/user-management.component.ts:231 | the repeated-addition page offset equals `k * itemsPerPage` |
| Pagination.CapacityMonotone | src/app/pages/admin-page/components/user-management/user-management.component.ts:231 | later pages start later, by at least a page size per page |
| Pagination.CeilDiv | src/app/pages/admin-page/components/user-management/user-management.component.ts:223 | `Math.ceil(n / d)` characterised as the least number of pages holding `n` rows; zero exactly when there are no rows |
| Pagination.RelativeIndex | src/app/pages/admin-page/components/user-management/user-management.component.ts:233 | a `slice` bound lies within the array and a non-negative bound is clamped to the length |
| Pagination.Slice | src/app/pages/admin-page/components/user-management/user-management.component.ts:233 | `slice(start, end)` holds the elements between the resolved bounds, position by position, and is empty when they cross |
| Pagination.SliceWidth | src/app/pages/admin-page/components/user-management/user-management.component.ts:231-233 | a slice from `k` to `k + d` has at most `d` elements |
| Pagination.StartWithinRows | src/app/pages/admin-page/components/user-management/user-management.component.ts:226-231 | a current page between 1 and the last page starts at an existing row (or at 0 with no rows) |
| Pagination.SliceOfPage | src/app/pages/admin-page/components/user-management/user-management.component.ts:231-233 | the slice of one page from an existing row is the contiguous run up to the page end or the last row, non-empty exactly when there are rows |
| Pagination.UpdatePagination | src/app/pages/admin-page/components/user-management/user-management.component.ts:221-234 | totals are recomputed with the ceiling page count; the current page is kept unless it exceeds the page count, then it becomes `max(1, totalPages)`; at most one page of rows is shown, the slice starting at the current page's first row |
| Pagination.PageSliceWhenInRange | src/app/pages/admin-page/components/user-management/user-management.component.ts:231-233 | for a current page in range, the shown slice is the contiguous run from the page start |
| Pagination.PageShown | src/app/pages/admin-page/components/user-management/user-management.component.ts:221-234 | from a current page of at least 1, the pager afterwards is consistent and the rows shown are the contiguous current page, empty only when no rows are filtered in |
| Pagination.UpdatePaginationIdempotent | src/app/pages/admin-page/components/user-management/user-management.component.ts:221-234 | recomputing the pager twice over the same rows equals recomputing it once |
| Pagination.UpdatePaginationSettled | src/app/pages/admin-page/components/user-management/user-management.component.ts:221-234 | a consistent pager showing its current page is left unchanged by a recomputation |
| Pagination.ClampAfterShrink | src/app/pages/admin-page/components/user-management/user-management.component.ts:226-228 | when the rows only shrink, clamping first against the larger list and then the smaller equals clamping once against the smaller |
| Pagination.ChangePage | src/app/pages/admin-page/components/user-management/user-management.component.ts:239-244 | a page outside `1..totalPages` is ignored; one inside becomes current and the shown rows are that page's slice |
| Pagination.EmptyRejectsEveryPage | src/app/pages/admin-page/components/user-management/user-management.component.ts:239-244 | with no rows there are zero pages, so every page change is ignored |
| Pagination.Range | src/app/pages/admin-page/components/user-management/user-management.component.ts:256-258 | the counting loop yields `lo, lo + 1, …, hi` |
| Pagination.PageNumbers | src/app/pages/admin-page/components/user-management/user-management.component.ts:249-273 | with at most five pages the row is exactly `1..totalPages` |
| Pagination.PageRowLayout | src/app/pages/admin-page/components/user-management/user-management.component.ts:259-270 | with more than five pages: page 1, an ellipsis exactly when the current page is past 3, the window around the current page inside `2..last-1`, an ellipsis exactly when it is before `last-2`, then the last page |
| Pagination.PageRowEntries | src/app/pages/admin-page/components/user-management/user-management.component.ts:259-270 | each position of the row holds the page number or ellipsis its layout dictates |
| Pagination.PageWindowBounds | src/app/pages/admin-page/components/user-management/user-management.component.ts:259-270 | the row starts at 1, ends at the last page, contains the current page, has at most seven entries, and holds only ellipses and page numbers in range |
| Pagination.PageWindowOrder | src/app/pages/admin-page/components/user-management/user-management.component.ts:259-270 | the page numbers increase strictly from left to right, neighbouring page numbers are consecutive, and an ellipsis sits exactly between two shown pages that skip a number |
| UserManagement.ApplyFilters | src/app/pages/admin-page/components/user-management/user-management.component.ts:158-201 | the table, filters and select-all flag are untouched; the filtered rows are the table filtered by the combined test; the pager is the previous one recomputed: same page size, the current page kept when it is at most the new page count and otherwise `max(1, totalPages)`; the resulting state is consistent |
| UserManagement.ApplyFiltersSettled | src/app/pages/admin-page/components/user-management/user-management.component.ts:158-201 | on a consistent state, applying the filters again changes nothing |
| UserManagement.Initial | src/app/pages/admin-page/components/user-management/user-management.component.ts:64-84 | the constructor's state is consistent, shows the whole seed table as filtered rows, and displays its first ten records on page 1 |
| UserManagement.AddUser | src/app/pages/admin-page/components/user-management/user-management.component.ts:92-96 | the record is prepended; the pager is the previous pager recomputed for the new filtered rows (current page kept while it exists, else the last page or 1); a consistent state stays consistent |
| UserManagement.UpdateUser | src/app/pages/admin-page/components/user-management/user-management.component.ts:101-108 | the table is updated as above; an unknown id leaves the whole state unchanged; for a known id the pager is the previous pager recomputed for the new filtered rows (current page kept while it exists, else the last page or 1); consistency is preserved |
| UserManagement.DeleteUser | src/app/pages/admin-page/components/user-management/user-management.component.ts:113-120 | the table loses the first record with the id; an unknown id leaves the whole state unchanged; for a known id the pager is the previous pager recomputed for the new filtered rows (current page kept while it exists, else the last page or 1); the filtered rows never grow; consistency is preserved |
| UserManagement.SuspendUser | src/app/pages/admin-page/components/user-management/user-management.component.ts:132-139 | the table is suspended as above; when no status changes the whole state is unchanged; when one does, the pager is the previous pager recomputed for the new filtered rows (current page kept while it exists, else the last page or 1); consistency is preserved |
| UserManagement.UnsuspendUser | src/app/pages/admin-page/components/user-management/user-management.component.ts:144-151 | the table is unsuspended as above; when no status changes the whole state is unchanged; when one does, the pager is the previous pager recomputed for the new filtered rows (current page kept while it exists, else the last page or 1); consistency is preserved |
| UserManagement.ClearFilters | src/app/pages/admin-page/components/user-management/user-management.component.ts:206-214 | the filters are reset, the filtered rows are the whole table, the pager is the previous pager recomputed for the new filtered rows (current page kept while it exists, else the last page or 1), and consistency is preserved |
| UserManagement.ChangePage | src/app/pages/admin-page/components/user-management/user-management.component.ts:239-244 | table and filtered rows untouched; an out-of-range page leaves the state as it was; an in-range page becomes current on a consistent state, which stays consistent |
| UserManagement.GetPageNumbers | src/app/pages/admin-page/components/user-management/user-management.component.ts:249-273 | up to five pages: exactly `1..totalPages`; more, with the current page in range: starts at 1, ends at the last page, holds the current page, at most seven entries, each a page in range or the ellipsis -1 |
| UserManagement.GetSelectedCount | src/app/pages/admin-page/components/user-management/user-management.component.ts:287-289 | the number of selected ids, at most the table size, zero exactly when nothing is selected |
| UserManagement.BulkDelete | src/app/pages/admin-page/components/user-management/user-management.component.ts:294-298 | the page as written, deleting each collected id through `deleteUser`: the table becomes the as-written bulk delete, shrinking by exactly the selected count; with unique ids exactly the selected records leave and none stays selected; with nothing selected only the flag changes; on a consistent state the result is consistent and its pager is the first pager recomputed once for the final rows |
| UserManagement.DeleteEachRepages | src/app/pages/admin-page/components/user-management/user-management.component.ts:294-298 | on a consistent state, the per-id deletions with their recomputation after each step end consistent, with no more filtered rows, and with the pager the first one recomputed for the final rows |
| UserManagement.BulkDeleteIntended | src/app/pages/admin-page/components/user-management/user-management.component.ts:294-298 | the corrected page operation: exactly the selected records leave the table, none stays selected, the flag is cleared, the pager is recomputed when anything was selected, and consistency is preserved |
| UserManagement.BulkDeleteMatchesIntended | src/app/pages/admin-page/components/user-management/user-management.component.ts:294-298 | on a consistent state with unique ids the page's bulk delete as written and as intended end in the same state |
| UserManagement.PageNumbersOfCoherentState | src/app/pages/admin-page/components/user-management/user-management.component.ts:249-273 | on a consistent state with more than five pages the button row starts at 1, ends at the last page, holds the current page, has at most seven entries and marks every gap |
| MockApi.MockAccessTokenHasNoDot | src/app/interceptors/mock-api.interceptor.ts:47 | `mock-jwt-token-<time>` contains no dot |
| MockApi.IsLoginRoute | src/app/interceptors/mock-api.interceptor.ts:32 | a login route is a POST whose URL does not end with `/signup` |
| MockApi.IsSignUpRoute | src/app/interceptors/mock-api.interceptor.ts:59 | a sign-up route is a POST that is never also a login route, so the two handlers never compete |
| MockApi.PublicView | src/app/interceptors/mock-api.interceptor.ts:43 | the rest pattern drops `password` and keeps every other field unchanged |
| MockApi.Login | src/app/interceptors/mock-api.interceptor.ts:32-56 | success exactly when some stored record has the same email and password; the answer is 200 with fresh mock tokens and the first matching record without its password; otherwise a 401 `Invalid credentials` |
| MockApi.NewUser | src/app/interceptors/mock-api.interceptor.ts:71-79 | the new record has the given id, role `user`, the creation time, the body's email, password and names, and no other field |
| MockApi.SignUp | src/app/interceptors/mock-api.interceptor.ts:59-96 | rejected with 400 `User already exists` exactly when the email is stored, leaving the list unchanged; otherwise exactly one record is appended with id `length + 1`, role `user` and the body's credentials, earlier records untouched, and it is answered without its password |
| MockApi.SignUpPreservesStore | src/app/interceptors/mock-api.interceptor.ts:66-83 | sign-up keeps ids equal to positions + 1 and emails pairwise distinct |
| MockApi.Intercept | src/app/interceptors/mock-api.interceptor.ts:16-102 | pass-through exactly when mocking is off, the URL is outside `apiUrl`, or the route is neither POST `…/login` nor POST `…/signup`; a login route is answered by the login handler with the list unchanged; a sign-up route is exactly the sign-up handler's outcome and list; only a sign-up changes the list; no answer carries a password; the store invariant is kept |
| MockApi.ReplayPreservesStore | src/app/interceptors/mock-api.interceptor.ts:66-83 | any sequence of intercepted requests keeps a well-formed store well formed |
| MockApi.StoreFromScratch | src/app/interceptors/mock-api.interceptor.ts:66-83 | from an empty store, ids are exactly 1..n in order and emails are pairwise distinct after any run of requests |
| AuthService.DecodeToken | src/app/services/auth.service.ts:123-146 | claims only for a present, non-empty token (argument, else the stored one) with exactly two dots; for a three-part token they are the decoded middle segment |
| AuthService.MalformedTokenNeverValid | src/app/services/auth.service.ts:131-135 | a non-empty token without exactly two dots is never valid |
| AuthService.ValidExactlyBeforeExpiry | src/app/services/auth.service.ts:152-161 | with a numeric `exp` of `e` the token is valid exactly before millisecond `e * 1000` (strict comparison with the floored second) |
| AuthService.ValidNeedsExpiry | src/app/services/auth.service.ts:152-160 | a valid token has decodable claims whose `exp` is truthy and, converted with `Number`, later than the current second |
| AuthService.StringExpiryCoerced | src/app/services/auth.service.ts:155-160 | an `exp` written as a decimal string counts by its value: the token is valid exactly before millisecond `n * 1000` |
| AuthService.IsTokenValid | src/app/services/auth.service.ts:152-161 | only a token (the argument, or the stored one when the argument is empty) with exactly three segments can be valid |
| AuthService.IsAuthenticated | src/app/services/auth.service.ts:113-116 | true only when a non-empty three-segment token is stored and that token is valid |
| AuthService.ClearAuthData | src/app/services/auth.service.ts:222-226 | exactly the three authentication keys are removed; every other entry is kept |
| AuthService.StoredUser | src/app/services/auth.service.ts:214-217 | no user exactly when the `user` entry is missing or empty; a failure (the `SyntaxError` of `JSON.parse`) exactly when the entry cannot be parsed; otherwise the parsed record |
| AuthService.StoredUserRoundTrip | src/app/services/auth.service.ts:214-217 | a user written with `JSON.stringify` is read back by `getStoredUser` when the codec round-trips |
| AuthService.InitializeAuth | src/app/services/auth.service.ts:27-47 | the constructor throws exactly when the stored `user` entry cannot be parsed, whatever the token; otherwise authenticated exactly when the stored token is valid, then carrying that token and the stored user with storage untouched; otherwise storage loses the authentication keys and the state is signed out |
| AuthService.Logout | src/app/services/auth.service.ts:78-87 | exactly the authentication keys are removed, the state is signed out, and no clock or decoder makes the result authenticated |
| AuthService.HandleAuthResponse | src/app/services/auth.service.ts:187-209 | nothing happens for an empty access token; otherwise the token is stored, the refresh token and user only when present, no other key changes, and the state is authenticated with the new token, no error, and the response's user or else the decoded claims |
| AuthService.ErrorMessagePrecedence | src/app/services/auth.service.ts:231-238 | the message is the client event's message, else (only with a status) the body's message or `HTTP Error: <status>`, else `An error occurred` |
| AuthService.ErrorMessage | src/app/services/auth.service.ts:231-238 | a client-side event gives its own message; a server-side error always gives a non-empty message |
| AuthService.HandleError | src/app/services/auth.service.ts:231-247 | storage and every state field except `error` and `loading` are kept; `error` is the derived message and `loading` false |
| AuthService.Authenticate | src/app/services/auth.service.ts:54-73 | a response goes through the response handler and is delivered; an error sets the derived message, leaves storage alone and fails with that message |
| AuthService.RefreshToken | src/app/services/auth.service.ts:167-182 | without a refresh token it fails at once changing nothing; a failed refresh clears the authentication keys and passes the error on; a response goes through the response handler |
| AuthService.ReloadAfterResponse | src/app/services/auth.service.ts:32-47 | after storing a response with a user, a reload (with a round-tripping codec) does not throw, is authenticated exactly when the new token is still valid, and then restores the same token and user |
| AuthService.ResponseAuthenticatesOnlyValidTokens | src/app/services/auth.service.ts:113-116 | after a response the published state says authenticated, while `isAuthenticated` holds exactly when the new token is valid |
| AuthGuard.CanActivate | src/app/guards/auth.guard.ts:12-19 | admits exactly the authenticated sessions with no navigation, and otherwise navigates to `/sign-in` |
| AuthGuard.AuthGuardFn | src/app/guards/auth.guard.ts:22-25 | the exported guard function admits every route |
| UserService.FindFrom | src/app/services/user.service.ts:61 | the first record whose id renders as the user id, with every earlier id renderable and different; a `TypeError` exactly when an unrenderable id is reached first |
| UserService.GetMockProfile | src/app/services/user.service.ts:55-79 | the first stored record whose id matches; without a match the fallback profile for that id, and no record matches; a failure exactly when the lookup throws |
| UserService.UpdateMockProfile | src/app/services/user.service.ts:81-105 | on a match that record is replaced by its merge with the update, every other record and the length kept, and the merge answered; without a match the list is untouched and the fallback answered |
| UserService.FallbackUpdateFields | src/app/services/user.service.ts:94-102 | the fallback keeps a non-empty supplied first name, uses `Mock` for an empty one, and always uses the fixed email |
| UserService.LookupInWellFormedStore | src/app/services/user.service.ts:60-91 | in a store the simulated backend keeps, the decimal id `k` finds record `k`, and an update through it merges into that record |
| UserService.GetProfileRoute | src/app/services/user.service.ts:28-33 | the mock path exactly when mocking is on, otherwise a GET of the users URL with the id appended |
| UserService.UpdateProfileRoute | src/app/services/user.service.ts:38-43 | the mock path exactly when mocking is on, otherwise a PUT of the update to the users URL with the id appended |
| SignIn.GetErrorMessage | src/app/pages/sign-in/sign-in.component.ts:94-107 | empty exactly for a valid or unknown control; the required message (capitalised field name) takes precedence over the email message, which takes precedence over the length message |
| SignIn.FieldMessages | src/app/pages/sign-in/sign-in.component.ts:94-107 | the concrete messages: `Email is required`, `Password is required`, the length message for 1 to 7 characters, and none from 8 |
| SignIn.CapitalizedNames | src/app/pages/sign-in/sign-in.component.ts:98 | the capitalised control names are `Email` and `Password` |
| SignIn.OnSubmit | src/app/pages/sign-in/sign-in.component.ts:32-78 | an invalid form only sets the form message; each built-in account writes its token and user, navigates to its dashboard and skips login; `login` is called with exactly `{email, password}` otherwise, and success navigates to `/dashboard` while an error shows a non-empty message; at most one navigation |
| SignIn.LoginErrorMessage | src/app/pages/sign-in/sign-in.component.ts:73-76 | a login error shows its own non-empty message, otherwise the default text |
| SignIn.BuiltInAccountsPassValidation | src/app/pages/sign-in/sign-in.component.ts:27-30 | both built-in accounts pass the form rules whenever the email pattern accepts their addresses |
| DashboardHost.ResolveRole | src/app/pages/dashboard-host/dashboard-host.component.ts:18 | the state user's role if truthy, else the stored token's role claim if truthy, else `user`; always truthy |
| DashboardHost.Navigations | src/app/pages/dashboard-host/dashboard-host.component.ts:20-24 | exactly one navigation, to the admin dashboard exactly when the role is `admin` and to the user dashboard otherwise |
| DashboardHost.RoleRouting | src/app/pages/dashboard-host/dashboard-host.component.ts:14-25 | with no user and no decodable token the host goes to the user dashboard; an `admin` user ends on `/admin-page` after the redirect |
| Theme.InitialTheme | src/app/services/theme.service.ts:52-65 | a stored `light` or `dark` wins; anything else defers to the system preference |
| Theme.Toggled | src/app/services/theme.service.ts:78-79 | toggling always changes the theme |
| Theme.ToggledInvolution | src/app/services/theme.service.ts:77-90 | toggling twice gives back the theme |
| Theme.ApplyTheme | src/app/services/theme.service.ts:102-113 | the theme's class is present, the other theme's absent, and every other class unchanged |
| Theme.IsDarkMode | src/app/services/theme.service.ts:118 | once the theme is applied, dark mode holds exactly when the document carries the `dark` class |
| Theme.Start | src/app/services/theme.service.ts:14-26 | the service starts on the initial theme, with it applied to the document and written under both keys, other classes untouched |
| Theme.ToggleTheme | src/app/services/theme.service.ts:77-90 | the toggled theme becomes current, applied and written under both keys |
| Theme.SetTheme | src/app/services/theme.service.ts:95-97 | the theme becomes exactly the argument; setting the current theme changes nothing; applied-and-persisted is established by a change and kept otherwise |
| Theme.DomSync | src/app/services/theme.service.ts:36-45 | the observed theme is `dark` exactly when the class set has `dark`; when it matches the signal only the classes change; persistence is kept |
| Theme.ToggleTwice | src/app/services/theme.service.ts:77-90 | on an applied and persisted state, toggling twice restores the state exactly |
| Theme.ObserverQuietAfterCommit | src/app/services/theme.service.ts:20-45 | the observer leaves the state unchanged after the service's own theme change |
| Text.TrimEmptyIffBlank | src/app/pages/admin-page/components/user-management/user-management.component.ts:162 | `trim()` gives the empty string exactly for blank text |
| Text.SplitWithoutSeparator | src/app/services/auth.service.ts:131 | `split` of text without the separator gives the text alone |
| Text.NatToStringHasNoDot | src/app/interceptors/mock-api.interceptor.ts:47 | the decimal rendering of a timestamp has no dot |
| Text.NatToStringInjective | src/app/services/user.service.ts:61 | distinct numeric ids render as distinct strings |
| Text.ReplaceFirst | src/app/services/user.service.ts:21 | `replace` of a string pattern substitutes its first occurrence only, and changes nothing without one |
| Json.ToNumberOfDecimal | src/app/services/auth.service.ts:160 | a number written out in decimal converts back to itself under the comparison's `Number` conversion |
| Flows.DotlessTokenNeverValid | src/app/services/auth.service.ts:131-135 | a non-empty token without a dot is never valid, whatever the clock and decoder |
| Flows.MockLoginNeverPassesGuard | src/app/interceptors/mock-api.interceptor.ts:44-51 | after a successful simulated login the published state says authenticated, but the stored token fails `isAuthenticated`, the class-based guard redirects to `/sign-in`, and a reload signs out and leaves no token or user (and cannot throw when the codec round-trips) |
| Flows.BuiltInTokensHaveNoDot | src/app/pages/sign-in/sign-in.component.ts:47-56 | the built-in accounts' tokens contain no dot |
| Flows.BuiltInAccountsNeverAuthenticate | src/app/pages/sign-in/sign-in.component.ts:45-61 | a built-in sign-in leaves a token that never authenticates; the class-based guard refuses it and a reload clears the token and user (and cannot throw when the codec round-trips) |
| Flows.AdminAccountReachesAdminPage | src/app/pages/sign-in/sign-in.component.ts:54-60 | the built-in admin sign-in navigates to `/dashboard/admin`, lands on `/admin-page`, and the route's guard function admits it although the session is not authenticated |
| Flows.LoginRequestIsIntercepted | src/app/services/auth.service.ts:54-55 | the login URL lies under the API URL and is a POST `…/login` route the simulated backend answers |
| Flows.UnknownCredentialsShowInvalid | src/app/interceptors/mock-api.interceptor.ts:52-55 | unknown credentials get a 401 from the simulated backend, the service fails with `Invalid credentials`, and the sign-in page shows exactly that after calling login with the typed credentials |

## Left out

- **RxJS and HTTP plumbing:** observables, `BehaviorSubject`, `tap`/`catchError`, the interceptor's `materialize`/`delay`/`dematerialize`, the profile service's timers. Each handler is a synchronous function of the reply it got.
- **Real decoding and the clock:** `JSON.parse`, `JSON.stringify`, `atob` with the base64url substitutions, and `Date.now()` are parameters. Consequences:
  - An unparseable `users` entry (where `JSON.parse` would throw) is not modelled; the simulated backend's list is held already parsed.
  - A stored `user` entry that is valid JSON but not an object (a number, say) is outside the model. The service would accept it as the user; here only objects parse.
  - `Number` of a string is modelled for plain decimal digits only. A string with surrounding whitespace, a sign, a fraction, an exponent, a hex prefix or `Infinity` is taken as `NaN`, so such an `exp` claim never validates here.
  - The `users || '[]'` default is that list being empty.
- **Registration-date filter:** the date parsing and wall clock are a `daysSince` parameter. An unparseable date (age `NaN`) is `None` and fails both windows, as `NaN <= n` does.
- **Case mapping:** `toLowerCase` and `toUpperCase` are ASCII-only.
- **Numbers:** JSON numbers are integers. The CV score is a real number. `NaN` scores and fractional page numbers are not modelled.
- **Logging:** `console.log` and `console.error` are left out.
- **Random ids:** `onAddNewUser` builds a random id and today's date. It is left out; `addUser` is modelled.
- **Unused paths:** `bulkExport` only logs. `signInWithGoogle`, `signInWithLinkedIn` and `togglePasswordVisibility` only log or flip a view flag.
- **toggleSelectAll:** it writes `selected` through the shared record objects of the displayed page. That aliasing between the page slice and the table is not expressible over immutable values. The `selected` flag is modelled as part of each record instead.
- **Seed table:** the ten seed users in the component are a parameter of `UserManagement.Initial` rather than spelled out.
- **Patch values:** a `Partial<User>` field explicitly set to `undefined` (which the spread copies) is not distinguished from an absent one.
- **Route guard and storage plumbing:** Angular's router, DI and templates are left out. So are `storage.service.ts` (a thin wrapper; storage is a map here) and `auth.interceptor.ts` (a pass-through).
- **Route table:** only the `/dashboard/admin` → `/admin-page` redirect is modelled, in `DashboardHost.Landing`.
- **Theme browser machinery:** `MutationObserver` registration and the guard that it exists, `matchMedia` (a boolean parameter) and the View Transitions API are left out.
- **Remaining pages:** the admin dashboard's chart arithmetic and the other pages and components are view glue.
- UserManagement.BulkDeleteIntended: the corrected page operation recomputes the filtered rows and pager once. The page as written (`UserManagement.BulkDelete`) recomputes after each deletion; `UserManagement.BulkDeleteMatchesIntended` shows the two end in the same state when ids are unique.
- UserTable.DeleteAll: only bounds the length. The behaviour of the per-id deletions is stated through `UserTable.BulkDeleteAgrees` and `UserTable.BulkDeleteDuplicateIds`.
- UserTable.SelectedIds: states only how many ids there are. Their values and order are used through `UserTable.BulkDeleteAgrees` and `UserTable.BulkDeleteDuplicateIds`.
- UserTable.Merge: states only the `status` and `id` fields individually. The other fields follow the same rule in the definition.
- SignIn.OnSubmit: for the delegated login, the storage changes the service makes are stated by `AuthService.Authenticate`, not repeated here. The `loading` flag is modelled only as the value after the submission settles.
- AuthService.HandleAuthResponse: the `user` key is written whenever a user object is present. A JSON object is always truthy, so the model takes presence for truthiness.

## Findings

| source | as written | input that shows it | evidently intended | confidence | as-written member | corrected member |
|---|---|---|---|---|---|---|
| src/app/pages/admin-page/components/user-management/user-management.component.ts:294-298 | `bulkDelete` collects the ids of the selected records and deletes each id with `deleteUser`. That removes the FIRST record carrying the id, selected or not. | two records with the same id, the first unselected and the second selected: the unselected one is deleted and the selected one stays | remove exactly the selected records (`UserTable.BulkDeleteAgrees` shows the code does this whenever ids are unique) | not executed | UserTable.BulkDeleteAsWritten, UserTable.BulkDeleteDuplicateIds, UserManagement.BulkDelete | UserTable.BulkDelete, UserTable.BulkDeleteAgrees, UserManagement.BulkDeleteIntended |
