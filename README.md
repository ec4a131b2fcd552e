# Eagle Security back-office: a verified model of the client-side logic

This project models, in Dafny, the logic of the Eagle Security staff site that
runs in the browser.

- **Session manager.** The `AuthManager` class of `js/auth.js` keeps a token,
  a user record and a last-activity stamp in the browser store. It starts and
  stops the periodic token check and the activity listeners, refreshes the
  token before the inactivity timeout, and wraps every authenticated request.
- **Employee roster.** The list logic of `js/employees.js`: the per-column
  comparator and the in-place sort, the search box, the filter form and its
  counter, page slicing and the five-button page window, the badge and
  initials shown in the table, the avatar pre-checks, and the ordered checks
  of the "new agent" form.
- **Submission triage board.** The list logic of `js/submissions.js`:
  - the split into active records and archives;
  - the rule that hides a record another user has taken charge of;
  - the comparator, the counters, the search box and the filter form;
  - the page bar with ellipses and the labels;
  - the buttons of the detail modal and its list of internal notes.
- **Date helpers.** The helpers of `js/datetime-utils.js`: UTC-string
  normalisation, the "time ago" buckets, `isThisWeek`, `daysFromNow`,
  `toInputValue` and `fromInputValue`, and the sentinel each returns for a
  missing or invalid date.

Each module of the project follows one part of the program:

- `wrappers.dfy` holds `Option` and `Result`.
- `text.dfy` holds the JavaScript string operations the pages rely on: `trim`,
  ASCII `toLowerCase`, `includes`/`indexOf`, `split`/`join`, `padStart`,
  `parseInt`, `Number` and string `<`.
- `table_view.dfy` holds what both tables share: the sort state and its
  header toggle, an in-place insertion sort on an `array` proved sorted and a
  permutation, `filter`, page arithmetic and the two page-bar builders.
- `datetime.dfy`, `auth.dfy`, `employees.dfy` and `submissions.dfy` follow the
  four source files.

The session manager is a class whose methods are each proved equal to a
function on the whole state (store, timers, listeners, effect log). The
properties are proved on those functions. The roster and the board are
classes holding the displayed rows in an `array` that is sorted in place.
Their methods keep an invariant: only loaded rows are shown, no record another
user holds is shown on the board, and the rows are in the order of the
current sort.

The clock (`Date.now()`), the network answers, date parsing and the host
locale are parameters.

Three behaviours of the code are modelled as written, although a reader might
expect otherwise:

- `logout` navigates to the login page on every call, so a second logout
  navigates again.
- `setAuth` starts a new interval and new listeners without stopping the ones
  already running.
- A last-activity entry that does not read as a number (NaN) never expires the
  session, because every comparison with NaN is false.

## Model

| member | source | states |
|---|---|---|
| Auth.InactivityTime | js/auth.js:91-97 | timeout + 1 without a truthy entry; otherwise NaN (`None`) exactly when the entry does not start with a number |
| Auth.MissingActivityExpires | js/auth.js:91-104 | without a last-activity entry the session is expired |
| Auth.StampReadsBack | js/auth.js:83-104 | a stamp written by `updateLastActivity` reads back as the elapsed time; expiry is strict, so exactly one hour is not expired |
| Auth.UnparsableActivityNeverExpires | js/auth.js:96-103 | an entry that is not a number never expires the session |
| Auth.StartTimer | js/auth.js:140-145 | a fresh interval id is held and added to the running intervals; the previously held one keeps running |
| Auth.StopTimer | js/auth.js:150-155 | clears the held interval and forgets it; without one it changes nothing |
| Auth.StopTimerIdempotent | js/auth.js:150-155 | stopping twice is stopping once |
| Auth.ListenersFor | js/auth.js:111-122 | one listener per activity event, all sharing one closure, in the order of the event list |
| Auth.StartTracking | js/auth.js:109-123 | registers five new listeners, disjoint from those already registered, and remembers only them |
| Auth.StopTracking | js/auth.js:128-135 | removes exactly the remembered listeners and forgets them; without any it changes nothing |
| Auth.SignedIn | js/auth.js:53-59 | definition of `setAuth` on the whole state; properties in `SignInAuthenticates` |
| Auth.LoggedOut | js/auth.js:64-78 | definition of `logout` on the whole state; properties in `LogoutClears` and `LogoutStopsEverything` |
| Auth.Checked | js/auth.js:160-180 | definition of `checkAndRefreshToken`; properties in `CheckWindow` and `CheckOutcome` |
| Auth.Refreshed | js/auth.js:185-214 | definition of `refreshToken`; properties in `RefreshSendsOneRequest` and `RefreshOutcome` |
| Auth.Fetched | js/auth.js:220-259 | definition of `fetch`; properties in `FetchPrechecks`, `FetchSendsOneRequest` and `FetchAnswer` |
| Auth.Guarded | js/auth.js:265-285 | definition of `requireAuth`; properties in `GuardsAgree` |
| Auth.Redirected | js/auth.js:287-298 | definition of `redirectIfAuthenticated`; properties in `GuardsAgree` |
| Auth.MergeHeaders | js/auth.js:234-241 | the caller's headers survive except `Authorization` (the bearer token) and `Content-Type` (JSON), which are put over them |
| Auth.ConstructedConsistent | js/auth.js:7-24 | a new manager runs the token check and the listeners exactly when the store is signed in |
| Auth.SignInAuthenticates | js/auth.js:53-59 | after `setAuth` the token and user are stored, inactivity is 0, the check and the listeners run, and a non-empty token and user make the session authenticated and unexpired |
| Auth.LogoutClears | js/auth.js:64-78 | all three keys removed, timer and listeners stopped, the toast exactly when asked and possible, a final navigation to `login.html`, no request; a second logout stops nothing more and adds the same effects again |
| Auth.LogoutSendsNothing | js/auth.js:64-78 | logout only appends effects and sends no request |
| Auth.LogoutStopsEverything | js/auth.js:64-155 | when the manager ran only what it holds, nothing runs after logout |
| Auth.CheckWindow | js/auth.js:160-180 | the check refreshes exactly when signed in and inactivity is in (50 min, 60 min]; it logs out exactly when signed in and expired; it skips when signed out |
| Auth.CheckOutcome | js/auth.js:160-180 | skip and idle change nothing; the forced logout empties the store and sends no request; the refresh sends exactly one request |
| Auth.RefreshSendsOneRequest | js/auth.js:185-197 | no token: nothing happens; otherwise exactly one request, to the refresh endpoint with the stored token |
| Auth.RefreshOutcome | js/auth.js:198-214 | ok with `success` and a token replaces the token and stamps activity; 401 signs out; any other answer or an exception leaves the store, timers and listeners as they were |
| Auth.FetchPrechecks | js/auth.js:220-231 | rejects "Non authentifié" exactly when there is no token, changing nothing; with an expired session it signs out and rejects "Session expirée" without sending |
| Auth.FetchSendsOneRequest | js/auth.js:233-241 | past the checks exactly one request is sent, to the URL with the merged headers |
| Auth.FetchAnswer | js/auth.js:242-259 | 401 signs out and rejects "Session expirée"; 2xx stamps activity and is returned; another status is returned with the store untouched; a transport failure is rethrown |
| Auth.GuardsAgree | js/auth.js:265-298 | `requireAuth` admits exactly a signed-in, unexpired session and then changes nothing; signed out: navigation to login after 1.5 s; expired: sign-out. `redirectIfAuthenticated` redirects exactly when `requireAuth` would admit |
| Auth.SignInTwiceLeaks | js/auth.js:53-59 | see Findings: after two sign-ins and a sign-out, the first interval and its listeners still run |
| Auth.SignedInOnce | js/auth.js:53-59 | the repaired sign-in leaves the same store as `setAuth` |
| Auth.SignInOnceNoLeak | js/auth.js:53-78 | the repaired sign-in keeps "only what is held runs", and a sign-out then leaves nothing running |
| Auth.AuthManager.constructor | js/auth.js:7-24 | the object starts in the state `Constructed` describes |
| Auth.AuthManager.IsAuthenticated | js/auth.js:29-33 | true exactly when both the token and the user entries are truthy; reading changes nothing |
| Auth.AuthManager.GetToken | js/auth.js:38-40 | the stored token entry, as it is |
| Auth.AuthManager.GetUser | js/auth.js:45-48 | the stored user exactly when that entry is truthy |
| Auth.AuthManager.GetInactivityTime | js/auth.js:91-97 | `InactivityTime` of the stored entry; properties in `MissingActivityExpires`, `StampReadsBack` and `UnparsableActivityNeverExpires` |
| Auth.AuthManager.IsTokenExpired | js/auth.js:102-104 | true without a last-activity entry; true only when the inactivity is a number |
| Auth.AuthManager.UpdateLastActivity | js/auth.js:83-86 | writes the clock; inactivity reads back as 0 |
| Auth.AuthManager.StartActivityTracking | js/auth.js:109-123 | the listener state becomes `StartTracking` of the old one; nothing else changes |
| Auth.AuthManager.StopActivityTracking | js/auth.js:128-135 | the listener state becomes `StopTracking` of the old one |
| Auth.AuthManager.StartTokenCheck | js/auth.js:140-145 | the timers become `StartTimer` of the old ones |
| Auth.AuthManager.StopTokenCheck | js/auth.js:150-155 | the timers become `StopTimer` of the old ones |
| Auth.AuthManager.SetAuth | js/auth.js:53-59 | the new state is `SignedIn` of the old; non-empty token and user leave the session authenticated and unexpired |
| Auth.AuthManager.Logout | js/auth.js:64-78 | the new state is `LoggedOut` of the old; signed out with no timer or listener held |
| Auth.AuthManager.RefreshToken | js/auth.js:185-214 | the new state is `Refreshed` of the old |
| Auth.AuthManager.CheckAndRefreshToken | js/auth.js:160-180 | the new state is `Checked` of the old |
| Auth.AuthManager.Fetch | js/auth.js:220-259 | the new state and the result are `Fetched` of the old state |
| Auth.AuthManager.RequireAuth | js/auth.js:265-285 | the new state and the answer are `Guarded` of the old state |
| Auth.AuthManager.RedirectIfAuthenticated | js/auth.js:287-298 | the new state and the answer are `Redirected` of the old state |
| DateTime.ReplaceFirstAt | js/datetime-utils.js:31 | `replace(' ', 'T')` changes only the first space |
| DateTime.NormalizeUtc | js/datetime-utils.js:25-35 | empty or missing input gives null; a string with `Z` or `+` passes unchanged; any other string gets its first space turned into `T` and `Z` appended |
| DateTime.NormalizeAtFirstSpace | js/datetime-utils.js:29-32 | a database timestamp without a zone marker becomes its ISO form read as UTC: first space to `T`, then `Z` |
| DateTime.Instant | js/datetime-utils.js:25-35 | definition: `new Date(fromUTC(s))`, `None` when missing or invalid; properties in `WithDate` |
| DateTime.NormalizeUtcIdempotent | js/datetime-utils.js:25-35 | normalising twice is normalising once |
| DateTime.WithDate | js/datetime-utils.js:52-56 | a missing or invalid date gives the helper's sentinel; otherwise the value computed from the instant |
| DateTime.AgoFor | js/datetime-utils.js:139-162 | definition of the bucket chosen for an elapsed time; properties in `AgoBuckets` |
| DateTime.Format | js/datetime-utils.js:52-56 | `N/A` exactly when the date is missing or unreadable; otherwise the locale rendering of the instant |
| DateTime.AgoBuckets | js/datetime-utils.js:139-162 | each unit is chosen exactly on its interval of the elapsed milliseconds (under a minute, including the future, is "À l'instant"), and the count is the floored quotient, at least 1 |
| DateTime.PluralRule | js/datetime-utils.js:148-161 | an `s` is added exactly when the count is above one, except for `mois` |
| DateTime.FormatRelative | js/datetime-utils.js:132-163 | `Jamais` when the date is missing or unreadable; otherwise the wording of the bucket of now minus the instant |
| DateTime.IsThisWeek | js/datetime-utils.js:210-220 | true exactly when the date is valid and 0 ≤ now − date < 7 days |
| DateTime.DaysFromNow | js/datetime-utils.js:250-258 | null exactly for a missing or invalid date; otherwise the floored number of days from now, negative in the past |
| DateTime.ToInputValue | js/datetime-utils.js:266-282 | the empty string when the date is missing or unreadable; otherwise the `YYYY-MM-DDTHH:MM` value of its wall-clock fields |
| DateTime.Pad2ReadsBack | js/datetime-utils.js:276-279 | a padded two-digit field is two characters and reads back as its value |
| DateTime.InputValue | js/datetime-utils.js:275-281 | definition of the `YYYY-MM-DDTHH:MM` value; properties in `InputValueLayout` |
| DateTime.InputValueLayout | js/datetime-utils.js:275-281 | `YYYY-MM-DDTHH:MM` is 16 characters with the separators in place, and each field reads back (month index + 1) |
| DateTime.FromInputValue | js/datetime-utils.js:289-295 | null exactly for an empty input; the ISO string exactly when the input reads as a date; the range error exactly when it does not |
| TableView.ClickHeader | js/submissions.js:398-403 | the clicked column becomes the sort column; the same column flips the direction, another one starts ascending |
| TableView.ClickHeaderTwice | js/employees.js:578-583 | two clicks on the sort column restore the sort |
| TableView.SortInPlace | js/employees.js:158-204 | sorts the array in place under a strict weak order: sorted, and the same multiset |
| TableView.InsertLast | js/submissions.js:116-155 | one insertion step extends the sorted prefix, keeping the multiset |
| TableView.FilterMembers | js/submissions.js:83-93 | `filter` keeps exactly the elements that pass |
| TableView.FilterMultiset | js/employees.js:334-393 | each passing element keeps its multiplicity; the others are dropped |
| TableView.FilterOnlyRemoves | js/employees.js:334-393 | filtering only removes |
| TableView.FilterPartition | js/submissions.js:83-84 | a test and its negation split a list into two parts holding each element once |
| TableView.FilterStage | js/employees.js:338-389 | two filters in a row are one filter by the conjunction |
| TableView.TotalPages | js/employees.js:441 | `Math.ceil(n / perPage)` |
| TableView.PageSlice | js/employees.js:214-216 | the page shows the rows from (p−1)·perPage on, at most perPage of them, in order |
| TableView.RowOnItsPage | js/employees.js:214-216 | every row appears on exactly the page its index gives |
| TableView.ShowingMatchesSlice | js/employees.js:441-447 | on an existing page, "showing from..to" counts exactly the rows of the slice |
| TableView.PageWindowFits | js/employees.js:457-463 | the window holds the current page, lies inside the pages, and is min(5, total) wide |
| TableView.PageButtons | js/employees.js:457-474 | consecutive page numbers of the window; none without pages; for an existing page, min(5, total) buttons including it |
| TableView.PageItems | js/submissions.js:314-337 | the loop builds, page by page, a button, an ellipsis, or nothing |
| TableView.ButtonIffShown | js/submissions.js:315-319 | page i has a button exactly when 1 ≤ i ≤ total and i is first, last or within one of the current page |
| TableView.AtMostTwoEllipses | js/submissions.js:328-336 | at most two ellipses, none before current − 2 |
| TableView.ItemsInOrder | js/submissions.js:314-337 | the bar lists its page buttons in increasing page order |
| TableView.EllipsisIff | js/submissions.js:328-336 | an ellipsis appears exactly when current − 2 or current + 2 is a page without a button |
| Text.TrimEmptyIffBlank | js/submissions.js:836 | a string trims to nothing exactly when it is all white space |
| Text.Trim | js/employees.js:308 | the result is a piece of the string with only white space cut off before and after it, and neither starts nor ends with white space; blank strings trim to nothing (`TrimEmptyIffBlank`) |
| Text.Lower | js/employees.js:164 | ASCII `toLowerCase`, character by character |
| Text.Upper | js/employees.js:225-230 | ASCII `toUpperCase`, character by character |
| Text.IndexOf | js/employees.js:316-319 | the first occurrence, or none at all |
| Text.Split | js/submissions.js:842 | at least one piece, none containing the separator; the cuts are fixed by `SplitCutsLeftmost` |
| Text.JoinSplit | js/submissions.js:842 | joining the pieces with the separator gives the text back |
| Text.SplitCutsLeftmost | js/submissions.js:842 | every cut is at the leftmost occurrence of the separator in what is left, which fixes the pieces even for a separator that overlaps itself |
| Text.Join | js/submissions.js:842 | definition of `join`; properties in `JoinSplit` |
| Text.PadStart | js/employees.js:232 | the padded string has the requested width and ends with the original |
| Text.ParseInt10 | js/auth.js:96 | definition of `parseInt(s, 10)`; properties in `ParseIntOfIntToString` and `PaddedReadsBack` |
| Text.ParseIntAuto | js/employees.js:1457 | definition of `parseInt` without a radix; properties in `ParseIntAutoOfDigits` |
| Text.NumberValue | js/employees.js:339 | definition of `Number(s)` for decimal text; properties in `NumberOfIntToString` and `RankFilterSelectsId` |
| Text.ParseIntOfIntToString | js/auth.js:83-97 | `parseInt(String(n), 10)` is n |
| Text.ParseIntAutoOfDigits | js/employees.js:1457 | for digits, `parseInt` without a radix is the decimal reading |
| Text.PaddedReadsBack | js/employees.js:232 | zero padding does not change the value read |
| Text.StrLessTransitive | js/employees.js:198-202 | string `<` is transitive |
| Text.StrLessTotal | js/employees.js:198-202 | two different strings are ordered one way or the other |
| Text.StrLess | js/employees.js:198-202 | definition of string `<`; properties in `StrLessIrreflexive`, `StrLessTransitive` and `StrLessTotal` |
| Employees.SameOrderAsWritten | js/employees.js:171-180 | the repaired comparator puts the same pairs first as the written one |
| Employees.Compare | js/employees.js:158-204 | the repaired comparator; properties in `CompareAntisymmetric`, `RankOrder` and `LessIsStrictWeak` |
| Employees.CompareAsWritten | js/employees.js:158-204 | the comparator as written; properties in `SameOrderAsWritten` and `RankTieNotAntisymmetric` |
| Employees.RankTieNotAntisymmetric | js/employees.js:179 | see Findings: two equal names at one rank level each compare as greater |
| Employees.CompareAntisymmetric | js/employees.js:158-204 | swapping the rows negates the answer, which is in −1..1 |
| Employees.DescMirrorsAsc | js/employees.js:198-202 | off the rank column, descending is ascending on the swapped pair |
| Employees.RankOrder | js/employees.js:171-180 | different levels are ordered by level in the chosen direction; equal levels by lower-cased name, ascending in both directions |
| Employees.NotBeforeTransitive | js/employees.js:158-204 | "not before" is transitive across three rows |
| Employees.LessIsStrictWeak | js/employees.js:158-204 | every column's comparator is a strict weak order |
| Employees.BadgeReadsBack | js/employees.js:232 | a valid badge number prints as four characters and reads back as the number |
| Employees.Initials | js/employees.js:225-230 | at most two characters |
| Employees.FirstCharsOfNonEmpty | js/employees.js:225-228 | empty words from repeated spaces contribute nothing |
| Employees.InitialsOfWords | js/employees.js:225-230 | the initials are the upper-cased first letters of the first two non-empty words |
| Employees.EmptySearchKeepsAll | js/employees.js:310-311 | an empty box shows every row |
| Employees.SearchFindsBadgeNumber | js/employees.js:314-318 | typing an employee's number finds them |
| Employees.StageStep | js/employees.js:338-389 | running or skipping one filter block moves from the first k filters to the first k + 1 |
| Employees.RunStage | js/employees.js:338-389 | one `if (field) result = result.filter(...)` block: the rows passing the first k + 1 filters |
| Employees.Narrow | js/employees.js:334-393 | the filter blocks in turn give the rows passing the whole form, in their order |
| Employees.VisibleMembers | js/employees.js:307-393 | a row is shown exactly when it is loaded, matches a non-blank term, and passes every set filter |
| Employees.Visible | js/employees.js:307-393 | definition of the rows shown for a search term and a filter form; properties in `VisibleMembers` and `Narrow` |
| Employees.VisibleOnlyRemoves | js/employees.js:334-393 | search and filters only remove rows |
| Employees.NoFiltersKeepSearch | js/employees.js:407-431 | with no filter, the table shows what the search leaves |
| Employees.LoginWindows | js/employees.js:372-384 | each login window as a bound on the elapsed milliseconds |
| Employees.NeverKeepsEveryone | js/employees.js:365-386 | 'never' keeps every row, with or without a login |
| Employees.FilterCount | js/employees.js:395-404 | at most 4; 0 exactly when the form is empty |
| Employees.RankFilterSelectsId | js/employees.js:339 | loose equality with the select's text keeps exactly the rows of that grade id |
| Employees.AvatarPrecheck | js/employees.js:1189-1201 | accepted exactly for an `image/` type within 5 MB; the type is checked first |
| Employees.EmailMatchesPattern | js/employees.js:1475-1476 | the computed check accepts exactly the strings of `^[^\s@]+@[^\s@]+\.[^\s@]+$` |
| Employees.EmailShape | js/employees.js:1475 | an accepted address has no white space and exactly one `@`, neither first nor last |
| Employees.EmailOfParts | js/employees.js:1475 | every `local@domain.tld` of plain non-empty runs is accepted |
| Employees.CheckFields | js/employees.js:1443-1494 | an accepted agent has a badge in 1..9999, a name, a matching email and a password of at least 8 characters |
| Employees.ValidateAgent | js/employees.js:1443-1494 | definition of the ordered form checks; properties in `CheckFields` and `CheckFieldsFirstFailure` |
| Employees.CheckFieldsFirstFailure | js/employees.js:1452-1494 | refused exactly when some check fails, and then with the warning of the first failing check |
| Employees.CheckFieldsLastFour | js/employees.js:1474-1494 | the same, for fields past the first four checks |
| Employees.CheckFieldsLastTwo | js/employees.js:1486-1494 | the same, for fields past the first six checks |
| Employees.Roster.constructor | js/employees.js:17-27 | nothing loaded, page 1, rank ascending, no filter |
| Employees.Roster.SortFiltered | js/employees.js:158-204 | the displayed rows are sorted and keep their multiset |
| Employees.Roster.Load | js/employees.js:106-116 | every row shown, sorted; the page, sort and form kept |
| Employees.Roster.ApplyFilters | js/employees.js:334-393 | the displayed rows become the filtered ones, in order |
| Employees.Roster.Search | js/employees.js:307-328 | shows the rows of `Visible` for the term and the form, sorted, from page 1 |
| Employees.Roster.ApplyFilterForm | js/employees.js:626-641 | stores the form, then shows `Visible` for the search box and the form, from page 1 |
| Employees.Roster.ShowAll | js/employees.js:420-429 | every row, sorted, from page 1 |
| Employees.Roster.ResetFilters | js/employees.js:407-431 | clears the form and shows what the search box alone leaves, from page 1 |
| Employees.Roster.HeaderClick | js/employees.js:574-587 | the sort moves as `ClickHeader` says and the same rows are sorted again |
| Employees.Roster.PrevPage | js/employees.js:591-596 | one page back only above page 1; the page stays within the pages |
| Employees.Roster.NextPage | js/employees.js:598-604 | one page on only below the last page; the page stays within the pages |
| Employees.Roster.GoToPage | js/employees.js:469-472 | the clicked page becomes current |
| Employees.Roster.PageRows | js/employees.js:214-216 | at most 10 rows, those from (page−1)·10 on |
| Employees.Roster.Pagination | js/employees.js:440-475 | showing-from/to, prev disabled exactly on page 1, next exactly on the last page or without pages, and the buttons are exactly the pages of `PageWindow`: up to two before the current page, shifted back near the end, min(5, total) of them |
| Submissions.LoadPartitions | js/submissions.js:83-84 | active and archived are disjoint and together hold every record once |
| Submissions.VisibleRowsMembers | js/submissions.js:83-93 | after a load a record is shown exactly when it is active and no other user holds it |
| Submissions.StatsBounded | js/submissions.js:280-291 | pending + processed + archived never exceeds the records loaded |
| Submissions.StatsOf | js/submissions.js:280-291 | definition of the three counters (pending, processed, archived); properties in `StatsBounded` |
| Submissions.CompareAntisymmetric | js/submissions.js:116-155 | swapping the records negates the answer, which is in −1..1 |
| Submissions.Compare | js/submissions.js:116-155 | definition of the comparator; properties in `CompareAntisymmetric`, `NewestFirst`, `UnhandledLast` and `LessIsStrictWeak` |
| Submissions.NotBeforeTransitive | js/submissions.js:116-155 | "not before" is transitive |
| Submissions.LessIsStrictWeak | js/submissions.js:116-155 | every column's comparator is a strict weak order |
| Submissions.NewestFirst | js/submissions.js:121-153 | under the initial sort a later submission comes first |
| Submissions.UnhandledLast | js/submissions.js:141-144 | ascending by handler, an unassigned record ('zzz') comes after a handler name below 'zzz' |
| Submissions.FilteredMembers | js/submissions.js:525-564 | kept exactly when visible and every set filter passes: type, status, date ≥ after, date ≤ before, handled yes/no/me |
| Submissions.Filtered | js/submissions.js:525-564 | definition of the records passing the filter form; properties in `FilteredMembers` |
| Submissions.NoFiltersShowsVisible | js/submissions.js:569-589 | an empty form keeps exactly the visible records |
| Submissions.UnreadableDateIgnored | js/submissions.js:543-554 | an unreadable filter date (NaN) filters nothing out |
| Submissions.SearchedMembers | js/submissions.js:502-513 | a non-empty term keeps exactly the visible records whose lower-cased name or email, or raw phone, contains it, whatever the form holds |
| Submissions.Searched | js/submissions.js:490-519 | definition of the records the search box lists; properties in `SearchedMembers` |
| Submissions.SearchedNeverHeldByOther | js/submissions.js:490-519 | no search or filter ever lists a record another user holds |
| Submissions.TypeLabel | js/submissions.js:362-369 | the value passes through exactly when it is not one of the three known types |
| Submissions.StatusLabel | js/submissions.js:371-378 | the value passes through exactly when it is not one of the three known statuses |
| Submissions.LabelsDistinct | js/submissions.js:362-378 | known values get different labels |
| Submissions.TakeChargeLabelSticks | js/submissions.js:714-723 | see Findings: after a record held by another user, an unassigned record gets an enabled button reading "Déjà pris en charge" |
| Submissions.TakeChargeAsWritten | js/submissions.js:714-723 | the button as the modal leaves it, from its previous state; properties in `TakeChargeLabelSticks` and `TakeChargeIsFirstOpening` |
| Submissions.TakeCharge | js/submissions.js:714-723 | hidden exactly on the user's own record; shown and disabled with "Déjà pris en charge" when another user holds it; shown and enabled with its own text when unassigned |
| Submissions.TakeChargeIsFirstOpening | js/submissions.js:714-723 | the repaired button is what the source shows on a first opening |
| Submissions.ArchiveDelete | js/submissions.js:726-734 | exactly one of archive and delete is shown |
| Submissions.ArchiveDeleteByList | js/submissions.js:726-734 | records from the archives offer delete; records from the active list offer archive |
| Submissions.NoteItemsShape | js/submissions.js:833-842 | missing or blank notes give no item; every item is non-blank and contains no separator |
| Submissions.NoteItems | js/submissions.js:833-842 | definition of the listed notes; properties in `NoteItemsShape` and `NoteItemsRejoin` |
| Submissions.NoteItemsRejoin | js/submissions.js:842 | when no piece is blank, the items joined with the separator give the stored notes back |
| Submissions.Board.constructor | js/submissions.js:16-29 | nothing loaded, page 1, date descending, no filter |
| Submissions.Board.SortFiltered | js/submissions.js:116-155 | the displayed records are sorted and keep their multiset |
| Submissions.Board.Load | js/submissions.js:83-96 | active and archived replaced; shows the visible active records, sorted; the page and form kept |
| Submissions.Board.ApplyFilters | js/submissions.js:525-567 | shows the records passing the form, sorted |
| Submissions.Board.Search | js/submissions.js:490-519 | shows `Searched` for the term, sorted, from page 1 |
| Submissions.Board.ApplyFilterForm | js/submissions.js:462-471 | stores the form and shows the records passing it, ignoring the search box, from page 1 |
| Submissions.Board.ResetFilters | js/submissions.js:569-592 | clears the form and shows every visible active record, sorted, from page 1 |
| Submissions.Board.HeaderClick | js/submissions.js:394-406 | the sort moves as `ClickHeader` says and the same records are sorted again |
| Submissions.Board.PrevPage | js/submissions.js:410-415 | one page back only above page 1 |
| Submissions.Board.NextPage | js/submissions.js:417-423 | one page on only below the last page |
| Submissions.Board.GoToPage | js/submissions.js:323-326 | the clicked page becomes current |
| Submissions.Board.PageRows | js/submissions.js:165-167 | at most 15 records, those from (page−1)·15 on |
| Submissions.Board.Pagination | js/submissions.js:297-338 | showing-from/to; prev and next disabled as written; the bar is the page-by-page loop's output: page i has a button exactly as `ShowsButton` says, buttons in increasing order, an ellipsis exactly when current ± 2 is a page without a button, at most two of them |

## Left out

- Real HTTP, JSON parsing and `localStorage` are left out. Network answers are parameters (`RefreshReply`, `FetchReply`), and the user record is its JSON text.
- Timers, the event loop and concurrency are left out. Intervals and listeners are ids in sets. Overlapping asynchronous checks are not modelled, and each operation reads one `now` across its awaits.
- Dates are epoch milliseconds. `new Date(string)`, `Intl` and `toLocaleString` are parameters of the date helpers (`parse`, `render`, `local`, `iso`).
- Dates from the server are taken as `null` or readable. An `undefined` or unreadable `submitted_at`, `hired_date` or `last_login` (NaN) is not modelled.
- `toLowerCase`/`toUpperCase` are ASCII-only. `trim` uses a fixed set of white-space characters. Lengths count characters rather than UTF-16 code units, and string `<` (`StrLess`) compares code points where JavaScript compares UTF-16 code units; the two orders differ between a character above U+FFFF and one in U+E000 to U+FFFF.
- `Number()` is modelled for optional sign and decimal digits with surrounding white space. Other forms (hex, exponent, `Infinity`) are not modelled.
- TableView.SortInPlace: states sorted and a permutation, but not stability, because the order a browser's `sort` gives to equal keys is not something the pages rely on.
- The label maps of `getTypeLabel`/`getStatusLabel` ignore keys inherited from `Object.prototype`, such as `constructor`.
- Submissions.TakeCharge: the button's text in the page markup is not part of this model, so it is a parameter (`defaultLabel`).
- The archive button's label and enabled flag, which the modal resets, are not modelled; only which of archive and delete is shown.
- Other DOM rendering and UI steps are not modelled: HTML templates, `escapeHtml`, `displaySpecificData`, the CV download, the export blobs, the canvas resize of avatars, the archive/delete/note/take-charge requests, and toasts other than the logout toast.
- Submissions.StatsBounded: the counters are stated only as a bound over the loaded records. Their exact values are the filter lengths that `StatsOf` defines.

## Findings

| source | as written | input that shows it | evidently intended | confidence | as-written member | corrected member |
|---|---|---|---|---|---|---|
| js/auth.js:53-59 | `setAuth` starts a new interval and new listeners without stopping those already running | construct the manager over a signed-in store (or sign in twice), then log out | one running check and one set of listeners at a time | not executed | Auth.SignInTwiceLeaks | Auth.SignedInOnce |
| js/employees.js:179 | between equal rank levels the comparator returns `aName < bName ? -1 : 1`, so equal names give 1 both ways | two employees with the same `hierarchy` and the same lower-cased name | 0 for equal names, keeping the comparator consistent | not executed | Employees.RankTieNotAntisymmetric | Employees.CompareAntisymmetric |
| js/submissions.js:714-723 | the branch for a record held by another user sets the text "Déjà pris en charge" and disables the button; the unassigned branch re-enables and shows the button without restoring its text | open a record another user holds, then an unassigned one | an unassigned record shows the button enabled with its own text | not executed | Submissions.TakeChargeLabelSticks | Submissions.TakeCharge |
