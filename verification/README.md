# Teacher dashboard front end — a Dafny model of its decision logic

The program is the React front end of a teacher platform: a session context with
a reducer and token storage, an HTTP client with two interceptors, a route guard,
five authentication pages with field validators, and a dashboard made of
widgets (quick search, sidebar, calendar, timeline, alerts, notifications,
quick reports, charts) plus two dashboard pages that fetch their data.

This project models the decisions those parts make as pure Dafny functions over
immutable datatypes and proves what they promise:

- **Session** and **SessionOps**: the six-action reducer, the bootstrap from
  storage, and the login, register, verify, resend, reset, logout and
  clear-error operations. The store is a `map<string, string>`. Every remote call is a
  `Remote<T>` parameter (resolved value, or rejection with status and message).
  `JSON.stringify`/`JSON.parse` are a `Codec` parameter.
- **ApiClient**: the bearer-token request interceptor and the 401 response interceptor.
- **ProtectedRoute**: the four-way guard.
- **Text** and **Validation**: the JavaScript whitespace set, `trim`,
  ASCII lower-casing and substring search. The email, six-digit code, password,
  confirmation, name and phone rules are written as exact predicates. The
  email and password regular expressions get equivalence lemmas against
  plain-language characterisations.
- **PageFlow**, **LoginPage**, **RegisterPage**, **VerifyEmailPage**,
  **ForgotPasswordPage**, **ResetPasswordPage**: validation maps, submit gating,
  request shaping, navigation state and the submitting/success flags.
- **QuickSearch**, **Sidebar**, **Calendar**, **Timeline**, **Inbox**, **Alerts**,
  **NotificationCard**, **QuickReports**, **AdvancedCharts**, **Dashboard**: the
  widgets' list logic, lookups, counts, rounding and view precedence.
- **Common**, **Sorting**, **Grouping**: the order-preserving `filter`, the
  stable `sort` by an integer key, and the `reduce`-into-a-record grouping read
  back with `Object.entries`. Each comes with the properties the widgets rely on.

## Model

| member | source | states |
|---|---|---|
| Session.InitialIsConsistent | src/contexts/AuthContext.tsx:33-38 | the initial state and the signed-out state satisfy "authenticated exactly when a teacher is held" |
| Session.Reduce | src/contexts/AuthContext.tsx:41-86 | every well-typed action keeps the session invariant; AUTH_START only raises loading and clears the error; AUTH_SUCCESS authenticates with the payload; AUTH_FAILURE signs out with the message; LOGOUT lands in the signed-out state; CLEAR_ERROR and SET_LOADING touch only their own field |
| Session.ClearErrorIdempotent | src/contexts/AuthContext.tsx:73-77 | clearing the error twice is clearing it once, and clearing an absent error changes nothing |
| Session.RunKeepsConsistent | src/contexts/AuthContext.tsx:41-86 | any sequence of well-typed actions from a consistent state ends in a consistent state |
| Session.NullSuccessBreaksConsistency | src/contexts/AuthContext.tsx:49-56 | an AUTH_SUCCESS carrying a null teacher leaves an authenticated session with no teacher |
| ApiClient.Forget | src/services/api/authApi.ts:88-92 | removing the session removes exactly the token and teacher keys and keeps every other key |
| ApiClient.AttachToken | src/services/api/apiClient.ts:13-24 | with a stored token the request carries `Authorization: Bearer <token>`; without one the headers are returned unchanged; no other header is added or altered |
| ApiClient.OnResponse | src/services/api/apiClient.ts:27-41 | every outcome is passed on as it came; a 401 rejection clears both session keys and redirects to /login; anything else leaves store and location alone |
| ApiClient.UnauthorizedLeavesNoSession | src/services/api/apiClient.ts:33-37 | after a 401 neither session key is present in storage |
| SessionOps.MessageOr | src/contexts/AuthContext.tsx:141 | the server's message when it is a non-empty string, otherwise the operation's fallback |
| SessionOps.BootstrapAsWritten | src/contexts/AuthContext.tsx:100-121 | the bootstrap as written: signed out with the store untouched unless both keys are set; a parsed record signs in; a parse failure clears both keys and reports the fixed error; a stored `null` authenticates with no teacher |
| SessionOps.BootstrapNullProfileIsInconsistent | src/contexts/AuthContext.tsx:104-113 | with a real JSON codec, a stored teacher of `null` and a token yield an inconsistent session |
| SessionOps.Bootstrap | src/contexts/AuthContext.tsx:100-121 | the corrected bootstrap always yields a consistent, not-loading session; a non-record parse result clears both keys and reports the fixed error |
| SessionOps.Authenticate | src/contexts/AuthContext.tsx:127-145 | success stores the token and the serialised teacher and signs in; failure signs out with the server message or the fallback, re-raises, and applies the 401 interceptor to the store |
| SessionOps.Login | src/contexts/AuthContext.tsx:127-145 | a resolved login authenticates with the returned teacher; a rejected one leaves the session unauthenticated with the login fallback message and re-raises |
| SessionOps.Verify2FA | src/contexts/AuthContext.tsx:162-180 | as login, with the verification fallback message |
| SessionOps.Register | src/contexts/AuthContext.tsx:148-159 | registering never authenticates a session that was not already authenticated; success returns the teacher id, clears loading and leaves store and teacher alone; failure signs out with the message and re-raises |
| SessionOps.Report | src/contexts/AuthContext.tsx:183-213 | the shared shape of resend, request-reset and reset: success changes nothing; failure dispatches AUTH_FAILURE, so it drops even an authenticated session, and re-raises |
| SessionOps.ResendVerificationCode | src/contexts/AuthContext.tsx:183-191 | success leaves the session as it was; failure reports the message or the resend fallback and re-raises |
| SessionOps.RequestPasswordReset | src/contexts/AuthContext.tsx:194-202 | success leaves the session as it was; failure reports the message or the request-reset fallback and re-raises |
| SessionOps.ResetPassword | src/contexts/AuthContext.tsx:205-213 | success leaves the session as it was; failure reports the message or the reset fallback and re-raises |
| SessionOps.Logout | src/contexts/AuthContext.tsx:216-224 | whatever the server answers, the session ends signed out, both keys are gone and every other key is kept |
| SessionOps.ClearErrorOp | src/contexts/AuthContext.tsx:227-229 | the error is cleared and nothing else changes |
| SessionOps.LoginThenReloadRestoresTeacher | src/contexts/AuthContext.tsx:100-145 | after a successful login, a reload's bootstrap signs the same teacher back in |
| SessionOps.LoginThenLogoutIsSignedOut | src/contexts/AuthContext.tsx:127-145 | logging out after any login outcome leaves the same session and store as a first visit |
| SessionOps.UnauthorizedEndsSession | src/services/api/apiClient.ts:33-37 | a 401 during login or resend redirects to /login and the next bootstrap finds no session |
| ProtectedRoute.RequireAuth | src/components/auth/ProtectedRoute.tsx:13 | an omitted `requireAuth` prop means true |
| ProtectedRoute.Guard | src/components/auth/ProtectedRoute.tsx:19-37 | the spinner while loading; a protected route without a session goes to /login; a public route with a session goes to /dashboard; the children render exactly when the route's requirement matches the session |
| ProtectedRoute.GuardRegions | src/components/auth/ProtectedRoute.tsx:19-37 | each of the four outcomes happens exactly in its own region of the inputs, so they are exhaustive and exclusive |
| ProtectedRoute.OmittedPropRequiresAuth | src/components/auth/ProtectedRoute.tsx:13 | a route without the prop behaves as one with `requireAuth` true |
| Text.Trim | src/pages/auth/RegisterPage.tsx:42-46 | `trim` removes only JavaScript whitespace, is empty exactly for blank strings, and leaves no whitespace at either end |
| Text.TrimIsPadded | src/pages/auth/RegisterPage.tsx:42-46 | the trimmed string occurs in the original with only whitespace before and after it |
| Text.TrimIdempotent | src/pages/auth/RegisterPage.tsx:42-46 | trimming twice is trimming once |
| Text.ToLower | src/components/dashboard/QuickSearch.tsx:128-131 | lower-casing keeps the length and maps each character on its own, A–Z to a–z |
| Text.ToLowerIdempotent | src/components/dashboard/QuickSearch.tsx:128-131 | lower-casing twice is lower-casing once |
| Text.Contains | src/components/dashboard/QuickSearch.tsx:128-131 | `includes`: the empty query is found in every string; a found query is no longer than the text and each of its characters occurs in it |
| Text.ContainsSelfParts | src/components/dashboard/QuickSearch.tsx:128-131 | every prefix and suffix of a string is found in it by the substring search |
| Validation.Collect | src/pages/auth/LoginPage.tsx:48-63 | the error map holds exactly the failed rules, one problem per field, and the form is valid exactly when the map is empty |
| Validation.EmailMatchesIffShape | src/pages/auth/LoginPage.tsx:53 | the email pattern accepts exactly the strings with no whitespace, exactly one `@` with something before it, and a dot strictly inside the domain |
| Validation.EmailRule | src/pages/auth/LoginPage.tsx:51-55 | blank is "required", a non-blank string without the email shape is "bad format", and the rule passes exactly for the email shape |
| Validation.CodeRule | src/pages/auth/VerifyEmailPage.tsx:44-47 | blank is "required", other strings that are not exactly six ASCII digits are "bad format", and the rule passes exactly for six digits |
| Validation.StrengthMatchesIffClasses | src/pages/auth/RegisterPage.tsx:58 | a strength match implies a lowercase letter, an uppercase letter, a digit and a special character; on a single line the converse holds too |
| Validation.LineBreakDefeatsLookahead | src/pages/auth/RegisterPage.tsx:58 | a password with all four classes on two lines fails the pattern, since `.` stops at a line break |
| Validation.PasswordRule | src/pages/auth/RegisterPage.tsx:54-60 | empty is "required", under eight characters is "too short", otherwise a failed strength match is "weak"; it passes exactly at eight or more with a match |
| Validation.PasswordRuleOnOneLine | src/pages/auth/RegisterPage.tsx:54-60 | on a single line, the password passes exactly when it has eight characters and all four classes |
| Validation.ConfirmRule | src/pages/auth/RegisterPage.tsx:62-66 | empty is "required", a different string is "mismatch", and it passes exactly for a non-empty copy of the password |
| Validation.NameRule | src/pages/auth/RegisterPage.tsx:42-46 | blank is "required", a trimmed name under two characters is "too short", and it passes exactly from two trimmed characters |
| Validation.PhoneRule | src/pages/auth/RegisterPage.tsx:68-70 | the only problem is "bad format", and the rule passes exactly when every character is a digit, whitespace, `-`, `(` or `)` (so empty passes) |
| Validation.PresenceRule | src/pages/auth/LoginPage.tsx:57-59 | the only problem is "required", and the rule passes exactly for a non-empty string |
| PageFlow.OnEdit | src/pages/auth/LoginPage.tsx:41-46 | one run of the edit effect clears a truthy session error, keeps any other error value, empties the validation errors and changes nothing else; when it runs is stated by `EffectPass` |
| PageFlow.MountedIsGuard | src/components/auth/ProtectedRoute.tsx:19-37 | as written, an authentication page (each wrapped in the guard with `requireAuth={false}`, src/App.tsx:31-70) is mounted exactly when the guard renders its children: neither loading nor signed in |
| PageFlow.EffectPass | src/pages/auth/LoginPage.tsx:41-46 | the session once the page's effects have run: an edit on a mounted page leaves no truthy error; a dispatch gives the reducer's state, except that a page that mounts (comes back after the guard's spinner) runs the effect and drops a truthy error, and a page that stays mounted drops it too unless `clearError` is stable (as written it is recreated on every provider render, src/contexts/AuthContext.tsx:227-229); only the error ever differs from the reducer's state |
| PageFlow.NoErrorSurvivesAsWritten | src/pages/auth/LoginPage.tsx:41-46 | as written, whenever the page is on screen after at least one edit or dispatch, it shows no session error |
| PageFlow.FailedReportErrorIsWiped | src/pages/auth/ForgotPasswordPage.tsx:17-22 | a rejected reset, request-reset or resend request is exactly AUTH_FAILURE with its message (no AUTH_START, so the page stays mounted), and as written the following effect pass clears the message |
| PageFlow.FailedReportErrorShows | src/pages/auth/ForgotPasswordPage.tsx:17-22 | repaired with a stable `clearError`: that message is still shown after its dispatch, and the next edit clears it |
| PageFlow.FailedLoginErrorIsWiped | src/pages/auth/LoginPage.tsx:65-82 | a rejected login dispatches AUTH_START then AUTH_FAILURE with its message; without the mount repair AUTH_START hides the page, and the remounted page ends with no error, whether or not `clearError` is stable |
| PageFlow.ErrorStaysUntilEdit | src/pages/auth/LoginPage.tsx:41-46 | with both repairs, from a mounted page, dispatches that sign no one in keep the page mounted and leave its session exactly the reducer's run, so an error stays until an edit |
| PageFlow.FailedLoginErrorShows | src/pages/auth/LoginPage.tsx:65-82 | with both repairs, a rejected login leaves the page mounted, its session exactly the one the login produced, showing the login's message |
| LoginPage.Validate | src/pages/auth/LoginPage.tsx:48-63 | only email and password can carry errors; the email error is "required" for blank and "bad format" for a wrong shape; the password is only checked for presence; the form is valid exactly for a well-shaped email and a non-empty password |
| LoginPage.Submit | src/pages/auth/LoginPage.tsx:65-82 | an invalid form never reaches `login`; a valid one sends the form, navigates to /dashboard exactly when login resolves, and always ends not submitting |
| LoginPage.Prefill | src/pages/auth/LoginPage.tsx:30-38 | a truthy navigation message becomes the success message and a truthy email fills only the email field; without a message nothing changes |
| RegisterPage.Validate | src/pages/auth/RegisterPage.tsx:39-74 | each field carries exactly its own rule's verdict, and the specialization never carries an error |
| RegisterPage.ValidIffAcceptable | src/pages/auth/RegisterPage.tsx:39-74 | the error map is empty exactly when every rule passes |
| RegisterPage.ConfirmIndependentOfStrength | src/pages/auth/RegisterPage.tsx:62-66 | a confirmation equal to a non-empty password passes even when the password itself is weak |
| RegisterPage.ToRequest | src/pages/auth/RegisterPage.tsx:79-87 | the request carries every field except the confirmation, unchanged |
| RegisterPage.Submit | src/pages/auth/RegisterPage.tsx:76-100 | an invalid form never reaches `register`; success navigates to /login with the success message and the email; it never signs the user in; it always ends not submitting |
| RegisterPage.RegisterThenLoginPrefills | src/pages/auth/LoginPage.tsx:30-38 | after a successful registration the login page shows the registration message with the email filled in |
| VerifyEmailPage.Redirects | src/pages/auth/VerifyEmailPage.tsx:23-31 | a signed-in visitor is sent to /dashboard, and a visit without both email and teacher id is sent to /register, the later navigation winning |
| VerifyEmailPage.Validate | src/pages/auth/VerifyEmailPage.tsx:41-52 | only the code can carry an error, and the form is valid exactly for six digits |
| VerifyEmailPage.Submit | src/pages/auth/VerifyEmailPage.tsx:54-74 | an invalid code never reaches `verify2FA`; a valid one navigates to /dashboard exactly when verification resolves and always ends not submitting |
| VerifyEmailPage.Resend | src/pages/auth/VerifyEmailPage.tsx:76-90 | without an email nothing happens; otherwise the code is requested again, the page reports success or failure accordingly, and the resending flag ends false |
| ForgotPasswordPage.Validate | src/pages/auth/ForgotPasswordPage.tsx:24-35 | only the email can carry an error, and the form is valid exactly for a well-shaped email |
| ForgotPasswordPage.Submit | src/pages/auth/ForgotPasswordPage.tsx:37-54 | an invalid email never reaches the request; success is flagged exactly when it resolves; the form always ends not submitting |
| ResetPasswordPage.Validate | src/pages/auth/ResetPasswordPage.tsx:31-62 | email, code, new password and confirmation each carry exactly their rule's verdict, and no other field carries an error |
| ResetPasswordPage.ValidIffAcceptable | src/pages/auth/ResetPasswordPage.tsx:31-62 | the error map is empty exactly when every rule passes |
| ResetPasswordPage.Submit | src/pages/auth/ResetPasswordPage.tsx:64-85 | an invalid form never reaches `resetPassword`; a valid one sends email, code and new password without the confirmation; success is flagged exactly when it resolves; the form always ends not submitting |
| Common.Filter | src/components/dashboard/QuickReports.tsx:38 | `filter` keeps exactly the elements satisfying the predicate, with their multiplicities, as an in-order subsequence |
| Common.FilterAppend | src/components/dashboard/Sidebar.tsx:98-104 | filtering a concatenation is concatenating the filtered parts |
| Common.WithKeyMembers | src/components/dashboard/Timeline.tsx:120-134 | the run of key `k` holds exactly the elements whose key is `k` |
| Common.WithKeyIsSubsequence | src/components/dashboard/Timeline.tsx:120-134 | the run of a key keeps its elements in their original order |
| Common.SumWithin | src/components/dashboard/AdvancedCharts.tsx:63 | a column sum lies between the row count times the lowest and times the highest value |
| Sorting.SortBy | src/components/dashboard/Timeline.tsx:114-118 | the sorted copy is nondecreasing by key, is a permutation of the input, and keeps elements with equal keys in input order |
| Sorting.SortSortedIsIdentity | src/components/dashboard/Timeline.tsx:114-118 | sorting a list that is already in order leaves it unchanged |
| Sorting.SubsequenceOfSorted | src/components/dashboard/Timeline.tsx:120-134 | an in-order subsequence of a sorted list, such as one group of it, is sorted |
| Grouping.GroupBy | src/components/dashboard/Timeline.tsx:120-134 | one group per distinct key, in order of each key's first appearance, each holding exactly the elements of its key in input order |
| Grouping.GroupByPartitions | src/components/dashboard/Timeline.tsx:120-134 | every element sits in the group of its own key, no group is empty, and a group holds only elements of its key |
| Grouping.ExactlyOneGroup | src/components/dashboard/Alerts.tsx:74-98 | an element belongs to exactly one group, the one at its key's position, and each group is an in-order subsequence of the input |
| Grouping.GroupByEmpty | src/components/dashboard/Alerts.tsx:132 | there are no groups exactly when there is nothing to group |
| QuickSearch.Search | src/components/dashboard/QuickSearch.tsx:115-126 | the query takes the typed value; one under two characters empties and closes the dropdown at once; a longer one raises the loading flag and queues its search, leaving dropdown, results and highlight as they were |
| QuickSearch.Complete | src/components/dashboard/QuickSearch.tsx:127-137 | the oldest queued search lists exactly the in-order items whose lower-cased title or subtitle contains the lower-cased query it captured, each as often as in the data, whatever the query is now; it opens the dropdown and clears the highlight and loading flag; with nothing queued nothing changes |
| QuickSearch.ChooseResult | src/components/dashboard/QuickSearch.tsx:140-145 | choosing a result closes the dropdown and empties query and results |
| QuickSearch.OnKey | src/components/dashboard/QuickSearch.tsx:83-107 | keys do nothing while closed; ArrowDown stops at the last row; ArrowUp stops at -1; Enter picks only a highlighted existing row; Escape closes |
| QuickSearch.ClearAsWritten | src/components/dashboard/QuickSearch.tsx:197-204 | the clear button empties query and results, and the refocus runs the focus handler rendered with the old query (line 191), so the dropdown ends open exactly when the old query had two characters or more; highlight, loading and queued searches are kept |
| QuickSearch.StepKeepsInv | src/components/dashboard/QuickSearch.tsx:70-204 | every event of `Step` (typing, a timer firing, keys, focus, outside clicks, clicks on rendered rows, the clear button with its refocus) keeps the highlight at -1 or above and, whenever there are results, on one of them or none; queues only long queries; and drops loading once nothing is queued |
| QuickSearch.RunKeepsInv | src/components/dashboard/QuickSearch.tsx:70-204 | from any state keeping the invariant (`InitialInv`: the empty box does), any sequence of events keeps it |
| QuickSearch.InitialInv | src/components/dashboard/QuickSearch.tsx:17-21 | the empty box, closed with no query, results, search or highlight, keeps the invariant |
| QuickSearch.EnterPicksHighlighted | src/components/dashboard/QuickSearch.tsx:99-101 | with the dropdown open, listing rows, and a row highlighted, Enter picks exactly that row |
| QuickSearch.StaleSearchReopensShortQuery | src/components/dashboard/QuickSearch.tsx:115-137 | typing "ab" then "a" before the timer fires leaves the dropdown open under the query "a", listing the matches of "ab" |
| QuickSearch.ClearReopensEmpty | src/components/dashboard/QuickSearch.tsx:197-204 | from an open dropdown listing one highlighted row under "ab", which keeps the invariant, the clear button leaves it open with an empty query, no results and the highlight on row 0 |
| QuickSearch.DebouncedStep | src/components/dashboard/QuickSearch.tsx:115-137 | repaired: typing clears any queued search before queuing its own; the clear button (only while there is a query) empties and closes the box and drops the queued search; any other event that changes the query drops the queued search; otherwise it is the component's handler |
| QuickSearch.DebouncedStepKeepsInv | src/components/dashboard/QuickSearch.tsx:115-137 | repaired: every event keeps the dropdown closed for short queries, at most one search queued and for the current query, the highlight on a listed row or none whenever there are results, and, once the search has run, the listed rows exactly the current query's matches |
| QuickSearch.DebouncedRunKeepsInv | src/components/dashboard/QuickSearch.tsx:115-137 | corrected: from the empty box, any sequence of events keeps that invariant, so the dropdown is never open under a short query |
| Sidebar.Toggle | src/components/dashboard/Sidebar.tsx:98-104 | toggling flips the id's membership, changes no other id's membership, appends an absent id, and removes a present one without reordering the rest or dropping any other entry, each kept as often as it was listed |
| Sidebar.ToggleTwice | src/components/dashboard/Sidebar.tsx:98-104 | toggling twice restores every membership, and restores the list itself when the id started absent |
| Sidebar.AnyChildActive | src/components/dashboard/Sidebar.tsx:109-110 | some child is active exactly when some child's path is the current path |
| Sidebar.IsItemActive | src/components/dashboard/Sidebar.tsx:106-116 | an entry is active exactly when its own path or a child's path is the current path |
| Sidebar.ItemClick | src/components/dashboard/Sidebar.tsx:118-127 | a section toggles and never navigates; a link navigates to its path and closes the sidebar below 1024 pixels |
| Sidebar.ClickFlipsSection | src/components/dashboard/Sidebar.tsx:118-127 | a click on a section flips whether its sub-entries are listed and leaves every other section as it was |
| Sidebar.ChildClick | src/components/dashboard/Sidebar.tsx:194-199 | a sub-entry click navigates to its path and closes the sidebar on a narrow screen |
| Sidebar.NavigationHighlights | src/components/dashboard/Sidebar.tsx:106-116 | after following a sub-entry, it and its section are highlighted |
| Calendar.DaysIn | src/components/dashboard/CalendarCard.tsx:27-28 | a month has 28 to 31 days, and February has 29 exactly in a leap year |
| Calendar.Weekday | src/components/dashboard/CalendarCard.tsx:29 | the weekday is a column 0..6 |
| Calendar.PrevMonth | src/components/dashboard/CalendarCard.tsx:92-94 | the valid month one before on the month count `12·year + month`, as `Date` normalises month -1, so January rolls back to December of the year before |
| Calendar.NextMonth | src/components/dashboard/CalendarCard.tsx:96-98 | the valid month one after on the month count, as `Date` normalises month 12, so December rolls over to January of the year after |
| Calendar.MonthIndexDetermines | src/components/dashboard/CalendarCard.tsx:92-98 | a valid month is fixed by its place on the month count, so the arrows' contracts determine their results |
| Calendar.StepsAreInverse | src/components/dashboard/CalendarCard.tsx:92-98 | the two arrows undo each other across year boundaries |
| Calendar.MonthGrid | src/components/dashboard/CalendarCard.tsx:23-53 | the grid has 42 cells: the previous month's trailing days, then the month's days, then the next month's first days |
| Calendar.GridIsConsecutive | src/components/dashboard/CalendarCard.tsx:31-51 | the 42 cells are consecutive valid days, the month's 1st sits in its weekday's column, and exactly the month's own days are marked current |
| Calendar.EventsOn | src/components/dashboard/CalendarCard.tsx:55-60 | a day lists exactly the events falling on it, each as often as in the input, in their order |
| Calendar.CellView | src/components/dashboard/CalendarCard.tsx:158-172 | a cell lists at most the first two events, and shows "+k" exactly when more remain, k counting the rest |
| Calendar.Truncate | src/components/dashboard/CalendarCard.tsx:166 | a title over eight characters shows its first eight followed by "...", a shorter one shows unchanged |
| Calendar.Upcoming | src/components/dashboard/CalendarCard.tsx:184-187 | at most three events, all at or after now, earliest first |
| Calendar.UpcomingAreEarliest | src/components/dashboard/CalendarCard.tsx:184-187 | no upcoming event left out is earlier than one shown, and fewer than three are shown only when nothing is left out |
| Timeline.Sorted | src/components/dashboard/Timeline.tsx:114-118 | the sorted copy is a permutation of the events, earliest first, with simultaneous events in input order |
| Timeline.GroupedPartitions | src/components/dashboard/Timeline.tsx:120-134 | an event sits in exactly the group of its date key; groups are in first-appearance order of their keys; each group is in time order; the date key is `Timeline.DayKey`, the formatted day of the event's timestamp |
| Timeline.EmptyStateIffNoGroups | src/components/dashboard/Timeline.tsx:216 | the empty state shows exactly when there are no groups |
| Timeline.StatusLabel | src/components/dashboard/Timeline.tsx:84-97 | the default label appears exactly for an unknown status |
| Timeline.PriorityLabel | src/components/dashboard/Timeline.tsx:99-112 | the default label appears exactly for an unknown priority |
| Timeline.StatusLabelsAreDistinct | src/components/dashboard/Timeline.tsx:84-97 | known statuses get different labels |
| Timeline.PriorityLabelsAreDistinct | src/components/dashboard/Timeline.tsx:99-112 | known priorities get different labels |
| Timeline.KindIcon | src/components/dashboard/Timeline.tsx:20-35 | the calendar icon appears exactly for an unknown event kind |
| Timeline.KindTone | src/components/dashboard/Timeline.tsx:37-52 | grey appears exactly for an unknown event kind |
| Timeline.StatusTone | src/components/dashboard/Timeline.tsx:54-67 | grey appears exactly for a completed or unknown status |
| Timeline.PriorityTone | src/components/dashboard/Timeline.tsx:69-82 | grey appears exactly for an unknown priority |
| Timeline.KindStylesAgree | src/components/dashboard/Timeline.tsx:20-52 | icon and colour agree on which kinds are unknown, and each tells the known kinds apart |
| Inbox.UnreadCount | src/components/dashboard/Alerts.tsx:71 | the unread count never exceeds the list's length |
| Inbox.UnreadCountIsFilterLength | src/components/dashboard/NotificationCard.tsx:49 | the count is the length of the list filtered to unread items |
| Inbox.UnreadCountZero | src/components/dashboard/NotificationCard.tsx:49 | the count is zero exactly when nothing is unread |
| Inbox.UnreadCountAppend | src/components/dashboard/Alerts.tsx:71 | counting a concatenation adds the counts |
| Inbox.MarkAsRead | src/components/dashboard/ModernDashboard.tsx:475-478 | marking an id keeps length and order, marks every item with that id read, and leaves every other item as it was |
| Inbox.MarkUnknownIsIdentity | src/components/dashboard/ModernDashboard.tsx:476-478 | marking an id no item carries leaves the list unchanged |
| Inbox.MarkAsReadCount | src/components/dashboard/ModernDashboard.tsx:475-478 | marking never raises the unread count, and lowers it exactly when an unread item has the id |
| Inbox.MarkAllAsRead | src/components/dashboard/ModernDashboard.tsx:480-482 | marking all keeps length and order and makes every item read, changing nothing else |
| Inbox.MarkAllAsReadSettles | src/components/dashboard/ModernDashboard.tsx:480-482 | after marking all, nothing is unread, marking all again changes nothing, and marking any single id changes nothing |
| Inbox.MarkAllIsEveryMark | src/components/dashboard/ModernDashboard.tsx:475-482 | marking all is marking every id of the list one after another |
| Inbox.MarkEachCovers | src/components/dashboard/ModernDashboard.tsx:475-478 | marking each id of a list of ids marks exactly the items carrying one of them |
| Inbox.StyleOf | src/components/dashboard/Alerts.tsx:32-56 | the info style is chosen exactly for a kind other than success, warning and error |
| Inbox.StylesAreDistinct | src/components/dashboard/NotificationCard.tsx:23-47 | icon and colour each tell the styles apart, and only unknown kinds get the info icon; the icon and colour are `Inbox.Icon` and `Inbox.ToneOf`, which model both these switches and the identical ones at src/components/dashboard/Alerts.tsx:32-56 |
| Inbox.HeaderOf | src/components/dashboard/NotificationCard.tsx:57-69 | the badge shows exactly when something is unread and then shows the unread count; the mark-all button shows exactly with the badge |
| Inbox.MarkAllClearsHeader | src/components/dashboard/NotificationCard.tsx:57-69 | after the notification card's "mark all as read" (the dashboard's handler, src/components/dashboard/ModernDashboard.tsx:480-482) neither badge nor button is shown |
| Alerts.Displayed | src/components/dashboard/Alerts.tsx:72 | all alerts with "show all" on, otherwise the first min(5, n), as a prefix |
| Alerts.ShowMore | src/components/dashboard/Alerts.tsx:207-216 | the button shows exactly when "show all" is off and there are more than five, and it counts the alerts not displayed |
| Alerts.HeadersAreDays | src/components/dashboard/Alerts.tsx:74-91 | alerts of the same day share a header; when formatted dates are distinct and never "today" or "yesterday", a shared header means the same day; the headers are those of `Alerts.DayKey`, the today/yesterday/formatted-date choice at lines 80-91 |
| Alerts.GroupsPartitionDisplayed | src/components/dashboard/Alerts.tsx:74-98 | a displayed alert sits in exactly the group of its day header, and each group keeps the displayed order |
| Alerts.EmptyStateIffNoGroups | src/components/dashboard/Alerts.tsx:132 | the empty state shows exactly when there are no groups |
| NotificationCard.Render | src/components/dashboard/NotificationCard.tsx:57-128 | the header follows the unread count; the first min(5, n) notifications are listed in order; "view all (n)" shows exactly for more than five; the empty state shows exactly for none |
| NotificationCard.ButtonLabelReflectsRead | src/components/dashboard/NotificationCard.tsx:96 | the button's label depends only on, and tells, whether the notification is read; the label is `NotificationCard.ButtonLabel`, the conditional at that line |
| NotificationCard.MarkingOneUpdatesCard | src/components/dashboard/NotificationCard.tsx:96 | marking a listed notification keeps the card's list length and turns its button to "read" |
| NotificationCard.MarkingAllUpdatesCard | src/components/dashboard/NotificationCard.tsx:57-96 | after marking all, the header is bare and every listed button reads "read" |
| QuickReports.Filtered | src/components/dashboard/QuickReports.tsx:36-38 | the "all" chip gives the list unchanged; any other chip gives exactly the reports of that type, each as often as it is listed, in order |
| QuickReports.FilteredIsStable | src/components/dashboard/QuickReports.tsx:36-38 | filtering again by the same chip changes nothing, and a type filter after "all" is that type filter |
| QuickReports.ResetShowsEverything | src/components/dashboard/QuickReports.tsx:183-192 | the reset button's "all" filter shows every report, so the empty state then means there are none; a type with a matching report never shows it |
| QuickReports.StatusLabel | src/components/dashboard/QuickReports.tsx:66-77 | the default label appears exactly for an unknown status |
| QuickReports.StatusIcon | src/components/dashboard/QuickReports.tsx:40-51 | the question-mark icon appears exactly for an unknown status |
| QuickReports.StatusTone | src/components/dashboard/QuickReports.tsx:53-64 | grey appears exactly for an unknown status |
| QuickReports.TypeLabel | src/components/dashboard/QuickReports.tsx:79-92 | the default label appears exactly for an unknown type |
| QuickReports.TypeLabelsMatchChips | src/components/dashboard/QuickReports.tsx:28-34 | each type chip's caption is that type's label |
| QuickReports.StatusLookupsAgree | src/components/dashboard/QuickReports.tsx:40-77 | label, icon and colour agree on which statuses are unknown, and known statuses get different labels |
| QuickReports.ActionFor | src/components/dashboard/QuickReports.tsx:149-170 | "ready" offers download, "generating" a disabled button, anything else a retry |
| QuickReports.ActionMatchesBadge | src/components/dashboard/QuickReports.tsx:53-64 | the download action goes with the green badge and the generating button with the yellow one |
| AdvancedCharts.SubjectColor | src/components/dashboard/AdvancedCharts.tsx:40-41 | green from 80, amber from 70 to 79, red below 70 |
| AdvancedCharts.ColorsAgree | src/components/dashboard/AdvancedCharts.tsx:89-91 | the chart colour and the text colour pick the same band, and the bands are monotone in the score; the text colour is `AdvancedCharts.ScoreTone`, the conditional at those lines |
| AdvancedCharts.PerformanceChart | src/components/dashboard/AdvancedCharts.tsx:31-35 | one point per month, in order, labelled with the month and valued at its average score |
| AdvancedCharts.SubjectChart | src/components/dashboard/AdvancedCharts.tsx:37-42 | one point per subject, in order, valued at its average and coloured by its band |
| AdvancedCharts.AttendanceChart | src/components/dashboard/AdvancedCharts.tsx:44-48 | one point per month, in order, valued at the number present |
| AdvancedCharts.ChartsFollowRows | src/components/dashboard/AdvancedCharts.tsx:31-48 | each chart of a concatenation is the concatenation of the charts |
| AdvancedCharts.RoundDiv | src/components/dashboard/AdvancedCharts.tsx:63 | `Math.round(a / b)`: the integer nearest to a/b, halves rounded up |
| AdvancedCharts.RoundDivUnique | src/components/dashboard/AdvancedCharts.tsx:63 | only one integer meets the rounding bounds |
| AdvancedCharts.RoundDivWithin | src/components/dashboard/AdvancedCharts.tsx:63 | rounding a quotient that lies between two integers stays between them |
| AdvancedCharts.PresentRate | src/components/dashboard/AdvancedCharts.tsx:112-113 | no rate for an empty month; otherwise the nearest whole percentage of present days, between 0 and 100 |
| AdvancedCharts.PresentRateExtremes | src/components/dashboard/AdvancedCharts.tsx:112-113 | a month with everyone present rates 100, and one with nobody present rates 0 |
| AdvancedCharts.Average | src/components/dashboard/AdvancedCharts.tsx:63 | no average for no months; otherwise the nearest integer to the mean of the monthly averages |
| AdvancedCharts.AverageWithinRange | src/components/dashboard/AdvancedCharts.tsx:63 | the average lies between the lowest and highest monthly average |
| AdvancedCharts.TotalsAreSums | src/components/dashboard/AdvancedCharts.tsx:146-172 | each total grows by exactly the new row's figure, and a non-negative column's total is at least each row's figure; the totals are `AdvancedCharts.ColumnTotals`, the three `reduce` sums |
| AdvancedCharts.FirstRows | src/components/dashboard/AdvancedCharts.tsx:85 | the first min(3, n) rows, in order |
| Dashboard.BandOf | src/components/dashboard/ModernDashboard.tsx:460-464 | the chained classification puts every score in the band whose interval holds it |
| Dashboard.BandsPartition | src/pages/DashboardPage.tsx:363-368 | a score is in a band's interval exactly when the classification picks that band, so the five bands partition the scores |
| Dashboard.BandIsMonotone | src/components/dashboard/ModernDashboard.tsx:460-464 | a higher score never falls in a lower band |
| Dashboard.BandTonesAreDistinct | src/pages/DashboardPage.tsx:363-368 | the five bands get five different colours; the tones are those of `BandTone`, the colour switch at src/components/dashboard/ModernDashboard.tsx:460-464 |
| Dashboard.ViewOf | src/pages/DashboardPage.tsx:105-135 | the spinner exactly while loading; then the error panel exactly for a truthy error; then nothing exactly without data; otherwise the content |
| Dashboard.FailureMessage | src/pages/DashboardPage.tsx:87-94 | a non-ok response reports the fixed fetch-failed message, an Error its message, and any other throw the generic fallback |
| Dashboard.FetchAsWritten | src/pages/DashboardPage.tsx:77-98 | the fetch as written: loading ends false, a success replaces the data but keeps any earlier error, a failure keeps the data and records the message |
| Dashboard.RetryAfterFailureShowsStaleError | src/components/dashboard/ModernDashboard.tsx:106-127 | after a failed fetch, a successful retry still shows the old error panel |
| Dashboard.Started | src/pages/DashboardPage.tsx:79 | the corrected fetch starts by clearing the error and shows the spinner |
| Dashboard.Fetch | src/pages/DashboardPage.tsx:77-98 | the corrected fetch: loading ends false; a success replaces the data and clears the error; a failure keeps the data and records the message |
| Dashboard.FetchShowsOutcome | src/components/dashboard/ModernDashboard.tsx:106-127 | the corrected fetch shows the content, nothing, or the error panel for each outcome: the fixed text for a response without `ok` or a thrown non-`Error`, the thrown message when it is non-empty, and the earlier data (or nothing) when an `Error` carries an empty message; it agrees with the fetch as written whenever no error was showing before |

## Left out

- The HTTP requests and promises. Each remote call is its outcome as a parameter.
- The quick-search timers are a queue of the queries they captured, run by an explicit `TimerFires` event. The 300 ms duration is not modelled, only the order: every timer has the same delay, so they fire in the order they were set. A `TimerFires` with nothing queued does nothing.
- React's rendering is reduced to effect passes. `PageFlow.EffectPass` gives the session once a page's effects have run after an edit or a dispatch. The one frame in which a failed submit's error is painted before an effect clears it is not modelled.
- A page's own state (form fields, validation errors, the submitting and success flags) is reset when the guard unmounts the page for a loading session. `PageFlow` tracks only the session, so the emptied form after a failed login is stated under "## Findings" but not proved.
- `window.location`, `window.innerWidth`, the router and the clock are parameters (redirect targets, a width, the current day or time).
- The redirect of an already signed-in visitor away from the login and register pages. It is a one-line effect on `isAuthenticated`, with the same shape as `VerifyEmailPage.Redirects`.
- Exceptions thrown by `localStorage` are not modelled. The store is a map that always answers.
- `JSON.parse` results other than a record, `null` or a failure (a number, a string, an array) are folded into "record" or "failure". The codec is an abstract parameter.
- The request interceptor's error branch is not modelled. It re-rejects a request that was never sent, and no request here fails before it is sent.
- SessionOps.Register: the resolved value is the response's `teacherId` itself. Reading that field from the response body is not modelled.
- Text.ToLower: case folding is ASCII only. `toLowerCase` also folds non-Latin letters, while the data (Arabic titles) has no case.
- Validation.EmailRule: the email pattern's `\s` is the exact JavaScript whitespace set. The regular-expression engine itself is not modelled. The pattern is stated as a predicate with an equivalence lemma.
- String lengths count code points, not UTF-16 code units. This differs only for characters outside the Basic Multilingual Plane (an emoji counts 1 here, 2 in JavaScript). Every `.length` gate is affected: the name rule's minimum, the title cut, `Validation.PasswordRule`'s eight-character minimum (src/pages/auth/RegisterPage.tsx:56, src/pages/auth/ResetPasswordPage.tsx:48), and the two-character query gates of `QuickSearch.Search`, `QuickSearch.ClearAsWritten` and `QuickSearch.Step`'s focus case (src/components/dashboard/QuickSearch.tsx:118, 191, 254). For example, a single emoji opens the search box in the source but not in the model.
- The alert panel's mark-as-read, mark-all and dismiss handlers only log (src/components/dashboard/ModernDashboard.tsx:510-515), so the alert list never changes. `Inbox.MarkAsRead`, `Inbox.MarkAllAsRead` and `Inbox.MarkAllClearsHeader` describe the notification card, whose handlers update its list.
- Floating point is not modelled. `presentRate` is `Math.round((present / total) * 100)` computed in doubles. AdvancedCharts.PresentRate: it is modelled as the exact rational rounded to the nearest integer. This can differ from the double computation only where rounding error moves the product across a half.
- Scores and averages are integers in the model. Fractional scores are not modelled.
- An empty performance list makes the source render `NaN%`. The model says "no average" (`None`).
- Calendar.Weekday: only its range (0 to 6) is stated. That it agrees with `getDay` is a property of the formula it uses (Sakamoto's method) and is not proved here.
- Dates are integers (timestamps and day numbers). Invalid dates (`NaN`) and the two-digit-year quirk of `new Date(y, …)` for years 0–99 are not modelled.
- Locale formatting (`toLocaleDateString('ar-EG', …)`, `toDateString`) is a parameter. The alert header's format omits the year, so in the source two dates a year apart share a header. `Alerts.HeadersAreDays` makes this visible through its injectivity hypothesis.
- Tailwind class strings and hex colours are reduced to the colour family they name (`Tone`) or to named constants.
- The icon and colour lookups of the calendar card and the quick-search type labels and colours are not modelled. They are presentation with the same shape as the Timeline lookups, which are modelled.
- `getActionButtonColor` in the alert list is not modelled. It is presentation.
- Alert dismissal and the alert action buttons, which only call the parent's callbacks, are not modelled.
- The regenerate button of a report only calls a parent callback. It is represented only by `QuickReports.ActionFor`'s retry choice.
- `Object.entries` lists integer-like keys first in ascending order. Day headers are never integer-like (they contain letters), so groups are modelled in first-appearance order.
- The dashboard fetch's `Authorization: Bearer null` header, sent when no token is stored, is not modelled. The request itself is a parameter.
- The JSON body of the dashboard response is not modelled beyond its `data` field being present or absent.
- Markup, hooks wiring and the purely presentational components (stats cards, list cards, quick actions, header, layout, the SVG chart) are not modelled.
- The application's messages in Arabic are kept as string constants where a page shows them. The validation messages are abstracted to problem kinds (required, too short, bad format, weak, mismatch).
- Where the documented behaviour and the code disagree, the code is followed:
  - A failure of resend, request-reset or reset-password dispatches AUTH_FAILURE, so it also ends an authenticated session (`SessionOps.Report`).
  - A bootstrap that finds only one of the two keys leaves storage untouched rather than clearing it.

## Findings

| source | as written | input that shows it | evidently intended | confidence | as-written member | corrected member |
|---|---|---|---|---|---|---|
| src/contexts/AuthContext.tsx:104-113 | the stored teacher is parsed and dispatched as AUTH_SUCCESS without checking it is an object | `teacherToken = "t"`, `teacherData = "null"`: `JSON.parse` returns `null`, and the session becomes authenticated with no teacher | a profile that is not a record is treated like a malformed one: both keys cleared, signed out with the error | not executed; follows from the parse semantics of `"null"` | SessionOps.BootstrapAsWritten, SessionOps.BootstrapNullProfileIsInconsistent | SessionOps.Bootstrap |
| src/pages/DashboardPage.tsx:77-98 | `fetchDashboardData` sets `error` on failure and never clears it | a failed fetch, then "retry" succeeding: `error` is still set, so the error panel is shown over fresh data | the retry clears the error when it starts, so a success shows the data | not executed; the same code is in src/components/dashboard/ModernDashboard.tsx:106-127 | Dashboard.FetchAsWritten, Dashboard.RetryAfterFailureShowsStaleError | Dashboard.Fetch, Dashboard.FetchShowsOutcome |
| src/pages/auth/ForgotPasswordPage.tsx:17-22 | the clear-error effect lists `clearError` as a dependency. The session provider recreates that function on every render (src/contexts/AuthContext.tsx:227-229), so the effect runs after every dispatch, not only after edits | on the forgot-password page, a reset request rejected with message M: AUTH_FAILURE stores M without AUTH_START, so the page stays mounted; the provider re-renders, and the effect sees the error and clears it | the error stays on screen until the user edits the form | not executed; the same effect is in ResetPasswordPage.tsx:24-29 and, for a failed resend, VerifyEmailPage.tsx:34-39 under src/pages/auth | PageFlow.EffectPass, PageFlow.FailedReportErrorIsWiped | PageFlow.FailedReportErrorShows |
| src/components/auth/ProtectedRoute.tsx:19-25 | every authentication route is wrapped in the guard (src/App.tsx:31-70), which renders a spinner instead of the page while the session is loading. Login, register and verification dispatch AUTH_START, so the page is unmounted during the request and mounted afresh after it | a login rejected with message M: the page comes back with an empty form, and the first run of its clear-error effect removes M, even with a stable `clearError` | the page stays mounted through the request, as its own loading branch (src/pages/auth/LoginPage.tsx:91-97) expects, keeping the form and showing M as the comment in the submit handler's `catch` (line 78) expects | not executed | PageFlow.MountedIsGuard, PageFlow.FailedLoginErrorIsWiped | PageFlow.FailedLoginErrorShows, PageFlow.ErrorStaysUntilEdit |
| src/components/dashboard/QuickSearch.tsx:197-204 | the clear button empties the query, closes the dropdown and focuses the input. The click had moved the focus to the button, so the input's focus handler runs, and it is the one rendered with the old query (line 191): it reopens the dropdown | with "ab" typed and rows listed, click the clear button: the dropdown is open with an empty query and no rows, an empty bordered box, and the arrow keys still act on it | the dropdown stays closed after clearing | not executed | QuickSearch.ClearAsWritten, QuickSearch.ClearReopensEmpty | QuickSearch.DebouncedStep, QuickSearch.DebouncedRunKeepsInv |
| src/components/dashboard/QuickSearch.tsx:115-137 | each long query schedules its search with `setTimeout`, and no earlier timer is ever cleared | type "ab", then "a" within 300 ms: the "ab" timer fires and opens the dropdown under the query "a", listing the matches of "ab" | a change of query cancels the pending search, so the dropdown opens only for the current long query and shows its matches | not executed | QuickSearch.Complete, QuickSearch.StaleSearchReopensShortQuery | QuickSearch.DebouncedStep, QuickSearch.DebouncedRunKeepsInv |
