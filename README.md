# Badminton Squad: a Dafny model of its business rules

Badminton Squad is a Next.js application for organising badminton sessions. Approved members
create sessions, answer COMING, TENTATIVE or NOT_COMING until a cutoff, comment in threads, and
see activity feeds and attendance analytics. The hosted database sits behind it. The application
has no single engine. Its rules are spread over small files, and this project models them:

- court and playability arithmetic;
- the session, response and comment validation schemas, with the Indian Standard Time (IST) date
  rules;
- comment threading, sanitising and the per-comment permissions;
- the RSVP route: its guard chain, the response cutoff and the upsert on (user, session), both on
  the server and on the client card and buttons;
- the session listing and creation routes, and the user activity feed;
- prediction analytics;
- the two error-classification helpers;
- the two request gates (middleware and proxy) and the admin approval page;
- the activity search box and the session filter bar.

Each source file is one Dafny module. Database rows are datatypes (`Schema`). Every database read
is an input. Every database write is an update to a `map` or a `seq`:

- the responses table is the `map` of `ResponsesRoute.ResponseTable`, keyed by (user, session);
- the profiles table is the `map` of `AdminUsers.ProfileTable`;
- the created sessions are a `seq` that `SessionsRoute.HandleCreate` appends to.

Times are integer milliseconds. The host time zone is an explicit offset parameter. `Date.parse`
gives `Option<int>`, where `None` is NaN. Percentages are exact `real`s.

Some parts of the source change state step by step, and those are imperative Dafny:

- `CommentTree.BuildCommentTree` is a method with two loops over a `map`, proved equal to the
  forest function `CommentTree.CommentForest`;
- the RSVP handler is `ResponsesRoute.ResponseTable.Post`, whose cutoff `Date` is stepped as in
  the source;
- the activity route collects its feed in `ActivityRoute.CollectActivities`, through reassigned
  locals;
- `ResponseControls.Controls` is a class holding the pending-response state;
- `AdminUsers.ProfileTable` is a class whose methods approve and reject users.

Each method's `ensures` ties its result or new state to a specification function. The lemmas state
what the source promises about those functions.

Helper modules:

- `Wrappers`: `Option`.
- `Text`: JavaScript `trim`, `includes`, `startsWith`, ASCII lower-casing, `parseInt` and number
  printing.
- `Time`: day numbers and local midnight.
- `Sorting`: the stable sort that `Array.prototype.sort` performs.
- `Seqs`: `filter`, subsequences and descending order.
- `Routing`: the redirect decisions shared by the two gates and the admin page.

## Model

| member | source | states |
|---|---|---|
| Courts.CalculateCourts | client/lib/utils/courts.ts:8-19 | 0 players need 0 courts. For n > 0 the result c is the least with 4c >= n, i.e. 4(c-1) < n <= 4c. Every negative count gives 1 |
| Courts.CalculateCourtsMonotone | client/lib/utils/courts.ts:8-19 | non-decreasing on counts >= 0, and at least 1 for every non-zero count |
| Courts.CalculateCourtsExamples | client/tests/utils/courts.test.ts:5-16 | the tabulated values: 0→0, 1→1, 4→1, 5→2, 8→2, 9→3, 12→3, -1→1, 100→25 |
| Courts.CourtsDescriptionCases | client/lib/utils/courts.ts:27-39 | "No courts needed" at 0. "1 court needed for n player(s)" while one court suffices, with singular "player" iff n = 1. "c courts needed for n players" above 4 players, where c >= 2 |
| Courts.PlayabilityStatus | client/lib/utils/courts.ts:47-72 | exactly one bucket applies: insufficient iff n < 4, minimum iff n = 4, good iff 5 <= n <= 8, excellent iff n > 8 |
| Courts.InsufficientMessage | client/lib/utils/courts.ts:51-55 | below 4 players the message asks for exactly 4 - n more, with singular "player" iff 4 - n = 1 |
| Courts.PlayabilityExample | client/tests/utils/courts.test.ts:21-25 | 2 players read "Need 2 more players for doubles" |
| SessionValidation.AtLeast2DaysByDay | client/lib/validations/session.ts:3-19 | the two-day rule compares IST calendar days only: the start is accepted iff its day is at least today's day + 2 |
| SessionValidation.AtLeast2DaysBoundary | client/lib/validations/session.ts:3-19 | on a UTC host, 00:00 IST two days out passes, while one millisecond earlier and exactly 24 h after now both fail |
| SessionValidation.WithinMaxDurationMs | client/lib/validations/session.ts:72-84 | the duration rule holds iff end - start <= 28 800 000 ms, inclusive |
| SessionValidation.ParseSessionAccepts | client/lib/validations/session.ts:34-84 | the schema accepts exactly the sessions meeting every field rule and all four refinements, and then returns the location trimmed |
| SessionValidation.ParseSessionIssueOrder | client/lib/validations/session.ts:50-84 | a rejected session lists the field issues first, then only refinement issues, each at most once and in declaration order (end after start, same IST day, two days ahead, duration). A start not before the end is the first refinement issue, and an over-long duration is the last issue |
| SessionValidation.RefinementIssuesOrdered | client/lib/validations/session.ts:50-84 | the refinement issues are refinement issues only, each ranked above the one before it |
| SessionValidation.RefinementsReported | client/lib/validations/session.ts:50-84 | in a rejected session, each of the four refinement issues is reported exactly when its refinement fails, whatever the field issues |
| SessionValidation.EndBeforeStartFirst | client/lib/validations/session.ts:50-59 | with well-formed fields, an end not after the start is the first issue, on path end_time |
| SessionValidation.EmptyStartRequired | client/lib/validations/session.ts:42-45 | an empty start time is reported as "Start time is required", whatever else is wrong |
| SessionValidation.ParseResponseUpdateAccepts | client/lib/validations/session.ts:89-92 | accepted iff both fields are present, the id is a UUID and the status is COMING, NOT_COMING or TENTATIVE |
| SessionValidation.CreateCommentWhitespaceOnly | client/lib/validations/session.ts:94-102 | whitespace-only content passes the length check and is handed on as "" |
| CommentRules.GetDepthBound | client/lib/validations/comment.ts:53-61 | getDepth(t, d) <= d + k iff no path below t has more than k reply edges |
| CommentRules.ValidateCommentDepthMeaning | client/lib/validations/comment.ts:52-64 | validateCommentDepth holds iff no thread has more reply levels than maxDepth, which defaults to 3 |
| CommentRules.CollapseSpaces | client/lib/validations/comment.ts:47 | the result has no whitespace except single plain spaces |
| CommentRules.CollapseKeepsText | client/lib/validations/comment.ts:47 | collapsing keeps every non-whitespace character, in order |
| CommentRules.SanitizeComment | client/lib/validations/comment.ts:44-49 | exactly min(1000, length of the collapsed trimmed text) characters, and a prefix of that text: no leading whitespace, no two consecutive whitespace characters, and no trailing whitespace unless the 1000-character cut made it |
| CommentRules.SanitizeKeepsText | client/lib/validations/comment.ts:44-49 | below the length limit, sanitising loses nothing but whitespace |
| CommentRules.ParseCommentAccepts | client/lib/validations/comment.ts:4-11 | accepted iff the raw content has 1..1000 characters and any parent id is a UUID; the content handed on is the trimmed input |
| CommentRules.WhitespaceOnlyComment | client/lib/validations/comment.ts:4-11 | whitespace-only content of length >= 1 passes and is stored as "" |
| CommentRules.UpdateMatchesCreate | client/lib/validations/comment.ts:17-23 | the update schema treats content exactly as the creation schema |
| CommentTree.IndexPass | client/lib/validations/comment.ts:71-73 | the first loop stores every comment under its id, with empty replies; a later duplicate replaces an earlier one |
| CommentTree.LinkPass | client/lib/validations/comment.ts:76-87 | the second loop pushes each comment whose parent is known into that parent's replies, and each comment without a parent into the roots, in input order |
| CommentTree.BuildCommentTree | client/lib/validations/comment.ts:66-99 | the method's result is the specification forest `CommentForest` |
| CommentTree.CommentForestShape | client/lib/validations/comment.ts:76-99 | the top level is the stable sort of the parentless comments. Every node's replies are the stable sort of the comments naming it |
| CommentTree.EveryCommentOnce | client/lib/validations/comment.ts:71-87 | with unique ids, every parent id naming an input comment and parent links acyclic, every input comment occurs exactly once in the forest |
| CommentTree.OrphanDropped | client/lib/validations/comment.ts:79-83 | a comment whose parent id names no input comment occurs nowhere in the forest |
| CommentTree.ForestExists | client/lib/validations/comment.ts:90-97 | with unique ids the recursion always ends: the forest exists |
| CommentTree.SiblingsOrdered | client/lib/validations/comment.ts:90-97 | every level is sorted by created_at ?? 0, ascending, and stable on ties |
| CommentThread.ItemFor | client/components/comments/CommentThread.tsx:68-76 | Reply iff depth < maxDepth. Delete iff the viewer is the author or the session creator. Edit iff the viewer is the author and the age is <= 24 h. "(edited)" iff updated_at ≠ created_at |
| CommentThread.RenderShowsForest | client/components/comments/CommentThread.tsx:274-302 | every comment of the forest is rendered once, parents before their replies |
| CommentThread.RenderDepths | client/components/comments/CommentThread.tsx:224-235 | replies are rendered one level deeper with the same maxDepth, so a thread of height k at depth d stays within d..d+k |
| CommentThread.ValidatedThreadDepth | client/components/comments/CommentThread.tsx:60-71 | for a forest that passes validateCommentDepth, nothing is rendered below maxDepth, and no comment at maxDepth offers Reply |
| CommentThread.CreatorDeletesButCannotEdit | client/components/comments/CommentThread.tsx:68-76 | a session creator who is not the author gets Delete but never Edit |
| CommentThread.EditWindowBoundary | client/components/comments/CommentThread.tsx:73-76 | the 24 h window is inclusive: editable iff now <= created_at + 86 400 000 |
| CommentThread.IndentClasses | client/components/comments/CommentThread.tsx:109-110 | depth 0 has no class, then "ml-4", "ml-8", and "ml-12" from depth 3 on |
| CommentThread.HostBadgeOnlyForCreator | client/components/comments/CommentThread.tsx:128-132 | the Host badge shows iff the viewer is the session creator and the author |
| ResponsesRoute.CutoffWindow | client/app/api/responses/route.ts:55-59 | the cutoff is at least 24 h and less than 48 h before the session start |
| ResponsesRoute.PreviousDay | client/app/api/responses/route.ts:57-59 | stepping back one day then to midnight lands on the previous local day's midnight |
| ResponsesRoute.UpsertPostcondition | client/app/api/responses/route.ts:69-78 | afterwards the pair has exactly one row, with the new status. An existing row keeps its other columns. All other rows are unchanged |
| ResponsesRoute.UpsertIdempotent | client/app/api/responses/route.ts:69-78 | upserting the same status twice equals upserting it once |
| ResponsesRoute.RejectedChangesNothing | client/app/api/responses/route.ts:9-85 | every refused request leaves the table unchanged |
| ResponsesRoute.GuardOrder | client/app/api/responses/route.ts:9-23 | 401 without a user comes before everything, then 403 without approval |
| ResponsesRoute.BadRequests | client/app/api/responses/route.ts:28-42 | a missing session_id or status gives 400, and so does a status outside the three values |
| ResponsesRoute.CutoffRule | client/app/api/responses/route.ts:44-67 | an unknown session gives 404. For a known one the write is refused with 400 iff now >= cutoff |
| ResponsesRoute.SavedIff | client/app/api/responses/route.ts:9-87 | a response is saved iff every check passes and the database does not fail; the table is then the upsert |
| ResponsesRoute.PostIdempotent | client/app/api/responses/route.ts:69-87 | repeating an accepted request leaves the table as it was |
| ResponsesRoute.ResponseTable.Post | client/app/api/responses/route.ts:4-92 | the method's reply and new table are those of the specification `HandlePost` |
| ResponsesRoute.GetListsSession | client/app/api/responses/route.ts:94-125 | GET lists iff there is a user, a session id and no database error; the list is exactly the rows of that session |
| SessionCard.ClientCutoffMatchesServer | client/components/session/SessionCard.tsx:58-62 | the card's cutoff equals the server's cutoff |
| SessionCard.RenderCard | client/components/session/SessionCard.tsx:52-233 | the menu shows iff the viewer is the creator. Edit is enabled iff creator and not the same day. The buttons are disabled iff the deadline notice shows. The response line is hidden iff there is no response |
| SessionCard.DeadlineWindow | client/components/session/SessionCard.tsx:58-62 | the buttons are disabled from the cutoff on, and the cutoff is 24 to 48 h before the start |
| SessionCard.CourtsFromComingOnly | client/components/session/SessionCard.tsx:55-56 | courts and playability depend on the COMING count alone |
| SessionCard.CourtLabelPlural | client/components/session/SessionCard.tsx:193 | "court" iff exactly one court, else "courts" |
| SessionCard.YourResponseLabels | client/components/session/SessionCard.tsx:216-233 | COMING→Coming (green), TENTATIVE→Maybe (yellow), NOT_COMING→Not coming (red) |
| SessionCard.SameDayLocksEdit | client/components/session/SessionCard.tsx:67-71 | the creator can edit iff the session is not on the local day of now; nobody else sees the menu |
| ResponseControls.ButtonVariant | client/components/response/ResponseControls.tsx:42-51 | a button is outlined iff it is not the current response |
| ResponseControls.OneHighlighted | client/components/response/ResponseControls.tsx:42-51 | without a current response every button is outlined; the current one is default for COMING, secondary for TENTATIVE, destructive for NOT_COMING; at most one is not outlined |
| ResponseControls.OneSpinner | client/components/response/ResponseControls.tsx:53-55 | at most one spinner, and none while nothing is pending |
| ResponseControls.Controls.HandleResponseChange | client/components/response/ResponseControls.tsx:22-33 | a no-op while disabled or for the current status. Otherwise it records one call {sessionId, status} and sets pendingResponse to the status |
| ResponseControls.Controls.Settle | client/components/response/ResponseControls.tsx:34-39 | on success or failure pendingResponse returns to null; the calls are kept |
| ResponseControls.Controls.Click | client/components/response/ResponseControls.tsx:59-95 | a click while disabled or pending changes nothing, and otherwise is HandleResponseChange |
| ResponseControls.ClickAndSettle | client/components/response/ResponseControls.tsx:22-39 | a click then settling leaves nothing pending, with one more call on record iff the click was accepted |
| SessionsRoute.BuildQuery | client/app/api/sessions/route.ts:25-51 | the query starts now, restricts embedded responses to the caller, is ascending iff sort is start_time, and adds the 'responded' or 'created' condition |
| SessionsRoute.QueryDefaults | client/app/api/sessions/route.ts:26-28 | without parameters: filter all, limit 20, sort start_time ascending |
| SessionsRoute.Summarize | client/app/api/sessions/route.ts:61-87 | each count is the number of embedded responses with that status, and the counts sum to the responses. Courts c satisfy 4(c-1) < COMING <= 4c. user_response is the first user response, or null |
| SessionsRoute.RecommendedCourtsAgree | client/app/api/sessions/route.ts:69 | recommended_courts equals calculateCourts(COMING) |
| SessionsRoute.SummarizeAll | client/app/api/sessions/route.ts:60-88 | one summary per fetched session, in order |
| SessionsRoute.ListedIsSummaries | client/app/api/sessions/route.ts:4-90 | 401, then 403, then 500 on a query error; otherwise one summary per row, in order |
| SessionsRoute.CreateByCaller | client/app/api/sessions/route.ts:97-148 | created iff approved and location, start and end present and the insert succeeds. The one appended row has the caller as creator and the body's fields. Refusals insert nothing |
| SessionsRoute.CreateGuardOrder | client/app/api/sessions/route.ts:102-127 | 401, then 403, then 400 for a missing field, all before any write |
| ActivityRoute.CreatedEntry | client/app/api/users/activity/route.ts:85-105 | a created entry carries its session, per-status counts of its responses and activity_date = created_at |
| ActivityRoute.CreatedEntries | client/app/api/users/activity/route.ts:85-105 | one created entry per returned session, in order |
| ActivityRoute.RespondedEntriesMembers | client/app/api/users/activity/route.ts:116-131 | responded entries are exactly the returned responses whose session exists, with their status, id and response date |
| ActivityRoute.RespondedEntriesCount | client/app/api/users/activity/route.ts:116-117 | responses with a deleted session are dropped and no other is |
| ActivityRoute.Truncate | client/app/api/users/activity/route.ts:141 | a positive limit keeps min(limit, length) leading entries; otherwise everything is kept |
| ActivityRoute.CollectActivities | client/app/api/users/activity/route.ts:75-146 | the method's reassigned locals end as the specification `ActivityList` |
| ActivityRoute.AllFeed | client/app/api/users/activity/route.ts:138-141 | for 'all': the feed is the created entries followed by the responded entries, sorted by date and truncated to the limit |
| ActivityRoute.NewestFirst | client/app/api/users/activity/route.ts:138-141 | sorting by date keeps every entry (a permutation), keeps the order of entries with the same date, orders the feed newest first, and truncation gives a prefix of length min(limit, total) for a positive limit and everything otherwise |
| ActivityRoute.OtherFilters | client/app/api/users/activity/route.ts:79-146 | 'created' and 'responded' give only that kind, in database order; any other filter gives [] |
| ActivityRoute.ActivityDefaults | client/app/api/users/activity/route.ts:11-21 | 401 without a user; defaults are filter all, limit 50, offset 0 |
| ActivityRoute.FeedMetadata | client/app/api/users/activity/route.ts:159-173 | total_activities is the feed length, the counts default to 0, and has_more compares the filter's count with offset + limit |
| ActivityRoute.CaughtErrorLooksLikeSuccess | client/app/api/users/activity/route.ts:175-181 | as written, a thrown "fetch failed" is answered with status 200 and no error text |
| ActivityRoute.CaughtIsServerError | client/app/api/users/activity/route.ts:175-181 | with the corrected catch, every exception gives 500 with its message |
| Analytics.UserAccuracy | client/lib/utils/analytics.ts:22-57 | correct <= total <= the number of entries, and the percentage is in [0, 100] |
| Analytics.UserAccuracyUnrecorded | client/lib/utils/analytics.ts:26-44 | no entries give 0/0/0 %; entries without recorded attendance give total = their number, 0 correct, 0 % |
| Analytics.UserAccuracyRecorded | client/lib/utils/analytics.ts:46-56 | once an attendance is recorded, total is the recorded entries, correct the right ones, and percentage × total = 100 × correct |
| Analytics.AllCorrect | client/lib/utils/analytics.ts:46-49 | when every entry is recorded and right, correct = total = the number of entries |
| Analytics.AllCorrectPercentage | client/lib/utils/analytics.ts:46-56 | when there are entries and every one is recorded and right, the percentage is 100 |
| Analytics.NoneCorrect | client/lib/utils/analytics.ts:46-56 | when no recorded entry is right, the correct count and the percentage are 0 |
| Analytics.Score | client/lib/utils/analytics.ts:70-72 | in [0, 100]; 100 iff no difference; score × n = 100(n - d) while d <= n; 0 from d >= n |
| Analytics.SessionAccuracyMeaning | client/lib/utils/analytics.ts:62-79 | 0 without responses; otherwise 100 iff the COMING count equals the attendance |
| Analytics.SessionAccuracyPerPerson | client/lib/utils/analytics.ts:70-72 | the rate drops by 100/total per person of difference and is 0 once the difference reaches the response count |
| Analytics.CorrectAgreesWithAttendance | client/lib/utils/analytics.ts:85-96 | a definite response is right iff its attendance mapping matches; TENTATIVE maps to null and is scored as absence |
| Analytics.Round | client/lib/utils/analytics.ts:106 | Math.round: within half of x, halves rounded up |
| Analytics.ReliabilityScoreRange | client/lib/utils/analytics.ts:101-106 | 50 below three predictions; always between 0 and 100 for a computed accuracy |
| Errors.ParseAuthError | client/lib/utils/errors.ts:15-64 | the code kept is error.error ‖ error.code |
| Errors.AuthErrorBasics | client/lib/utils/errors.ts:16-27 | a null error is unknown "An unexpected error occurred"; invalid_credentials and invalid_grant read "Invalid email or password", keeping the code |
| Errors.AuthErrorField | client/lib/utils/errors.ts:38-62 | the field is password for weak_password or a message about passwords, email for the two email codes or a message about email, else none |
| Errors.AuthErrorUnknownCode | client/lib/utils/errors.ts:50-62 | for an unknown code the message is searched for 'password', then 'email', then 'network'/'fetch', else auth with the message |
| Errors.KnownCodeFields | client/lib/utils/errors.ts:24-48 | among the known codes, only weak_password names the password field and only the two email codes name the email field; a field means a validation error |
| Errors.ByMessageFields | client/lib/utils/errors.ts:50-62 | by message, the field is password iff the message mentions "password", else email iff it mentions "email" |
| Errors.ApiErrorKinds | client/lib/utils/errors.ts:75-99 | unless a TypeError is a fetch failure or has no message: 400 validation, 401 and 403 auth, any other non-zero status server, no status or status 0 unknown |
| Errors.FetchFailureFirst | client/lib/utils/errors.ts:75-77 | a TypeError mentioning fetch is a network error whatever its status |
| Errors.LoadFailedUnknown | client/lib/utils/errors.ts:75-99 | a TypeError "Load failed" without a status passes the fetch test and the status switch, and comes out as an unknown error with its own message, for which no retry is suggested |
| Errors.BadRequestKeepsMessage | client/lib/utils/errors.ts:82-83 | a 400, unless a TypeError that is a fetch failure or has no message, keeps the server's message when it has one |
| Errors.RetryKinds | client/lib/utils/errors.ts:112-114 | retry iff the kind is network or server |
| Errors.UnauthorizedRedirects | client/lib/utils/errors.ts:84-124 | any error with status 401 leads to the login page, unless it is a TypeError that is a fetch failure or has no message |
| Errors.ForbiddenDoesNotRedirect | client/lib/utils/errors.ts:86-124 | any error with status 403 does not, unless it is a TypeError that is a fetch failure or has no message: its message mentions neither "sign in" nor "unauthorized" |
| ErrorHandling.MessageOf | client/lib/utils/error-handling.ts:1-14 | an Error gives its message, a string itself, anything else the fixed fallback; handleApiError answers as parseApiError |
| Middleware.DecisionTable | client/middleware.ts:44-97 | paths outside the matcher pass for everybody. Anonymous visitors pass /, /login, /signup and /pending-approval, and go to /login from every other matched path. Signed-in users on /login or /signup go to the sessions page iff approved, else /pending-approval. On other matched paths /dashboard* and /api* need approval, and all other paths pass |
| Middleware.ImagesServed | client/middleware.ts:95 | an image file such as /logo.png passes for every visitor, signed in or not |
| Middleware.AdminPathPasses | client/middleware.ts:72-84 | a signed-in user reaches /admin/users whether approved or not |
| Middleware.RedirectTargets | client/middleware.ts:47-81 | redirects go only to /login, /pending-approval or /dashboard/sessions |
| Middleware.NoRedirectLoop | client/middleware.ts:44-84 | every redirect target passes for the same visitor |
| Proxy.DecisionTable | client/proxy.ts:35-82 | within the matcher, /dashboard* needs a user, then approved === true. /login and /signup send a signed-in user to the sessions page iff approved, else /pending-approval. Everything else, and everything outside the matcher, passes |
| Proxy.ApiPasses | client/proxy.ts:75 | an anonymous request to /api* passes |
| Proxy.NoRedirectLoop | client/proxy.ts:35-75 | every redirect target passes for the same visitor |
| Proxy.ProxyWithinMiddleware | client/proxy.ts:35-72 | every proxy redirect is also a middleware redirect, to the same place |
| Proxy.GatesDisagreeOnApi | client/proxy.ts:75 | an anonymous API request is refused by the middleware but passed by the proxy |
| Routing.PageGated | client/middleware.ts:95 | a path that starts with a slash, has no dot, and whose first character after the slash is neither `_` nor `f` is matched, so it reaches the gates |
| Routing.StaticFilesUngated | client/middleware.ts:95 | /_next/static/…, /_next/image, /favicon.ico and /logo.png are not matched, so they bypass the gates |
| AdminUsers.AdminOnly | client/app/admin/users/page.tsx:58-75 | the page renders iff the user's profile is approved and super_admin. /login iff there is no user. Otherwise /dashboard/sessions |
| AdminUsers.RenderPartitions | client/app/admin/users/page.tsx:78-89 | the pending and approved lists partition the fetched users by the approved flag |
| AdminUsers.RenderKeepsOrder | client/app/admin/users/page.tsx:77-89 | for newest-first fetched users, both lists are subsequences of them and stay newest first |
| AdminUsers.SetApprovedChangesOneFlag | client/app/admin/users/page.tsx:22-52 | only the named row changes, and only its approved flag |
| AdminUsers.SetApprovedIdempotent | client/app/admin/users/page.tsx:22-52 | setting a flag twice is setting it once, and the last setting wins |
| AdminUsers.RejectedIsPending | client/app/admin/users/page.tsx:37-52 | a rejected user is pending, exactly as one never approved |
| AdminUsers.ProfileTable.ApproveUser | client/app/admin/users/page.tsx:22-35 | the table afterwards is the flag set to true, or unchanged when the update fails |
| AdminUsers.ProfileTable.RejectUser | client/app/admin/users/page.tsx:37-52 | the table afterwards is the flag set to false, or unchanged when the update fails |
| MyActivity.Search | client/app/dashboard/my-activity/page.tsx:155-165 | an empty term returns the activities unchanged; otherwise every kept activity matches the lower-cased term |
| MyActivity.SearchKeepsMatches | client/app/dashboard/my-activity/page.tsx:155-165 | the result is an order-preserving subsequence, and an activity is kept iff its title, location, description or creator name contains the term |
| MyActivity.SearchIgnoresTermCase | client/app/dashboard/my-activity/page.tsx:158 | two terms with the same lower case give the same list |
| MyActivity.ResponseText | client/app/dashboard/my-activity/page.tsx:180-187 | "No response" iff the text is not one of the three statuses |
| MyActivity.ResponseTextAgreesWithCard | client/app/dashboard/my-activity/page.tsx:180-187 | each status is worded as on the session card: Coming, Maybe, Not coming |
| MyActivity.TotalIsCountSum | client/app/dashboard/my-activity/page.tsx:263 | "Total Activities" is created_sessions_count + responded_sessions_count |
| SessionFilters.ApplyChangesOneField | client/components/session/SessionFilters.tsx:39-44 | a change replaces the named key and leaves the other two |
| SessionFilters.ActiveIffNotDefaults | client/components/session/SessionFilters.tsx:46-54 | hasActiveFilters iff the record differs from the reset value, so it is false after a reset |
| SessionFilters.ToggleInvolution | client/components/session/SessionFilters.tsx:137 | the toggle flips asc/desc and nothing else; toggling twice restores the record |
| Schema.CountStatusSum | client/app/api/sessions/route.ts:63-67 | the three per-status counts add up to the number of responses |
| Schema.ParseStatus | client/app/api/responses/route.ts:37 | a parsed status spells the text, and no status spells a text that fails to parse |
| Schema.ParseStatusSpelled | client/app/api/responses/route.ts:37 | a text parses to a status exactly when it is "COMING", "NOT_COMING" or "TENTATIVE" |
| Sorting.SortByStable | client/app/api/users/activity/route.ts:140 | the sort keeps the input order among entries with equal keys |
| Seqs.FilterPartition | client/app/admin/users/page.tsx:88-89 | two complementary filters together hold every element once |

## Left out

- Database and auth calls: their results are inputs of the model, and their writes are map or
  sequence updates. Query building is left out too: `.range` pagination, ordering, `head: true`
  counts and the `updated_at` triggers. The session listing's query is a `SessionQuery` value
  handed to a `run` parameter.
- The activity route's `.range(offset, offset + limit - 1)` is not modelled: the rows it receives
  are taken as already paged.
- Cookie plumbing in both gates, `console.error` logging, async timing, promises and react-query
  caching are not modelled. `isPending` of the mutation is the class's own flag.
- JSON bodies are modelled as present-or-absent strings; a field of another JSON type is not
  modelled. A body that is not JSON, or is `null`, leads to the 500 of the surrounding `catch`.
  A number, string or boolean body has no fields and leads to the 400.
- String lengths are counted in Unicode scalar values (`|s|`), while JavaScript's `.length` counts
  UTF-16 code units, so a character at or above U+10000 counts once here and twice in the source.
  This concerns `CommentRules.ContentIssues`, `CommentRules.ParseComment`,
  `CommentRules.ParseCommentUpdate`, `CommentRules.SanitizeComment` (whose `.slice(0, 1000)` can
  split a surrogate pair in the source), `SessionValidation.TitleIssues`,
  `SessionValidation.DescriptionIssues`, `SessionValidation.LocationIssues` and
  `SessionValidation.ParseCreateComment`. The limits agree with the source for text without such
  characters.
- Host-local `Date` behaviour: DST is not modelled, and the time zone is a fixed offset
  parameter. The IST checks are IST only on a UTC host.
- Locale-dependent case conversion is modelled as ASCII lower-casing (`Text.Lower`).
- IEEE floating point is replaced by exact `real`s and integer ceiling division.
- `Analytics.Round` models `Math.round` on exact reals, not on doubles.
- UUID checks are a predicate parameter.
- CommentTree.BuildCommentTree: the final recursive sort is modelled on values, not in place. An
  input whose parent links are cyclic (only possible with duplicate ids) makes the source's
  `sortComments` recurse until the stack limit, so `buildCommentTree` throws a RangeError. The
  model's `None` stands for that thrown error.
- MyActivity.Matches assumes the `created_by` embedding is present. It comes from a non-null
  foreign key, so `created_by.name` does not throw.
- ResponseControls.Controls.HandleResponseChange requires that no mutation is pending. Its only callers are the buttons, and they are disabled while one is pending. `Controls.Click` covers a click in that state.
- SessionFilters.Apply takes a value of the key's own type; the source accepts `any`.
- Middleware.Decide and Proxy.Decide model the redirect path only: the query string that
  `nextUrl.clone()` keeps in the proxy is not modelled.
- Rendering, icons and date-fns formatting are not modelled, and neither is `formatErrorMessage`,
  which returns its argument's message.

## Findings

| source | as written | input that shows it | evidently intended | confidence | as-written member | corrected member |
|---|---|---|---|---|---|---|
| client/app/api/users/activity/route.ts:175-181 | the `catch` block uses `parseApiError` from error-handling.ts. That function returns a string, so `apiError.message` and `apiError.status` are undefined, and the reply is `{}` with the default status 200 | an exception `new Error("fetch failed")` thrown inside the `try` | a server error status with the error's message, as the other routes return | not executed | ActivityRoute.CaughtAsWritten, ActivityRoute.CaughtErrorLooksLikeSuccess | ActivityRoute.Caught, ActivityRoute.CaughtIsServerError |
