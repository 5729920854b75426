# Blogify moderation and account core in Dafny

Blogify is a small blog. Users sign up and write posts. Each post starts
PENDING, and administrators approve, reject or delete posts from an admin
console. This project models the decision logic of that system and proves its
properties:

- **Bulk moderation** (`BulkModeration`). This is the PATCH/DELETE endpoint for many posts.
  - Its guard ladder runs in this order: admin session, id array, status, then all ids exist.
  - After the guards, it updates or deletes over a post table held in a class with a `map` field.
- **Analytics** (`Analytics`). These are the counts the admin analytics endpoint reports:
  - global counts and counts inside the `days` window, with `parseInt` of the `days` query parameter;
  - the seven-day and six-month trends, built by loops;
  - the top five authors;
  - the rounded mean content length.
- **Credentials** (`Credentials`). The `authorize` decision chain: the lower-cased email, then the demo principal, then the user table and the password check. Also the `jwt` and `session` callbacks, which copy the role into the token and the session.
- **Registration** (`Registration`). The user and administrator sign-up endpoints, over a user table with unique ids and emails (`UserStore`).
- **Sign-up page** (`Signup`). The email pattern, the password rule, the per-field error map and the change handlers that maintain it, the order of the final checks, and the disabled state of the submit button.
- **Email normalisation** (`NormalizeEmails`). The maintenance loop that lower-cases every stored email.
- **Admin console** (`AdminAlerts`, `AdminDashboard`, `PostActions`, `PostPreview`):
  - the alert rules;
  - selection and filter handlers, and the request a bulk action sends;
  - which moderation buttons a post row and the preview dialog offer.

Shared pieces:

- `Domain` holds the entities: posts, users, statuses, roles and the session.
- `Text` holds the ECMAScript string operations the source relies on: `\s`, `trim()` and `toLowerCase()`.
- `Wrappers` holds `Option`.

Places where the source touches the outside world become parameters:

- The store generates new ids; each new id is an argument.
- `bcrypt.compare` is the argument `passwordMatches`.
- `hashPassword` supplies the argument `hash`.
- The local calendar is the `Clock`: the current instant, today's date, and where each local day and month starts.
- A store that raises during sign-in is `StoreView.Unavailable`.

## Model

| member | source | states |
|---|---|---|
| Domain.ParseStatus | src/app/api/admin/posts/bulk/route.ts:27 | a status name is accepted exactly when it is APPROVED, REJECTED or PENDING, and it maps back to that name |
| Text.ToLower | src/app/api/auth/register/route.ts:33 | `toLowerCase()` keeps the length, leaves no capital, and changes exactly the capital letters |
| Text.ToLowerFixesLowerCase | scripts/normalize-emails.js:24-26 | lower-casing leaves a string unchanged exactly when it has no capital letter |
| Text.ToLowerIdempotent | scripts/normalize-emails.js:24 | lower-casing twice equals lower-casing once |
| Text.Trim | src/app/api/auth/register/route.ts:10 | `trim()` yields the slice left after stripping white space at both ends; it is empty exactly for all-space input |
| Text.TrimIdempotent | src/app/api/auth/register/route.ts:49 | trimming twice equals trimming once |
| BulkModeration.CheckIds | src/app/api/admin/posts/bulk/route.ts:20-25 | the id guard passes exactly for a non-empty array; otherwise it gives 400 with the missing-ids message |
| BulkModeration.ValidatePatch | src/app/api/admin/posts/bulk/route.ts:10-32 | non-admin gives 401 first, then a bad id array gives 400, then a bad or missing status gives 400; it proceeds exactly when all three pass, carrying the ids and the parsed status |
| BulkModeration.ValidateDelete | src/app/api/admin/posts/bulk/route.ts:75-90 | non-admin gives 401 first, then the id-array guard; it proceeds exactly for an admin with a non-empty array |
| BulkModeration.MatchedCountExact | src/app/api/admin/posts/bulk/route.ts:35-45 | the number of rows found equals the array length exactly when every id exists and no id is repeated |
| BulkModeration.WithStatus | src/app/api/admin/posts/bulk/route.ts:48-54 | the update keeps the set of ids; listed existing posts get the status and the new updatedAt; every other post is unchanged |
| BulkModeration.WithStatusTwice | src/app/api/admin/posts/bulk/route.ts:48-54 | applying the same bulk status twice equals applying it once with the later timestamp |
| BulkModeration.PostTable.CountExisting | src/app/api/admin/posts/bulk/route.ts:35-38 | returns the number of distinct existing posts named |
| BulkModeration.PostTable.UpdateMany | src/app/api/admin/posts/bulk/route.ts:48-54 | the table becomes the status update of the listed ids; the count is the number of rows matched |
| BulkModeration.PostTable.DeleteMany | src/app/api/admin/posts/bulk/route.ts:106-108 | the listed ids are removed from the table; the count is the number of rows matched |
| BulkModeration.Patch | src/app/api/admin/posts/bulk/route.ts:5-60 | a refused guard returns its code and message and leaves the table unchanged; a missing or repeated id gives 404 and leaves the table unchanged; otherwise exactly the listed posts take the status, and the response echoes the ids with count = their number |
| BulkModeration.Delete | src/app/api/admin/posts/bulk/route.ts:70-114 | same guard outcomes as PATCH; on success exactly the listed posts are removed, and the response echoes the ids with count = their number |
| BulkModeration.DeleteRemovesExactly | src/app/api/admin/posts/bulk/route.ts:106-114 | after a successful delete, the remaining posts are exactly the unlisted ones, unchanged, and the table shrinks by the array length |
| UserStore.FindByEmail | src/auth.config.ts:41-43 | `findUnique` by email returns a row holding exactly that email, or `None` when no row has it |
| UserStore.WithEmail | scripts/normalize-emails.js:27-30 | an update of one row's email changes only that field of that row |
| UserStore.UserTable.Find | src/app/api/auth/register/route.ts:32-34 | the lookup answers as `FindByEmail` on the current rows |
| UserStore.UserTable.Create | src/app/api/auth/register/route.ts:47-53 | appends the row exactly when no row shares its id or email; otherwise the table is unchanged; the unique keys are kept |
| UserStore.UserTable.UpdateEmail | scripts/normalize-emails.js:27-30 | rewrites the email exactly when the id exists and no other row holds the email; it records the write and keeps the unique keys |
| Credentials.Authorize | src/auth.config.ts:16-68 | a missing field gives null; the demo pair (any case) gives the demo ADMIN principal; otherwise a principal is returned exactly when the store answers, a row holds the lower-cased email and the password check accepts its hash, and that principal carries the row's id, email, name and role |
| Credentials.AuthorizeIgnoresCase | src/auth.config.ts:22 | two addresses equal after lower-casing get the same answer |
| Credentials.DemoNeedsNoStore | src/auth.config.ts:26-37 | the demo pair is accepted even when the store is unavailable |
| Credentials.Token.OnJwt | src/auth.config.ts:72-77 | the token takes the user's role when a user is passed and is otherwise unchanged |
| Credentials.SessionUser.OnSession | src/auth.config.ts:78-84 | with a token, the session user takes the token's subject as its id and the token's role |
| Credentials.SignInChain | src/auth.config.ts:16-84 | after sign-in and both callbacks, the session role is the principal's role; with no principal there is no role |
| Registration.ValidateRegistration | src/app/api/auth/register/route.ts:10-29 | name, then email, then password; the first failing rule gives the message, and there is none exactly when all three hold |
| Registration.NewUser | src/app/api/auth/register/route.ts:47-53 | the stored row has the trimmed name (at least 2 characters), the lower-cased email, the given hash and role USER |
| Registration.Register | src/app/api/auth/register/route.ts:5-68 | a validation failure gives 400 with its message; an existing lower-cased email gives 400 duplicate; a unique-key clash at insert gives the same 400; otherwise 201 and exactly one row is appended |
| Registration.ValidateAdmin | src/app/api/auth/register-admin/route.ts:10-15 | refuses exactly when name, email or password is missing or empty; no length rule applies |
| Registration.NewAdmin | src/app/api/auth/register-admin/route.ts:33-40 | the stored row has role ADMIN and the name and email exactly as given |
| Registration.RegisterAdmin | src/app/api/auth/register-admin/route.ts:5-57 | as written: a missing field gives 400; an exact-case duplicate gives 400; otherwise 201 with role ADMIN and one row appended, or 500 when the insert clashes |
| Registration.RegisteredUserCanSignIn | src/app/api/auth/register/route.ts:47-53 | an account `register` created signs in with its address typed in any case |
| Registration.MixedCaseAdminCannotSignIn | src/app/api/auth/register-admin/route.ts:17-40 | an administrator registered with a capital letter in the email is refused at sign-in |
| Registration.MixedCaseAdminExample | src/app/api/auth/register-admin/route.ts:33-40 | the concrete request with email "Boss@Blog.com" stores a row whose own address cannot sign in |
| Registration.NewAdminLowercased | src/app/api/auth/register-admin/route.ts:33-40 | corrected: the stored administrator has the lower-cased email |
| Registration.RegisterAdminLowercased | src/app/api/auth/register-admin/route.ts:17-40 | corrected: the duplicate check and the insert use the lower-cased email; the outcomes are otherwise as written |
| Registration.LowercasedAdminCanSignIn | src/app/api/auth/register-admin/route.ts:33-49 | corrected: the new administrator signs in with the address in any case and gets role ADMIN |
| Signup.FirstAt | src/app/auth/signup/page.tsx:19 | the position of the first '@', or the length when there is none |
| Signup.ValidateEmailMatchesPattern | src/app/auth/signup/page.tsx:18-21 | `validateEmail` holds exactly for a string in the language of `/^[^\s@]+@[^\s@]+\.[^\s@]+$/` |
| Signup.FieldError | src/app/auth/signup/page.tsx:29-57 | an empty value has no error; email errs exactly when it fails the pattern, password when it is under 8 characters, and the confirmation when it differs from the password |
| Signup.ValidateField | src/app/auth/signup/page.tsx:29-57 | stores `FieldUpdate` of the copied map: only the key of the changed field is set or deleted; every other entry is kept; an unknown field leaves the map unchanged |
| Signup.ErrorsOf | src/app/auth/signup/page.tsx:29-57 | the map after each field was validated at its current value holds exactly the fields in error |
| Signup.InitialErrorsEmpty | src/app/auth/signup/page.tsx:14 | the empty starting map is the map of three empty fields |
| Signup.EmailChangeKeepsErrorsCurrent | src/app/auth/signup/page.tsx:162-165 | after the email handler the map reflects the new email and the other two fields |
| Signup.ConfirmChangeKeepsErrorsCurrent | src/app/auth/signup/page.tsx:221-224 | after the confirmation handler the map reflects the new confirmation, compared with the current password |
| Signup.PasswordChangeAsWritten | src/app/auth/signup/page.tsx:191-196 | as written: with a confirmation typed, the password key is left as it was and the confirmation is compared with the old password; without one, the new password's length is checked |
| Signup.OnPasswordChange | src/app/auth/signup/page.tsx:191-196 | as written: the handler's two `validateField` calls store the map `PasswordChangeAsWritten` gives |
| Signup.PasswordChange | src/app/auth/signup/page.tsx:191-196 | corrected: the password key reflects the new password's length and the confirmation is compared with the new password |
| Signup.PasswordChangeKeepsErrorsCurrent | src/app/auth/signup/page.tsx:191-196 | corrected: after the intended password handler the map reflects the new password and the other two fields |
| Signup.SampleEmailValid | src/app/auth/signup/page.tsx:18-21 | "a@b.co" passes `validateEmail` |
| Signup.StalePasswordErrorExample | src/app/auth/signup/page.tsx:191-196 | as written: shortening "abcdefgh" to "abcdefg" with a matching confirmation leaves the map empty and the button enabled, while the final checks block; the intended handler disables the button |
| Signup.HandleSubmit | src/app/auth/signup/page.tsx:59-90 | email, then password, then match: the first failure blocks with its message; otherwise the name, email and password are sent |
| Signup.EnabledSubmitSends | src/app/auth/signup/page.tsx:255 | corrected: when the button is enabled and the error map reflects the fields, the final checks pass and the form is sent |
| Signup.SentFormPassesServerRules | src/app/auth/signup/page.tsx:84-90 | any form the page sends passes the email and password rules of the registration endpoint |
| NormalizeEmails.CountNotLower | scripts/normalize-emails.js:21-34 | the number of rows needing a rewrite is at most the number of rows looked at |
| NormalizeEmails.IdsNotLower | scripts/normalize-emails.js:23-33 | the ids of the rows needing a rewrite, one per counted row |
| NormalizeEmails.CountNotLowerZero | scripts/normalize-emails.js:36-37 | no update is counted exactly when every email is already lower-case |
| NormalizeEmails.NormalizedPrefix | scripts/normalize-emails.js:23-33 | after n rows, those rows have lower-cased emails and all other rows are untouched |
| NormalizeEmails.LowercasedEmailsAreLower | scripts/normalize-emails.js:23-33 | after a complete run every email is lower-case, and id, name, hash and role are kept |
| NormalizeEmails.SecondRunUpdatesNothing | scripts/normalize-emails.js:26 | a second run finds nothing to rewrite and writes nothing |
| NormalizeEmails.StepPrefix | scripts/normalize-emails.js:27-30 | the store's rewrite of row i is exactly the next step of the normalised prefix |
| NormalizeEmails.StepKeep | scripts/normalize-emails.js:26 | a row already lower-case is not written and changes nothing |
| NormalizeEmails.Step | scripts/normalize-emails.js:24-33 | one loop pass: rewrites and counts a row that needs it, or reports that the store refused |
| NormalizeEmails.Normalize | scripts/normalize-emails.js:5-47 | an empty table is left alone with 0 updates; a complete run lower-cases every email, counts and writes exactly the rows that needed it; a failed write stops the run with the earlier rewrites kept |
| Analytics.Count | src/app/api/admin/analytics/route.ts:26-31 | a filtered count is at most the number of posts |
| Analytics.CountMonotone | src/app/api/admin/analytics/route.ts:34-63 | a narrower filter counts no more posts |
| Analytics.CountZero | src/app/api/admin/analytics/route.ts:73-80 | a count is zero exactly when no post passes the filter |
| Analytics.CountByStatus | src/app/api/admin/analytics/route.ts:34-63 | within a window, the three status counts add up to the window count, so each is at most it |
| Analytics.CountByStatusAll | src/app/api/admin/analytics/route.ts:26-31 | the three status counts add up to the total, so each is at most it |
| Analytics.CountSplit | src/app/api/admin/analytics/route.ts:73-80 | adjacent half-open ranges add up to the range they cover |
| Analytics.CountAdmins | src/app/api/admin/analytics/route.ts:160-163 | adminUsers is at most totalUsers, and equal exactly when every user is an administrator |
| Analytics.DigitRun | src/app/api/admin/analytics/route.ts:18 | `parseInt` reads the longest run of digits: every character of the run is a digit and the next one is not |
| Analytics.ParseDecimal | src/app/api/admin/analytics/route.ts:18 | `parseInt` of a decimal numeral followed by text that cannot continue it is the numeral's value |
| Analytics.ParseNegativeDecimal | src/app/api/admin/analytics/route.ts:18 | `parseInt` of '-' and a decimal numeral is the negated value |
| Analytics.WindowDays | src/app/api/admin/analytics/route.ts:18 | an absent or empty parameter means 30 days; any other text is read by `parseInt`, NaN included |
| Analytics.WindowDaysNumeral | src/app/api/admin/analytics/route.ts:18 | a decimal numeral gives its own value, and a minus sign before it the negated value |
| Analytics.WindowDaysSmall | src/app/api/admin/analytics/route.ts:18 | "0" means 0 days, not the default; "7" means 7 |
| Analytics.WindowDaysTrailingText | src/app/api/admin/analytics/route.ts:18 | text after the digits is ignored: "12abc" means 12 |
| Analytics.WindowDaysNaN | src/app/api/admin/analytics/route.ts:18 | text without digits, "abc", is NaN |
| Analytics.WindowStart | src/app/api/admin/analytics/route.ts:21-23 | a non-negative window starts no later than now |
| Analytics.DaysInMonth | src/app/api/admin/analytics/route.ts:128 | every month has 28 to 31 days |
| Analytics.DailyTrend | src/app/api/admin/analytics/route.ts:66-86 | seven entries, oldest first; entry j counts the posts from the midnight 6-j days ago to the next midnight |
| Analytics.DailyPrefixCovers | src/app/api/admin/analytics/route.ts:66-86 | the first n days together count the posts between their outer midnights |
| Analytics.DailyTrendCoversWeek | src/app/api/admin/analytics/route.ts:66-86 | the days are consecutive with offsets -6..0, and together they count exactly the posts from six days ago's midnight to tomorrow's |
| Analytics.MonthAfterSetMonth | src/app/api/admin/analytics/route.ts:127-128 | `setMonth(getMonth() - i)` lands i months back, or one month later exactly when today's day does not exist in the target month |
| Analytics.TrendMonthsAsWritten | src/app/api/admin/analytics/route.ts:125-130 | as written: the six months the loop visits |
| Analytics.TrendMonthsAsWrittenRepeat | src/app/api/admin/analytics/route.ts:125-130 | as written on 31 March 2024: October, December, December, January, March, March |
| Analytics.TrendMonths | src/app/api/admin/analytics/route.ts:125-130 | corrected: six consecutive months ending with the current one |
| Analytics.TrendMonthsAgreeEarlyInMonth | src/app/api/admin/analytics/route.ts:125-130 | up to the 28th of a month the loop as written visits the corrected months |
| Analytics.MonthlyTrend | src/app/api/admin/analytics/route.ts:125-145 | corrected: six entries, oldest first; entry j counts the posts from the first of the month 5-j months back to the first of the next month |
| Analytics.MonthlyPrefixCovers | src/app/api/admin/analytics/route.ts:125-145 | corrected: the first n months together count the posts between their outer month starts |
| Analytics.MonthlyTrendCoversHalfYear | src/app/api/admin/analytics/route.ts:125-145 | corrected: the months are consecutive and end with the current one; together they count the posts from five months back to the next month |
| Analytics.MonthlyTrendAsWritten | src/app/api/admin/analytics/route.ts:125-145 | as written: six entries, entry j counting the posts of the month the loop's `setMonth` lands in |
| Analytics.MonthlyTrendAsWrittenEarlyInMonth | src/app/api/admin/analytics/route.ts:125-145 | up to the 28th of a month the trend as written is the corrected one |
| Analytics.MonthlyTrendAsWrittenRepeats | src/app/api/admin/analytics/route.ts:125-145 | as written on 31 March 2024: December appears in two entries with equal counts and November in none |
| Analytics.ActiveAuthors | src/app/api/admin/analytics/route.ts:100-104 | exactly the users with at least one post appear, each with its post count |
| Analytics.NoAuthorsWithoutPosts | src/app/api/admin/analytics/route.ts:100-104 | with no posts nobody is an author |
| Analytics.PrependKeepsRanking | src/app/api/admin/analytics/route.ts:105-109 | an entry at least as large as the head of a ranking can go in front |
| Analytics.BoundAfterInsert | src/app/api/admin/analytics/route.ts:105-109 | a bound on a ranking and on the inserted entry bounds the result |
| Analytics.InsertKeepsRanking | src/app/api/admin/analytics/route.ts:105-109 | insertion keeps the order by post count and adds exactly one entry |
| Analytics.RankedSorts | src/app/api/admin/analytics/route.ts:105-109 | the ranking is non-increasing in post count and a permutation of its input |
| Analytics.FirstFiveDrawn | src/app/api/admin/analytics/route.ts:110 | the first five are drawn from the candidates |
| Analytics.FirstFiveBeatsRest | src/app/api/admin/analytics/route.ts:105-110 | a candidate left out has no more posts than the last one listed |
| Analytics.FirstFiveRanking | src/app/api/admin/analytics/route.ts:105-110 | at most five, ordered, drawn from the candidates, all of them when fewer than five, and none left out beats the last |
| Analytics.TopAuthorsRanking | src/app/api/admin/analytics/route.ts:89-111 | topAuthors has at most five users, each with at least one post, in non-increasing post count; nobody omitted wrote more than the last listed |
| Analytics.AvgContentLength | src/app/api/admin/analytics/route.ts:120-122 | 0 for no posts; otherwise the whole number nearest to the mean content length, halves rounded up |
| Analytics.OverviewOf | src/app/api/admin/analytics/route.ts:26-31 | pending + approved + rejected = total = number of posts, and adminUsers is at most totalUsers |
| Analytics.RecentOf | src/app/api/admin/analytics/route.ts:34-63 | the windowed counts use the closed window [now - days, now], and the status counts add up to `recent.posts`; activity24h counts the posts since 24 hours ago |
| Analytics.GetAnalytics | src/app/api/admin/analytics/route.ts:5-202 | corrected: non-admin gives 401; a NaN `days` gives 500; otherwise the report holds the overview, the window counts, 7 daily and 6 monthly entries as above, the top authors, the mean length and the window length |
| Analytics.EmptyTableReport | src/app/api/admin/analytics/route.ts:120-122 | with no posts every count, every trend entry and the mean are 0, and there are no top authors |
| AdminAlerts.RoundedPercent | src/app/admin/AdminAlerts.tsx:37 | the exact percentage rounded to the nearest whole number, halves up; 0 when total is 0 |
| AdminAlerts.RateThresholds | src/app/admin/AdminAlerts.tsx:33-52 | above ten posts, "rate < 50" means 2·approved < total and "rate > 30" means 10·rejected > 3·total |
| AdminAlerts.BuildAlerts | src/app/admin/AdminAlerts.tsx:13-62 | the alert list built by the sequential pushes equals the rule list |
| AdminAlerts.AlertRules | src/app/admin/AdminAlerts.tsx:15-62 | each alert is present exactly when its rule fires; the list is empty exactly when 1 to 5 posts are pending and no rate alert fires |
| AdminAlerts.AlertsOrdered | src/app/admin/AdminAlerts.tsx:13-62 | at most three alerts in the order pending, approval, rejection; the all-clear alert always stands alone |
| AdminAlerts.AlertStyle | src/app/admin/AdminAlerts.tsx:66-77 | the blue style exactly for a kind that is not error, warning or success |
| AdminAlerts.AlertIcon | src/app/admin/AdminAlerts.tsx:79-90 | the info icon exactly for a kind that is not error, warning or success |
| AdminAlerts.StyleMatchesIcon | src/app/admin/AdminAlerts.tsx:66-90 | two kinds share a style exactly when they share an icon |
| AdminAlerts.Render | src/app/admin/AdminAlerts.tsx:64-114 | nothing for an empty list; otherwise one card per alert, in order, with its style, icon and a badge on high priority |
| AdminAlerts.AdminAlertsPanel | src/app/admin/AdminAlerts.tsx:12-117 | the panel renders nothing exactly when 1 to 5 posts are pending and no rate alert fires; otherwise it shows 1 to 3 cards |
| AdminDashboard.FilteredPosts | src/app/admin/AdminDashboard.tsx:166-177 | a post is listed exactly when it is in the table and the tab shows its status |
| AdminDashboard.FilteredPostsAppend | src/app/admin/AdminDashboard.tsx:166-177 | filtering works piece by piece, so the table order is kept |
| AdminDashboard.AllTabListsEverything | src/app/admin/AdminDashboard.tsx:174-175 | the 'all' tab lists every post, in order |
| AdminDashboard.RemoveAll | src/app/admin/AdminDashboard.tsx:99 | the filter drops every occurrence of the id and keeps every other id |
| AdminDashboard.RemoveAbsent | src/app/admin/AdminDashboard.tsx:99 | removing an id that is not there changes nothing |
| AdminDashboard.RemoveAppended | src/app/admin/AdminDashboard.tsx:99-100 | removing an id just appended gives back the list before the append |
| AdminDashboard.RemoveKeepsDistinct | src/app/admin/AdminDashboard.tsx:99 | removal keeps a list without repeats free of repeats |
| AdminDashboard.RemoveAllShrinks | src/app/admin/AdminDashboard.tsx:99 | removing a present id shortens the list |
| AdminDashboard.TogglePostSelection | src/app/admin/AdminDashboard.tsx:96-102 | flips the id's membership: a present id is removed everywhere, an absent id is appended at the end; no other id changes |
| AdminDashboard.ToggleTwice | src/app/admin/AdminDashboard.tsx:96-102 | toggling the same id twice restores the selection as a set, and restores the very list when the id was absent |
| AdminDashboard.ToggleKeepsDistinct | src/app/admin/AdminDashboard.tsx:96-102 | toggling never repeats an id |
| AdminDashboard.Ids | src/app/admin/AdminDashboard.tsx:108 | the ids of the listed posts, in order |
| AdminDashboard.ToggleSelectAll | src/app/admin/AdminDashboard.tsx:104-110 | clears the selection when it is as long as the list, and otherwise selects exactly the listed ids in order |
| AdminDashboard.SelectAllTestMeansAllSelected | src/app/admin/AdminDashboard.tsx:105 | for a selection of listed ids without repeats, the length test means "every listed post is selected" |
| AdminDashboard.ClearSelection | src/app/admin/AdminDashboard.tsx:112-114 | empties the selection and changes nothing else |
| AdminDashboard.SetActiveFilter | src/app/admin/AdminDashboard.tsx:161-164 | changing the tab always empties the selection |
| AdminDashboard.BulkRequestFor | src/app/admin/AdminDashboard.tsx:120-124 | delete sends DELETE with only the ids; approve and reject send PATCH with APPROVED and REJECTED |
| AdminDashboard.ConsoleRequestsPassGuards | src/app/admin/AdminDashboard.tsx:116-132 | an admin's request for a non-empty selection passes every bulk guard that needs no store access, with the status the button names |
| AdminDashboard.AfterBulk | src/app/admin/AdminDashboard.tsx:134-147 | a success clears the selection, a failure keeps it, and loading ends either way |
| PostActions.OfferedActions | src/app/admin/AdminPostActions.tsx:80-126 | Approve exactly for PENDING or REJECTED; Reject exactly for PENDING or APPROVED; Delete always, last; no action targets the current status; no button twice |
| PostPreview.StatusBadge | src/app/admin/PostPreviewModal.tsx:33-42 | green exactly for APPROVED, red exactly for REJECTED, yellow exactly otherwise |
| PostPreview.FooterFor | src/app/admin/PostPreviewModal.tsx:100-162 | the review footer exactly for PENDING (Reject, Approve); APPROVED shows Reject and View Live; REJECTED shows Approve; other statuses show no button |
| PostPreview.RenderDialog | src/app/admin/PostPreviewModal.tsx:31-67 | nothing exactly when closed or without a post; otherwise the title, the badge and the footer of the post's status |
| PostPreview.DialogAgreesWithRowActions | src/app/admin/PostPreviewModal.tsx:100-162 | for every status, the dialog offers Approve and Reject exactly when the post row does |

## Left out

- The store is a `map` (posts) or a `seq` with unique ids and emails (users). Prisma's query semantics are not modelled. The race between the existence check and `updateMany`/`deleteMany` is not modelled either; without it, the affected count always equals the array length.
- The internal-error (500) responses of the bulk endpoint, and of the analytics endpoint other than for a NaN `days`, are not modelled, nor the generic 500 of `register` for errors other than a unique-key clash. A malformed JSON body is not modelled either.
- `bcrypt.compare` is the parameter `passwordMatches`, and `hashPassword` produces the parameter `hash`; neither is modelled.
- Calendar arithmetic is abstract. Day and month starts come from `Clock.midnight` and `Clock.monthStart`.
  - Time zones, DST, `toISOString` and `toLocaleDateString` labels are left out. Each trend entry carries its day offset or month index instead of a label.
  - `Analytics.DaysInMonth` and `Analytics.MonthAfterSetMonth` model just enough of `setMonth` to state the finding below.
- Analytics.WindowStart: the window start is `now - days * 86400000`. `setDate` keeps the local time of day, which differs from this across a DST change.
- Analytics.ParseInt: the result is an exact integer. `parseInt` returns a double, which loses precision beyond 2^53, and a window start outside the range of `Date` is not modelled.
- Analytics.GetAnalytics: a NaN `days` makes the window start an Invalid Date. The model assumes the store then throws, so the route's catch answers 500; Prisma's handling of that value is not modelled.
- `Promise.all` parallelism is left out. It only orders independent reads.
- Floating point is left out. The alert thresholds and `Math.round` are stated in exact integer arithmetic.
- AdminAlerts.RoundedPercent: rounds the exact ratio. The page rounds the double `(part / total) * 100`, which can land just below a half: 29 of 200 shows 14 (the model gives 15) and 23 of 40 shows 57 (the model gives 58). The thresholds compare with 50 and 30 and are not affected.
- Text.ToLower: lower-cases only the Latin capitals A-Z, not the full Unicode case mapping of `toLowerCase()`.
- String lengths (password length, content length) count code points, not UTF-16 code units.
- Analytics.TopAuthorsRanking: the store's order among authors with equal post counts is unspecified. The model keeps table order (a stable sort), and the lemma states only what holds for any tie order.
- Request bodies are strings or absent. Other JSON values (numbers, objects) in `name`, `email`, `password` or `status` are not modelled.
- Rendering, routing, `fetch`, `router.refresh()` and `alert()` are left out. The console handlers are functions from old state to new state. `AfterBulk` takes the request's outcome as an argument.
- The text of button labels and alert messages is not modelled. Alerts carry a `Message` value with the numbers that would be interpolated. The garbled characters in the preview dialog's button labels are display-only.
- The per-post approve, reject and delete requests of the row buttons are left out; only which buttons appear is modelled.
- The console output of the normalisation script and `prisma.$disconnect()` are left out.
- Analytics.MonthlyTrend: models the corrected month sequence, not the one the loop computes on the 29th to 31st of a month. `Analytics.MonthlyTrendAsWritten` models the loop as written, and `Analytics.GetAnalytics` uses the corrected trend (see Findings).
- Signup.EnabledSubmitSends: holds while the error map reflects the current fields. The email and confirmation handlers keep it so, and so does the intended password handler; the password handler as written does not (see Findings).

## Findings

| source | as written | input that shows it | evidently intended | confidence | as-written member | corrected member |
|---|---|---|---|---|---|---|
| src/app/api/auth/register-admin/route.ts:17-40 | The duplicate check and the insert use the email exactly as given. Sign-in (src/auth.config.ts:22, 41-43) looks up the lower-cased address. | Registering an administrator with email "Boss@Blog.com" stores that string. Signing in with "Boss@Blog.com" then looks up "boss@blog.com" and finds nothing. | Store and check the lower-cased email, as `register` does (src/app/api/auth/register/route.ts:33, 50) | high, not executed | Registration.MixedCaseAdminExample | Registration.LowercasedAdminCanSignIn |
| src/app/api/admin/analytics/route.ts:126-130 | `date.setMonth(date.getMonth() - i)` starts from today's day of month. When that day does not exist in the target month, the date rolls into the following month. | On 31 March 2024 the loop visits October, December, December, January, March, March. November and February are missing, and December and March are counted twice. | Six consecutive months ending with the current one, e.g. by taking the month from the first of the current month | high, not executed | Analytics.MonthlyTrendAsWrittenRepeats | Analytics.MonthlyTrendCoversHalfYear |
| src/app/auth/signup/page.tsx:191-196 | The password handler calls `validateField` twice. Each call copies the map of the current render and compares against that render's password, and the second map replaces the first. | Password and confirmation "abcdefgh", no errors. Changing the password to "abcdefg" stores an empty map, so the button stays enabled, but submitting shows the length error. | Chain the two checks and compare against the new password, so the map reflects every field | high, not executed | Signup.StalePasswordErrorExample | Signup.PasswordChangeKeepsErrorsCurrent |
