# GjejPune backend — a Dafny model

GjejPune is a job board backend. Applicants (users) and businesses have
accounts and verify their e-mail addresses. Approved businesses publish job
postings, and an administrator approves postings and businesses. Applicants
apply with a cover letter and a CV. Each application opens a conversation
between the applicant and the business, with read state and unread counts.
Postings, applications and messages raise notifications for the parties.

This project models the core of that backend as pure functions over one
immutable store (`Store.Db`). It proves properties about them:

- **Models** (`UserModel`, `BusinessModel`, `JobModel`, `ApplicationModel`,
  `MessageModel`, `NotificationModel`, `EmailAttemptModel`): the schema
  rules of each collection. These are the setters (trim, lower-case), the
  validators, the enums, the defaults and the expiry windows.
- **Authentication** (`AuthGate`, `Accounts`, `AccountStore`, `UserRoutes`,
  `Verification`, `EmailTemplates`, `Validation`):
  - the bearer-token gate and the admin gate;
  - registration and login;
  - e-mail verification, resending it and password reset;
  - the per-e-mail attempt limiter and the password policy.
- **Middleware** (`RateLimiter`, `Security`, `FileUpload`): the e-mail
  domain check, the input sanitiser and the upload file filter.
- **Messaging** (`AccessCache`, `Messaging`, `Conversations`):
  - the conversation access check and its cache;
  - posting a message;
  - listing a conversation, which marks it read;
  - the unread count;
  - the paged list of conversations.
- **Notifications** (`NotificationsRoute`): the paged list, marking read,
  marking all read, deletion and the unread count.
- **Jobs** (`JobPostings`, `JobApplications`): the business and owner
  gates, creating, updating and deleting postings, approval, listings,
  applying, and application status updates.
- **Businesses and users** (`BusinessesRoute`, `ProfileUpdate`,
  `UsersRoute`, `Storage`):
  - the public business directory with its filter-string parser;
  - the profile update with interests;
  - the users list and the account deletion cascade;
  - the object-storage file names, URLs and keys.
- **Shared pieces** (`Base`, `Json`, `Strings`, `Sorting`, `Paging`):
  - JavaScript values and truthiness;
  - `String.prototype.trim` and `split`/`join`;
  - a stable newest-first sort;
  - the page arithmetic every list shares.

Things outside the program are given to the functions as parameters:

- the clock;
- random bytes;
- the outcome of sending an e-mail or creating a notification;
- password hashing and token signing.

A handler's reply is a `Result` holding either the JSON body or a `Fail`
with the HTTP status and error text the source sends.

## Model

| member | source | states |
|---|---|---|
| AccessCache.View | src/routes/v1/messages.js:43-46 | the loaded snapshot exists exactly when the application is stored, and carries its id |
| AccessCache.Decide | src/routes/v1/messages.js:52-57 | the comparison throws exactly for a non-`user` requester whose application lost its job; otherwise it answers whether the requester is a party (the applicant for `user`, the job's business for anything else) |
| AccessCache.CacheKeyInjective | src/routes/v1/messages.js:31 | the `application:user:type` key determines its three parts when the ids hold no colon |
| AccessCache.CacheKeyCollision | src/routes/v1/messages.js:31 | two different pairs of ids share a key once an id contains a colon |
| AccessCache.Check | src/routes/v1/messages.js:24-72 | a cached entry answers (grant with its snapshot, or 403) without touching the cache; a missing application is 404 and caches nothing; a job-less application asked by a business is 500; any decision made is cached with the current time before it is enforced |
| AccessCache.FreshCheckIsPartyTest | src/routes/v1/messages.js:43-64 | with an empty cache: 404 iff the application is missing, grant iff the requester is a party, 500 iff a business asks about a job-less application |
| AccessCache.HitIgnoresStoreAndAge | src/routes/v1/messages.js:34-40 | a cache hit gives the same answer against any store at any time: entries are never checked for age |
| AccessCache.CoherentCacheIsTransparent | src/routes/v1/messages.js:24-72 | while the store is unchanged, a coherent cache answers as an empty one would and stays coherent |
| AccessCache.StaleGrantSurvivesDeletion | src/routes/v1/messages.js:34-40 | after the application is deleted, the cached grant still admits the applicant while a fresh check says 404 |
| AccessCache.Sweep | src/routes/v1/messages.js:75-82 | an entry survives the cleanup iff it is at most one TTL old, and survivors are unchanged |
| AccessCache.SweepEntries | src/routes/v1/messages.js:77-81 | the entry-by-entry deletion loop computes exactly the sweep |
| AccessCache.SweepKeepsCoherent | src/routes/v1/messages.js:75-82 | the cleanup only forgets decisions, so a coherent cache stays coherent |
| AccessCache.ServedAgeBound | src/routes/v1/messages.js:75-82 | with a sweep every TTL, an entry that survived the last sweep is served less than two TTLs after it was made |
| Accounts.NormalizeEmail | src/models/User.js:6-12 | the `trim` and `lowercase` setters give a trimmed address no longer than the input |
| Accounts.NormalizeEmailIdempotent | src/models/Business.js:5-11 | normalising a stored address again changes nothing, so a query with the stored address finds it |
| Accounts.SavedPasswordMatches | src/models/User.js:105-114 | a password set and saved matches that text and no other; a second save that does not touch it keeps it matching; a second hash would not |
| Accounts.Redact | src/models/User.js:77-84 | the transform removes the password and every token and expiry property and keeps every other property's value |
| Accounts.RedactKeepsPublic | src/models/Business.js:95-102 | a property present before the transform is present after it exactly when it is not a secret |
| UserModel.ValidateInterests | src/models/User.js:88-99 | the interests are accepted iff there are at most three, pairwise distinct, each naming an existing category; too many is reported before duplicates |
| UserModel.ToJson | src/models/User.js:74-85 | the JSON form adds the `id` and `fullName` virtuals, drops every secret and shows every other stored property unchanged |
| UserModel.ToJsonHidesSecrets | src/models/User.js:77-84 | the password hash and both tokens never appear in a user's JSON while the e-mail does |
| BusinessModel.ToJson | src/models/Business.js:93-104 | the JSON form drops every secret, keeps every other property, and adds no virtuals |
| BusinessModel.ToJsonShowsApproval | src/models/Business.js:80-102 | the approval flag survives the transform |
| AccountStore.FindUserByEmail | src/models/User.js:6-12 | a lookup by e-mail normalises the query value the same way as the stored one and finds a user iff one has that normal form |
| AccountStore.FindBusinessByEmail | src/models/Business.js:5-11 | the same normalised lookup on businesses |
| AccountStore.UpdatesKeepDistinctIds | src/models/User.js:5-9 | an id-preserving update keeps ids distinct within and across both account collections |
| Store.FindUser | src/routes/v1/users.js:40 | a lookup by id finds a stored user with that id iff one exists |
| EmailAttemptModel.ParsePurpose | src/models/EmailAttempt.js:10-14 | the `type` enum accepts exactly `verification` and `password_reset` |
| EmailAttemptModel.ExpiryWindow | src/models/EmailAttempt.js:28 | a record stays for one hour (3600 seconds) after its last attempt and is dropped after that |
| MessageModel.Create | src/models/Message.js:3-41 | a message is created iff its trimmed content is non-empty and at most 2000 UTF-16 code units long, and a too-long one is refused as too long; it stores the trimmed content, unread, with both timestamps at now and the given parties and application |
| ApplicationModel.ParseStatus | src/models/JobApplication.js:14-18 | the status enum accepts only the names of the three statuses |
| ApplicationModel.ParseStatusComplete | src/models/JobApplication.js:14-18 | each of pending, accepted and rejected is accepted as itself |
| ApplicationModel.Create | src/models/JobApplication.js:1-37 | an application is created iff the CV and phone number are non-empty; it is pending, applied at now, with the cover letter trimmed |
| ApplicationModel.Insert | src/models/JobApplication.js:40 | the unique index refuses an insert exactly when the user already applied to the job, and otherwise appends while keeping pairs unique |
| Messaging.CheckContent | src/routes/v1/messages.js:368-378 | a falsy content or a blank string is "required", a truthy non-string is 500, then an untrimmed length over 2000 UTF-16 code units is refused; what passes is stored trimmed and satisfies the schema |
| Messaging.RouteContentFitsSchema | src/routes/v1/messages.js:372-378 | everything the route accepts the schema accepts, and a padded text whose trimmed form fits is still refused by the route |
| Messaging.Touch | src/routes/v1/messages.js:400-403 | only the application with the id gets the new `updatedAt` |
| Messaging.TouchKeepsViews | src/routes/v1/messages.js:400-403 | touching an application leaves every conversation snapshot unchanged |
| Messaging.SendEffect | src/routes/v1/messages.js:366-429 | a post succeeds iff the content passes and the job exists; it appends one message from the requester to the other party with the opposite collection, trimmed and unread, adds a `NEW_MESSAGE` notification to that recipient only when creating it succeeds, and touches no account or job; refused content writes nothing |
| Messaging.PostMessage | src/routes/v1/messages.js:366 | a denied, missing or failed access check answers with its status and writes only the cache; a granted one keeps the cache it produced |
| Messaging.PostKeepsConversationsWellFormed | src/routes/v1/messages.js:381-396 | with a coherent cache, every stored message stays addressed between the two parties of its application, and the cache stays coherent |
| Messaging.SendKeepsWellFormed | src/routes/v1/messages.js:381-396 | a post by a party keeps every message well addressed and every snapshot unchanged |
| Messaging.UnreadCount | src/routes/v1/messages.js:432-437 | the count is the number of stored messages addressed to the requester and still unread, in every conversation, and it is zero exactly when there is none |
| Messaging.MarkRead | src/routes/v1/messages.js:336-343 | exactly the unread messages of the conversation addressed to the requester become read; all others are unchanged |
| Messaging.MarkReadCounts | src/routes/v1/messages.js:336-343 | marking read lowers the requester's unread count by the number of matched messages and leaves none of them unread |
| Messaging.MarkReadIdempotent | src/routes/v1/messages.js:336-343 | marking read twice is marking read once |
| Messaging.ListMessages | src/routes/v1/messages.js:304-358 | the page is the conversation newest first, skipping `(page - 1) * 30` and taking 30, with the page clamped to at least 1 and the pagination of the conversation's size; the store changes only when the page is non-empty, and then by marking read |
| Messaging.GetMessages | src/routes/v1/messages.js:304 | the access check runs first; a denial answers its status and leaves the store alone; a grant gives the handler's page and writes |
| Messaging.ListingMarksConversationRead | src/routes/v1/messages.js:335-343 | after a non-empty page the requester has no unread message in that conversation, the global count drops by exactly the flipped messages, and every other recipient's count is unchanged |
| Conversations.Candidates | src/routes/v1/messages.js:96-100 | a user sees exactly their own applications; any other requester sees exactly the applications to jobs it owns |
| Conversations.Rows | src/routes/v1/messages.js:101-223 | one row per candidate application that has a message, each carrying the newest message of its conversation and the requester's unread count there |
| Conversations.Format | src/routes/v1/messages.js:256-281 | a row formats iff its applicant, job and business all exist (otherwise the request fails with 500); `isOwnMessage` holds iff the requester sent the last message as its own party |
| Conversations.FormatAll | src/routes/v1/messages.js:256-281 | the page formats iff every row does, and then row by row |
| Conversations.TotalAsWritten | src/routes/v1/messages.js:232-283 | for a user the total is the number of conversations; for a business it is always 0 |
| Conversations.ListWith | src/routes/v1/messages.js:87-296 | the page is the rows newest-last-message first, skipping `(page - 1) * 30` and taking 30, with the clamped page number and the pagination of the given total |
| Conversations.RowsOrdered | src/routes/v1/messages.js:224-225 | the listed rows are ordered by last-message time, newest first, and each row's last message is the newest of its conversation |
| Conversations.UserTotalsAgree | src/routes/v1/messages.js:234-235 | for a user the route as written and the corrected route give the same answer |
| Conversations.BusinessTotalIsZero | src/routes/v1/messages.js:232-252 | a business with one conversation receives it on page 1 with a pagination of total 0 and 0 pages |
| Conversations.CorrectedPaginationConsistent | src/routes/v1/messages.js:283-296 | with the total counted over the listed rows, pages 1 to `totalPages` cover every conversation once and `hasNextPage` holds iff the next page is non-empty |
| NotificationModel.ParseKind | src/models/Notification.js:14-28 | the `type` enum accepts a string only as the tag of the kind it returns |
| NotificationModel.ParseKindComplete | src/models/Notification.js:14-28 | each of the nine tags is accepted as its own kind, so the tags are pairwise distinct |
| NotificationModel.Create | src/models/Notification.js:3-50 | a notification is saved iff recipient, title and message are non-empty; it is unread, created at now, and keeps every field of the draft |
| NotificationModel.ExpiryWindow | src/models/Notification.js:45-49 | a notification is expired exactly when more than 30 days (in milliseconds) have passed since its creation |
| NotificationsRoute.UnreadCount | src/routes/v1/notifications.js:66-77 | the count is the number of positions holding an unread notification addressed to the requester, and it is zero exactly when there is none |
| NotificationsRoute.ListedIds | src/routes/v1/notifications.js:53 | an id is listed iff it occurs as a string in the request's array |
| NotificationsRoute.SetRead | src/routes/v1/notifications.js:51-57 | exactly the matched notifications become read, positions and every other field unchanged |
| NotificationsRoute.MarkRead | src/routes/v1/notifications.js:43-63 | a non-array body is a 400 that writes nothing; an array marks read the listed notifications of the requester and touches no other collection |
| NotificationsRoute.MarkReadOnlyOwnListed | src/routes/v1/notifications.js:51-57 | only `read` changes, it changes only on a listed notification owned by the requester, and each such notification ends up read |
| NotificationsRoute.MarkAllRead | src/routes/v1/notifications.js:80-102 | `modifiedCount` is the number that were unread, and the unread count reported afterwards is 0 |
| NotificationsRoute.MarkAllCounts | src/routes/v1/notifications.js:82-96 | after marking all read the requester has no unread notification |
| NotificationsRoute.MarkAllKeepsOthers | src/routes/v1/notifications.js:83-85 | marking all read leaves every other recipient's unread count unchanged |
| NotificationsRoute.FindOwned | src/routes/v1/notifications.js:111-114 | finds the first notification with the id that the requester owns, or reports there is none |
| NotificationsRoute.Delete | src/routes/v1/notifications.js:109-128 | without an owned notification of that id the answer is 404 and nothing is removed; otherwise exactly that notification is removed and the reply carries the unread count afterwards |
| NotificationsRoute.DeleteKeepsOthers | src/routes/v1/notifications.js:111-114 | a delete removes at most one notification and never one addressed to someone else |
| NotificationsRoute.ListAsWritten | src/routes/v1/notifications.js:10-11 | every list request answers 500, because the page-size constant is not declared in this file |
| NotificationsRoute.MinePage | src/routes/v1/notifications.js:15-18 | page p holds the requester's notifications at positions (p-1)*30 onwards of the newest-first order, 30 of them or as many as remain |
| NotificationsRoute.ListCorrected | src/routes/v1/notifications.js:8-36 | the list succeeds with the requester's notifications newest first, 30 a page, and the pagination of their number |
| NotificationsRoute.CorrectedCoversAll | src/routes/v1/notifications.js:8-36 | walking the corrected list from page 1 to its `totalPages` gives every notification of the requester exactly once, newest first |
| NotificationsRoute.CorrectedHasNext | src/routes/v1/notifications.js:24-33 | `hasNextPage` of the corrected list is true exactly when the next page is not empty |
| NotificationsRoute.ListFinding | src/routes/v1/notifications.js:8-40 | the handler as written fails with 500, while every notification addressed to the requester appears on one of the corrected list's pages 1 to `totalPages` |
| JobModel.Create | src/models/Job.js:3-44 | a posting is saved iff business, trimmed title, description, requirements, salary and category are all present; the requirements check answers its own error; the saved posting is valid, has the trimmed title, is created at now and is unapproved unless approval is given |
| JobModel.ExpiresAt | src/models/Job.js:69-75 | a posting has an expiry iff it is unapproved, and then it is 30 days in milliseconds after creation |
| JobModel.ApprovedNeverExpires | src/models/Job.js:69-75 | an approved posting never expires, and no posting expires within 30 days of its creation |
| JobPostings.EnsureBusiness | src/routes/v1/jobs.js:18-38 | passes iff the requester is a stored business that is approved; a missing business and an unapproved one are both 403, with different messages |
| JobPostings.FindOwnedJob | src/routes/v1/jobs.js:44-47 | finds a stored posting iff one has the id and belongs to the requester |
| JobPostings.EnsureJobOwner | src/routes/v1/jobs.js:41-58 | passes iff the requester owns a posting with the id; a posting owned by someone else gets the same 404 as a missing one |
| JobPostings.OwnerGateIsExclusive | src/routes/v1/jobs.js:41-58 | with unique posting ids, no second business passes the owner gate for a posting the first one passes |
| JobPostings.TextPresent | src/routes/v1/jobs.js:119-123 | `v?.trim()` throws exactly on a non-nullish non-string, and is truthy exactly on a non-blank string |
| JobPostings.EntriesPresent | src/routes/v1/jobs.js:121 | the entry filter throws iff some entry is a non-nullish non-string, and otherwise finds an entry iff some entry is a non-blank string |
| JobPostings.RequirementsPresent | src/routes/v1/jobs.js:121 | requirements count as present only for an array; anything else is falsy |
| JobPostings.MissingFields | src/routes/v1/jobs.js:118-128 | building the check throws (500) iff some checked field's trim throws; otherwise the missing fields are exactly the falsy ones, in declaration order, with the category checked on create only |
| JobPostings.MissingMeans | src/routes/v1/jobs.js:118-128 | a text field is missing iff it is not a non-blank string; the requirements are missing iff they are not an array holding a non-blank string; the category is missing only on create |
| JobPostings.FormatCheckUnreachable | src/routes/v1/jobs.js:121-143 | a non-array requirements value is already reported as missing, so the "Invalid requirements format" answer is never given |
| JobPostings.TrimEntries | src/routes/v1/jobs.js:171 | trimming the entries succeeds iff every entry is a string, and trims each in place |
| JobPostings.CleanRequirements | src/routes/v1/jobs.js:171 | cleaning the requirements succeeds iff every entry is a string |
| JobPostings.CleanRequirementsShape | src/routes/v1/jobs.js:171 | every stored requirement is trimmed and non-empty, every non-blank entry is kept trimmed, and one survives whenever the presence check passed |
| JobPostings.InterestNotices | src/routes/v1/jobs.js:190-205 | one unread `NEW_JOB_IN_INTEREST` notice per interested user, addressed to that user and naming the posting |
| JobPostings.CreateJob | src/routes/v1/jobs.js:113-217 | any refusal writes nothing; a created posting needs an approved business as requester, is the requester's, unapproved, valid, with the trimmed title, description and salary, the given known category and the cleaned requirements of the body; it is appended, and the interested users are notified only when the batch insert succeeds; nothing else changes |
| JobPostings.CreateRejectsSelfApproval | src/routes/v1/jobs.js:145-151 | a complete body with `approved: true` is refused with 403 and stores nothing |
| JobPostings.NoticesReachInterested | src/routes/v1/jobs.js:184-198 | every notice goes to a stored user interested in the category, and every such user gets one |
| JobPostings.UpdateJob | src/routes/v1/jobs.js:351-401 | any refusal writes nothing; a success requires an approved business owning the posting and replaces only its title, description and salary by the trimmed body values and its requirements by the cleaned body list, keeping it valid |
| JobPostings.UpdateKeepsApproval | src/routes/v1/jobs.js:394-398 | an update leaves the approval flag of every stored posting unchanged |
| JobPostings.DeletedNotices | src/routes/v1/jobs.js:438-453 | at most one `JOB_DELETED` notice per application, each addressed to the applicant of some application and naming that application; when every applicant id is present, exactly one per application, in order, the i-th to the i-th applicant |
| JobPostings.DeleteJob | src/routes/v1/jobs.js:423-467 | a 403 or 404 writes nothing; a 500 happens exactly when the caller is an approved business owning the posting and some application to it has lost its applicant, and then only notices are added, each a `JOB_DELETED` notice to an existing applicant of the posting (those started before the throw); a success requires the approved business, the owned posting and every applicant present, removes the posting and its applications, keeps messages, users and businesses, and appends exactly the deletion notices for the posting's applications when notification saving succeeds |
| JobPostings.DeleteRemovesExactly | src/routes/v1/jobs.js:456-460 | after a delete a posting or application is stored iff it was stored before and does not belong to the deleted posting |
| JobPostings.SetApproval | src/routes/v1/jobs.js:832-870 | a non-boolean is a 400 and a missing posting a 404, neither writing; otherwise only the approval flag changes and the owning business gets notices whose kind is approval iff the flag is true |
| JobPostings.ApprovalStopsExpiry | src/routes/v1/jobs.js:846-847 | an approved posting never expires afterwards |
| JobPostings.ChooseSort | src/routes/v1/jobs.js:259-266 | a search sorts by text score; otherwise `sort=salary` sorts by salary, descending iff `order=desc`; anything else sorts newest first |
| JobPostings.ListJobs | src/routes/v1/jobs.js:234-296 | the page is the matching postings in the chosen order, skipping `(page - 1) * 30` and taking 30, and the pagination counts all matches |
| JobPostings.ListedJobsMatch | src/routes/v1/jobs.js:239-266 | every listed posting is stored, approved and meets each filter given; salaries ascend unless `order=desc`, and without a search or salary sort the newest comes first |
| JobPostings.ListMyJobs | src/routes/v1/jobs.js:299-330 | only a passing business gets an answer: its own postings, approved or not, newest first, with the pagination of their number |
| JobPostings.GetJob | src/routes/v1/jobs.js:333-348 | a posting is returned iff it exists and is approved; an unapproved one gets the same 404 as a missing one |
| JobApplications.ResolveCv | src/routes/v1/jobs.js:522-544 | an uploaded file's URL replaces the profile's CV; an application has a CV iff the chosen URL is non-empty |
| JobApplications.Apply | src/routes/v1/jobs.js:471-616 | any refusal writes nothing; a blank cover letter is refused before anything else; an application is filed iff the cover letter has text, the posting is approved and its business exists, the user is stored and has not applied yet, no upload failed, a CV comes from the upload or the profile and the user has a phone number; it is pending, applied at now, with the trimmed cover letter and the user's phone, and appended; nothing else but notices changes, and when creating the notice succeeds exactly one `NEW_APPLICATION` notice to the posting's business, naming the application, is appended |
| JobApplications.CoverLetterCheckedFirst | src/routes/v1/jobs.js:477-483 | with a blank cover letter the answer is the same whatever the store holds |
| JobApplications.ApplyKeepsPairsUnique | src/routes/v1/jobs.js:513-519 | applying keeps at most one application per user and posting, and a repeat application is refused without a write |
| JobApplications.Capitalize | src/routes/v1/jobs.js:788 | capitalising keeps the length and every character after the first |
| JobApplications.StatusTitles | src/routes/v1/jobs.js:788 | the notice titles are "Application Pending", "Application Accepted" and "Application Rejected" |
| JobApplications.SaveStatus | src/routes/v1/jobs.js:772-822 | a success saves exactly the new status and time; the applicant is notified only when the status changed and the notice was created; a failure writes only when the applicant account is gone, and then the answer is 500 after the save |
| JobApplications.UpdateStatus | src/routes/v1/jobs.js:747-829 | the business gate, the owner gate and the status name are checked in this order, and each refusal writes nothing; a success requires the application to belong to that posting |
| JobApplications.StatusOwnerCheckUnreachable | src/routes/v1/jobs.js:768-770 | with unique posting ids, a requester who passed the gates is never told 403 |
| AuthGate.BearerToken | src/middleware/auth.js:7-10 | a token is handed over only from a present header and is never empty; a header without the `Bearer ` prefix is taken whole |
| AuthGate.BearerTokenOfHeader | src/middleware/auth.js:7 | the header `Bearer <token>` hands over exactly the token |
| AuthGate.TokenAccount | src/middleware/auth.js:15-20 | the token's account is a stored user iff its type is `'user'`, and otherwise a stored business, with the token's id; it is missing exactly when that collection has no such id |
| AuthGate.Auth | src/middleware/auth.js:5-43 | the checks run in order (token present, signature valid, account exists, address verified, business approved), each with its status and message; a request passes iff all hold, and then carries the token's id and type |
| AuthGate.AuthCheck | src/routes/v1/auth/verification.js:267-295 | without a token the answer is "not authenticated" |
| AuthGate.AuthCheckAgreesWithAuth | src/routes/v1/auth/verification.js:267-295 | `/auth-check` reports authenticated iff `auth` lets the request through, and then names the same requester |
| AuthGate.Utf8Length | src/middleware/auth.js:58-61 | the byte length of the UTF-8 encoding is at least the number of code points |
| AuthGate.EnsureAdmin | src/middleware/auth.js:45-73 | a missing bearer token or admin header is a 401; the answer is 403 iff the comparison completes and the bytes differ; the request passes iff the token verifies and the admin header equals the secret |
| AuthGate.WrongAdminTokenStatus | src/middleware/auth.js:58-71 | a wrong admin token of the secret's byte length is a 403; one of another length throws inside the comparison and is a 401 |
| UserRoutes.StoredUser | src/routes/v1/auth/user.js:40-50 | the saved applicant has the id, the normalised e-mail, the trimmed username and phone, is unverified, and its stored password matches the given password and no other |
| UserRoutes.Register | src/routes/v1/auth/user.js:16-67 | the password rules come first (400 with their errors), then the duplicate check on e-mail, username or phone (400), and a non-string password is a 500; any refusal writes nothing and sends no mail; registration succeeds iff all checks pass and the document satisfies the schema, and then the user is appended and the verification step runs |
| UserRoutes.Enrol | src/routes/v1/auth/user.js:50-63 | the reply names the new user, who is appended as built apart from the token fields; earlier users are unchanged apart from their token fields, and businesses are unchanged |
| UserRoutes.RegisterIgnoresSendFailure | src/routes/v1/auth/user.js:52-58 | a failed verification mail changes neither the reply nor the stored documents |
| UserRoutes.EnrolIgnoresSent | src/routes/v1/auth/user.js:52-58 | the outcome of sending does not change a completed registration |
| UserRoutes.Login | src/routes/v1/auth/user.js:69-112 | an unknown address and a wrong password get the same 401; the address check comes after the password check; a login succeeds iff the user exists, the password matches and the address is verified, and then signs the user's id with type `'user'` |
| UserRoutes.FindUserOfStored | src/routes/v1/auth/user.js:72 | with distinct ids, looking up a stored user's id finds that user |
| UserRoutes.LoginTokenPassesAuth | src/routes/v1/auth/user.js:91-95 | a token signed at login passes `auth` and identifies the user who logged in |
| UserRoutes.RegisterThenLogin | src/routes/v1/auth/user.js:16-89 | right after registering, logging in with the same address and password is refused with 403 until the address is verified |
| Verification.FindAttempt | src/routes/v1/auth/verification.js:15 | the position found is the first record with the address and purpose, and there is none exactly when no record has both |
| Verification.CheckEmailAttempts | src/routes/v1/auth/verification.js:13-33 | refuses with "Too many attempts" iff the record already counts three; otherwise the count goes up by one, the last attempt is now, and every other address and purpose keeps its record; one record per address and purpose before means one after, as the unique index requires |
| Verification.CheckKeepsCountsBounded | src/routes/v1/auth/verification.js:17-27 | stored counts stay between one and three |
| Verification.AtMostThreeAttempts | src/routes/v1/auth/verification.js:17-20 | while a record lives, at most three minus its count further checks pass for that address and purpose |
| Verification.StoredTokenLifetime | src/routes/v1/auth/verification.js:59-62 | a token stored at `now` is live exactly until fifteen minutes later |
| Verification.SendVerificationEmail | src/routes/v1/auth/verification.js:45-77 | a bad domain and too many attempts fail first and write nothing; otherwise one attempt is counted, the token is stamped on the document with the account's id in the collection the flag names, and the mail goes to the account's address; a refused send is an error that keeps those writes |
| Verification.MarkUserVerified | src/routes/v1/auth/verification.js:102-106 | only the user with the id is changed: verified, with no verification token |
| Verification.MarkBusinessVerified | src/routes/v1/auth/verification.js:102-106 | only the business with the id is changed: verified, with no verification token |
| Verification.VerifyHolderUser | src/routes/v1/auth/verification.js:83-87 | finds a user with the token's address holding the live token, and none exactly when no user does |
| Verification.VerifyHolderBusiness | src/routes/v1/auth/verification.js:89-93 | the same lookup in the businesses |
| Verification.VerifyEmail | src/routes/v1/auth/verification.js:80-119 | the success page is served iff the token decodes and some user or business with its address holds it live; every other case is 400 and changes nothing |
| Verification.VerifyClearsToken | src/routes/v1/auth/verification.js:102-106 | after a success no document holds the token, when only one held it before |
| Verification.VerifyTokenSingleUse | src/routes/v1/auth/verification.js:83-106 | a verification token verifies at most once: presenting it again at any time is 400 |
| Verification.Chosen | src/routes/v1/auth/verification.js:133-140 | the account picked is the user with the address, else the business; there is none exactly when neither exists |
| Verification.SendReply | src/routes/v1/auth/verification.js:145-154 | any error thrown by the send becomes a 429 with its message and the writes stay; no error gives the success message |
| Verification.ResendWith | src/routes/v1/auth/verification.js:122-158 | a non-string address is 500, a bad domain 400, no account 404, an already verified one 400, each writing nothing; otherwise the answer is the send's, under the routing of the business flag |
| Verification.ResendMisroutesToken | src/routes/v1/auth/verification.js:140-146 | as written, an address held by both an unverified user and a business gets the success reply while no document stores the mailed token, so its link never verifies |
| Verification.ResendCorrectedStoresToken | src/routes/v1/auth/verification.js:122-158 | with the flag taken from the chosen account, the token is stored on it and the mailed link verifies within fifteen minutes |
| Verification.SendStoresOnAccount | src/routes/v1/auth/verification.js:59-62 | told the right collection, the send stamps the token on the account's own document |
| Verification.IssueResetToken | src/routes/v1/auth/verification.js:183-203 | the reset token is stamped on the chosen account's document in its own collection and the link is mailed to the address as given; a refused send is a 500 that keeps the write |
| Verification.ForgotPassword | src/routes/v1/auth/verification.js:161-210 | a non-string address is 500, a bad domain 400, a fourth attempt 429, each writing nothing; otherwise the attempt is counted even when the answer is 404 for a missing account, and an existing account gets a reset token |
| Verification.ResetHolderUser | src/routes/v1/auth/verification.js:218-222 | finds a user with the token's id holding the live reset token, and none exactly when no user does |
| Verification.ResetHolderBusiness | src/routes/v1/auth/verification.js:224-228 | the same lookup in the businesses |
| Verification.SetUserPassword | src/routes/v1/auth/verification.js:244-247 | only the user with the id changes: the new password hashed, the reset token cleared |
| Verification.SetBusinessPassword | src/routes/v1/auth/verification.js:244-247 | only the business with the id changes: the new password hashed, the reset token cleared |
| Verification.ResetPassword | src/routes/v1/auth/verification.js:213-253 | the reset succeeds iff the token decodes, a user or business with its id holds it live and the password is a string that passes the rules; the rules are checked only after the token; every failure writes nothing and is 400 |
| Verification.ResetSetsPassword | src/routes/v1/auth/verification.js:234-247 | after a reset the holder (the user before a business) accepts the new password and holds no reset token |
| Verification.ResetClearsToken | src/routes/v1/auth/verification.js:245-247 | after a reset no document holds the token, when only one held it before |
| Verification.ResetTokenSingleUse | src/routes/v1/auth/verification.js:218-232 | a reset token resets at most once |
| Verification.ForgotThenReset | src/routes/v1/auth/verification.js:161-253 | after a forgot-password request for a user succeeds, the mailed token with a strong password resets within fifteen minutes and the user then accepts that password |
| Verification.ResetWithLiveToken | src/routes/v1/auth/verification.js:213-247 | a strong password with a user's live reset token succeeds and the user then accepts it |
| Verification.ForgotStampsUser | src/routes/v1/auth/verification.js:189-193 | a forgot-password request for a user's address stamps the reset token on that user's document |
| EmailTemplates.Around | src/utils/emailTemplates.js:3-9 | the assembled text contains the middle piece and everything the tail contains |
| EmailTemplates.VerificationEmailTemplate | src/utils/emailTemplates.js:1-10 | the verification mail has its subject, greets the name, links to the verify-email route of the given server with the token, and says the link expires in 15 minutes |
| EmailTemplates.PasswordResetTemplate | src/utils/emailTemplates.js:12-21 | the reset mail has its subject, greets the name, links to the reset-password route of the given server with the token, and says the link expires in 15 minutes |
| EmailTemplates.RouteToken | src/routes/v1/auth/verification.js:80 | a route token is taken only from a path that is the prefix followed by that token, and it is non-empty token text |
| EmailTemplates.LinksCarryToken | src/utils/emailTemplates.js:6-18 | following either mail's link hands the route exactly the token the mail was built with |
| RateLimiter.Cleanup | src/middleware/rateLimiter.js:46-51 | an address keeps its record iff the record's timestamp is no more than an hour old, and kept records are unchanged |
| RateLimiter.Limit | src/middleware/rateLimiter.js:42-66 | after the clean-up, an address with no record is allowed and starts a count of one at now; a count of three refuses and changes nothing; a smaller count is allowed and goes up by one with the window start kept |
| RateLimiter.ResetBranchUnreachable | src/middleware/rateLimiter.js:55-57 | the branch that would restart an expired window never runs, because the clean-up already removed every such record |
| RateLimiter.RunWithinWindow | src/middleware/rateLimiter.js:53-62 | while the window opened at `t0` lasts, a record counting `c` lets at most `3 - c` more calls through |
| RateLimiter.AtMostThreePerWindow | src/middleware/rateLimiter.js:42-66 | starting with no live record, at most three calls within an hour of the first are allowed |
| RateLimiter.SecondPiece | src/middleware/rateLimiter.js:71 | the text between the first `@` and the next `@` (or the end) exists exactly when the address has an `@` |
| RateLimiter.ValidateEmailDomainMeans | src/middleware/rateLimiter.js:69-73 | the domain check holds iff the address has an `@` and the lower-cased text between the first and the second `@` is gmail.com, icloud.com or outlook.com |
| Strings.Utf16Length | src/utils/validation.js:5 | a JavaScript length lies between the number of code points and twice that |
| Validation.BrokenRules | src/utils/validation.js:4-33 | each of the six rules is listed iff the password breaks it, in the order of the checks |
| Validation.ValidatePassword | src/utils/validation.js:1-39 | valid iff no message; one message per broken rule, in check order, each the rule's own text |
| Validation.PasswordValidIffStrong | src/utils/validation.js:1-39 | a password is valid iff it has eight UTF-16 units, an upper-case letter, a lower-case letter, a digit and one of `!@#$%^&*`, and is not a common password; every broken rule is reported |
| Validation.BrokenMeans | src/utils/validation.js:4-33 | a rule is reported exactly when it is broken |
| Validation.CommonPasswordIgnoresCase | src/utils/validation.js:31 | two passwords with the same lower-case form are both common or both not |
| Validation.EmailFormAt | src/utils/validation.js:42 | an address of the form `a@b.c` has its only `@` and a dot at the matching positions |
| Validation.EmailAtForm | src/utils/validation.js:42 | an `@` and a later dot at those positions give an address of the form `a@b.c` |
| Validation.ValidateEmail | src/utils/validation.js:41-44 | the scan accepts exactly the addresses the pattern accepts: one `@` with text before it, a dot at least two places after it with text after the dot, and no white space |
| Validation.ValidatePhoneNumber | src/utils/validation.js:46-50 | accepts exactly an optional `+` followed by at least ten digits, white-space characters or hyphens |
| Security.RemoveAll | src/middleware/security.js:13-15 | a global case-insensitive removal of a literal only deletes characters |
| Security.HandlerAt | src/middleware/security.js:14 | a match found at the head of the string is an `on`, one or more word characters and `=` |
| Security.HandlerAtFindsEveryHandler | src/middleware/security.js:14 | whenever the string starts with such an attribute, that match is the one found |
| Security.RemoveHandlers | src/middleware/security.js:14 | removing the handler attributes only deletes characters |
| Security.SanitizeString | src/middleware/security.js:11-16 | the five chained steps give a string obtained from the input only by deleting characters, holding no `<` or `>` and with no white space at either end |
| Security.SanitizeInput | src/middleware/security.js:1-25 | anything but an array or object comes back unchanged (a top-level string too); an array stays an array of the same length whose every element is the sanitised element at its position; an object keeps every property except `__proto__`, in order, each value sanitised recursively |
| Security.SanitizeFields | src/middleware/security.js:6-22 | the copy holds exactly the original's properties other than `__proto__` (which an assignment to a plain object turns into a prototype change), in their order, each with its sanitised value |
| Security.SanitizeMember | src/middleware/security.js:9-21 | a nested string is sanitised, a nested array or object is sanitised recursively, anything else is copied |
| Security.SanitizedHasNoAngles | src/middleware/security.js:8-21 | no string anywhere inside a sanitised array or object holds `<` or `>` |
| Security.TopLevelStringUntouched | src/middleware/security.js:2-4 | a top-level string is returned unchanged |
| Security.OnePassLeavesProtocol | src/middleware/security.js:13 | one pass turns `jjavascript:avascript:` into `javascript:` |
| Security.RemoveAllFixpoint | src/middleware/security.js:13-15 | when the removal changes nothing, the pattern occurs nowhere |
| Security.RemoveHandlersFixpoint | src/middleware/security.js:14 | when removing handler attributes changes nothing, none is left |
| Security.SanitizeStringFixed | src/middleware/security.js:11-16 | repeating the pass until it is stable gives a string obtained by deletion with no angle bracket, no `javascript:`, no `data:` and no handler attribute anywhere |
| Security.StablePassIsClean | src/middleware/security.js:11-16 | a string one pass leaves unchanged holds none of the removed constructs |
| Security.FixedRemovesSplitProtocol | src/middleware/security.js:13 | the repeated pass removes what the single pass leaves behind |
| ProfileUpdate.InterestList | src/routes/v1/auth/user.js:166-179 | a falsy field sets nothing; a parse failure is 500; then the type (400), the count of at most 3 (400) and duplicates (400) are checked in this order; an accepted list is exactly the parsed array |
| ProfileUpdate.ReadChanges | src/routes/v1/auth/user.js:153-179 | the body is read iff each name, phone and interest step succeeds, each contributing its own value; the first failing step decides the error |
| ProfileUpdate.CastIds | src/routes/v1/auth/user.js:234-242 | the list casts to ids iff every element is a string, element by element |
| ProfileUpdate.CastKeepsDistinct | src/routes/v1/auth/user.js:174 | a list with no repeated value gives distinct ids |
| ProfileUpdate.WriteProfile | src/routes/v1/auth/user.js:234-242 | only the requester's document is rewritten; every other user and every business is unchanged |
| ProfileUpdate.UpdateProfile | src/routes/v1/auth/user.js:148-271 | any refusal writes nothing; a given phone number is always checked against other users and every business contact (400); the update succeeds iff the body reads, the phone is free, the interests cast and the validators pass for an existing requester, and then returns and stores the updated document |
| ProfileUpdate.UpdateKeepsPhonesUnique | src/routes/v1/auth/user.js:181-196 | with distinct ids, a successful update keeps phone numbers unique among users and distinct from business contacts |
| ProfileUpdate.WrittenPhonesUnique | src/routes/v1/auth/user.js:181-196 | writing a phone number that no other holder has keeps phone numbers unique |
| ProfileUpdate.UpdateKeepsInterestsValid | src/routes/v1/auth/user.js:166-179 | a successful update keeps every user's interests valid and sets the requester's to exactly the list sent, in order, at most 3 |
| BusinessesRoute.ParseCondition | src/routes/v1/businesses.js:24-47 | a non-string is matched as itself; a string holding `~` is a case-insensitive pattern with the tildes removed, whatever its prefix; a range operator is chosen only for a string starting with an angle bracket |
| BusinessesRoute.WriteThenParse | src/routes/v1/businesses.js:25-46 | writing a condition as a filter string and parsing it gives the condition back |
| BusinessesRoute.ParseThenWrite | src/routes/v1/businesses.js:25-46 | every tilde-free filter string parses to a writable condition whose writing is that string, so the two are inverses |
| BusinessesRoute.AngleFreeHasNoComparison | src/routes/v1/businesses.js:34-41 | a filter value without angle brackets, as the security middleware leaves it, never becomes a range condition |
| BusinessesRoute.Replace | src/routes/v1/businesses.js:27-45 | assigning a key sets its condition and leaves every other key's condition unchanged, keeping keys distinct |
| BusinessesRoute.Assign | src/routes/v1/businesses.js:27-45 | assigning `__proto__` creates no property; any other key gets the new condition, and every other key keeps its condition |
| BusinessesRoute.Entries | src/routes/v1/businesses.js:24 | only objects, arrays and strings have entries, and an object has one per property |
| BusinessesRoute.AssignAll | src/routes/v1/businesses.js:24-47 | assigning the entries one by one keeps the keys distinct |
| BusinessesRoute.ParseFilterConditions | src/routes/v1/businesses.js:8-50 | a falsy filter gives no conditions, and the conditions never repeat a key |
| BusinessesRoute.LastValue | src/routes/v1/businesses.js:24 | a key has a last value iff some entry has that key |
| BusinessesRoute.AssignAllFind | src/routes/v1/businesses.js:24-47 | after the assignments a key other than `__proto__` holds the condition of its last entry, and keys without entries keep what they had |
| BusinessesRoute.FilterConditionsLookup | src/routes/v1/businesses.js:8-50 | the filter maps every key except `__proto__` to the condition of its last value and holds no other key |
| BusinessesRoute.WithSearch | src/routes/v1/businesses.js:65-70 | a search text sets `$or` to the name-or-type search and leaves every other key alone; without one the conditions are unchanged |
| BusinessesRoute.QueryConditions | src/routes/v1/businesses.js:61-70 | the query conditions never repeat a key |
| BusinessesRoute.ListPublic | src/routes/v1/businesses.js:53-96 | the answer is 500 iff the sort or filter JSON is malformed or the skip is negative; otherwise the page is the found businesses from the skip on, at most the size of the limit, projected, with the pagination of the count and the conditions echoed |
| BusinessesRoute.DirectoryPagesArePages | src/routes/v1/businesses.js:55-76 | pages 1 to k of the directory are the first k pages of the found businesses |
| BusinessesRoute.DirectoryPage | src/routes/v1/businesses.js:55-76 | with a positive limit, page k is the window of the found businesses from `(k - 1) * limit` |
| BusinessesRoute.DirectoryCoversAll | src/routes/v1/businesses.js:55-90 | with a positive limit, walking pages 1 to `totalPages` lists every found business once, in the store's order |
| BusinessesRoute.NegativeLimitHidesNextPage | src/routes/v1/businesses.js:56-88 | with a negative limit the page count is not positive and no next page is announced |
| BusinessesRoute.ViewBusiness | src/routes/v1/businesses.js:99-116 | a missing business is 404 and another requester gets 403; the owner gets its document without the password and with its approval |
| FileUpload.FileFilter | src/middleware/fileUpload.js:7-31 | an accepted avatar or logo is an image and an accepted CV a PDF; the type is checked before the size; a known size never exceeds the field's limit; every other field is let through; without a size only the type can be refused |
| FileUpload.Receive | src/middleware/fileUpload.js:34-40 | a stored file is at most 10 MiB, and an avatar or logo is an image and a CV a PDF |
| FileUpload.OversizedImageStored | src/middleware/fileUpload.js:13-40 | a 6 MiB avatar image is stored although the filter states a 5 MiB limit for images |
| FileUpload.ReceiveChecked | src/middleware/fileUpload.js:7-40 | a stored file is within the upload limit and within its own field's limit, with its field's type |
| FileUpload.CheckedAgreesWithinFieldLimit | src/middleware/fileUpload.js:7-40 | the middleware as configured and the checked one agree on every file within its field's limit |
| Storage.LastIndexOf | src/utils/s3.js:19 | finds the last occurrence of the character, or reports there is none |
| Storage.LastIndexOfIs | src/utils/s3.js:19 | a position of the character with none after it is the last one |
| Storage.DropTrailingSlashes | src/utils/s3.js:19 | the result is a prefix of the input without a trailing slash, and an input without one is unchanged |
| Storage.LastSegment | src/utils/s3.js:19 | the last segment holds no slash, and a slash-free name is its own last segment |
| Storage.ExtName | src/utils/s3.js:19 | the extension is empty or a dot followed by dot-free, slash-free text; a dot-free name has none |
| Storage.ExtNameOf | src/utils/s3.js:19 | a name made of a base, a dot and a dot-free extension has exactly that extension |
| Storage.UniqueFileNameKeepsExtension | src/utils/s3.js:16-21 | the generated name has the original name's extension |
| Storage.UniqueFileNamesDiffer | src/utils/s3.js:16-21 | names drawn at the same instant with different random digits differ |
| Storage.SecondPiece | src/utils/s3.js:52 | the second piece exists iff the separator occurs; it is the text right after the first occurrence up to the next one, and holds no separator |
| Storage.DeleteFile | src/utils/s3.js:48-63 | an empty URL deletes nothing; a deleted key is the piece of the URL after the location and is non-empty; a URL without the location fails |
| Storage.LocationAfterScheme | src/utils/s3.js:40-52 | with a bucket and endpoint free of slashes, the location first occurs right after `https://` |
| Storage.UploadThenDelete | src/utils/s3.js:24-63 | deleting at the URL an upload returned deletes exactly the key the upload stored |
| Storage.DeleteAtPublicUrl | src/utils/s3.js:40-52 | the key taken from an object's public URL is the object's key |
| UsersRoute.ListedFullName | src/models/User.js:74-103 | a listed user's `fullName` virtual is the first name followed by " undefined", and equals the stored user's full name iff the last name is the text "undefined", because `lastName` is not selected |
| UsersRoute.ListUsers | src/routes/v1/users.js:9-36 | the answer is 500 iff the page asks for a negative skip; otherwise at most 30 rows, the stored users from `(page - 1) * 30` on, each with its id, username, first name and the applicant account type, and a pagination whose page count covers all users and announces a next page iff there is one |
| UsersRoute.UserPagesArePages | src/routes/v1/users.js:11-18 | pages 1 to k of the list are the first k pages of the stored users |
| UsersRoute.ListUsersCoversAll | src/routes/v1/users.js:9-31 | walking pages 1 to `totalPages` lists every user once, in store order |
| UsersRoute.ListUsersHasNext | src/routes/v1/users.js:11-29 | `hasNextPage` holds iff the next page has users on it |
| UsersRoute.DeleteUserDoc | src/routes/v1/users.js:46 | the first user with the id is removed, one fewer when one exists, and every other user stays in order |
| UsersRoute.DeleteAccount | src/routes/v1/users.js:38-55 | a missing user is 404 and nothing changes; otherwise the user, every notification addressed to them and every application they made are removed, and every other collection is unchanged |
| UsersRoute.DeleteAccountForgets | src/routes/v1/users.js:38-55 | with distinct ids a deleted account is gone for good: no user has its id, nothing addressed to it or made by it remains, and a second delete is 404 |
| UsersRoute.UniqueLeftOut | src/routes/v1/users.js:46 | with distinct ids the deletion leaves no copy of the deleted user |
| Base.ParseParty | src/models/Message.js:9-23 | the party enum accepts a string iff it is the name of a party, and returns that party |
| Base.CountIsMatchingIndices | src/routes/v1/notifications.js:21 | a count is the number of positions whose document satisfies the filter |
| Base.CountZeroIff | src/routes/v1/notifications.js:21 | a count is zero exactly when no document satisfies the filter |
| Base.Filter | src/routes/v1/notifications.js:15 | the selection holds exactly the documents that satisfy the filter, and as many as the count |
| Base.FindFirst | src/routes/v1/jobs.js:45-50 | a document is found iff one satisfies the filter, and the one found is the first in store order that does |
| Base.ReplaceById | src/routes/v1/jobs.js:398 | saving a changed document replaces the stored one with its id and leaves every other document and every position as it was |
| Store.FindBusiness | src/routes/v1/businesses.js:101 | finds a stored business with the id iff one exists |
| Store.FindJob | src/routes/v1/jobs.js:840-843 | finds a stored posting with the id iff one exists |
| Store.FindApp | src/routes/v1/messages.js:43-50 | finds a stored application with the id iff one exists |
| Store.FindCategory | src/routes/v1/jobs.js:154-163 | finds a stored category with the id iff one exists |
| Json.OptionalTrim | src/routes/v1/jobs.js:119 | `v?.trim()` is undefined exactly for nullish values, a trimmed string exactly for strings, and throws otherwise |
| Json.HasTextIffTruthyTrim | src/routes/v1/jobs.js:478 | `v?.trim()` is truthy iff the value is a string with a non-blank character |
| Json.TrimThrowsIff | src/routes/v1/jobs.js:119 | `v?.trim()` throws iff the value is neither nullish nor a string |
| Json.Lookup | src/models/User.js:75-85 | a property is found iff the document has one with that name |
| Json.Remove | src/models/User.js:77-84 | removing properties leaves none of the removed names and every other property as it was |
| Json.LookupAppend | src/models/User.js:75-85 | a property of two documents joined comes from the first when the first has it, else from the second |
| Strings.Trim | src/models/Message.js:32 | trimming removes white space from both ends and nothing else; the result is empty iff the input is all white space |
| Strings.TrimIdempotent | src/models/Message.js:32 | trimming twice is trimming once |
| Strings.TrimIsSubseq | src/models/Message.js:32 | the trimmed text is a part of the original |
| Strings.ToLowerIdempotent | src/models/User.js:6-12 | lower-casing twice is lower-casing once |
| Strings.RemoveChar | src/routes/v1/businesses.js:27 | removing a character leaves none of it, keeps every other character and their order |
| Strings.IndexOf | src/routes/v1/businesses.js:30 | finds the first occurrence of the character, or reports there is none |
| Strings.Split | src/routes/v1/businesses.js:30-33 | splitting gives at least one piece, no piece holds the separator, and joining the pieces gives the text back |
| Strings.SplitJoin | src/routes/v1/businesses.js:30-33 | splitting a joined list of separator-free pieces gives the pieces back |
| Strings.NatToString | src/utils/s3.js:17-20 | a time stamp prints as a non-empty string of decimal digits |
| Strings.FirstOccurrence | src/middleware/auth.js:7 | finds the first position where the text occurs, or reports it does not occur |
| Strings.ReplaceFirst | src/middleware/auth.js:7 | with a string pattern the result is the text up to the first occurrence (none occurs earlier), the replacement, then the text after that occurrence; text without an occurrence is unchanged |
| Sorting.InsertDesc | src/routes/v1/messages.js:112 | inserting into a newest-first list keeps it newest first and adds exactly the one element |
| Sorting.SortDesc | src/routes/v1/messages.js:225 | the sorted list is newest first and a permutation of the input |
| Sorting.HeadIsMax | src/routes/v1/messages.js:112-113 | the first element of the sorted list is an element with the largest key |
| Paging.ClampedPage | src/routes/v1/messages.js:87 | the page is at least 1, the parsed number when that is at least 1, and 1 otherwise |
| Paging.CeilDiv | src/routes/v1/messages.js:284 | the result is the ceiling of the quotient, for positive and negative divisors |
| Paging.Info | src/routes/v1/messages.js:283-295 | the page count is the least number of pages that hold the total; a next page is announced iff the page is before the last, a previous one iff the page is after the first |
| Paging.PagesCoverAll | src/routes/v1/messages.js:283-295 | walking pages 1 to `totalPages` returns every element once, in order |
| Paging.HasNextIffMore | src/routes/v1/messages.js:293 | `hasNextPage` holds iff the next page is non-empty |
| Paging.WindowKeepsOrder | src/routes/v1/messages.js:225-228 | a page of a newest-first list is itself newest first |
| Paging.WindowWithin | src/routes/v1/messages.js:227-228 | every element of a page is an element of the list |

## Left out

- Security headers: a fixed list of response headers with no logic. See `src/middleware/security.js:40-60`.
- `express-rate-limit` instances: third-party request counting per IP and time window. See `src/middleware/rateLimiter.js:3-36`. The e-mail domain check in the same file is modelled.
- Upload storage and limits: multer's in-memory storage, its own limit enforcement and its "Unexpected field" error. `FileUpload.Receive` models only the order in which the filter and the size limit apply.
- Password hashing, token signing and random bytes: bcrypt, JWT signing and verification, and `crypto.randomBytes` are cryptography. Hashes, tokens and random strings are opaque parameters; a token decodes to the id it was made for.
- `crypto.timingSafeEqual`: modelled as a byte-length check followed by equality. The constant-time property cannot be stated in this model.
- Timers and the clock: the attempt sweep that `setInterval` runs is an explicit call, and `Date.now()` is a parameter.
- `createNotification`: it catches its own errors, so its success is a boolean parameter. Notification text is built in the model; delivery is not.
- Un-awaited writes: `updateMany` calls that are not awaited are treated as completing in order, before the next request. Interleavings are concurrency and are not modelled.
- Server wiring: `index.js`, the admin routes, the category routes and the `JobCategory` schema are plumbing or outside the core. Categories appear only as stored ids.
- JSON parsing: `JSON.parse` of the `filter` query parameter is a parameter of `BusinessesRoute.ListPublic`.
- Query evaluation: MongoDB's evaluation of the conditions built by `BusinessesRoute.ListPublic` is a parameter. The parser that builds them is modelled.
- Aggregation stages: `$lookup`, `$unwind`, index hints and `populate` are modelled by their results on the store, not stage by stage.
- Negative `skip` and `limit`: a negative `skip` makes the store refuse the query (500). A negative `limit` acts as its absolute value, and that case is modelled only in the directory.
- Sort ties: sorts are modelled as stable (store order). MongoDB does not promise any order for ties.
- `Object.entries` order: integer-like keys of a filter object come first in JavaScript. The model keeps the keys in the order given.
- Floating point: page numbers and counts are integers; `parseInt` is a parameter (`None` for `NaN`).
- Route shadowing: the earlier route at `src/routes/v1/jobs.js:333` matches requests meant for the later one at `src/routes/v1/jobs.js:688`. Each handler is modelled on its own.
- Profile reads and file uploads: GET `/profile` (`src/routes/v1/auth/user.js:114-145`) is a projection. The avatar and CV uploads inside the user profile update (`src/routes/v1/auth/user.js:198-231`) go through `Storage.UploadFile` and are left out of `ProfileUpdate.UpdateProfile`.
- Registration checks: registration does no e-mail-format check, as in the source. A non-string password makes hashing throw (500), and that case is folded into `ServerError`.
- Error handler statuses: the status the express error handler sends for upload errors is left out.
- NotificationsRoute.MarkRead: ids are opaque strings. A malformed ObjectId gives a 500 cast error in the source and is not modelled.
- Malformed ids: `Base.Id` is an opaque string, so an id that is not ObjectId syntax is treated as an unknown id. In the source, Mongoose fails to cast it, which gives the CastError answers listed in the lines below.
- JobPostings.GetJob: a malformed id is a 500 "Server error" in the source (`src/routes/v1/jobs.js:333-347`), but 404 "Job not found" here.
- JobPostings.EnsureJobOwner: a malformed id is a 500 in the source (`src/routes/v1/jobs.js:42-57`), but 404 here.
- JobPostings.CreateJob: a category that is not ObjectId syntax is a 400 "Invalid data format" in the source (`src/routes/v1/jobs.js:154-157` with the catch at 220-225), but 400 "Invalid category" here.
- JobPostings.UpdateJob: a malformed posting id that reaches the lookup is a 400 "Invalid data format" in the source (`src/routes/v1/jobs.js:382-385` with the catch at 409-414), but 404 "Job not found" here.
- JobPostings.DeleteJob: a malformed id is a 500 in the source (`src/routes/v1/jobs.js:425-466`), but 404 here.
- JobPostings.SetApproval: a malformed id is a 500 in the source (`src/routes/v1/jobs.js:840-869`), but 404 here.
- JobApplications.Apply: a malformed posting id is a 400 "Invalid data format" in the source (`src/routes/v1/jobs.js:486` with the catch at 607-612), but 404 here.
- JobApplications.UpdateStatus: a malformed posting id (through `ensureJobOwner`) or application id is a 500 in the source (`src/routes/v1/jobs.js:754-827`), but 404 here.
- AccessCache.Check: a malformed application id makes `findById` throw, which is a 500 in the source (`src/routes/v1/messages.js:43-70`), but `AppNotFound` (404) here.
- Messaging.GetMessages: inherits the malformed-id difference of AccessCache.Check: 500 in the source, 404 here.
- Messaging.PostMessage: inherits the malformed-id difference of AccessCache.Check: 500 in the source, 404 here.
- NotificationsRoute.Delete: a malformed id is a 500 in the source (`src/routes/v1/notifications.js:111-130`), but 404 here.
- BusinessesRoute.ViewBusiness: a malformed id is a 500 in the source (`src/routes/v1/businesses.js:100-115`), but 404 here.
- ProfileUpdate.CastIds: only strings are cast to ids. ObjectId syntax and the casting of numbers are not modelled, so a malformed id string is a 400 here and a 500 cast error in the source.
- Strings.ToLower: covers only characters whose lower case is ASCII, which are the Latin capitals and the Kelvin sign. Full Unicode case mapping is left out.
- JobPostings.EnsureBusiness: the `accountType === 'business'` test is implied by looking the requester up among the businesses.

## Findings

| source | as written | input that shows it | evidently intended | confidence | as-written member | corrected member |
|---|---|---|---|---|---|---|
| src/routes/v1/messages.js:232-252 | for a business, the total-count aggregation matches `'jobId.businessId'` on applications whose `jobId` is an unpopulated id, so it counts nothing | a business with one conversation gets that conversation on page 1 with `totalConversations` 0 and `totalPages` 0 | count the same rows the page is drawn from | high, not executed | Conversations.BusinessTotalIsZero | Conversations.CorrectedPaginationConsistent |
| src/routes/v1/notifications.js:10-11 | the list uses `MAX_ITEMS_PER_PAGE`, which the file never declares | any GET of the notification list throws a ReferenceError and answers 500 | the page size of the other lists, 30 | high, not executed | NotificationsRoute.ListFinding | NotificationsRoute.ListCorrected |
| src/middleware/security.js:11-16 | the sanitiser removes `javascript:`, `on…=` and `data:` patterns in a single pass | `jjavascript:avascript:` becomes `javascript:` | no removed pattern survives sanitising | high, not executed | Security.OnePassLeavesProtocol | Security.FixedRemovesSplitProtocol |
| src/routes/v1/auth/verification.js:140-146 | resending verification mails the user when one has the address, but passes `!!business` as the business flag, so the token is written to the business collection under the user's id | an unverified user and a business share an address; the resend replies success, yet no document holds the mailed token and its link never verifies | store the token on the account the mail was sent for | medium, not executed | Verification.ResendMisroutesToken | Verification.ResendCorrectedStoresToken |
| src/middleware/fileUpload.js:13-40 | the file filter compares `file.size` with the image limit, but multer calls the filter before the size is known | a 6 MiB `avatar` PNG is stored although images are limited to 5 MiB | refuse images over 5 MiB | medium, not executed; depends on multer behaviour | FileUpload.OversizedImageStored | FileUpload.ReceiveChecked |
