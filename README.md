# PYQ portal: moderation, catalog and access rules in Dafny

This project models the server-side rules of a portal for previous-year question papers
(PYQs). Anyone can submit a paper as an upload request. An admin approves the request,
which finds or creates its subject by name and publishes the paper, or rejects it. An admin
can also upload a paper directly. Visitors list the approved papers. Accounts sign up and
sign in with a signed token, and route guards let only the role "admin" reach the moderation
routes. The browser keeps the token in local storage.

The store is the class `Database.Db`. It holds the four collections (subjects, PYQs, upload
requests, users) as sequences in insertion order, plus the counter that hands out fresh
document ids. Its invariant `Valid()` (`Database.StoreValid`) says:

- ids are fresh and distinct in each collection;
- subject names are unique, and so are user emails;
- every PYQ points at an existing subject;
- every stored PYQ and request has its schema's required paths.

The handlers that write are methods on the store, and each one keeps `Valid()`. The
read-only queries, the route guards and the statistics are functions over the collections.
The client token store is the class `Session.AuthService` over a string-to-string map.

Modules:

- `Common`: options, replies, ids.
- `Seqs`: find, filter, count, sum, sort, limit.
- `Text`: split, join.
- `Models`: the schemas.
- `Database`: the store and its invariant.
- `Moderation`: the submission and admin handlers of `backend/controllers/uploadRequestController.js`.
- `Catalog`: `controllers/pyqController.js`.
- `Accounts`: `backend/controllers/authController.js`.
- `Access`: `backend/middlewares/auth.js`.
- `Session`: `frontend/src/AuthService.js`.
- `Stats`: `backend/controllers/statsController.js`.
- `Flows`: whole journeys across handlers.

`controllers/uploadRequestController.js` is an older copy of submit, list-pending, approve
and reject. Apart from logging, it behaves exactly like the newer one, so the same members
model both, and the table cites both where it matters.

Modelling choices:

- A body field that is missing is `""`, which a `required` String path rejects. The
  password of signup and createAdmin is `Option<string>` instead, because a missing
  password takes its own error path (bcrypt's hash rejects it). The year of a submission
  is `Option<int>`: the schemas' `year: Number` holds any JavaScript number, and only whole
  years are modelled (see "## Left out"). The year of an admin
  upload is the body text, which the handler reads with `parseInt` (`Text.ParseInt`).
- The uploaded file is `Option<Url>`. A missing file makes `req.file.path` throw, and the
  handler answers 500 with that TypeError's message (`Common.NoFileError`).
- bcrypt is the abstract digest `Digest(password)`.
- `jwt.sign` is the payload and lifetime it is given (`Accounts.Token`). `jwt.verify` is a
  parameter `verify`, which returns the claims or throws an error with a name.
- Wall-clock time and the start of the local day are parameters.

## Model

| member | source | states |
|---|---|---|
| Models.NewPyq | models/PYQ.js:3-35 | A PYQ is created exactly when title and fileUrl are non-empty. It keeps the given id, title, subject, year and file. uploadedBy defaults to admin and status to approved. The download count starts at 0 and both timestamps are the creation time. |
| Models.NewUploadRequest | models/UploadRequest.js:3-32 | A request is created exactly when title, subjectName and fileUrl are non-empty. It keeps the given fields and submitter. status defaults to pending and both timestamps are the creation time. |
| Database.ResolveSubject | backend/controllers/uploadRequestController.js:159-162 | Find-or-create by exact name. A subject is created exactly when no subject has the name, and then with the fresh id. Otherwise the collection is unchanged. The resolved subject carries the name and is in the collection. |
| Database.ResolveKeepsOneSubjectPerName | backend/controllers/uploadRequestController.js:159-162 | With unique names before, names stay unique and exactly one subject has the resolved name. |
| Database.PublishKeepsValid | backend/controllers/uploadRequestController.js:159-171 | Find-or-create plus appending a complete PYQ under the resolved subject, with the id after the subject slot, keeps the store invariant. |
| Database.AddPyqKeepsValid | controllers/pyqController.js:13-20 | Appending a complete PYQ under an existing subject with the next id keeps the invariant. |
| Database.UpdateRequestKeepsValid | backend/controllers/uploadRequestController.js:173-174 | Replacing a request by a complete one with the same id keeps the invariant. |
| Database.SubmitKeepsValid | backend/controllers/uploadRequestController.js:11-18 | Appending a complete request with the next id keeps the invariant. |
| Database.AddUserKeepsValid | backend/controllers/authController.js:20-33 | Appending an account with the next id and an email not yet in use keeps the invariant. |
| Database.RemoveUserKeepsValid | backend/controllers/uploadRequestController.js:56 | Removing one user keeps the invariant. No remaining user has the removed id, and every other user remains. |
| Moderation.CreateUploadRequest | backend/controllers/uploadRequestController.js:6-27 | No file gives 500 and no writes. A missing title or subject name gives 500 and no writes. Otherwise exactly one pending request submitted by "anonymous" is appended with the next id, with the subject name stored as given. Subjects, PYQs and users are unchanged, and the invariant holds. |
| Moderation.PendingRequests | controllers/uploadRequestController.js:27-31 | Lists exactly the stored requests whose status is pending, each as often as it is stored. The same holds for backend/controllers/uploadRequestController.js:29-36. |
| Moderation.SubmissionJoinsQueue | backend/controllers/uploadRequestController.js:29-32 | A new pending request joins the end of the pending list, and the earlier entries are unchanged. |
| Moderation.DecisionLeavesQueue | backend/controllers/uploadRequestController.js:173-174 | Deciding a request removes exactly that request from the pending list, whatever its previous status. |
| Moderation.ApproveRequest | backend/controllers/uploadRequestController.js:151-183 | An unknown id gives 404 and no writes. Otherwise the subject is found or created by the request's exact name, and exactly one approved, user-uploaded PYQ is appended. The PYQ copies the request's title, year and file and points at that subject. The request becomes approved, and its update time changes only when its status does. Users are unchanged, and exactly one subject has the name. The reply is 200 with the subject name, and the invariant holds. The older controller's approveRequest (controllers/uploadRequestController.js:36-73) is the same. |
| Moderation.Approve | controllers/uploadRequestController.js:45-63 | The writes of one approval: find-or-create, one published PYQ, and the request saved as approved, stamped only on a status change. The subject name ends up unique, and the store stays valid. |
| Moderation.Publish | backend/controllers/uploadRequestController.js:211-223 | The find-or-create and PYQ creation shared by approval and admin upload. It adds one approved PYQ with the given uploader under the resolved subject, and exactly one subject then has the name. Requests and users are unchanged. |
| Moderation.Decide | backend/controllers/uploadRequestController.js:186-189 | The request at a position takes the new status and the given update time. Nothing else changes. |
| Moderation.MarkedApproved | backend/controllers/uploadRequestController.js:173-174 | The saved request is approved and otherwise unchanged except for its update time. That time is the current time when the status changes, and re-approving an approved request leaves the request exactly as it was. |
| Moderation.PublishedKeepsValid | backend/controllers/uploadRequestController.js:209-223 | The store that Publish leaves behind is valid when the name, title and file are present. |
| Moderation.Resolve | backend/controllers/uploadRequestController.js:211-214 | The find-or-create step alone: the subjects become the resolution of the name, with the next id for a created subject, and exactly one subject has the name. PYQs, requests and users are unchanged. |
| Moderation.ResolvedKeepsValid | backend/controllers/uploadRequestController.js:211-214 | The store that Resolve leaves behind is valid when the name is present. |
| Moderation.ApprovalKeepsValid | backend/controllers/uploadRequestController.js:159-174 | The store that an approval leaves behind is valid. |
| Moderation.RejectRequest | backend/controllers/uploadRequestController.js:184-195 | Always 200 "Request rejected". An existing request becomes rejected from any status, and nothing else changes. An unknown id changes nothing. The same holds for controllers/uploadRequestController.js:74-86. |
| Moderation.AdminUploadPyq | backend/controllers/uploadRequestController.js:197-234 | No file gives 400 "PDF file is required". A missing title, subject name or year gives 400 "All fields are required". Neither writes anything. Otherwise the subject is found or created by name, and exactly one subject then has it. If parseInt finds no number at the start of the year text, the reply is 500 "Server error during upload", with that subject write kept and no PYQ. Otherwise exactly one approved, admin-uploaded PYQ with the parsed year is appended and returned with 201. Requests and users are unchanged, and the invariant holds on every path. |
| Moderation.DeleteUser | backend/controllers/uploadRequestController.js:47-66 | Deleting one's own id gives 400 and no writes, even when the id exists. An unknown id gives 404 and no writes. Otherwise exactly the first user with that id is removed. No remaining user has the id, every other user remains, and the invariant holds. |
| Moderation.CreateAdmin | backend/controllers/uploadRequestController.js:77-110 | An email in use gives 400 and no writes. A missing password then gives 500 with bcrypt's "Illegal arguments" message and no writes. Otherwise one account with role "admin" and the password's digest is appended. Only its public profile is returned, with 201. |
| Moderation.AdminDashboardCounts | backend/controllers/uploadRequestController.js:113-149 | Counts every user, subject and PYQ whatever the role or status. The download total is the sum over all PYQs. Pending counts the pending requests. Approved-today and rejected-today count the requests with that status whose update time is at or after the start of today. The three never exceed the number of requests. |
| Moderation.StatusCountsDisjoint | backend/controllers/uploadRequestController.js:119-127 | The pending, approved-since and rejected-since counts select disjoint requests. |
| Catalog.AddPyq | controllers/pyqController.js:4-26 | No subject with exactly the name gives 404 and no writes, and subjects are never created. Then a missing file gives 500, and a missing title gives the validation error 500, both with no writes. Otherwise one approved, admin-uploaded PYQ under the found subject is appended with the next id. The invariant holds. |
| Catalog.GetPyqs | controllers/pyqController.js:29-42 | Lists exactly the approved PYQs, restricted by subject id and by year only when each is supplied. Each appears as often as it is stored. The list is ordered by year descending, with no year last. |
| Catalog.UnfilteredListsAllApproved | controllers/pyqController.js:31-37 | With no query parameters, a PYQ is listed exactly when it is approved. |
| Catalog.GetPyqsBySubject | controllers/pyqController.js:44-67 | An empty parameter gives 400. A name no subject has gives 404. The reply is 200 exactly when some subject has the name. It then lists exactly the approved PYQs of the first subject with that name. |
| Catalog.BySubjectAgreesWithCatalog | controllers/pyqController.js:52-61 | Listing by name gives, multiplicities included, what getPYQs gives when filtered by that subject's id. |
| Catalog.BySubjectMeansNamed | controllers/pyqController.js:52-61 | With one subject per name, listing by name gives exactly the approved PYQs whose subject carries that name. |
| Accounts.SessionOf | backend/controllers/authController.js:5-11 | The token built by `Accounts.GenerateToken` (generateToken) and the profile of a reply. The token payload and the profile carry the account's id and role. The profile also carries the name and email, and the lifetime is "30d". The profile has no password. |
| Accounts.Signup | backend/controllers/authController.js:16-50 | An email in use gives 400 "User already exists" and no writes. A missing password then gives 500 with bcrypt's "Illegal arguments" message and no writes. Otherwise one account with role "user" and the digest of the password, never its text, is appended. Its session is returned with 201, and the invariant holds. |
| Accounts.Signin | backend/controllers/authController.js:55-84 | Succeeds exactly when the first account with the email has a matching password digest, and then returns that account's session. Every failure is the same 401 "Invalid credentials". |
| Accounts.AdminLogin | backend/controllers/authController.js:90-119 | Succeeds exactly when the first account with the email and role "admin" has a matching password, and then the session has role admin. Every failure is the same 401 "Invalid admin credentials". |
| Accounts.SigninAfterSignup | backend/controllers/authController.js:59-67 | An account just signed up signs in with its password and gets the signup session. Any other password gets 401. |
| Accounts.NonAdminLooksUnknown | backend/controllers/authController.js:94-102 | With unique emails, a non-admin account is refused by adminLogin exactly like an unknown email, even with the correct password. signin accepts exactly that account's password. |
| Access.BearerToken | backend/middlewares/auth.js:10-19 | A token is found exactly when the header is present, starts with "Bearer", and its second space-separated piece exists and is non-empty. The token is then that piece, so it is non-empty and has no space. A header without a space, such as a bare "Bearer", yields no token. |
| Access.SecondWordIsToken | backend/middlewares/auth.js:14 | For a first word starting with "Bearer", one space, a token and optional space-separated rest, the token is the second piece. |
| Access.BearerRoundTrip | backend/middlewares/auth.js:10-15 | "Bearer " followed by a token without spaces yields that token. |
| Access.DoubleSpaceHasNoToken | backend/middlewares/auth.js:14-19 | Two spaces after "Bearer" leave an empty second piece, so no token is found. |
| Access.Protect | backend/middlewares/auth.js:6-36 | No token gives 401 "No token, authorization denied". The request passes exactly when jwt.verify accepts the token, and then with exactly the decoded claims. The expiry error gives 401 "Token expired" and every other error 401 "Invalid token". |
| Access.AdminOnly | backend/middlewares/auth.js:41-46 | Passes exactly the role spelled "admin", with the identity unchanged. Every other role gets 403 "Admin access only". |
| Access.AdminGatePassesOnlyAdmins | backend/routes/adminRoutes.js:19-22 | About `Access.AdminGate`, the protect-then-adminOnly chain the admin routes mount: it passes exactly a token that verifies to role "admin", with those claims. A refusal is a 401 from protect or the 403 from adminOnly. |
| Session.Cleared | frontend/src/AuthService.js:63-74 | Exactly the five auth keys are gone, and every other key keeps its value. |
| Session.Stored | frontend/src/AuthService.js:10-11 | A value is read exactly when the key is present with a non-empty value. |
| Session.ThreePartsIffTwoDots | frontend/src/AuthService.js:14-15 | A token splits into three parts exactly when it has two dots. |
| Session.JoinedSegmentsPass | frontend/src/AuthService.js:14-15 | Three dot-free segments joined by dots pass the shape check and split back into the same segments. |
| Session.ReadToken | frontend/src/AuthService.js:8-25 | A token is returned exactly when a non-empty stored token has two dots, and then unchanged. With no token nothing changes. A malformed token returns nothing and clears the auth keys. |
| Session.AuthenticatedIffBothStored | frontend/src/AuthService.js:77-81 | Authenticated exactly when a well-shaped token and a non-empty user are both stored. |
| Session.LoginAuthenticates | frontend/src/AuthService.js:28-60 | After storing a well-shaped token and a user, the client is authenticated, and reading the token returns it and changes nothing. |
| Session.MalformedTokenLogsOut | frontend/src/AuthService.js:14-18 | A malformed stored token means not authenticated, and every auth key is removed. |
| Session.AuthService.GetToken | frontend/src/AuthService.js:8-25 | Returns what ReadToken gives and leaves the storage ReadToken describes. |
| Session.AuthService.SetToken | frontend/src/AuthService.js:28-37 | Succeeds exactly for a non-empty token, which is then stored under pyq_token. Otherwise nothing changes. |
| Session.AuthService.GetUser | frontend/src/AuthService.js:40-48 | Returns the stored user text exactly when it is present and non-empty. |
| Session.AuthService.SetUser | frontend/src/AuthService.js:51-60 | Succeeds exactly when a user is given, which is then stored under pyq_user. Otherwise nothing changes. |
| Session.AuthService.ClearAuth | frontend/src/AuthService.js:63-74 | The storage becomes Cleared of the old storage. |
| Session.AuthService.IsAuthenticated | frontend/src/AuthService.js:77-81 | The result is Authenticated of the old storage. The storage is what the token read leaves. |
| Session.AuthService.GetAuthHeaders | frontend/src/AuthService.js:84-94 | Throws "No authentication token found" without a valid token. Otherwise it gives "Bearer " followed by the token, with a JSON content type. |
| Session.AuthService.HandleAuthError | frontend/src/AuthService.js:103-110 | Reports true and clears the auth keys exactly when the status is 401. Otherwise nothing changes. |
| Stats.GetDashboardStats | backend/controllers/statsController.js:6-62 | Users counts role "user" only and admins role "admin" only. PYQs counts approved PYQs, and pending counts pending requests. Approved-today and rejected-today count the requests with that status whose update time lies from the start of the day up to, but not including, 23:59:59.999. The download total is at most the sum over all PYQs, and 0 when none is approved. The three request counts never exceed the number of requests. |
| Stats.DownloadsSumApproved | backend/controllers/statsController.js:18-23 | The download total is the sum of download counts over the approved PYQs. |
| Stats.TodayCountsDisjoint | backend/controllers/statsController.js:15-41 | The three request counts select disjoint requests. |
| Stats.LastMillisecondNotToday | backend/controllers/statsController.js:27-33 | A request approved at 23:59:59.999 is not counted as approved today. |
| Stats.GetRecentActivities | backend/controllers/statsController.js:65-93 | Lists min(10, number of requests) uploads and min(5, number of role-"user" accounts) users. Each list is newest first by creation time. Each is a sub-multiset of the summaries of the stored documents of its kind, so nothing is listed more often than it is stored. |
| Stats.RecentUploads | backend/controllers/statsController.js:68-71 | At most 10 submission summaries, newest first, forming a sub-multiset of the summaries of all stored requests. |
| Stats.RecentUsers | backend/controllers/statsController.js:74-77 | At most 5 summaries of role-"user" accounts, newest first, forming a sub-multiset of those accounts' summaries. |
| Stats.RecentUploadsAreNewest | backend/controllers/statsController.js:68-71 | A stored request left out of the recent uploads (the list getRecentActivities returns) is no newer than any listed one. |
| Stats.RecentUsersAreNewest | backend/controllers/statsController.js:74-77 | A stored role-"user" account left out of the recent sign-ups (the list getRecentActivities returns) is no newer than any listed one. |
| Stats.NewestIsSortedPart | backend/controllers/statsController.js:68-77 | Sorting descending and then taking limit(n) gives a sorted list of min(n, size) documents. It is a sub-multiset of the input. |
| Stats.NewestAreTop | backend/controllers/statsController.js:68-77 | Sorting and then limiting leaves out nothing that ranks above a kept document. |
| Stats.TakeIsPart | backend/controllers/statsController.js:70 | limit(n) keeps a sub-multiset of its input. |
| Flows.ApprovedSubmissionIsListed | backend/controllers/uploadRequestController.js:6-183 | On an empty store, submit then approve makes the listing by subject name show exactly one paper. It is the submitted title, year and file, approved and uploaded by a user. |
| Flows.SameNameSharesSubject | backend/controllers/uploadRequestController.js:159-171 | Two approved submissions under one name give one subject, two PYQs, and a listing of both. |
| Flows.ReapprovalPublishesTwice | backend/controllers/uploadRequestController.js:151-174 | Approving the same request twice publishes two PYQs under one subject. |
| Flows.RejectionCountsToday | backend/controllers/statsController.js:35-41 | Rejecting a request inside today's window, as RejectRequest leaves it, adds one to rejected-today unless it was already counted. It takes one from approved-today if it was counted there, and one from pending if it was pending. This holds on both dashboards (also backend/controllers/uploadRequestController.js:124-127). |
| Flows.ApprovalCountsToday | backend/controllers/statsController.js:27-33 | Approving a request inside today's window, as ApproveRequest leaves it, adds one to approved-today exactly when the request was not already approved. A request approved on an earlier day and approved again today is therefore not counted today. It takes one from rejected-today if it was counted there, and one from pending if it was pending. This holds on both dashboards (also backend/controllers/uploadRequestController.js:120-123). |
| Flows.IssuedTokenPassesGuards | backend/controllers/authController.js:5-11 | A token signed from an account's session and sent as "Bearer " plus the token passes protect with the account's id and role. It passes the admin gate exactly when the role is "admin". |
| Flows.ClientHeaderCarriesStoredToken | frontend/src/AuthService.js:84-94 | The header getAuthHeaders builds gives protect back exactly the stored token. |
| Seqs.FirstIndex | backend/controllers/uploadRequestController.js:153 | findOne: the position of the first match, or none exactly when nothing matches. |
| Seqs.Filter | controllers/pyqController.js:37 | find: keeps exactly the matching documents, and never more than there are. |
| Seqs.FilterMultiplicity | controllers/pyqController.js:37 | find keeps every copy of a matching document and no copy of any other. |
| Seqs.CountUpdate | backend/controllers/uploadRequestController.js:119-127 | countDocuments after one document is replaced changes by what the old document counted and what the new one counts. |
| Seqs.SortDesc | controllers/pyqController.js:37 | sort descending: sorted, and a permutation of its input. |
| Text.Split | backend/middlewares/auth.js:14 | String.split: one more piece than separators, and no piece contains the separator. |
| Text.JoinSplit | frontend/src/AuthService.js:14 | Joining the pieces with the separator gives back the string. |
| Text.ParseInt | backend/controllers/uploadRequestController.js:219 | parseInt: text that starts with neither a digit nor a sign gives NaN, and the empty text too. Text that starts with a digit gives a non-negative number. |
| Text.ParseIntSigned | backend/controllers/uploadRequestController.js:219 | A "-" before a number's decimal text gives its negation, and a "+" gives the number. A bare sign is NaN. |
| Text.ParseIntAfterSign | backend/controllers/uploadRequestController.js:219 | A sign followed by digits reads as the digits' value, negated after "-". A sign followed by anything else, or by nothing, is NaN. |
| Text.DigitRun | backend/controllers/uploadRequestController.js:219 | The run of digits parseInt reads: every character in it is a digit, and the next one is not. |
| Text.DecimalRoundTrip | backend/controllers/uploadRequestController.js:219 | The value of a number's decimal text is the number. |
| Text.ParseIntReadsDecimal | backend/controllers/uploadRequestController.js:219 | parseInt reads a number's decimal text back, whatever non-digit text follows it. |
| Text.ParseIntUnsigned | backend/controllers/uploadRequestController.js:219 | Text that starts with a digit is read as the value of its leading run of digits. |
| Database.ResolveKeepsValid | backend/controllers/uploadRequestController.js:211-214 | Find-or-create alone, with the subject slot used, keeps the store invariant. |

## Left out

- Network, file and process I/O are not modelled: Express, multer and the Cloudinary
  upload (`backend/middlewares/upload.js`), `backend/server.js` with its download proxy,
  routes beyond the admin chain, seed and migration scripts, and the React pages.
- bcrypt and JWT cryptography, signing keys and expiry clocks are abstract. A digest is a
  constructor, and `jwt.verify` is a parameter.
- Mongoose internals are not modelled: ObjectId generation (a counter instead), casting of
  query strings and body fields to numbers and ids (a malformed id's CastError 500 is not
  modelled),
  `populate('subject')`, `select` projections other than the summary fields, and the
  message text of generic 500s (represented by fixed constants).
- Sort ties: Mongo does not promise the order of equal keys. The model's insertion sort
  keeps one fixed order, and every stated property holds for any order of ties.
- Concurrency and partial failure between the writes of one approval. Each handler is
  one atomic step.
- Moderation.ApproveRequest: the counter advances by two on every approval and admin
  upload, even when the subject already exists. Ids are arbitrary, so nothing observable
  depends on this.
- Moderation.AdminDashboardCounts: the start of "today" is a parameter. Time zones and
  daylight-saving days are not modelled.
- Stats.GetDashboardStats: the day is taken as 86 400 000 ms from its start, so a
  daylight-saving day is not modelled.
- Moderation.CreateUploadRequest: the year is taken already cast to a whole number, or
  absent. Body text that Mongoose cannot cast to a Number makes UploadRequest.create fail
  with a 500, and that path is not modelled. The upload form sends such text, "NaN", when
  its year field is cleared (frontend/src/pages/Upload.jsx:295). A fractional year such as
  "2023.5", which the schema's Number stores and approval copies into the PYQ, is not
  modelled either.
- Catalog.AddPyq: the year is taken already cast to a whole number, or absent. A fractional
  year, which PYQ's `year: Number` stores, and text that cannot be cast (a 500) are not
  modelled. The same holds for the year filter of Catalog.GetPyqs. A missing subjectName is
  read as `""`, so the lookup finds only a subject whose name is empty, and otherwise the
  reply is 404. The source runs `Subject.findOne({ name: undefined })` with no guard, whose
  match depends on how the driver serialises undefined. That case is not modelled.
- Moderation.DeleteUser: the route id is modelled as an id, with one spelling per account.
  In the source the self-deletion guard compares the route text with the requester's
  lowercase hex id, while findByIdAndDelete casts the text to an ObjectId and also accepts
  uppercase hex. So an admin who sends their own id in uppercase passes the guard and is
  deleted with 200. The model's refusal of self-deletion holds only for the canonical
  lowercase spelling.
- Accounts.Signin and Accounts.AdminLogin: a missing password is read as `""`. That is 401
  for an account with a non-empty password, but 200 for an account whose password is the
  empty text, which Accounts.Signup accepts. The source passes undefined to
  `user.comparePassword`, which lives in the User schema, and that schema is not part of
  this model.
- Accounts.SigninAfterSignup: its refusal of every other password holds because the
  abstract digest is injective. bcrypt reads only the first 72 bytes of a password, so two
  passwords that agree on those bytes both sign in. The lemma also takes the User schema
  (not part of this model) to store the given digest unchanged, and `comparePassword` to be
  bcrypt's compare.
- Accounts.Signup and Moderation.CreateAdmin: a missing email is read as `""`, and the
  lookup then finds only an account whose email is empty. The source runs
  `findOne({ email: undefined })`, whose match depends on how the driver serialises
  undefined. That case is not modelled.
- Text.ParseInt: leading whitespace and the "0x" hexadecimal prefix that parseInt also
  accepts are not modelled. Text with leading whitespace reads as NaN here. Text starting
  "0x" reads as 0, because the digit run stops at the "x". So "0x7E7", which parseInt reads
  as 2023, publishes a PYQ with year 0 in Moderation.AdminUploadPyq.
- getMe, getAllUsers and getAllAdmins (read-only lookups with projections) are not part of
  this model.
- Session.AuthService.GetUser: JSON.parse is not modelled. The stored text is returned
  as is, and a value that fails to parse or parses to a falsy value is not distinguished.
- localStorage exceptions (quota, disabled storage) and the catch-all branches they reach
  are not modelled.
- logout's navigation to the login page is not modelled. Only its clearAuth is, inside
  HandleAuthError.
- The Subject and User schemas are not part of this model. They carry only the fields the
  controllers use.
- Deletion of subjects and PYQs, with any cascades, is not part of this model.
