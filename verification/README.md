# ClinicFlow visit core, modelled in Dafny

ClinicFlow is a clinic visit-management application. Patients book visits with doctors. Doctors
treat them and record treatments. A finance role reviews the visits and the dashboard figures.
This project models the sequential logic of that application as pure functions over immutable
data:

- **Visit records** (`visit_model.dfy`). The Treatment and Visit records, the three-valued
  status with its default, treatment validation, and the pre-save hook that recomputes a visit's
  `totalAmount` from its treatments.
- **Booking** (`visit_controller.dfy`). `createVisit` is a guarded transition on the visit store.
  Its three guards run in a fixed order. `getDoctors` and `getMyVisits` are queries over the same
  store.
- **Registration and login** (`auth_controller.dfy`). Registration refuses duplicate emails,
  then unknown roles. Login accepts or rejects, with the password check left abstract.
- **Dashboard** (`dashboard.dfy`). Visit counts per status, revenue from completed visits, the
  average completed-visit cost, account counts per role, and the top-5 doctor ranking built by
  the group → sort → limit → lookup → unwind pipeline.
- **Pagination** (`pagination.dfy`). The client hook's page size, page count, current-page
  slice (with JavaScript `slice` index rules), and the clamped next/prev moves.

Shared pieces: `common.dfy` (Option, Result, fresh ids), `users.dfy` (accounts, roles, lookups),
`failures.dfy` (error kinds, status codes and messages), `sorting.dfy` (descending sort by key).

Modelling choices:

- Stores are sequences in insertion order. A `findOne` is the first match in that order.
- Ids are natural numbers. A newly created record gets an id larger than every id in use.
- Timestamps (`createdAt`) are natural numbers supplied by the caller.
- Money is integer cents. The average visit cost is an exact `real`.
- The caller of a patient route is an account in the directory with role `patient`, as the
  route's role gate guarantees. This is a precondition of `CreateVisit`.
- Account ids are unique (`UniqueIds`), as the database's primary key guarantees. This is a
  precondition where the guards depend on it.

Observations the proofs brought out:

- The same-doctor rejection of `createVisit` always reports status `pending`
  (`AlreadyOpenIsAlwaysPending`). The query also matches `in-progress`, but an in-progress visit
  is already rejected by the earlier active-visit guard.
- The dashboard sorts on `visitCount` only. Doctors with equal counts have no fixed order, and
  the model fixes one admissible order. A deterministic tie-break would need a second sort key,
  and the code has none.
- `averageVisitCost` is 0 when there are no completed visits. It is also 0 when every completed
  visit totals 0, so "average is 0" does not imply "no completed visits".
- Because `$limit` runs before `$lookup`/`$unwind`, a doctor id without an account takes a place
  in the top five and then vanishes. With unique account ids the ranking is then shorter than
  the kept buckets, and shorter than five when more than five doctors have visits; the freed
  place is not given to the next doctor (`DanglingDoctorShortensRanking`, `TopEntriesFromKept`).

## Model

| member | source | states |
|---|---|---|
| Users.ParseRole | backend/controllers/authController.js:4 | a role string is accepted exactly when it is the name of one of patient, doctor, finance, and the accepted role carries that name |
| Users.RoleNameRoundTrip | backend/controllers/authController.js:4 | every role's name is accepted as that role |
| Users.FindById | backend/controllers/visitController.js:20 | the lookup returns an account with the id from the directory, and nothing exactly when no account has the id |
| Users.FindByEmail | backend/controllers/authController.js:25 | the lookup returns an account with the email, and nothing exactly when no account has the email |
| Users.RoleCountsPartition | backend/controllers/dashboardController.js:27-28 | the patient, doctor and finance counts add up to the number of accounts, so finance accounts are in neither of the two reported counts |
| VisitModel.ParseStatus | backend/models/Visit.js:31-35 | the status enum accepts exactly the names pending, in-progress and completed |
| VisitModel.StatusNameRoundTrip | backend/models/Visit.js:33 | every status's stored name is read back as that status |
| VisitModel.MakeTreatment | backend/models/Visit.js:3-17 | a treatment is built exactly when a non-empty name and a cost of at least 0 are given; notes default to ""; otherwise exactly the failing fields are reported: the name exactly when missing or empty, the cost exactly when missing or negative |
| VisitModel.CreateVisitDoc | backend/models/Visit.js:19-50 | a new visit has the default status pending when none is given, rejects a status outside the enum, has no treatments, total 0, empty notes, no completion time, and a consistent total |
| VisitModel.PreSave | backend/models/Visit.js:52-58 | saving changes no field but the total |
| VisitModel.SaveMakesTotalConsistent | backend/models/Visit.js:52-58 | after save the total equals the sum of the treatment costs, whatever was stored before, and is 0 for a visit without treatments |
| VisitModel.SaveIdempotent | backend/models/Visit.js:52-58 | saving twice is saving once, and saving a consistent visit changes nothing |
| VisitModel.SumCostsConcat | backend/models/Visit.js:53-56 | the running-sum fold over a concatenation is the sum of the folds over the parts |
| VisitModel.AppendRaisesTotalBy | backend/models/Visit.js:52-58 | appending a treatment of cost c and saving raises the total by exactly c |
| VisitModel.SumCostsNonNegative | backend/models/Visit.js:8-12 | when every cost is at least 0, the total is at least 0 |
| VisitModel.AppendNeverDecreasesTotal | backend/models/Visit.js:52-58 | appending valid treatments and saving never lowers the total |
| Failures.HttpStatus | backend/controllers/visitController.js:20-52 | the doctor-not-found error is exactly the 404; the bad-credentials error (authController.js:79) exactly the 401; the booking rejections and the registration rejections (authController.js:29, 35) exactly the 400s; and an error without a status (`Internal`) exactly Express's default 500 |
| Sorting.SortDesc | backend/controllers/visitController.js:73-75 | the output is a permutation of the input ordered by the key, largest first |
| VisitController.GetDoctors | backend/controllers/visitController.js:7 | the list holds exactly the doctors' accounts without passwords, one entry per doctor account |
| VisitController.FindFirst | backend/controllers/visitController.js:27-30 | the result is the position of the first matching visit, and nothing exactly when no visit matches |
| VisitController.CreateVisit | backend/controllers/visitController.js:16-64 | 404 exactly when the id is not a doctor's; then, exactly when the caller has any visit in progress, the active-visit error naming that visit's doctor, or `Internal` exactly when the caller's first in-progress visit names a doctor id without an account (never when all the caller's in-progress visits resolve); then the same-doctor error exactly when an open visit with this doctor exists, carrying its status; success exactly otherwise, appending one pending visit of the caller with this doctor and leaving every earlier visit as it was, replying with the caller's contact and the doctor account's id, name and email; a rejection leaves the store unchanged |
| VisitController.AlreadyOpenIsAlwaysPending | backend/controllers/visitController.js:27-52 | the same-doctor rejection can only report a pending visit, because the earlier guard catches an in-progress one |
| VisitController.OpenVisitWithOtherDoctorDoesNotBlock | backend/controllers/visitController.js:40-52 | pending or completed visits with other doctors, and completed ones with this doctor, never block a booking |
| VisitController.CreatePreservesInvariants | backend/controllers/visitController.js:40-58 | a booking keeps at most one open visit per patient and doctor, and changes no patient's count of in-progress visits |
| VisitController.BookingsPreserveInvariants | backend/controllers/visitController.js:40-58 | any sequence of bookings keeps at most one open visit per patient and doctor, and adds no in-progress visit |
| VisitController.RepeatBookingRejected | backend/controllers/visitController.js:40-58 | repeating a successful booking is rejected with the same-doctor error for a pending visit and adds nothing |
| VisitController.OwnVisits | backend/controllers/visitController.js:73 | the result holds each of the patient's visits as often as the store does, and no other visit |
| VisitController.GetMyVisits | backend/controllers/visitController.js:71-81 | the result is exactly the caller's visits, with multiplicity, newest first |
| AuthController.Register | backend/controllers/authController.js:21-58 | duplicate email exactly when some account has the email; invalid role exactly when the email is free and the role is not accepted; otherwise exactly one account is appended with the given fields and a fresh id, and the reply is its profile without the password; rejections leave the directory unchanged; unique emails and ids stay unique |
| AuthController.DuplicateEmailReportedBeforeRole | backend/controllers/authController.js:25-37 | a duplicate email with an invalid role reports the duplicate |
| AuthController.Login | backend/controllers/authController.js:60-85 | success returns the profile of an account with the email whose password check accepts; with no such account the reply is the 401 error |
| AuthController.LoginAcceptsExactly | backend/controllers/authController.js:64-81 | with unique emails, login succeeds exactly when an account with the email accepts the password |
| AuthController.RegisteredUserCanLogIn | backend/controllers/authController.js:39-81 | after a registration, login with that email finds the new account and replies with the registration's profile when the check accepts the password |
| Dashboard.StatusCountsPartition | backend/controllers/dashboardController.js:6-14 | the completed, pending and in-progress counts add up to the number of visits |
| Dashboard.RevenueGroup | backend/controllers/dashboardController.js:16-22 | the grouping yields nothing exactly when no visit is completed, and otherwise the sum of the completed visits' totals |
| Dashboard.NoCompletedNoRevenue | backend/controllers/dashboardController.js:16-22 | with no completed visit the revenue is 0 |
| Dashboard.Average | backend/controllers/dashboardController.js:24-25 | the average is 0 when there are no completed visits, and otherwise times the count gives back the revenue |
| Dashboard.Bump | backend/controllers/dashboardController.js:31 | adding a visit raises its doctor's bucket by one, opening a bucket of 1 if none exists, and leaves other buckets unchanged |
| Dashboard.GroupByDoctor | backend/controllers/dashboardController.js:31 | the buckets are exactly the doctors with visits, each once, each with its number of visits of any status |
| Dashboard.BumpKeepsBuckets | backend/controllers/dashboardController.js:31 | adding a visit to its doctor's bucket turns a store's buckets into those of the store with that visit appended |
| Dashboard.Join | backend/controllers/dashboardController.js:34-42 | each joined entry carries the bucket's id and count and the name and email of an account with that id, and there is an entry exactly when such an account exists |
| Dashboard.JoinAtMostOne | backend/controllers/dashboardController.js:34-42 | with unique account ids a bucket joins with at most one account |
| Dashboard.LookupUnwindFromBuckets | backend/controllers/dashboardController.js:34-50 | every ranking entry comes from a kept bucket with that bucket's count |
| Dashboard.LookupUnwindNamesAccounts | backend/controllers/dashboardController.js:34-50 | every ranking entry shows the name and email of an account with its id |
| Dashboard.LookupUnwindKeepsAccounts | backend/controllers/dashboardController.js:34-42 | every kept bucket whose id has an account appears in the ranking |
| Dashboard.LookupUnwindSize | backend/controllers/dashboardController.js:34-42 | with unique account ids the join never yields more entries than buckets |
| Dashboard.LookupUnwindDistinct | backend/controllers/dashboardController.js:34-42 | with unique account ids and one bucket per doctor, the join lists no doctor twice |
| Dashboard.LookupUnwindDropsDangling | backend/controllers/dashboardController.js:34-42 | with unique account ids, a bucket whose id has no account makes the join shorter than the buckets |
| Dashboard.LookupUnwindSorted | backend/controllers/dashboardController.js:32-42 | dropping buckets without accounts keeps the ranking ordered by count |
| Dashboard.Kept | backend/controllers/dashboardController.js:33 | at most five buckets are kept |
| Dashboard.RankedBuckets | backend/controllers/dashboardController.js:31-32 | the sorted buckets are ordered by count, largest first, each count is the doctor's visit count and at least 1, and every doctor with visits has a bucket |
| Dashboard.KeptDistinct | backend/controllers/dashboardController.js:31-33 | the kept buckets name distinct doctors, since grouping makes one bucket per doctor and sorting only reorders |
| Dashboard.KeptIsRankedPrefix | backend/controllers/dashboardController.js:32-33 | the limit keeps the first buckets of the sorted list, and five of them whenever it cuts any |
| Dashboard.TopEntriesFromKept | backend/controllers/dashboardController.js:33-50 | every ranking entry comes from a bucket kept by the limit |
| Dashboard.TopDoctors | backend/controllers/dashboardController.js:30-51 | at most five entries given unique account ids, ordered by visit count, largest first; each count is the doctor's number of visits and at least 1; each entry names an account with that id; every kept bucket whose doctor has an account is listed; with unique account ids no doctor is listed twice |
| Dashboard.LimitCutsOnlySmallerCounts | backend/controllers/dashboardController.js:31-33 | a doctor with visits is either kept by the limit, or the limit kept five buckets and each has at least as many visits as that doctor |
| Dashboard.RankingCutsOnlySmallerCounts | backend/controllers/dashboardController.js:31-50 | a doctor with visits and an account is either listed, or the limit kept five buckets and each has at least as many visits as that doctor, so every listed doctor has too |
| Dashboard.DanglingDoctorShortensRanking | backend/controllers/dashboardController.js:31-42 | with unique account ids, a kept doctor id without an account leaves the ranking shorter than the kept buckets, and shorter than five when more than five doctors have visits; every listed doctor is a kept one, so no doctor below the cut takes the freed place |
| Dashboard.DanglingDoctorExample | backend/controllers/dashboardController.js:31-42 | a store whose only doctor id has no account gives an empty ranking although that doctor has a visit |
| Sorting.PermutationKeepsNoRepeats | backend/controllers/dashboardController.js:32 | reordering a sequence without repeated elements, as the sort does, repeats none |
| Dashboard.DashboardStats | backend/controllers/dashboardController.js:4-66 | the total is the number of visits and equals the sum of the three status counts; the revenue is the completed visits' sum and 0 without completed visits; the average is 0 without completed visits; patient and doctor counts add up to all accounts but finance ones |
| Dashboard.DashboardExample | backend/controllers/dashboardController.js:16-25 | three completed visits of 100, 50 and 0 and two pending ones give revenue 150, 3 completed, 2 pending and average 50 |
| Pagination.ItemsPerPage | frontend/src/hooks/usePagination.js:4-7 | the page size is between 1 and the configured size; it is the length for a non-empty list that fits, 1 for an empty list, and the configured size otherwise |
| Pagination.CeilDiv | frontend/src/hooks/usePagination.js:17 | the page count is the fewest pages of the page size that hold all items, and 0 exactly for no items |
| Pagination.PageCountOfShortLists | frontend/src/hooks/usePagination.js:4-17 | a non-empty list that fits on one page has exactly one page, and an empty list has none |
| Pagination.SliceIndex | frontend/src/hooks/usePagination.js:19-22 | a slice index is kept within the list, and a negative one counts from the end |
| Pagination.Slice | frontend/src/hooks/usePagination.js:19-22 | an in-range slice is the sub-sequence between the bounds, and a slice starting at or past the end is empty |
| Pagination.CurrentDataIsClippedRange | frontend/src/hooks/usePagination.js:19-22 | page p shows items (p-1)*size up to p*size, clipped to the data, and never more than size items |
| Pagination.PagesAreNonEmpty | frontend/src/hooks/usePagination.js:17-22 | every page from 1 to the last holds at least one item |
| Pagination.PagesUpToIsPrefix | frontend/src/hooks/usePagination.js:17-22 | pages 1 to k laid end to end are the first k*size items |
| Pagination.PagesPartitionData | frontend/src/hooks/usePagination.js:17-22 | pages 1 to the last laid end to end give back the data, so the pages are disjoint and cover every item |
| Pagination.Start | frontend/src/hooks/usePagination.js:9-10 | the hook starts on page 1 with the page size for the data |
| Pagination.LengthChanged | frontend/src/hooks/usePagination.js:12-15 | a change of length goes back to page 1 and recomputes the page size |
| Pagination.Next | frontend/src/hooks/usePagination.js:24-26 | next moves one page on before the last page, moves to the last page otherwise, never past it, and keeps the page size |
| Pagination.Prev | frontend/src/hooks/usePagination.js:28-30 | prev moves one page back above page 1, stays at 1 otherwise, never below 1, and keeps the page size |
| Pagination.MovesKeepPagerValid | frontend/src/hooks/usePagination.js:9-30 | the start state is valid, and next, prev and a length change keep the page among the existing pages (0 or 1 for empty data) |
| Pagination.MovesStopAtTheEnds | frontend/src/hooks/usePagination.js:24-30 | next does nothing on the last page and prev does nothing on page 1 |
| Pagination.EmptyDataNextGoesToPageZero | frontend/src/hooks/usePagination.js:17-26 | with empty data next moves to page 0, and the shown data is empty before and after |

## Left out

- The handlers `startVisit`, `addTreatment`, `updateMedicalNotes`, `completeVisit`, `getActiveVisit`, `getPendingVisits`, `searchVisits` and `getAllVisits` are imported by backend/routes/visitRoutes.js:4-16 but not defined in backend/controllers/visitController.js. So the model has no transition beyond `pending`, does not set `completedAt`, and has no search. The treatment-append lemmas state only what the pre-save hook guarantees about any append.
- Concurrency: `createVisit` reads, then writes, in separate queries. The model runs it as one sequential transition and makes no atomicity claim.
- Tokens, cookies and password hashing are not modelled. This covers `generateToken`, `setTokenCookie`, `logout`, `checkAuth`, `testAuth`, the `protectRoutes` middleware and `comparePassword`. The password check is a function parameter of `Login`, and the stored password is an opaque string.
- AuthController.Login: the reply is the profile only; the token the source adds to it is not modelled.
- backend/models/User.js is not part of this model. Missing or malformed request fields (name, email, password), and the schema validation of accounts, are not modelled. Registration fields are plain strings.
- A `doctorId` that is not a well-formed database id makes the lookup throw a cast error. Ids are natural numbers here, so that path does not exist.
- Dashboard.TopDoctors: the bound of five entries is stated only for directories with unique account ids. With repeated ids, `$unwind` would emit one entry per matching account.
- Dashboard.DashboardStats: the ranking's properties are stated on Dashboard.TopDoctors; the statistics contract only says it uses that ranking.
- Dashboard.GroupByDoctor: buckets come out in order of first appearance, and Sorting.SortDesc puts the later of two equal keys first. The database leaves both orders open; the model proves only order-independent facts about them.
- VisitController.GetMyVisits: the doctor is not expanded to name and email (`populate`). The result holds the visits themselves.
- VisitController.CreateVisit: the reply's patient contact is the caller's account, as loaded by the authentication middleware; it is not looked up again.
- VisitController.CreateVisit: `Internal` stands for the type error raised when the doctor of the caller's first in-progress visit has no account. Its message in Failures.Message is a placeholder (Express's default status text), not the type error's own text.
- Pagination.ItemsPerPage: requires a configured page size of at least 1. Both callers pass 2 or 3, and a size of 0 would divide by zero in the page count.
- Floating point: amounts are integer cents, and the average is an exact rational. JavaScript number rounding, `parseFloat` in the treatment form, and `toFixed` display formatting are not modelled.
- Route wiring and role gates (backend/routes/*, the role-check middleware) are not modelled. The patient role of a booking caller is a precondition.
- React pages and components, the API client, and server start-up are rendering or I/O only.
- Failures.Message gives the error texts; it carries no contract.
