/** Whole journeys through the handlers, each on a fresh empty store: a submission that an
    admin approves shows up in the subject listing, two submissions under one subject name
    share one subject, approving twice publishes twice; a decision taken today shows in
    both dashboards' day counts; and a signed-in client's header passes the route guards
    with the account's identity. */
module Flows {
  import opened Common
  import opened Models
  import opened Seqs
  import opened Text
  import opened Database
  import opened Moderation
  import opened Catalog
  import opened Accounts
  import opened Access
  import opened Session
  import Stats

  /** Submit, approve, then list by the submitted subject name: exactly one PYQ is listed,
      carrying the submission's title, year and file, published as a user upload. */
  method ApprovedSubmissionIsListed(title: string, subjectName: string, year: Option<int>, file: Url,
                                    submittedAt: int, approvedAt: int)
    returns (listed: seq<Pyq>)
    requires title != "" && subjectName != ""
    ensures |listed| == 1
    ensures listed[0].title == title && listed[0].year == year && listed[0].fileUrl == file
    ensures listed[0].uploadedBy == ByUser && listed[0].status == Approved
  {
    var db := new Db();
    var submitted := CreateUploadRequest(db, title, subjectName, year, Some(file), submittedAt);
    assert db.requests == [submitted.value] && db.nextId == 1;
    assert FirstIndex(db.requests, WithRequestId(submitted.value.id)) == Some(0);
    assert ResolveSubject([], subjectName, 1).subjects == [Subject(1, subjectName)];
    var approved := ApproveRequest(db, submitted.value.id, approvedAt);
    assert db.subjects == [Subject(1, subjectName)];
    var reply := GetPyqsBySubject(db.subjects, db.pyqs, subjectName);
    assert reply.Ok?;
    listed := reply.value;
    var pyq := db.pyqs[0];
    assert db.pyqs == [pyq];
    assert Filter(db.pyqs, (p: Pyq) => p.subject == 1 && p.status == Approved) == [pyq];
  }

  /** Two submissions under the same subject name, both approved: one subject, two PYQs,
      and the listing by that name shows both. */
  method SameNameSharesSubject(first: string, second: string, subjectName: string, file: Url, now: int)
    returns (subjects: nat, published: nat, listed: nat)
    requires first != "" && second != "" && subjectName != ""
    ensures subjects == 1 && published == 2 && listed == 2
  {
    var db, a, b := SubmitTwice(first, second, subjectName, file, now);
    assert FirstIndex(db.requests, WithRequestId(a)) == Some(0);
    assert ResolveSubject([], subjectName, 2).subjects == [Subject(2, subjectName)];
    var approvedA := ApproveRequest(db, a, now);
    ApproveUnderExisting(db, b, subjectName, now);
    subjects, published := |db.subjects|, |db.pyqs|;
    var reply := GetPyqsBySubject(db.subjects, db.pyqs, subjectName);
    ListsEverythingUnder(db.subjects, db.pyqs, subjectName);
    listed := |reply.value|;
  }

  /** Two pending submissions under one subject name on a fresh store. */
  method SubmitTwice(first: string, second: string, subjectName: string, file: Url, now: int)
    returns (db: Db, a: Id, b: Id)
    requires first != "" && second != "" && subjectName != ""
    ensures fresh(db) && db.Valid()
    ensures db.subjects == [] && db.pyqs == [] && db.nextId == 2 && |db.requests| == 2
    ensures db.requests[0].id == a && db.requests[1].id == b && a != b
    ensures db.requests[0].subjectName == subjectName && db.requests[1].subjectName == subjectName
  {
    db := new Db();
    var x := CreateUploadRequest(db, first, subjectName, None, Some(file), now);
    var y := CreateUploadRequest(db, second, subjectName, None, Some(file), now);
    a, b := x.value.id, y.value.id;
  }

  /** Approving, under a store whose one subject already has the request's name, the second
      of two requests adds a PYQ under that subject and no subject. */
  method ApproveUnderExisting(db: Db, b: Id, subjectName: string, now: int)
    requires db.Valid() && |db.requests| == 2 && db.requests[1].id == b && db.requests[0].id != b
    requires db.requests[1].subjectName == subjectName
    requires db.subjects == [Subject(2, subjectName)]
    requires |db.pyqs| == 1 && db.pyqs[0].subject == 2 && db.pyqs[0].status == Approved
    modifies db
    ensures db.subjects == [Subject(2, subjectName)] && |db.pyqs| == 2
    ensures forall p :: p in db.pyqs ==> p.subject == 2 && p.status == Approved
  {
    assert FirstIndex(db.requests, WithRequestId(b)) == Some(1);
    assert FirstIndex(db.subjects, WithSubjectName(subjectName)) == Some(0);
    var approved := ApproveRequest(db, b, now);
  }

  /** With a single subject and every PYQ approved under it, listing by its name lists every
      PYQ. */
  lemma ListsEverythingUnder(subjects: seq<Subject>, pyqs: seq<Pyq>, name: string)
    requires name != "" && |subjects| == 1 && subjects[0].name == name
    requires forall p :: p in pyqs ==> p.subject == subjects[0].id && p.status == Approved
    ensures GetPyqsBySubject(subjects, pyqs, name) == Ok(200, pyqs)
  {
    FilterAll(pyqs, (p: Pyq) => p.subject == subjects[0].id && p.status == Approved);
  }

  /** Approval does not look at the request's status: approving the same request twice
      publishes two PYQs under one subject. */
  method ReapprovalPublishesTwice(title: string, subjectName: string, file: Url, now: int)
    returns (published: nat, subjects: nat)
    requires title != "" && subjectName != ""
    ensures published == 2 && subjects == 1
  {
    var db := new Db();
    var submitted := CreateUploadRequest(db, title, subjectName, None, Some(file), now);
    var once := ApproveRequest(db, submitted.value.id, now);
    assert db.requests[0].id == submitted.value.id;
    var twice := ApproveRequest(db, submitted.value.id, now);
    published, subjects := |db.pyqs|, |db.subjects|;
  }

  /** A session issued to an account, signed into a token without spaces that jwt.verify
      accepts with the signed payload, sent the way the client sends it ("Bearer " and the
      token), passes protect with the account's id and role, and passes the admin gate
      exactly when the account's role is "admin". */
  lemma IssuedTokenPassesGuards(u: User, signed: string, verify: string -> Verification)
    requires signed != "" && ' ' !in signed
    requires verify(signed) == Verified(SessionOf(u).token.payload)
    ensures Protect(Some("Bearer " + signed), verify) == Next(Claims(u.id, u.role))
    ensures AdminGate(Some("Bearer " + signed), verify).Next? <==> u.role == AdminRole
  {
    BearerRoundTrip(signed);
    AdminGatePassesOnlyAdmins(Some("Bearer " + signed), verify);
  }

  /** The header getAuthHeaders builds from a stored token without spaces gives protect
      back exactly that token. */
  lemma ClientHeaderCarriesStoredToken(storage: map<string, string>)
    requires ReadToken(storage).token.Some? && ' ' !in ReadToken(storage).token.value
    ensures BearerToken(Some("Bearer " + ReadToken(storage).token.value)) == ReadToken(storage).token
  {
    BearerRoundTrip(ReadToken(storage).token.value);
  }

  /** Rejecting the request at position k at a time inside today's window (the request as
      RejectRequest leaves it): today's rejections grow by one unless the request was
      already counted, a request approved earlier today leaves today's approvals, and a
      pending one leaves the pending count, on both dashboards. */
  lemma RejectionCountsToday(users: seq<User>, subjects: seq<Subject>, pyqs: seq<Pyq>,
                             requests: seq<UploadRequest>, k: nat, now: int, dayStart: int)
    requires k < |requests|
    requires dayStart <= now < dayStart + Stats.LastMillisecond
    ensures
      var req := requests[k];
      var before := Stats.GetDashboardStats(users, pyqs, requests, dayStart);
      var after := Stats.GetDashboardStats(users, pyqs, requests[k := req.(status := Rejected, updatedAt := now)], dayStart);
      && after.rejectedToday == before.rejectedToday + (if Stats.DecidedToday(Rejected, dayStart)(req) then 0 else 1)
      && after.approvedToday + (if Stats.DecidedToday(Approved, dayStart)(req) then 1 else 0) == before.approvedToday
      && after.pendingRequests + (if req.status == Pending then 1 else 0) == before.pendingRequests
    ensures
      var req := requests[k];
      var before := AdminDashboardCounts(users, subjects, pyqs, requests, dayStart);
      var after := AdminDashboardCounts(users, subjects, pyqs, requests[k := req.(status := Rejected, updatedAt := now)], dayStart);
      && after.rejectedToday == before.rejectedToday + (if DecidedSince(Rejected, dayStart)(req) then 0 else 1)
      && after.approvedToday + (if DecidedSince(Approved, dayStart)(req) then 1 else 0) == before.approvedToday
      && after.pendingRequests + (if req.status == Pending then 1 else 0) == before.pendingRequests
  {
    var decided := requests[k].(status := Rejected, updatedAt := now);
    CountUpdate(requests, k, decided, Stats.DecidedToday(Rejected, dayStart));
    CountUpdate(requests, k, decided, Stats.DecidedToday(Approved, dayStart));
    CountUpdate(requests, k, decided, Stats.RequestWithStatus(Pending));
    CountUpdate(requests, k, decided, DecidedSince(Rejected, dayStart));
    CountUpdate(requests, k, decided, DecidedSince(Approved, dayStart));
    CountUpdate(requests, k, decided, (x: UploadRequest) => x.status == Pending);
  }

  /** Approving the request at position k at a time inside today's window (the request as
      ApproveRequest leaves it): today's approvals grow by one exactly when the request was
      not approved already, so a request approved on an earlier day and approved again
      today is not counted today; a request rejected earlier today leaves today's
      rejections, and a pending one leaves the pending count, on both dashboards. */
  lemma ApprovalCountsToday(users: seq<User>, subjects: seq<Subject>, pyqs: seq<Pyq>,
                            requests: seq<UploadRequest>, k: nat, now: int, dayStart: int)
    requires k < |requests|
    requires dayStart <= now < dayStart + Stats.LastMillisecond
    ensures
      var req := requests[k];
      var before := Stats.GetDashboardStats(users, pyqs, requests, dayStart);
      var after := Stats.GetDashboardStats(users, pyqs, requests[k := MarkedApproved(req, now)], dayStart);
      && after.approvedToday == before.approvedToday + (if req.status == Approved then 0 else 1)
      && after.rejectedToday + (if Stats.DecidedToday(Rejected, dayStart)(req) then 1 else 0) == before.rejectedToday
      && after.pendingRequests + (if req.status == Pending then 1 else 0) == before.pendingRequests
    ensures
      var req := requests[k];
      var before := AdminDashboardCounts(users, subjects, pyqs, requests, dayStart);
      var after := AdminDashboardCounts(users, subjects, pyqs, requests[k := MarkedApproved(req, now)], dayStart);
      && after.approvedToday == before.approvedToday + (if req.status == Approved then 0 else 1)
      && after.rejectedToday + (if DecidedSince(Rejected, dayStart)(req) then 1 else 0) == before.rejectedToday
      && after.pendingRequests + (if req.status == Pending then 1 else 0) == before.pendingRequests
  {
    var decided := MarkedApproved(requests[k], now);
    if requests[k].status == Approved {
      assert requests[k := decided] == requests;
    } else {
      CountUpdate(requests, k, decided, Stats.DecidedToday(Approved, dayStart));
      CountUpdate(requests, k, decided, Stats.DecidedToday(Rejected, dayStart));
      CountUpdate(requests, k, decided, Stats.RequestWithStatus(Pending));
      CountUpdate(requests, k, decided, DecidedSince(Approved, dayStart));
      CountUpdate(requests, k, decided, DecidedSince(Rejected, dayStart));
      CountUpdate(requests, k, decided, (x: UploadRequest) => x.status == Pending);
    }
  }
}
