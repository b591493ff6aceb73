/** The submission-moderation handlers of backend/controllers/uploadRequestController.js.
    Each handler is one atomic step on the store: submit a request, list the pending ones,
    approve (find-or-create the subject, publish one PYQ, mark the request approved), reject,
    upload directly as an admin, delete a user, create an admin, and the dashboard counts.
    The older controllers/uploadRequestController.js has the same submit, list, approve and
    reject handlers and is modelled by the same members. */
module Moderation {
  import opened Common
  import opened Models
  import opened Seqs
  import opened Database
  import opened Text

  const Anonymous: string := "anonymous"

  /** Stands for the ValidationError text Mongoose builds when a required path is unset. */
  const RequestValidationError: string := "UploadRequest validation failed"

  const RequestNotFound: string := "Request not found"
  const RequestRejected: string := "Request rejected"
  const PdfRequired: string := "PDF file is required"
  const FieldsRequired: string := "All fields are required"
  const SelfDeletion: string := "Cannot delete your own account"
  const UserNotFound: string := "User not found"
  const UserDeleted: string := "User deleted successfully"
  const AdminEmailTaken: string := "User with this email already exists"
  const UploadServerError: string := "Server error during upload"

  /** createUploadRequest: every submission with a file and the required paths becomes a
      new pending request submitted by "anonymous"; the subject name is stored as given and
      no subject is looked up or created. */
  method CreateUploadRequest(db: Db, title: string, subjectName: string, year: Option<int>,
                             file: Option<Url>, now: int) returns (r: Reply<UploadRequest>)
    requires db.Valid()
    modifies db
    ensures db.Valid()
    ensures file.None? ==> r == Fail(500, NoFileError) && unchanged(db)
    ensures file.Some? && (title == "" || subjectName == "") ==>
      r == Fail(500, RequestValidationError) && unchanged(db)
    ensures file.Some? && title != "" && subjectName != "" ==>
      && r == Ok(201, UploadRequest(old(db.nextId), title, subjectName, year, file.value,
                                    Some(Anonymous), Pending, now, now))
      && db.requests == old(db.requests) + [r.value]
      && db.subjects == old(db.subjects) && db.pyqs == old(db.pyqs) && db.users == old(db.users)
      && db.nextId == old(db.nextId) + 1
  {
    if file.None? {
      return Fail(500, NoFileError);
    }
    var doc := NewUploadRequest(db.nextId, title, subjectName, year, file.value,
                                Some(Anonymous), Some(Pending), now);
    if doc.None? {
      return Fail(500, RequestValidationError);
    }
    SubmitKeepsValid(db.subjects, db.pyqs, db.requests, db.users, db.nextId, doc.value);
    db.requests, db.nextId := db.requests + [doc.value], db.nextId + 1;
    r := Ok(201, doc.value);
  }

  /** getPendingRequests: `UploadRequest.find({ status: "pending" })`: every pending
      request, each as often as it is stored, and nothing else. */
  function PendingRequests(requests: seq<UploadRequest>): (r: seq<UploadRequest>)
    ensures forall x :: x in r <==> x in requests && x.status == Pending
    ensures forall x :: multiset(r)[x] == if x.status == Pending then multiset(requests)[x] else 0
  {
    var pending := (x: UploadRequest) => x.status == Pending;
    var r := Filter(requests, pending);
    assert forall x :: multiset(r)[x] == if pending(x) then multiset(requests)[x] else 0 by {
      forall x ensures multiset(r)[x] == if pending(x) then multiset(requests)[x] else 0 {
        FilterMultiplicity(requests, pending, x);
      }
    }
    r
  }

  /** A submission joins the end of the pending queue. */
  lemma SubmissionJoinsQueue(requests: seq<UploadRequest>, submitted: UploadRequest)
    requires submitted.status == Pending
    ensures PendingRequests(requests + [submitted]) == PendingRequests(requests) + [submitted]
  {
    FilterAppend(requests, [submitted], (x: UploadRequest) => x.status == Pending);
  }

  /** Deciding a request (approve or reject) removes exactly that request from the
      pending queue, whatever its status was before. */
  lemma DecisionLeavesQueue(requests: seq<UploadRequest>, k: nat, decided: UploadRequest)
    requires k < |requests| && DistinctKeys(requests, RequestKey)
    requires decided.id == requests[k].id && decided.status != Pending
    ensures forall x :: x in PendingRequests(requests[k := decided]) <==>
                        x in PendingRequests(requests) && x.id != decided.id
  {
    var after := requests[k := decided];
    forall x ensures x in PendingRequests(after) <==> x in PendingRequests(requests) && x.id != decided.id {
      if x in after && x.status == Pending {
        var j :| 0 <= j < |after| && after[j] == x;
        assert j != k && requests[j] == x;
        assert RequestKey(requests[j]) != RequestKey(requests[k]);
      }
      if x in requests && x.status == Pending && x.id != decided.id {
        var j :| 0 <= j < |requests| && requests[j] == x;
        assert j != k && after[j] == x;
      }
    }
  }

  /** approveRequest: a request id that resolves to nothing gives 404 and writes nothing.
      Otherwise the request's subject name is resolved by exact match (created only when no
      subject has it), exactly one approved, user-uploaded PYQ copying the request's title,
      year and file is published under that subject, and the request becomes approved;
      its previous status is not consulted, except that re-approving an approved request
      leaves its update time as it was. */
  method ApproveRequest(db: Db, id: Id, now: int) returns (r: Reply<string>)
    requires db.Valid()
    modifies db
    ensures db.Valid()
    ensures FirstIndex(old(db.requests), WithRequestId(id)).None? ==>
      r == Fail(404, RequestNotFound) && unchanged(db)
    ensures FirstIndex(old(db.requests), WithRequestId(id)).Some? ==>
      var k := FirstIndex(old(db.requests), WithRequestId(id)).value;
      var req := old(db.requests)[k];
      var res := ResolveSubject(old(db.subjects), req.subjectName, old(db.nextId));
      && r == Ok(200, req.subjectName)
      && db.subjects == res.subjects
      && db.pyqs == old(db.pyqs) + [Pyq(old(db.nextId) + 1, req.title, res.subject.id, req.year,
                                        req.fileUrl, ByUser, Approved, 0, now, now)]
      && db.requests == old(db.requests)[k := MarkedApproved(req, now)]
      && db.users == old(db.users)
      && db.nextId == old(db.nextId) + 2
      && Count(db.subjects, WithSubjectName(req.subjectName)) == 1
  {
    var k := FirstIndex(db.requests, WithRequestId(id));
    if k.None? {
      return Fail(404, RequestNotFound);
    }
    var name := Approve(db, k.value, now);
    r := Ok(200, name);
  }

  /** An approval of the request at position k: publish its PYQ as a user upload, then
      mark it approved. */
  method Approve(db: Db, k: nat, now: int) returns (subjectName: string)
    requires db.Valid() && k < |db.requests|
    modifies db
    ensures db.Valid()
    ensures
      var req := old(db.requests)[k];
      var res := ResolveSubject(old(db.subjects), req.subjectName, old(db.nextId));
      && subjectName == req.subjectName
      && db.subjects == res.subjects
      && db.pyqs == old(db.pyqs) + [Pyq(old(db.nextId) + 1, req.title, res.subject.id, req.year,
                                        req.fileUrl, ByUser, Approved, 0, now, now)]
      && db.requests == old(db.requests)[k := MarkedApproved(req, now)]
      && db.users == old(db.users)
      && db.nextId == old(db.nextId) + 2
      && Count(db.subjects, WithSubjectName(req.subjectName)) == 1
  {
    var req := db.requests[k];
    assert UniqueSubjectNames(db.subjects);
    var pyq := Publish(db, req.subjectName, req.title, req.year, req.fileUrl, ByUser, now);
    Decide(db, k, Approved, if req.status == Approved then req.updatedAt else now);
    ApprovalKeepsValid(old(db.subjects), old(db.pyqs), old(db.requests), old(db.users), old(db.nextId), k, now,
                       db.subjects, db.pyqs, db.requests, db.users, db.nextId);
    subjectName := req.subjectName;
  }

  /** The status update approval and rejection share: the request at position k takes the
      new status and the given update time; nothing else changes. */
  method Decide(db: Db, k: nat, status: Status, stamp: int)
    requires k < |db.requests|
    modifies db
    ensures db.requests == old(db.requests)[k := old(db.requests)[k].(status := status, updatedAt := stamp)]
    ensures db.subjects == old(db.subjects) && db.pyqs == old(db.pyqs) && db.users == old(db.users)
    ensures db.nextId == old(db.nextId)
  {
    db.requests := db.requests[k := db.requests[k].(status := status, updatedAt := stamp)];
  }

  /** The request as approval saves it. Setting the status it already has does not modify
      the document, so saving it leaves the update time alone; a status change stamps it. */
  function MarkedApproved(req: UploadRequest, now: int): (r: UploadRequest)
    ensures r.status == Approved
    ensures r.(status := req.status, updatedAt := req.updatedAt) == req
    ensures req.status == Approved ==> r == req
    ensures req.status != Approved ==> r.updatedAt == now
  {
    req.(status := Approved, updatedAt := if req.status == Approved then req.updatedAt else now)
  }

  /** The writes approval and the admin upload share: find or create the subject by its
      exact name, then add one approved PYQ under it with the download count at 0. The
      subject slot takes the next id (used only when the subject is created) and the PYQ
      the one after it. */
  method Publish(db: Db, subjectName: string, title: string, year: Option<int>, fileUrl: string,
                 uploadedBy: UploadedBy, now: int) returns (pyq: Pyq)
    requires UniqueSubjectNames(db.subjects)
    modifies db
    ensures
      var res := ResolveSubject(old(db.subjects), subjectName, old(db.nextId));
      && pyq == Pyq(old(db.nextId) + 1, title, res.subject.id, year, fileUrl, uploadedBy, Approved, 0, now, now)
      && db.subjects == res.subjects
      && db.pyqs == old(db.pyqs) + [pyq]
      && db.requests == old(db.requests) && db.users == old(db.users)
      && db.nextId == old(db.nextId) + 2
      && Count(db.subjects, WithSubjectName(subjectName)) == 1
  {
    var res := ResolveSubject(db.subjects, subjectName, db.nextId);
    ResolveKeepsOneSubjectPerName(db.subjects, subjectName, db.nextId);
    pyq := Pyq(db.nextId + 1, title, res.subject.id, year, fileUrl, uploadedBy, Approved, 0, now, now);
    db.subjects, db.pyqs, db.nextId := res.subjects, db.pyqs + [pyq], db.nextId + 2;
  }

  /** The find-or-create step alone, as the admin upload leaves it when the PYQ is
      refused: the subject slot takes the next id. */
  method Resolve(db: Db, subjectName: string)
    requires UniqueSubjectNames(db.subjects)
    modifies db
    ensures db.subjects == ResolveSubject(old(db.subjects), subjectName, old(db.nextId)).subjects
    ensures db.pyqs == old(db.pyqs) && db.requests == old(db.requests) && db.users == old(db.users)
    ensures db.nextId == old(db.nextId) + 1
    ensures Count(db.subjects, WithSubjectName(subjectName)) == 1
  {
    var res := ResolveSubject(db.subjects, subjectName, db.nextId);
    ResolveKeepsOneSubjectPerName(db.subjects, subjectName, db.nextId);
    db.subjects, db.nextId := res.subjects, db.nextId + 1;
  }

  /** The store Resolve leaves behind, given as subjects', pyqs', requests', users' and
      nextId', is valid when the name is present. */
  lemma ResolvedKeepsValid(subjects: seq<Subject>, pyqs: seq<Pyq>, requests: seq<UploadRequest>,
                           users: seq<User>, nextId: nat, subjectName: string,
                           subjects': seq<Subject>, pyqs': seq<Pyq>, requests': seq<UploadRequest>,
                           users': seq<User>, nextId': nat)
    requires StoreValid(subjects, pyqs, requests, users, nextId) && Present(subjectName)
    requires subjects' == ResolveSubject(subjects, subjectName, nextId).subjects
    requires pyqs' == pyqs && requests' == requests && users' == users && nextId' == nextId + 1
    ensures StoreValid(subjects', pyqs', requests', users', nextId')
  {
    ResolveKeepsValid(subjects, pyqs, requests, users, nextId, subjectName);
  }

  /** The store Publish leaves behind, given as subjects', pyqs', requests', users' and
      nextId', is valid when the name, title and file are present. */
  lemma PublishedKeepsValid(subjects: seq<Subject>, pyqs: seq<Pyq>, requests: seq<UploadRequest>,
                            users: seq<User>, nextId: nat, subjectName: string, title: string,
                            year: Option<int>, fileUrl: string, uploadedBy: UploadedBy, now: int, pyq: Pyq,
                            subjects': seq<Subject>, pyqs': seq<Pyq>, requests': seq<UploadRequest>,
                            users': seq<User>, nextId': nat)
    requires StoreValid(subjects, pyqs, requests, users, nextId)
    requires Present(subjectName) && Present(title) && Present(fileUrl)
    requires pyq == Pyq(nextId + 1, title, ResolveSubject(subjects, subjectName, nextId).subject.id,
                        year, fileUrl, uploadedBy, Approved, 0, now, now)
    requires subjects' == ResolveSubject(subjects, subjectName, nextId).subjects
    requires pyqs' == pyqs + [pyq]
    requires requests' == requests && users' == users && nextId' == nextId + 2
    ensures StoreValid(subjects', pyqs', requests', users', nextId')
  {
    PublishKeepsValid(subjects, pyqs, requests, users, nextId, subjectName, pyq);
  }

  /** The store an approval of the request at position k leaves behind, given as
      subjects', pyqs', requests', users' and nextId', is valid. The published PYQ passes
      the PYQ schema because the request carries the same required paths. */
  lemma ApprovalKeepsValid(subjects: seq<Subject>, pyqs: seq<Pyq>, requests: seq<UploadRequest>,
                           users: seq<User>, nextId: nat, k: nat, now: int,
                           subjects': seq<Subject>, pyqs': seq<Pyq>, requests': seq<UploadRequest>,
                           users': seq<User>, nextId': nat)
    requires StoreValid(subjects, pyqs, requests, users, nextId) && k < |requests|
    requires
      var req := requests[k];
      var res := ResolveSubject(subjects, req.subjectName, nextId);
      && subjects' == res.subjects
      && pyqs' == pyqs + [Pyq(nextId + 1, req.title, res.subject.id, req.year, req.fileUrl, ByUser, Approved, 0, now, now)]
      && requests' == requests[k := MarkedApproved(req, now)]
      && users' == users && nextId' == nextId + 2
    ensures StoreValid(subjects', pyqs', requests', users', nextId')
  {
    var req := requests[k];
    assert RequestComplete(req) by { assert req in requests; }
    var res := ResolveSubject(subjects, req.subjectName, nextId);
    var pyq := Pyq(nextId + 1, req.title, res.subject.id, req.year, req.fileUrl, ByUser, Approved, 0, now, now);
    PublishKeepsValid(subjects, pyqs, requests, users, nextId, req.subjectName, pyq);
    UpdateRequestKeepsValid(res.subjects, pyqs + [pyq], requests, users, nextId + 2,
                            k, MarkedApproved(req, now));
  }

  /** rejectRequest: `findByIdAndUpdate(id, { status: "rejected" })` and a success reply in
      every case. An existing request becomes rejected from any status; an unknown id
      changes nothing and is still reported as rejected. */
  method RejectRequest(db: Db, id: Id, now: int) returns (r: Reply<string>)
    requires db.Valid()
    modifies db
    ensures db.Valid()
    ensures r == Ok(200, RequestRejected)
    ensures FirstIndex(old(db.requests), WithRequestId(id)).None? ==> unchanged(db)
    ensures FirstIndex(old(db.requests), WithRequestId(id)).Some? ==>
      var k := FirstIndex(old(db.requests), WithRequestId(id)).value;
      && db.requests == old(db.requests)[k := old(db.requests)[k].(status := Rejected, updatedAt := now)]
      && db.subjects == old(db.subjects) && db.pyqs == old(db.pyqs) && db.users == old(db.users)
      && db.nextId == old(db.nextId)
  {
    var k := FirstIndex(db.requests, WithRequestId(id));
    if k.Some? {
      var req := db.requests[k.value];
      assert req in db.requests;
      var rejected := req.(status := Rejected, updatedAt := now);
      UpdateRequestKeepsValid(db.subjects, db.pyqs, db.requests, db.users, db.nextId, k.value, rejected);
      Decide(db, k.value, Rejected, now);
    }
    r := Ok(200, RequestRejected);
  }

  /** adminUploadPYQ: no file gives 400, then a missing title, subject name or year gives
      400, both without writes. Otherwise the subject name is resolved (found or created)
      exactly as in approval. The year arrives as text and is read with parseInt: text
      with no leading number makes the PYQ's Number cast fail, which answers 500 with the
      resolved subject already written and no PYQ; otherwise one approved, admin-uploaded
      PYQ with the parsed year is published. */
  method AdminUploadPyq(db: Db, title: string, subjectName: string, year: string,
                        file: Option<Url>, now: int) returns (r: Reply<Pyq>)
    requires db.Valid()
    modifies db
    ensures db.Valid()
    ensures file.None? ==> r == Fail(400, PdfRequired) && unchanged(db)
    ensures file.Some? && (title == "" || subjectName == "" || year == "") ==>
      r == Fail(400, FieldsRequired) && unchanged(db)
    ensures file.Some? && title != "" && subjectName != "" && year != "" ==>
      && db.subjects == ResolveSubject(old(db.subjects), subjectName, old(db.nextId)).subjects
      && db.requests == old(db.requests) && db.users == old(db.users)
      && Count(db.subjects, WithSubjectName(subjectName)) == 1
    ensures file.Some? && title != "" && subjectName != "" && year != "" && ParseInt(year).None? ==>
      && r == Fail(500, UploadServerError)
      && db.pyqs == old(db.pyqs)
      && db.nextId == old(db.nextId) + 1
    ensures file.Some? && title != "" && subjectName != "" && year != "" && ParseInt(year).Some? ==>
      var res := ResolveSubject(old(db.subjects), subjectName, old(db.nextId));
      && r == Ok(201, Pyq(old(db.nextId) + 1, title, res.subject.id, ParseInt(year), file.value,
                          ByAdmin, Approved, 0, now, now))
      && db.pyqs == old(db.pyqs) + [r.value]
      && db.nextId == old(db.nextId) + 2
  {
    if file.None? {
      return Fail(400, PdfRequired);
    }
    if title == "" || subjectName == "" || year == "" {
      return Fail(400, FieldsRequired);
    }
    assert UniqueSubjectNames(db.subjects);
    var parsed := ParseInt(year);
    if parsed.None? {
      Resolve(db, subjectName);
      ResolvedKeepsValid(old(db.subjects), old(db.pyqs), old(db.requests), old(db.users), old(db.nextId),
                         subjectName, db.subjects, db.pyqs, db.requests, db.users, db.nextId);
      return Fail(500, UploadServerError);
    }
    var pyq := Publish(db, subjectName, title, parsed, file.value, ByAdmin, now);
    PublishedKeepsValid(old(db.subjects), old(db.pyqs), old(db.requests), old(db.users), old(db.nextId),
                        subjectName, title, parsed, file.value, ByAdmin, now, pyq,
                        db.subjects, db.pyqs, db.requests, db.users, db.nextId);
    r := Ok(201, pyq);
  }

  /** deleteUser: deleting one's own account is refused with 400 whether or not the id
      exists; an unknown id gives 404; otherwise exactly that user is removed. */
  method DeleteUser(db: Db, userId: Id, requesterId: Id) returns (r: Reply<string>)
    requires db.Valid()
    modifies db
    ensures db.Valid()
    ensures userId == requesterId ==> r == Fail(400, SelfDeletion) && unchanged(db)
    ensures userId != requesterId && FirstIndex(old(db.users), WithUserId(userId)).None? ==>
      r == Fail(404, UserNotFound) && unchanged(db)
    ensures userId != requesterId && FirstIndex(old(db.users), WithUserId(userId)).Some? ==>
      && r == Ok(200, UserDeleted)
      && db.users == RemoveAt(old(db.users), FirstIndex(old(db.users), WithUserId(userId)).value)
      && db.subjects == old(db.subjects) && db.pyqs == old(db.pyqs)
      && db.requests == old(db.requests) && db.nextId == old(db.nextId)
    ensures r.Ok? ==> (forall u :: u in db.users ==> u.id != userId)
    ensures r.Ok? ==> (forall u :: u in old(db.users) && u.id != userId ==> u in db.users)
  {
    if userId == requesterId {
      return Fail(400, SelfDeletion);
    }
    var k := FirstIndex(db.users, WithUserId(userId));
    if k.None? {
      return Fail(404, UserNotFound);
    }
    RemoveUserKeepsValid(db.subjects, db.pyqs, db.requests, db.users, db.nextId, k.value);
    db.users := RemoveAt(db.users, k.value);
    r := Ok(200, UserDeleted);
  }

  /** createAdmin: an email already in use gives 400 and writes nothing; a missing
      password (`None`) then makes bcrypt's hash reject, and the catch answers 500 with its
      message and writes nothing; otherwise a new account with role "admin" and the
      password's digest is added, and only its public profile is returned. */
  method CreateAdmin(db: Db, name: string, email: string, password: Option<string>, now: int)
    returns (r: Reply<Profile>)
    requires db.Valid()
    modifies db
    ensures db.Valid()
    ensures FirstIndex(old(db.users), WithEmail(email)).Some? ==>
      r == Fail(400, AdminEmailTaken) && unchanged(db)
    ensures FirstIndex(old(db.users), WithEmail(email)).None? && password.None? ==>
      r == Fail(500, IllegalHashArguments) && unchanged(db)
    ensures FirstIndex(old(db.users), WithEmail(email)).None? && password.Some? ==>
      var admin := User(old(db.nextId), name, email, Digest(password.value), AdminRole, now);
      && r == Ok(201, ProfileOf(admin))
      && db.users == old(db.users) + [admin]
      && db.subjects == old(db.subjects) && db.pyqs == old(db.pyqs)
      && db.requests == old(db.requests) && db.nextId == old(db.nextId) + 1
  {
    if FirstIndex(db.users, WithEmail(email)).Some? {
      return Fail(400, AdminEmailTaken);
    }
    if password.None? {
      return Fail(500, IllegalHashArguments);
    }
    var admin := User(db.nextId, name, email, Digest(password.value), AdminRole, now);
    AddUserKeepsValid(db.subjects, db.pyqs, db.requests, db.users, db.nextId, admin);
    db.users, db.nextId := db.users + [admin], db.nextId + 1;
    r := Ok(201, ProfileOf(admin));
  }

  // ---------------------------------------------------------------------------
  // getDashboardStats (the counting part)

  datatype AdminCounts = AdminCounts(
    totalUsers: nat,
    totalSubjects: nat,
    totalPYQs: nat,
    pendingRequests: nat,
    totalDownloads: nat,
    approvedToday: nat,
    rejectedToday: nat)

  function DecidedSince(status: Status, dayStart: int): UploadRequest -> bool
  {
    (x: UploadRequest) => x.status == status && x.updatedAt >= dayStart
  }

  /** The counts of this controller's getDashboardStats: every account and every PYQ
      whatever its role or status, pending requests, requests approved or rejected at or
      after the start of today (no upper bound), and the download total over all PYQs,
      which the $group stage reports as an empty list, read as 0, when there are no PYQs. */
  function AdminDashboardCounts(users: seq<User>, subjects: seq<Subject>, pyqs: seq<Pyq>,
                                requests: seq<UploadRequest>, dayStart: int): (c: AdminCounts)
    ensures c.totalUsers == |users| && c.totalSubjects == |subjects| && c.totalPYQs == |pyqs|
    ensures c.totalDownloads == SumOf(pyqs, (p: Pyq) => p.downloadCount)
    ensures c.pendingRequests == Count(requests, (x: UploadRequest) => x.status == Pending)
    ensures c.approvedToday == Count(requests, DecidedSince(Approved, dayStart))
    ensures c.rejectedToday == Count(requests, DecidedSince(Rejected, dayStart))
    ensures c.pendingRequests + c.approvedToday + c.rejectedToday <= |requests|
  {
    var grouped := if |pyqs| > 0 then [SumOf(pyqs, (p: Pyq) => p.downloadCount)] else [];
    var pending := Count(requests, (x: UploadRequest) => x.status == Pending);
    var approved := Count(requests, DecidedSince(Approved, dayStart));
    var rejected := Count(requests, DecidedSince(Rejected, dayStart));
    StatusCountsDisjoint(requests, dayStart);
    AdminCounts(|users|, |subjects|, |pyqs|, pending,
                if |grouped| > 0 then grouped[0] else 0, approved, rejected)
  }

  /** Pending, approved-today and rejected-today select disjoint requests. */
  lemma StatusCountsDisjoint(requests: seq<UploadRequest>, dayStart: int)
    ensures Count(requests, (x: UploadRequest) => x.status == Pending)
          + Count(requests, DecidedSince(Approved, dayStart))
          + Count(requests, DecidedSince(Rejected, dayStart)) <= |requests|
  {
    var decided := (x: UploadRequest) => x.status != Pending;
    CountDisjoint(requests, (x: UploadRequest) => x.status == Pending, decided);
    CountDisjoint(requests, DecidedSince(Approved, dayStart), DecidedSince(Rejected, dayStart));
    var either := (x: UploadRequest) => DecidedSince(Approved, dayStart)(x) || DecidedSince(Rejected, dayStart)(x);
    CountUnion(requests, DecidedSince(Approved, dayStart), DecidedSince(Rejected, dayStart), either);
    CountMonotone(requests, either, decided);
  }
}
