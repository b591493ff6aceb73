/** The admin dashboard queries of backend/controllers/statsController.js: counts and a
    download total over the collections, and the newest submissions and sign-ups. Today's
    bounds are computed from the start of the local day, which is a parameter. */
module Stats {
  import opened Common
  import opened Models
  import opened Seqs

  /** Milliseconds from 00:00:00.000 to 23:59:59.999 of one day. */
  const LastMillisecond: int := 86_399_999

  datatype DashboardStats = DashboardStats(
    totalUsers: nat,
    totalPYQs: nat,
    pendingRequests: nat,
    totalDownloads: nat,
    totalAdmins: nat,
    approvedToday: nat,
    rejectedToday: nat)

  function WithRole(role: string): User -> bool { (u: User) => u.role == role }
  function PyqWithStatus(status: Status): Pyq -> bool { (p: Pyq) => p.status == status }
  function RequestWithStatus(status: Status): UploadRequest -> bool { (r: UploadRequest) => r.status == status }

  /** `updatedAt` in [start of day, 23:59:59.999 of that day): the upper bound is
      exclusive, so the last millisecond of the day is not part of "today". */
  function DecidedToday(status: Status, dayStart: int): UploadRequest -> bool
  {
    (r: UploadRequest) => r.status == status && dayStart <= r.updatedAt < dayStart + LastMillisecond
  }

  function Downloads(p: Pyq): nat { p.downloadCount }

  /** getDashboardStats: users counts role "user" only and admins role "admin" only; PYQs
      and downloads cover approved PYQs only, and the download total is 0 when no PYQ is
      approved (the grouping stage then yields no row); the day counts use the half-open
      window of DecidedToday. */
  function GetDashboardStats(users: seq<User>, pyqs: seq<Pyq>, requests: seq<UploadRequest>,
                             dayStart: int): (s: DashboardStats)
    ensures s.totalUsers == Count(users, WithRole(UserRole))
    ensures s.totalAdmins == Count(users, WithRole(AdminRole))
    ensures s.totalUsers + s.totalAdmins <= |users|
    ensures s.totalPYQs == Count(pyqs, PyqWithStatus(Approved)) <= |pyqs|
    ensures s.pendingRequests == Count(requests, RequestWithStatus(Pending))
    ensures s.approvedToday == Count(requests, DecidedToday(Approved, dayStart))
    ensures s.rejectedToday == Count(requests, DecidedToday(Rejected, dayStart))
    ensures s.pendingRequests + s.approvedToday + s.rejectedToday <= |requests|
    ensures s.totalDownloads <= SumOf(pyqs, Downloads)
    ensures s.totalPYQs == 0 ==> s.totalDownloads == 0
  {
    var approved := Filter(pyqs, PyqWithStatus(Approved));
    var grouped := if |approved| > 0 then [SumOf(approved, Downloads)] else [];
    var totalDownloads := if |grouped| > 0 then grouped[0] else 0;
    CountDisjoint(users, WithRole(UserRole), WithRole(AdminRole));
    TodayCountsDisjoint(requests, dayStart);
    SumOfFilterBounded(pyqs, PyqWithStatus(Approved), Downloads);
    DashboardStats(
      Count(users, WithRole(UserRole)),
      Count(pyqs, PyqWithStatus(Approved)),
      Count(requests, RequestWithStatus(Pending)),
      totalDownloads,
      Count(users, WithRole(AdminRole)),
      Count(requests, DecidedToday(Approved, dayStart)),
      Count(requests, DecidedToday(Rejected, dayStart)))
  }

  /** The download total is the sum over the approved PYQs whenever one exists. */
  lemma DownloadsSumApproved(users: seq<User>, pyqs: seq<Pyq>, requests: seq<UploadRequest>, dayStart: int)
    ensures GetDashboardStats(users, pyqs, requests, dayStart).totalDownloads ==
      SumOf(Filter(pyqs, PyqWithStatus(Approved)), Downloads)
  {
    if Count(pyqs, PyqWithStatus(Approved)) == 0 {
      SumOfEmptyFilter(pyqs, PyqWithStatus(Approved), Downloads);
    }
  }

  /** Pending, approved today and rejected today never select the same request. */
  lemma TodayCountsDisjoint(requests: seq<UploadRequest>, dayStart: int)
    ensures Count(requests, RequestWithStatus(Pending))
          + Count(requests, DecidedToday(Approved, dayStart))
          + Count(requests, DecidedToday(Rejected, dayStart)) <= |requests|
  {
    var decided := (x: UploadRequest) => x.status != Pending;
    var either := (x: UploadRequest) => DecidedToday(Approved, dayStart)(x) || DecidedToday(Rejected, dayStart)(x);
    CountDisjoint(requests, RequestWithStatus(Pending), decided);
    CountUnion(requests, DecidedToday(Approved, dayStart), DecidedToday(Rejected, dayStart), either);
    CountMonotone(requests, either, decided);
  }

  /** A request approved at 23:59:59.999 is not counted as approved today: the day count
      of a collection holding just that request is 0. */
  lemma LastMillisecondNotToday(r: UploadRequest, dayStart: int)
    requires r.status == Approved && r.updatedAt == dayStart + LastMillisecond
    ensures GetDashboardStats([], [], [r], dayStart).approvedToday == 0
  {
    assert [r][1..] == [];
  }

  // ---------------------------------------------------------------------------
  // getRecentActivities

  /** The selected fields of a recent submission (the id is always selected). */
  datatype UploadSummary = UploadSummary(
    id: Id, subjectName: string, year: Option<int>, status: Status, createdAt: int,
    uploadedByUser: Option<string>)

  /** The selected fields of a recent sign-up. */
  datatype UserSummary = UserSummary(id: Id, name: string, email: string, createdAt: int)

  datatype RecentActivities = RecentActivities(recentUploads: seq<UploadSummary>, recentUsers: seq<UserSummary>)

  function SummaryOfRequest(r: UploadRequest): UploadSummary
  {
    UploadSummary(r.id, r.subjectName, r.year, r.status, r.createdAt, r.uploadedByUser)
  }

  function SummaryOfUser(u: User): UserSummary
  {
    UserSummary(u.id, u.name, u.email, u.createdAt)
  }

  function UploadCreated(x: UploadSummary): Rank { At(x.createdAt) }
  function UserSummaryCreated(x: UserSummary): Rank { At(x.createdAt) }

  function SummariesOfRequests(s: seq<UploadRequest>): (r: seq<UploadSummary>)
    ensures |r| == |s| && forall i :: 0 <= i < |s| ==> r[i] == SummaryOfRequest(s[i])
  {
    if |s| == 0 then [] else [SummaryOfRequest(s[0])] + SummariesOfRequests(s[1..])
  }

  function SummariesOfUsers(s: seq<User>): (r: seq<UserSummary>)
    ensures |r| == |s| && forall i :: 0 <= i < |s| ==> r[i] == SummaryOfUser(s[i])
  {
    if |s| == 0 then [] else [SummaryOfUser(s[0])] + SummariesOfUsers(s[1..])
  }

  /** The newest `n` documents, newest first. */
  function Newest<T(==)>(s: seq<T>, key: T -> Rank, n: nat): seq<T>
  {
    Take(SortDesc(s, key), n)
  }

  /** The newest `n` are sorted, as many as there are up to `n`, and a part of the input:
      no document appears more often than it is stored. */
  lemma NewestIsSortedPart<T>(s: seq<T>, key: T -> Rank, n: nat)
    ensures SortedDesc(Newest(s, key, n), key)
    ensures |Newest(s, key, n)| == if |s| < n then |s| else n
    ensures multiset(Newest(s, key, n)) <= multiset(s)
    ensures forall x :: x in Newest(s, key, n) ==> x in s
  {
    var sorted := SortDesc(s, key);
    assert |sorted| == |multiset(sorted)| == |s|;
    TakeIsPart(sorted, n);
    forall x | x in Newest(s, key, n) ensures x in s {
      assert x in multiset(Newest(s, key, n));
    }
  }

  /** `limit(n)` keeps a part of what it is given. */
  lemma TakeIsPart<T>(s: seq<T>, n: nat)
    ensures multiset(Take(s, n)) <= multiset(s)
  {
    if n < |s| {
      assert s == s[..n] + s[n..];
    }
  }

  /** The newest `n` leave out nothing newer than what they keep. */
  lemma NewestAreTop<T>(s: seq<T>, key: T -> Rank, n: nat, left: T, i: nat)
    requires left in s && left !in Newest(s, key, n) && i < |Newest(s, key, n)|
    ensures RankGe(key(Newest(s, key, n)[i]), key(left))
  {
    var sorted := SortDesc(s, key);
    assert left in multiset(s);
    assert left in sorted;
    TopOfSorted(sorted, key, n, left, Newest(s, key, n)[i]);
  }

  /** The recent submissions: at most 10 of any status, newest first by creation time, a
      part of the stored requests' summaries. */
  function RecentUploads(requests: seq<UploadRequest>): (r: seq<UploadSummary>)
    ensures |r| == if |requests| < 10 then |requests| else 10
    ensures forall i, j :: 0 <= i < j < |r| ==> r[i].createdAt >= r[j].createdAt
    ensures multiset(r) <= multiset(SummariesOfRequests(requests))
    ensures forall x :: x in r ==> exists q :: q in requests && x == SummaryOfRequest(q)
  {
    var all := SummariesOfRequests(requests);
    var r := Newest(all, UploadCreated, 10);
    NewestIsSortedPart(all, UploadCreated, 10);
    UploadsByCreation(r);
    SummarisedRequests(requests, r);
    r
  }

  lemma UploadsByCreation(r: seq<UploadSummary>)
    requires SortedDesc(r, UploadCreated)
    ensures forall i, j :: 0 <= i < j < |r| ==> r[i].createdAt >= r[j].createdAt
  {
    forall i, j | 0 <= i < j < |r| ensures r[i].createdAt >= r[j].createdAt {
      assert RankGe(UploadCreated(r[i]), UploadCreated(r[j]));
    }
  }

  /** Part of the summaries of some requests summarises stored requests. */
  lemma SummarisedRequests(requests: seq<UploadRequest>, r: seq<UploadSummary>)
    requires multiset(r) <= multiset(SummariesOfRequests(requests))
    ensures forall x :: x in r ==> exists q :: q in requests && x == SummaryOfRequest(q)
  {
    var all := SummariesOfRequests(requests);
    forall x | x in r ensures exists q :: q in requests && x == SummaryOfRequest(q) {
      assert x in multiset(r);
      assert x in all;
      var i :| 0 <= i < |requests| && all[i] == x;
      assert requests[i] in requests;
    }
  }

  /** The recent sign-ups: at most 5 accounts with role "user", newest first by creation
      time, a part of those accounts' summaries. */
  function RecentUsers(users: seq<User>): (r: seq<UserSummary>)
    ensures |r| == if Count(users, WithRole(UserRole)) < 5 then Count(users, WithRole(UserRole)) else 5
    ensures forall i, j :: 0 <= i < j < |r| ==> r[i].createdAt >= r[j].createdAt
    ensures multiset(r) <= multiset(SummariesOfUsers(Filter(users, WithRole(UserRole))))
    ensures forall x :: x in r ==> exists u :: u in users && u.role == UserRole && x == SummaryOfUser(u)
  {
    var members := Filter(users, WithRole(UserRole));
    var all := SummariesOfUsers(members);
    var r := Newest(all, UserSummaryCreated, 5);
    NewestIsSortedPart(all, UserSummaryCreated, 5);
    UsersByCreation(r);
    SummarisedMembers(users, members, r);
    r
  }

  lemma UsersByCreation(r: seq<UserSummary>)
    requires SortedDesc(r, UserSummaryCreated)
    ensures forall i, j :: 0 <= i < j < |r| ==> r[i].createdAt >= r[j].createdAt
  {
    forall i, j | 0 <= i < j < |r| ensures r[i].createdAt >= r[j].createdAt {
      assert RankGe(UserSummaryCreated(r[i]), UserSummaryCreated(r[j]));
    }
  }

  /** Part of the summaries of the role-"user" accounts summarises such accounts. */
  lemma SummarisedMembers(users: seq<User>, members: seq<User>, r: seq<UserSummary>)
    requires forall u :: u in members ==> u in users && u.role == UserRole
    requires multiset(r) <= multiset(SummariesOfUsers(members))
    ensures forall x :: x in r ==> exists u :: u in users && u.role == UserRole && x == SummaryOfUser(u)
  {
    var all := SummariesOfUsers(members);
    forall x | x in r ensures exists u :: u in users && u.role == UserRole && x == SummaryOfUser(u) {
      assert x in multiset(r);
      assert x in all;
      var i :| 0 <= i < |members| && all[i] == x;
      assert members[i] in members;
    }
  }

  /** getRecentActivities: the recent submissions and the recent sign-ups, each a part of
      the stored documents' summaries, so that no document is listed twice unless it is
      stored twice. Equal creation times come in no promised order. */
  function GetRecentActivities(requests: seq<UploadRequest>, users: seq<User>): (a: RecentActivities)
    ensures |a.recentUploads| == if |requests| < 10 then |requests| else 10
    ensures |a.recentUsers| == if Count(users, WithRole(UserRole)) < 5 then Count(users, WithRole(UserRole)) else 5
    ensures forall i, j :: 0 <= i < j < |a.recentUploads| ==>
      a.recentUploads[i].createdAt >= a.recentUploads[j].createdAt
    ensures forall i, j :: 0 <= i < j < |a.recentUsers| ==>
      a.recentUsers[i].createdAt >= a.recentUsers[j].createdAt
    ensures multiset(a.recentUploads) <= multiset(SummariesOfRequests(requests))
    ensures multiset(a.recentUsers) <= multiset(SummariesOfUsers(Filter(users, WithRole(UserRole))))
    ensures forall x :: x in a.recentUploads ==> exists r :: r in requests && x == SummaryOfRequest(r)
    ensures forall x :: x in a.recentUsers ==>
      exists u :: u in users && u.role == UserRole && x == SummaryOfUser(u)
  {
    RecentActivities(RecentUploads(requests), RecentUsers(users))
  }

  /** A stored submission left out of the recent uploads is no newer than any listed one. */
  lemma RecentUploadsAreNewest(requests: seq<UploadRequest>, r: UploadRequest, i: nat)
    requires r in requests && SummaryOfRequest(r) !in RecentUploads(requests)
    requires i < |RecentUploads(requests)|
    ensures RecentUploads(requests)[i].createdAt >= r.createdAt
  {
    var all := SummariesOfRequests(requests);
    var k :| 0 <= k < |requests| && requests[k] == r;
    assert all[k] == SummaryOfRequest(r);
    NewestAreTop(all, UploadCreated, 10, SummaryOfRequest(r), i);
  }

  /** A stored account with role "user" left out of the recent sign-ups is no newer than
      any listed one. */
  lemma RecentUsersAreNewest(users: seq<User>, u: User, i: nat)
    requires u in users && u.role == UserRole && SummaryOfUser(u) !in RecentUsers(users)
    requires i < |RecentUsers(users)|
    ensures RecentUsers(users)[i].createdAt >= u.createdAt
  {
    var members := Filter(users, WithRole(UserRole));
    var all := SummariesOfUsers(members);
    assert u in members;
    var k :| 0 <= k < |members| && members[k] == u;
    assert all[k] == SummaryOfUser(u);
    NewestAreTop(all, UserSummaryCreated, 5, SummaryOfUser(u), i);
  }
}
