/** The document store the controllers share: four collections in natural order and the
    id counter that hands out fresh ObjectIds, with the invariants every handler keeps. */
module Database {
  import opened Common
  import opened Models
  import opened Seqs

  // The findOne/find filters the handlers use.
  function WithRequestId(id: Id): UploadRequest -> bool { (r: UploadRequest) => r.id == id }
  function WithUserId(id: Id): User -> bool { (u: User) => u.id == id }
  function WithEmail(email: string): User -> bool { (u: User) => u.email == email }
  function WithSubjectName(name: string): Subject -> bool { (s: Subject) => s.name == name }

  ghost predicate DistinctKeys<T>(s: seq<T>, key: T -> Id)
  {
    forall i, j :: 0 <= i < j < |s| ==> key(s[i]) != key(s[j])
  }

  /** Every key is below the counter's next value and no key repeats. */
  ghost predicate Keyed<T>(s: seq<T>, key: T -> Id, bound: nat)
  {
    && (forall i :: 0 <= i < |s| ==> key(s[i]) < bound)
    && DistinctKeys(s, key)
  }

  function RequestKey(r: UploadRequest): Id { r.id }

  ghost predicate UniqueSubjectNames(subjects: seq<Subject>)
  {
    forall i, j :: 0 <= i < j < |subjects| ==> subjects[i].name != subjects[j].name
  }

  ghost predicate UniqueEmails(users: seq<User>)
  {
    forall i, j :: 0 <= i < j < |users| ==> users[i].email != users[j].email
  }

  function SubjectIds(subjects: seq<Subject>): set<Id>
  {
    set s | s in subjects :: s.id
  }

  /** The outcome of resolving a subject name: the subject collection afterwards, the
      subject the name resolved to, and whether it had to be created. */
  datatype Resolution = Resolution(subjects: seq<Subject>, subject: Subject, created: bool)

  /** `Subject.findOne({ name })`, then `Subject.create({ name })` when nothing matched:
      the exact-name find-or-create shared by approval and admin upload. */
  function ResolveSubject(subjects: seq<Subject>, name: string, freshId: Id): (r: Resolution)
    ensures r.subject.name == name && r.subject in r.subjects
    ensures r.created <==> forall s :: s in subjects ==> s.name != name
    ensures !r.created ==> r.subjects == subjects
    ensures r.created ==> r.subjects == subjects + [Subject(freshId, name)] && r.subject.id == freshId
  {
    match FirstIndex(subjects, WithSubjectName(name))
    case Some(k) => Resolution(subjects, subjects[k], false)
    case None =>
      var created := Subject(freshId, name);
      assert forall s :: s in subjects ==> s.name != name by {
        forall s | s in subjects ensures s.name != name {
          var i :| 0 <= i < |subjects| && subjects[i] == s;
          assert !WithSubjectName(name)(subjects[i]);
        }
      }
      Resolution(subjects + [created], created, true)
  }

  /** One subject per name: resolving a name against a collection with unique names keeps
      the names unique and leaves exactly one subject with that name. */
  lemma ResolveKeepsOneSubjectPerName(subjects: seq<Subject>, name: string, freshId: Id)
    requires UniqueSubjectNames(subjects)
    ensures UniqueSubjectNames(ResolveSubject(subjects, name, freshId).subjects)
    ensures Count(ResolveSubject(subjects, name, freshId).subjects, WithSubjectName(name)) == 1
  {
    var r := ResolveSubject(subjects, name, freshId);
    if r.created {
      forall i, j | 0 <= i < j < |r.subjects| ensures r.subjects[i].name != r.subjects[j].name {
        if j == |subjects| {
          assert r.subjects[i] in subjects;
        } else {
          assert r.subjects[i] == subjects[i] && r.subjects[j] == subjects[j];
        }
      }
    }
    NamedAtMostOnce(r.subjects, name);
    assert r.subject in Filter(r.subjects, WithSubjectName(name));
  }

  /** With unique names, at most one subject carries a given name. */
  lemma {:induction false} NamedAtMostOnce(subjects: seq<Subject>, name: string)
    requires UniqueSubjectNames(subjects)
    ensures Count(subjects, WithSubjectName(name)) <= 1
  {
    if |subjects| > 0 {
      var rest := subjects[1..];
      assert UniqueSubjectNames(rest) by {
        forall i, j | 0 <= i < j < |rest| ensures rest[i].name != rest[j].name {
          assert rest[i] == subjects[i + 1] && rest[j] == subjects[j + 1];
        }
      }
      NamedAtMostOnce(rest, name);
      if subjects[0].name == name {
        var f := Filter(rest, WithSubjectName(name));
        forall x | x in rest ensures !WithSubjectName(name)(x) {
          var j :| 0 <= j < |rest| && rest[j] == x;
          assert subjects[j + 1] == rest[j];
        }
        FilterNone(rest, WithSubjectName(name));
      }
    }
  }

  function SubjectKey(s: Subject): Id { s.id }
  function PyqKey(p: Pyq): Id { p.id }
  function UserKey(u: User): Id { u.id }

  /** Raising the counter keeps every key below it. */
  lemma KeyedRaise<T>(s: seq<T>, key: T -> Id, bound: nat, bound': nat)
    requires Keyed(s, key, bound) && bound <= bound'
    ensures Keyed(s, key, bound')
  {
  }

  /** Appending a document whose key is at or above the old counter and below the new one
      keeps the keys fresh and distinct. */
  lemma KeyedAppend<T>(s: seq<T>, key: T -> Id, bound: nat, x: T, bound': nat)
    requires Keyed(s, key, bound) && bound <= key(x) < bound'
    ensures Keyed(s + [x], key, bound')
  {
    var t := s + [x];
    forall i, j | 0 <= i < j < |t| ensures key(t[i]) != key(t[j]) {
      if j < |s| {
        assert t[i] == s[i] && t[j] == s[j];
      } else {
        assert t[i] == s[i];
      }
    }
  }

  /** Subjects: fresh distinct ids, one subject per name, and every name present. */
  ghost predicate SubjectsValid(subjects: seq<Subject>, nextId: nat)
  {
    && Keyed(subjects, SubjectKey, nextId)
    && UniqueSubjectNames(subjects)
    && (forall s :: s in subjects ==> Present(s.name))
  }

  /** PYQs: fresh distinct ids, the schema's required paths, and an existing subject. */
  ghost predicate PyqsValid(pyqs: seq<Pyq>, subjects: seq<Subject>, nextId: nat)
  {
    && Keyed(pyqs, PyqKey, nextId)
    && (forall p :: p in pyqs ==> PyqComplete(p) && p.subject in SubjectIds(subjects))
  }

  /** Requests: fresh distinct ids and the schema's required paths. */
  ghost predicate RequestsValid(requests: seq<UploadRequest>, nextId: nat)
  {
    && Keyed(requests, RequestKey, nextId)
    && (forall r :: r in requests ==> RequestComplete(r))
  }

  /** Users: fresh distinct ids and one account per email. */
  ghost predicate UsersValid(users: seq<User>, nextId: nat)
  {
    Keyed(users, UserKey, nextId) && UniqueEmails(users)
  }

  /** The store invariant: ids are fresh-allocated and distinct per collection, subject
      names and user emails are unique, every PYQ's subject exists, and every stored
      document has its schema's required paths. */
  ghost predicate StoreValid(subjects: seq<Subject>, pyqs: seq<Pyq>, requests: seq<UploadRequest>,
                             users: seq<User>, nextId: nat)
  {
    && SubjectsValid(subjects, nextId)
    && PyqsValid(pyqs, subjects, nextId)
    && RequestsValid(requests, nextId)
    && UsersValid(users, nextId)
  }

  /** Publishing: a find-or-create on a present subject name plus one complete PYQ under
      the resolved subject, with the next two ids consumed, keeps the store valid. */
  lemma PublishKeepsValid(subjects: seq<Subject>, pyqs: seq<Pyq>, requests: seq<UploadRequest>,
                          users: seq<User>, nextId: nat, name: string, pyq: Pyq)
    requires StoreValid(subjects, pyqs, requests, users, nextId) && Present(name)
    requires pyq.id == nextId + 1 && PyqComplete(pyq)
    requires pyq.subject == ResolveSubject(subjects, name, nextId).subject.id
    ensures StoreValid(ResolveSubject(subjects, name, nextId).subjects, pyqs + [pyq],
                       requests, users, nextId + 2)
  {
    var res := ResolveSubject(subjects, name, nextId);
    assert SubjectsValid(res.subjects, nextId + 2) by {
      ResolveKeepsOneSubjectPerName(subjects, name, nextId);
      if res.created {
        KeyedAppend(subjects, SubjectKey, nextId, Subject(nextId, name), nextId + 2);
      } else {
        KeyedRaise(subjects, SubjectKey, nextId, nextId + 2);
      }
    }
    assert PyqsValid(pyqs + [pyq], res.subjects, nextId + 2) by {
      KeyedAppend(pyqs, PyqKey, nextId, pyq, nextId + 2);
      forall p | p in pyqs + [pyq] ensures PyqComplete(p) && p.subject in SubjectIds(res.subjects) {
        if p != pyq {
          assert p in pyqs;
          assert forall s :: s in subjects ==> s in res.subjects;
        }
      }
    }
    KeyedRaise(requests, RequestKey, nextId, nextId + 2);
    KeyedRaise(users, UserKey, nextId, nextId + 2);
  }

  /** A find-or-create on a present subject name alone, with the subject slot consumed,
      keeps the store valid: what is left when the PYQ that should follow is refused. */
  lemma ResolveKeepsValid(subjects: seq<Subject>, pyqs: seq<Pyq>, requests: seq<UploadRequest>,
                          users: seq<User>, nextId: nat, name: string)
    requires StoreValid(subjects, pyqs, requests, users, nextId) && Present(name)
    ensures StoreValid(ResolveSubject(subjects, name, nextId).subjects, pyqs, requests, users, nextId + 1)
  {
    var res := ResolveSubject(subjects, name, nextId);
    assert SubjectsValid(res.subjects, nextId + 1) by {
      ResolveKeepsOneSubjectPerName(subjects, name, nextId);
      if res.created {
        KeyedAppend(subjects, SubjectKey, nextId, Subject(nextId, name), nextId + 1);
      } else {
        KeyedRaise(subjects, SubjectKey, nextId, nextId + 1);
      }
    }
    assert PyqsValid(pyqs, res.subjects, nextId + 1) by {
      KeyedRaise(pyqs, PyqKey, nextId, nextId + 1);
      assert forall s :: s in subjects ==> s in res.subjects;
    }
    KeyedRaise(requests, RequestKey, nextId, nextId + 1);
    KeyedRaise(users, UserKey, nextId, nextId + 1);
  }

  /** Adding one complete PYQ under the next id, linked to an existing subject, keeps the
      store valid. */
  lemma AddPyqKeepsValid(subjects: seq<Subject>, pyqs: seq<Pyq>, requests: seq<UploadRequest>,
                         users: seq<User>, nextId: nat, pyq: Pyq)
    requires StoreValid(subjects, pyqs, requests, users, nextId)
    requires pyq.id == nextId && PyqComplete(pyq) && pyq.subject in SubjectIds(subjects)
    ensures StoreValid(subjects, pyqs + [pyq], requests, users, nextId + 1)
  {
    KeyedRaise(subjects, SubjectKey, nextId, nextId + 1);
    KeyedAppend(pyqs, PyqKey, nextId, pyq, nextId + 1);
    KeyedRaise(requests, RequestKey, nextId, nextId + 1);
    KeyedRaise(users, UserKey, nextId, nextId + 1);
  }

  /** Replacing a request by a complete one with the same id keeps the store valid. */
  lemma UpdateRequestKeepsValid(subjects: seq<Subject>, pyqs: seq<Pyq>, requests: seq<UploadRequest>,
                                users: seq<User>, nextId: nat, k: nat, updated: UploadRequest)
    requires StoreValid(subjects, pyqs, requests, users, nextId)
    requires k < |requests| && updated.id == requests[k].id && RequestComplete(updated)
    ensures StoreValid(subjects, pyqs, requests[k := updated], users, nextId)
  {
    var after := requests[k := updated];
    forall x | x in after ensures RequestComplete(x) {
      var j :| 0 <= j < |after| && after[j] == x;
      if j != k {
        assert requests[j] == x;
      }
    }
    assert forall i :: 0 <= i < |after| ==> RequestKey(after[i]) == RequestKey(requests[i]);
  }

  /** Appending a complete request under the next id keeps the store valid. */
  lemma SubmitKeepsValid(subjects: seq<Subject>, pyqs: seq<Pyq>, requests: seq<UploadRequest>,
                         users: seq<User>, nextId: nat, submitted: UploadRequest)
    requires StoreValid(subjects, pyqs, requests, users, nextId)
    requires submitted.id == nextId && RequestComplete(submitted)
    ensures StoreValid(subjects, pyqs, requests + [submitted], users, nextId + 1)
  {
    KeyedRaise(subjects, SubjectKey, nextId, nextId + 1);
    KeyedRaise(pyqs, PyqKey, nextId, nextId + 1);
    KeyedAppend(requests, RequestKey, nextId, submitted, nextId + 1);
    KeyedRaise(users, UserKey, nextId, nextId + 1);
  }

  /** Appending an account under the next id with an email nobody uses keeps the store valid. */
  lemma AddUserKeepsValid(subjects: seq<Subject>, pyqs: seq<Pyq>, requests: seq<UploadRequest>,
                          users: seq<User>, nextId: nat, u: User)
    requires StoreValid(subjects, pyqs, requests, users, nextId)
    requires u.id == nextId && FirstIndex(users, WithEmail(u.email)).None?
    ensures StoreValid(subjects, pyqs, requests, users + [u], nextId + 1)
  {
    var after := users + [u];
    forall i, j | 0 <= i < j < |after| ensures after[i].email != after[j].email {
      if j == |users| {
        assert !WithEmail(u.email)(users[i]);
      } else {
        assert after[i] == users[i] && after[j] == users[j];
      }
    }
    KeyedRaise(subjects, SubjectKey, nextId, nextId + 1);
    KeyedRaise(pyqs, PyqKey, nextId, nextId + 1);
    KeyedRaise(requests, RequestKey, nextId, nextId + 1);
    KeyedAppend(users, UserKey, nextId, u, nextId + 1);
  }

  /** Removing the account at position k removes exactly the accounts with its id (there
      is one), keeps every other account, and keeps the store valid. */
  lemma RemoveUserKeepsValid(subjects: seq<Subject>, pyqs: seq<Pyq>, requests: seq<UploadRequest>,
                             users: seq<User>, nextId: nat, k: nat)
    requires StoreValid(subjects, pyqs, requests, users, nextId) && k < |users|
    ensures StoreValid(subjects, pyqs, requests, RemoveAt(users, k), nextId)
    ensures forall u :: u in RemoveAt(users, k) ==> u.id != users[k].id
    ensures forall u :: u in users && u.id != users[k].id ==> u in RemoveAt(users, k)
  {
    var after := RemoveAt(users, k);
    forall u | u in after ensures u.id != users[k].id {
      var j :| 0 <= j < |after| && after[j] == u;
      var j' := if j < k then j else j + 1;
      assert users[j'] == u && j' != k;
    }
    forall u | u in users && u.id != users[k].id ensures u in after {
      var j :| 0 <= j < |users| && users[j] == u;
      if j < k {
        assert after[j] == u;
      } else {
        assert j != k && after[j - 1] == u;
      }
    }
    forall i, j | 0 <= i < j < |after|
      ensures after[i].email != after[j].email && after[i].id != after[j].id
    {
      var i' := if i < k then i else i + 1;
      var j' := if j < k then j else j + 1;
      assert after[i] == users[i'] && after[j] == users[j'];
    }
    assert forall i :: 0 <= i < |after| ==> after[i] in users;
  }

  class Db {
    var subjects: seq<Subject>
    var pyqs: seq<Pyq>
    var requests: seq<UploadRequest>
    var users: seq<User>
    var nextId: nat

    ghost predicate Valid()
      reads this
    {
      StoreValid(subjects, pyqs, requests, users, nextId)
    }

    constructor ()
      ensures Valid()
      ensures subjects == [] && pyqs == [] && requests == [] && users == [] && nextId == 0
    {
      subjects, pyqs, requests, users := [], [], [], [];
      nextId := 0;
    }
  }
}
