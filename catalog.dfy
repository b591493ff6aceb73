/** The public catalog of controllers/pyqController.js: adding a PYQ under an existing
    subject, listing approved PYQs with optional filters newest year first, and listing the
    approved PYQs of the subject with a given name. */
module Catalog {
  import opened Common
  import opened Models
  import opened Seqs
  import opened Database

  const SubjectNotFound: string := "Subject not found"
  const SubjectParamRequired: string := "Subject parameter is required"
  /** Stands for the ValidationError text Mongoose builds when a required PYQ path is unset. */
  const PyqValidationError: string := "PYQ validation failed"

  /** addPYQ: the subject must already exist under exactly that name (404 and no writes
      otherwise; subjects are never created here). A missing file then fails with the
      TypeError and a missing title with the schema's validation error, both without writes.
      Otherwise one approved, admin-uploaded PYQ is added under the found subject. */
  method AddPyq(db: Db, title: string, subjectName: string, year: Option<int>,
                file: Option<Url>, now: int) returns (r: Reply<Pyq>)
    requires db.Valid()
    modifies db
    ensures db.Valid()
    ensures db.subjects == old(db.subjects)
    ensures FirstIndex(old(db.subjects), WithSubjectName(subjectName)).None? ==>
      r == Fail(404, SubjectNotFound) && unchanged(db)
    ensures FirstIndex(old(db.subjects), WithSubjectName(subjectName)).Some? && file.None? ==>
      r == Fail(500, NoFileError) && unchanged(db)
    ensures FirstIndex(old(db.subjects), WithSubjectName(subjectName)).Some? && file.Some? && title == "" ==>
      r == Fail(500, PyqValidationError) && unchanged(db)
    ensures FirstIndex(old(db.subjects), WithSubjectName(subjectName)).Some? && file.Some? && title != "" ==>
      var subject := old(db.subjects)[FirstIndex(old(db.subjects), WithSubjectName(subjectName)).value];
      && subject.name == subjectName
      && r == Ok(201, Pyq(old(db.nextId), title, subject.id, year, file.value, ByAdmin, Approved, 0, now, now))
      && db.pyqs == old(db.pyqs) + [r.value]
      && db.requests == old(db.requests) && db.users == old(db.users)
      && db.nextId == old(db.nextId) + 1
  {
    var k := FirstIndex(db.subjects, WithSubjectName(subjectName));
    if k.None? {
      return Fail(404, SubjectNotFound);
    }
    var subject := db.subjects[k.value];
    if file.None? {
      return Fail(500, NoFileError);
    }
    var pyq := NewPyq(db.nextId, title, subject.id, year, file.value, Some(ByAdmin), Some(Approved), now);
    if pyq.None? {
      return Fail(500, PyqValidationError);
    }
    assert subject in db.subjects;
    AddPyqKeepsValid(db.subjects, db.pyqs, db.requests, db.users, db.nextId, pyq.value);
    db.pyqs, db.nextId := db.pyqs + [pyq.value], db.nextId + 1;
    r := Ok(201, pyq.value);
  }

  /** The filter getPYQs builds: approved, plus the subject and the year when supplied. */
  function Listed(subject: Option<Id>, year: Option<int>): Pyq -> bool
  {
    (p: Pyq) => p.status == Approved
                && (subject.None? || p.subject == subject.value)
                && (year.None? || p.year == year)
  }

  /** `sort({ year: -1 })`: PYQs without a year come last. */
  function YearRank(p: Pyq): Rank
  {
    match p.year
    case None => Missing
    case Some(y) => At(y)
  }

  /** getPYQs: the approved PYQs, restricted to a subject id and to a year only when those
      query parameters are supplied, each exactly as often as it is stored, newest year
      first. */
  function GetPyqs(pyqs: seq<Pyq>, subject: Option<Id>, year: Option<int>): (r: seq<Pyq>)
    ensures forall x :: x in r <==>
      && x in pyqs
      && x.status == Approved
      && (subject.None? || x.subject == subject.value)
      && (year.None? || x.year == year)
    ensures forall x :: multiset(r)[x] == if Listed(subject, year)(x) then multiset(pyqs)[x] else 0
    ensures SortedDesc(r, YearRank)
  {
    var found := Filter(pyqs, Listed(subject, year));
    var r := SortDesc(found, YearRank);
    forall x ensures multiset(r)[x] == if Listed(subject, year)(x) then multiset(pyqs)[x] else 0 {
      FilterMultiplicity(pyqs, Listed(subject, year), x);
    }
    forall x ensures x in r <==> x in found {
      assert x in r <==> x in multiset(r);
      assert x in found <==> x in multiset(found);
    }
    r
  }

  /** With no filters, getPYQs lists every approved PYQ and nothing else. */
  lemma UnfilteredListsAllApproved(pyqs: seq<Pyq>, x: Pyq)
    ensures x in GetPyqs(pyqs, None, None) <==> x in pyqs && x.status == Approved
  {
  }

  /** getPYQsBySubject: a missing subject parameter gives 400; a name no subject has gives
      404; otherwise the approved PYQs linked to the first subject with that name. */
  function GetPyqsBySubject(subjects: seq<Subject>, pyqs: seq<Pyq>, name: string): (r: Reply<seq<Pyq>>)
    ensures name == "" ==> r == Fail(400, SubjectParamRequired)
    ensures name != "" && (forall s :: s in subjects ==> s.name != name) ==> r == Fail(404, SubjectNotFound)
    ensures r.Ok? <==> name != "" && exists s :: s in subjects && s.name == name
    ensures r.Ok? ==> r.code == 200
    ensures r.Ok? ==>
      var found := subjects[FirstIndex(subjects, WithSubjectName(name)).value];
      && found.name == name
      && forall x :: x in r.value <==> x in pyqs && x.status == Approved && x.subject == found.id
  {
    if name == "" then Fail(400, SubjectParamRequired)
    else match FirstIndex(subjects, WithSubjectName(name))
      case None =>
        assert forall s :: s in subjects ==> s.name != name by {
          forall s | s in subjects ensures s.name != name {
            var i :| 0 <= i < |subjects| && subjects[i] == s;
            assert !WithSubjectName(name)(subjects[i]);
          }
        }
        Fail(404, SubjectNotFound)
      case Some(k) =>
        assert subjects[k] in subjects;
        Ok(200, Filter(pyqs, (p: Pyq) => p.subject == subjects[k].id && p.status == Approved))
  }

  /** Listing by subject name lists, with the same multiplicities, what getPYQs lists when
      filtered by that subject's id. */
  lemma BySubjectAgreesWithCatalog(subjects: seq<Subject>, pyqs: seq<Pyq>, name: string)
    requires GetPyqsBySubject(subjects, pyqs, name).Ok?
    ensures
      var id := subjects[FirstIndex(subjects, WithSubjectName(name)).value].id;
      multiset(GetPyqsBySubject(subjects, pyqs, name).value) == multiset(GetPyqs(pyqs, Some(id), None))
  {
    var id := subjects[FirstIndex(subjects, WithSubjectName(name)).value].id;
    var bySubject := (p: Pyq) => p.subject == id && p.status == Approved;
    forall x ensures multiset(Filter(pyqs, bySubject))[x] == multiset(GetPyqs(pyqs, Some(id), None))[x] {
      FilterMultiplicity(pyqs, bySubject, x);
    }
    assert GetPyqsBySubject(subjects, pyqs, name).value == Filter(pyqs, bySubject);
  }

  /** In a store with one subject per name, listing by name gives
      exactly the approved PYQs whose subject carries that name. */
  lemma BySubjectMeansNamed(subjects: seq<Subject>, pyqs: seq<Pyq>, name: string, x: Pyq)
    requires UniqueSubjectNames(subjects)
    requires GetPyqsBySubject(subjects, pyqs, name).Ok?
    ensures x in GetPyqsBySubject(subjects, pyqs, name).value <==>
      x in pyqs && x.status == Approved && exists s :: s in subjects && s.id == x.subject && s.name == name
  {
    var k := FirstIndex(subjects, WithSubjectName(name)).value;
    if x in pyqs && x.status == Approved {
      if s :| s in subjects && s.id == x.subject && s.name == name {
        var j :| 0 <= j < |subjects| && subjects[j] == s;
        assert j == k;
      }
      assert subjects[k] in subjects;
    }
  }
}
