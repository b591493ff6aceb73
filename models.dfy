/** The documents the portal stores. PYQ and UploadRequest follow their schemas (models/PYQ.js,
    models/UploadRequest.js): enums, defaults, required paths, and the createdAt/updatedAt
    timestamps the schemas switch on. Subject and User carry only the paths the controllers
    use. */
module Models {
  import opened Common

  /** The status enum, shared by PYQ ["approved", "pending", "rejected"] and UploadRequest
      ["pending", "approved", "rejected"]; only the defaults differ. */
  datatype Status = Approved | Pending | Rejected

  /** PYQ.uploadedBy: enum ["admin", "user"]. */
  datatype UploadedBy = ByAdmin | ByUser

  const PyqDefaultStatus: Status := Approved
  const PyqDefaultUploadedBy: UploadedBy := ByAdmin
  const RequestDefaultStatus: Status := Pending

  /** A published paper. `subject` references a Subject id; `year` is an optional whole
      number (the schema's Number also holds fractions, which this model does not).
      `downloadCount` is not a schema path: documents written through the schema lack it,
      and the statistics' $sum reads a missing count as 0. */
  datatype Pyq = Pyq(
    id: Id,
    title: string,
    subject: Id,
    year: Option<int>,
    fileUrl: string,
    uploadedBy: UploadedBy,
    status: Status,
    downloadCount: nat,
    createdAt: int,
    updatedAt: int)

  /** A submission awaiting moderation. `subjectName` is free text, not a Subject id. */
  datatype UploadRequest = UploadRequest(
    id: Id,
    title: string,
    subjectName: string,
    year: Option<int>,
    fileUrl: string,
    uploadedByUser: Option<string>,
    status: Status,
    createdAt: int,
    updatedAt: int)

  datatype Subject = Subject(id: Id, name: string)

  /** A bcrypt digest, kept abstract: the digest of a password, never the password text. */
  datatype PasswordHash = Digest(secret: string)

  /** The error bcryptjs's `hash` rejects with when the password is missing (undefined)
      and the cost is a number. */
  const IllegalHashArguments: string := "Illegal arguments: undefined, number"

  /** `user.comparePassword(candidate)`: true exactly when the candidate hashes to the
      stored digest. */
  predicate PasswordMatches(candidate: string, stored: PasswordHash)
  {
    stored == Digest(candidate)
  }

  /** Role strings as stored; the gate compares them to "admin" character by character. */
  const AdminRole: string := "admin"
  const UserRole: string := "user"

  datatype User = User(
    id: Id,
    name: string,
    email: string,
    password: PasswordHash,
    role: string,
    createdAt: int)

  /** Mongoose's `required` on a String path rejects both a missing value and "". */
  predicate Present(s: string) { s != "" }

  /** The required paths of a PYQ (title, fileUrl; subject is an id and always set). */
  predicate PyqComplete(p: Pyq)
  {
    Present(p.title) && Present(p.fileUrl)
  }

  /** The required paths of an UploadRequest (title, subjectName, fileUrl). */
  predicate RequestComplete(r: UploadRequest)
  {
    Present(r.title) && Present(r.subjectName) && Present(r.fileUrl)
  }

  /** `PYQ.create(fields)` at time `now`: schema validation, then defaults for the enum
      paths the caller leaves unset, a zero download count and both timestamps `now`. */
  function NewPyq(id: Id, title: string, subject: Id, year: Option<int>, fileUrl: string,
                     uploadedBy: Option<UploadedBy>, status: Option<Status>, now: int): (r: Option<Pyq>)
    ensures r.Some? <==> Present(title) && Present(fileUrl)
    ensures r.Some? ==> PyqComplete(r.value)
    ensures r.Some? ==> r.value.id == id && r.value.title == title && r.value.subject == subject
    ensures r.Some? ==> r.value.year == year && r.value.fileUrl == fileUrl
    ensures r.Some? ==> r.value.uploadedBy == (if uploadedBy.Some? then uploadedBy.value else ByAdmin)
    ensures r.Some? ==> r.value.status == (if status.Some? then status.value else Approved)
    ensures r.Some? ==> r.value.downloadCount == 0 && r.value.createdAt == now && r.value.updatedAt == now
  {
    if !Present(title) || !Present(fileUrl) then None
    else
      var who := match uploadedBy case Some(b) => b case None => PyqDefaultUploadedBy;
      var st := match status case Some(s) => s case None => PyqDefaultStatus;
      Some(Pyq(id, title, subject, year, fileUrl, who, st, 0, now, now))
  }

  /** `UploadRequest.create(fields)` at time `now`: schema validation, then the default
      status for an unset one and both timestamps `now`. */
  function NewUploadRequest(id: Id, title: string, subjectName: string, year: Option<int>,
                               fileUrl: string, uploadedByUser: Option<string>,
                               status: Option<Status>, now: int): (r: Option<UploadRequest>)
    ensures r.Some? <==> Present(title) && Present(subjectName) && Present(fileUrl)
    ensures r.Some? ==> RequestComplete(r.value)
    ensures r.Some? ==> r.value.id == id && r.value.title == title && r.value.subjectName == subjectName
    ensures r.Some? ==> r.value.year == year && r.value.fileUrl == fileUrl && r.value.uploadedByUser == uploadedByUser
    ensures r.Some? ==> r.value.status == (if status.Some? then status.value else Pending)
    ensures r.Some? ==> r.value.createdAt == now && r.value.updatedAt == now
  {
    if !Present(title) || !Present(subjectName) || !Present(fileUrl) then None
    else
      var st := match status case Some(s) => s case None => RequestDefaultStatus;
      Some(UploadRequest(id, title, subjectName, year, fileUrl, uploadedByUser, st, now, now))
  }

  /** The identity a signed token carries and the access checks attach to the request. */
  datatype Claims = Claims(id: Id, role: string)

  /** The public shape of an account in every reply: id, name, email and role. */
  datatype Profile = Profile(id: Id, name: string, email: string, role: string)

  function ProfileOf(u: User): Profile
  {
    Profile(u.id, u.name, u.email, u.role)
  }
}
