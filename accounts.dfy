/** Account handlers of backend/controllers/authController.js: signup (always a plain
    user), signin for any account, and the admin login whose lookup includes the role.
    Hashing is the abstract digest of Models; signing is left abstract: a token is the
    payload and lifetime generateToken hands to jwt.sign. */
module Accounts {
  import opened Common
  import opened Models
  import opened Seqs
  import opened Database

  const UserExists: string := "User already exists"
  const InvalidCredentials: string := "Invalid credentials"
  const InvalidAdminCredentials: string := "Invalid admin credentials"
  const TokenLifetime: string := "30d"

  /** The payload and options of one `jwt.sign` call. */
  datatype Token = Signed(payload: Claims, expiresIn: string)

  /** A successful reply: the token and the public profile (never the password digest). */
  datatype Session = Session(token: Token, user: Profile)

  /** generateToken: the account's id and role, valid for 30 days. */
  function GenerateToken(u: User): Token
  {
    Signed(Claims(u.id, u.role), TokenLifetime)
  }

  /** The reply body of every successful signup, signin and admin login. */
  function SessionOf(u: User): (s: Session)
    ensures s.token.payload.id == s.user.id == u.id
    ensures s.token.payload.role == s.user.role == u.role
    ensures s.user.name == u.name && s.user.email == u.email
    ensures s.token.expiresIn == TokenLifetime
  {
    Session(GenerateToken(u), ProfileOf(u))
  }

  function WithAdminEmail(email: string): User -> bool
  {
    (u: User) => u.email == email && u.role == AdminRole
  }

  /** signup: an email already in use gives 400 "User already exists" and writes nothing;
      a missing password (`None`) then makes bcrypt's hash reject, and the catch answers
      500 with its message and writes nothing; otherwise one account with role "user" and
      the password's digest (never its text) is added, and its session is returned. */
  method Signup(db: Db, name: string, email: string, password: Option<string>, now: int)
    returns (r: Reply<Session>)
    requires db.Valid()
    modifies db
    ensures db.Valid()
    ensures FirstIndex(old(db.users), WithEmail(email)).Some? ==>
      r == Fail(400, UserExists) && unchanged(db)
    ensures FirstIndex(old(db.users), WithEmail(email)).None? && password.None? ==>
      r == Fail(500, IllegalHashArguments) && unchanged(db)
    ensures FirstIndex(old(db.users), WithEmail(email)).None? && password.Some? ==>
      var u := User(old(db.nextId), name, email, Digest(password.value), UserRole, now);
      && r == Ok(201, SessionOf(u))
      && db.users == old(db.users) + [u]
      && db.subjects == old(db.subjects) && db.pyqs == old(db.pyqs)
      && db.requests == old(db.requests) && db.nextId == old(db.nextId) + 1
  {
    if FirstIndex(db.users, WithEmail(email)).Some? {
      return Fail(400, UserExists);
    }
    if password.None? {
      return Fail(500, IllegalHashArguments);
    }
    var u := User(db.nextId, name, email, Digest(password.value), UserRole, now);
    AddUserKeepsValid(db.subjects, db.pyqs, db.requests, db.users, db.nextId, u);
    db.users, db.nextId := db.users + [u], db.nextId + 1;
    r := Ok(201, SessionOf(u));
  }

  /** signin: the first account with the email, if the password matches its digest, gets
      its session; an unknown email and a wrong password both give the same 401
      "Invalid credentials", so the reply does not tell which check failed. */
  function Signin(users: seq<User>, email: string, password: string): (r: Reply<Session>)
    ensures r.Ok? <==>
      FirstIndex(users, WithEmail(email)).Some?
      && PasswordMatches(password, users[FirstIndex(users, WithEmail(email)).value].password)
    ensures r.Ok? ==> r == Ok(200, SessionOf(users[FirstIndex(users, WithEmail(email)).value]))
    ensures r.Fail? ==> r == Fail(401, InvalidCredentials)
  {
    match FirstIndex(users, WithEmail(email))
    case None => Fail(401, InvalidCredentials)
    case Some(k) =>
      if !PasswordMatches(password, users[k].password) then Fail(401, InvalidCredentials)
      else Ok(200, SessionOf(users[k]))
  }

  /** adminLogin: the lookup asks for the email and the role "admin" together; an account
      that is missing, not an admin, or given a wrong password gives the same 401
      "Invalid admin credentials". */
  function AdminLogin(users: seq<User>, email: string, password: string): (r: Reply<Session>)
    ensures r.Ok? <==>
      FirstIndex(users, WithAdminEmail(email)).Some?
      && PasswordMatches(password, users[FirstIndex(users, WithAdminEmail(email)).value].password)
    ensures r.Ok? ==> r == Ok(200, SessionOf(users[FirstIndex(users, WithAdminEmail(email)).value]))
    ensures r.Ok? ==> r.value.user.role == AdminRole && r.value.token.payload.role == AdminRole
    ensures r.Fail? ==> r == Fail(401, InvalidAdminCredentials)
  {
    match FirstIndex(users, WithAdminEmail(email))
    case None => Fail(401, InvalidAdminCredentials)
    case Some(k) =>
      if !PasswordMatches(password, users[k].password) then Fail(401, InvalidAdminCredentials)
      else Ok(200, SessionOf(users[k]))
  }

  /** An account just signed up can sign in with the same email and password and gets
      exactly the session signup returned; any other password is refused. */
  lemma SigninAfterSignup(users: seq<User>, u: User, password: string)
    requires FirstIndex(users, WithEmail(u.email)).None?
    requires u.password == Digest(password)
    ensures Signin(users + [u], u.email, password) == Ok(200, SessionOf(u))
    ensures forall other :: other != password ==>
      Signin(users + [u], u.email, other) == Fail(401, InvalidCredentials)
  {
    FirstIndexAppend(users, u, WithEmail(u.email));
  }

  /** In a store with unique emails, an account that is not an admin is refused by the admin
      login exactly as an unknown email is, even with its correct password, while signin
      accepts that same password. */
  lemma NonAdminLooksUnknown(users: seq<User>, u: User, password: string)
    requires UniqueEmails(users) && u in users && u.role != AdminRole
    ensures AdminLogin(users, u.email, password) == Fail(401, InvalidAdminCredentials)
    ensures Signin(users, u.email, password).Ok? <==> PasswordMatches(password, u.password)
  {
    var i :| 0 <= i < |users| && users[i] == u;
    forall j | 0 <= j < |users| ensures !WithAdminEmail(u.email)(users[j]) {
      if j != i {
        assert users[j].email != users[i].email;
      }
    }
    assert WithEmail(u.email)(users[i]);
  }
}
