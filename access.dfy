/** The route guards of backend/middlewares/auth.js. `protect` reads a bearer token from the
    Authorization header and lets the request through with the token's claims attached, or
    answers 401; `adminOnly` lets through only the role "admin", or answers 403. Signature
    checking is a parameter: `verify` stands for jwt.verify with the server's secret. */
module Access {
  import opened Common
  import opened Models
  import opened Text

  const NoToken: string := "No token, authorization denied"
  const TokenExpired: string := "Token expired"
  const InvalidToken: string := "Invalid token"
  const AdminAccessOnly: string := "Admin access only"
  /** The error name jwt.verify gives a well-signed token past its expiry. */
  const ExpiredErrorName: string := "TokenExpiredError"

  /** What jwt.verify does with a token: returns the decoded payload, or throws an error
      with the given name. */
  datatype Verification = Verified(claims: Claims) | Thrown(errorName: string)

  /** A guard's decision: call `next` with the identity attached to the request, or answer
      with a status and a message and skip `next`. */
  datatype Decision = Next(user: Claims) | Deny(status: int, message: string)

  /** The token `protect` extracts: the header must be present, non-empty and start with
      "Bearer" (no space is required after it); the token is then the second piece of the
      header split on single spaces, and an absent or empty second piece is no token. */
  function BearerToken(header: Option<string>): (r: Option<string>)
    ensures r.Some? ==> r.value != "" && ' ' !in r.value
    ensures r.Some? ==> header.Some? && StartsWith(header.value, "Bearer")
    ensures header.None? || !StartsWith(header.value, "Bearer") ==> r.None?
    ensures r.Some? ==> |Split(header.value, ' ')| >= 2 && Split(header.value, ' ')[1] == r.value
    ensures (&& header.Some? && StartsWith(header.value, "Bearer")
             && |Split(header.value, ' ')| >= 2 && Split(header.value, ' ')[1] != "") ==> r.Some?
    ensures header.Some? && ' ' !in header.value ==> r.None?
  {
    if header.None? || header.value == "" || !StartsWith(header.value, "Bearer") then None
    else
      var pieces := Split(header.value, ' ');
      assert ' ' !in header.value ==> |pieces| == 1 by {
        if ' ' !in header.value {
          SplitNoSeparator(header.value, ' ');
        }
      }
      if |pieces| < 2 || pieces[1] == "" then None else Some(pieces[1])
  }

  /** A first word that starts with "Bearer", one space, and a token without spaces, followed
      by nothing or by further space-separated text: the token is what is extracted. */
  lemma SecondWordIsToken(word: string, token: string, more: string)
    requires StartsWith(word, "Bearer") && ' ' !in word
    requires token != "" && ' ' !in token
    requires more == "" || more[0] == ' '
    ensures BearerToken(Some(word + " " + token + more)) == Some(token)
  {
    var header := word + " " + token + more;
    assert header == word + [' '] + (token + more);
    assert StartsWith(header, "Bearer") by {
      assert header[..|"Bearer"|] == word[..|"Bearer"|];
    }
    SplitAfterWord(word, ' ', token + more);
    if more == "" {
      assert token + more == token;
      SplitNoSeparator(token, ' ');
    } else {
      assert token + more == token + [' '] + more[1..];
      SplitAfterWord(token, ' ', more[1..]);
    }
  }

  /** The header the client builds, "Bearer " and the token, yields the token. */
  lemma BearerRoundTrip(token: string)
    requires token != "" && ' ' !in token
    ensures BearerToken(Some("Bearer " + token)) == Some(token)
  {
    SecondWordIsToken("Bearer", token, "");
    assert "Bearer" + " " + token + "" == "Bearer " + token;
  }

  /** Two spaces after "Bearer" leave an empty second piece: no token. */
  lemma DoubleSpaceHasNoToken(token: string)
    ensures BearerToken(Some("Bearer  " + token)) == None
  {
    var header := "Bearer  " + token;
    assert header == "Bearer" + [' '] + ([' '] + token);
    SplitAfterWord("Bearer", ' ', [' '] + token);
    SplitAfterWord("", ' ', token);
    assert "" + [' '] + token == [' '] + token;
  }

  /** protect: no token gives 401 "No token, authorization denied"; a token jwt.verify
      rejects gives 401 "Token expired" for the expiry error and 401 "Invalid token" for any
      other; a verified token lets the request through with exactly the decoded claims. */
  function Protect(header: Option<string>, verify: string -> Verification): (r: Decision)
    ensures BearerToken(header).None? ==> r == Deny(401, NoToken)
    ensures r.Next? <==> BearerToken(header).Some? && verify(BearerToken(header).value).Verified?
    ensures r.Next? ==> r.user == verify(BearerToken(header).value).claims
    ensures r.Deny? ==> r.status == 401
    ensures r == Deny(401, TokenExpired) <==>
      BearerToken(header).Some? && verify(BearerToken(header).value) == Thrown(ExpiredErrorName)
    ensures r == Deny(401, InvalidToken) <==>
      && BearerToken(header).Some?
      && verify(BearerToken(header).value).Thrown?
      && verify(BearerToken(header).value).errorName != ExpiredErrorName
  {
    match BearerToken(header)
    case None => Deny(401, NoToken)
    case Some(token) =>
      match verify(token)
      case Verified(claims) => Next(claims)
      case Thrown(name) => Deny(401, if name == ExpiredErrorName then TokenExpired else InvalidToken)
  }

  /** adminOnly: only the role spelled exactly "admin" passes ("superadmin", "Admin" and
      every other role get 403); the identity passes on unchanged. */
  function AdminOnly(user: Claims): (r: Decision)
    ensures r.Next? <==> user.role == AdminRole
    ensures r.Next? ==> r.user == user
    ensures r.Deny? ==> r == Deny(403, AdminAccessOnly)
  {
    if user.role != AdminRole then Deny(403, AdminAccessOnly) else Next(user)
  }

  /** The chain the admin routes mount, protect then adminOnly. */
  function AdminGate(header: Option<string>, verify: string -> Verification): Decision
  {
    match Protect(header, verify)
    case Next(user) => AdminOnly(user)
    case Deny(status, message) => Deny(status, message)
  }

  /** A request reaches an admin handler exactly when it carries a token that verifies to
      claims with the role "admin", and then with those claims; a refusal is 401 from
      protect or 403 from adminOnly. */
  lemma AdminGatePassesOnlyAdmins(header: Option<string>, verify: string -> Verification)
    ensures AdminGate(header, verify).Next? <==>
      && BearerToken(header).Some?
      && verify(BearerToken(header).value).Verified?
      && verify(BearerToken(header).value).claims.role == AdminRole
    ensures AdminGate(header, verify).Next? ==>
      AdminGate(header, verify).user == verify(BearerToken(header).value).claims
    ensures AdminGate(header, verify).Deny? ==>
      AdminGate(header, verify).status == 401 || AdminGate(header, verify) == Deny(403, AdminAccessOnly)
  {
    var p := Protect(header, verify);
    if p.Next? {
      assert AdminGate(header, verify) == AdminOnly(p.user);
    }
  }
}
