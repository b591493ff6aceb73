/** The browser-side token store of frontend/src/AuthService.js over localStorage, which is
    modelled as a map from keys to string values. Reading the token checks its three-part
    shape and wipes every auth key when the check fails. */
module Session {
  import opened Common
  import opened Text

  const TokenKey: string := "pyq_token"
  const UserKey: string := "pyq_user"
  const RefreshKey: string := "pyq_refresh"
  /** Keys an earlier version of the client used. */
  const LegacyTokenKey: string := "token"
  const LegacyUserKey: string := "user"

  const NoAuthToken: string := "No authentication token found"
  const JsonContentType: string := "application/json"

  /** The keys clearAuth removes. */
  const AuthKeys: set<string> := {TokenKey, UserKey, RefreshKey, LegacyTokenKey, LegacyUserKey}

  /** The storage after clearAuth: the auth keys are gone and every other key keeps its value. */
  function Cleared(storage: map<string, string>): (m: map<string, string>)
    ensures forall k :: k in m <==> k in storage && k !in AuthKeys
    ensures forall k :: k in m ==> m[k] == storage[k]
  {
    map k | k in storage && k !in AuthKeys :: storage[k]
  }

  /** A stored value localStorage reports as truthy: present and non-empty. */
  function Stored(storage: map<string, string>, key: string): (r: Option<string>)
    ensures r.Some? <==> key in storage && storage[key] != ""
    ensures r.Some? ==> r.value == storage[key]
  {
    if key in storage && storage[key] != "" then Some(storage[key]) else None
  }

  /** The basic JWT shape check: exactly three dot-separated parts. */
  predicate ThreeParts(token: string)
  {
    |Split(token, '.')| == 3
  }

  /** Exactly three parts means exactly two dots. */
  lemma ThreePartsIffTwoDots(token: string)
    ensures ThreeParts(token) <==> Occurrences(token, '.') == 2
  {
  }

  /** A header, a payload and a signature without dots, joined by dots, pass the check,
      and the parts are recovered in order. */
  lemma JoinedSegmentsPass(header: string, payload: string, signature: string)
    requires '.' !in header && '.' !in payload && '.' !in signature
    ensures Split(header + "." + payload + "." + signature, '.') == [header, payload, signature]
    ensures ThreeParts(header + "." + payload + "." + signature)
  {
    assert header + "." + payload + "." + signature == header + ['.'] + (payload + ['.'] + signature);
    SplitAfterWord(header, '.', payload + ['.'] + signature);
    SplitAfterWord(payload, '.', signature);
    SplitNoSeparator(signature, '.');
  }

  /** What getToken returns and the storage it leaves behind. */
  datatype TokenRead = TokenRead(token: Option<string>, storage: map<string, string>)

  /** getToken on a given storage: no stored token gives none and changes nothing; a
      token that is not three dot-separated parts gives none and clears the auth keys; a
      well-shaped token is returned and nothing changes. */
  function ReadToken(storage: map<string, string>): (r: TokenRead)
    ensures r.token.Some? <==> Stored(storage, TokenKey).Some? && Occurrences(storage[TokenKey], '.') == 2
    ensures r.token.Some? ==> r.token.value == storage[TokenKey]
    ensures Stored(storage, TokenKey).None? ==> r.storage == storage
    ensures r.storage != storage ==> r.token.None? && r.storage == Cleared(storage)
    ensures Stored(storage, TokenKey).Some? && r.token.None? ==> r.storage == Cleared(storage)
  {
    match Stored(storage, TokenKey)
    case None => TokenRead(None, storage)
    case Some(token) =>
      if !ThreeParts(token) then TokenRead(None, Cleared(storage))
      else TokenRead(Some(token), storage)
  }

  /** isAuthenticated on a given storage: the token read comes first, so a malformed token
      also removes the user before the user is read. */
  predicate Authenticated(storage: map<string, string>)
  {
    ReadToken(storage).token.Some? && Stored(ReadToken(storage).storage, UserKey).Some?
  }

  /** Authenticated exactly when a well-shaped token and a user are both stored. */
  lemma AuthenticatedIffBothStored(storage: map<string, string>)
    ensures Authenticated(storage) <==>
      Stored(storage, TokenKey).Some? && ThreeParts(storage[TokenKey]) && Stored(storage, UserKey).Some?
  {
  }

  /** After a login stores a well-shaped token and a user, the client is authenticated,
      getToken returns that token and changes nothing. */
  lemma LoginAuthenticates(storage: map<string, string>, token: string, user: string)
    requires token != "" && ThreeParts(token) && user != ""
    ensures ReadToken(storage[TokenKey := token][UserKey := user]) ==
      TokenRead(Some(token), storage[TokenKey := token][UserKey := user])
    ensures Authenticated(storage[TokenKey := token][UserKey := user])
  {
    assert TokenKey != UserKey;
  }

  /** After a failed shape check nobody is authenticated, whatever user was stored. */
  lemma MalformedTokenLogsOut(storage: map<string, string>)
    requires Stored(storage, TokenKey).Some? && !ThreeParts(storage[TokenKey])
    ensures !Authenticated(storage)
    ensures forall k :: k in AuthKeys ==> k !in ReadToken(storage).storage
  {
  }

  /** The headers getAuthHeaders builds. */
  datatype Headers = Headers(authorization: string, contentType: string)

  /** A call that returns a value or throws an Error with a message. */
  datatype Outcome<+T> = Returned(value: T) | Threw(message: string)

  class AuthService {
    var storage: map<string, string>

    constructor (initial: map<string, string>)
      ensures storage == initial
    {
      storage := initial;
    }

    /** getToken. */
    method GetToken() returns (token: Option<string>)
      modifies this
      ensures token == ReadToken(old(storage)).token
      ensures storage == ReadToken(old(storage)).storage
    {
      if TokenKey !in storage || storage[TokenKey] == "" {
        return None;
      }
      var stored := storage[TokenKey];
      var parts := Split(stored, '.');
      if |parts| != 3 {
        ClearAuth();
        return None;
      }
      token := Some(stored);
    }

    /** setToken: an empty token is refused and nothing is stored. */
    method SetToken(token: string) returns (ok: bool)
      modifies this
      ensures ok <==> token != ""
      ensures ok ==> storage == old(storage)[TokenKey := token]
      ensures !ok ==> storage == old(storage)
    {
      if token == "" {
        return false;
      }
      storage := storage[TokenKey := token];
      ok := true;
    }

    /** getUser: the stored user text when present and non-empty. */
    method GetUser() returns (user: Option<string>)
      ensures user.Some? <==> UserKey in storage && storage[UserKey] != ""
      ensures user.Some? ==> user.value == storage[UserKey]
    {
      if UserKey in storage && storage[UserKey] != "" {
        user := Some(storage[UserKey]);
      } else {
        user := None;
      }
    }

    /** setUser: a missing user is refused and nothing is stored; otherwise its serialized
        text is stored under the user key. */
    method SetUser(user: Option<string>) returns (ok: bool)
      modifies this
      ensures ok <==> user.Some?
      ensures ok ==> storage == old(storage)[UserKey := user.value]
      ensures !ok ==> storage == old(storage)
    {
      if user.None? {
        return false;
      }
      storage := storage[UserKey := user.value];
      ok := true;
    }

    /** clearAuth: removes the three current keys and the two legacy keys, one by one. */
    method ClearAuth()
      modifies this
      ensures storage == Cleared(old(storage))
    {
      storage := storage - {TokenKey};
      storage := storage - {UserKey};
      storage := storage - {RefreshKey};
      storage := storage - {LegacyTokenKey};
      storage := storage - {LegacyUserKey};
    }

    /** isAuthenticated: getToken, then getUser, and both must yield a value. */
    method IsAuthenticated() returns (authenticated: bool)
      modifies this
      ensures authenticated == Authenticated(old(storage))
      ensures storage == ReadToken(old(storage)).storage
    {
      var token := GetToken();
      var user := GetUser();
      authenticated := token.Some? && user.Some?;
    }

    /** getAuthHeaders: throws when getToken yields nothing; otherwise the bearer header
        with the token and a JSON content type. */
    method GetAuthHeaders() returns (r: Outcome<Headers>)
      modifies this
      ensures ReadToken(old(storage)).token.None? ==> r == Threw(NoAuthToken)
      ensures ReadToken(old(storage)).token.Some? ==>
        r == Returned(Headers("Bearer " + ReadToken(old(storage)).token.value, JsonContentType))
      ensures storage == ReadToken(old(storage)).storage
    {
      var token := GetToken();
      if token.None? {
        return Threw(NoAuthToken);
      }
      r := Returned(Headers("Bearer " + token.value, JsonContentType));
    }

    /** handleAuthError: a response status of 401 logs out (clears the auth keys) and
        reports true; any other status, or no response, changes nothing and reports false. */
    method HandleAuthError(status: Option<int>) returns (handled: bool)
      modifies this
      ensures handled <==> status == Some(401)
      ensures handled ==> storage == Cleared(old(storage))
      ensures !handled ==> storage == old(storage)
    {
      if status == Some(401) {
        ClearAuth();
        return true;
      }
      handled := false;
    }
  }
}
