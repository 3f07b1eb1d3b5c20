/** The socket handlers of the auth template
    (src/templates/auth/src/handlers/auth/register.js, login.js, logout.js):
    each validates what it is given, talks to the user table and the session
    cache, and answers on its event. The socket is a class that records what
    is emitted on it; the user table is a class keyed by e-mail (the e-mail
    column is unique). E-mail validation is an opaque predicate. */
module AuthHandlers {
  import opened Wrappers
  import opened AuthUser

  /** A user row. */
  datatype UserRecord = UserRecord(id: string, email: string, password: string)

  /** A user as the model's default scope returns it: without the password. */
  datatype PublicUser = PublicUser(id: string, email: string)

  function Public(u: UserRecord): PublicUser {
    PublicUser(u.id, u.email)
  }

  /** What a handler emits. */
  datatype Payload =
    | ErrorPayload(error: string)
    | RegisteredPayload(user: PublicUser)
    | LoginPayload(user: PublicUser, token: string)
    | LogoutPayload

  const RegisterEvent := "auth.register"
  const LoginEvent := "auth.login"
  const LogoutEvent := "auth.logout"
  const NotAuthenticated := "Not authenticated"

  /** A connected client. */
  class Socket {
    var user: Option<PublicUser>
    var token: Option<string>
    var emitted: seq<(string, Payload)>

    constructor()
      ensures user == None && token == None && emitted == []
    {
      user := None;
      token := None;
      emitted := [];
    }

    method Emit(event: string, payload: Payload)
      modifies this
      ensures emitted == old(emitted) + [(event, payload)] && user == old(user) && token == old(token)
    {
      emitted := emitted + [(event, payload)];
    }
  }

  /** The users, by e-mail. */
  class UserTable {
    var users: map<string, UserRecord>

    constructor()
      ensures users == map[]
    {
      users := map[];
    }

    /** `User.create`: refused when the e-mail is taken (the unique index)
        or when the database fails for another reason; otherwise the row is
        added with the password hashed by the create hook. */
    method Create(id: string, email: string, password: string, kdf: KdfInput -> seq<byte>, envSalt: Option<string>,
                  dbFails: bool)
      returns (ok: bool)
      modifies this
      ensures ok <==> email !in old(users) && !dbFails
      ensures ok ==> users == old(users)[email := UserRecord(id, email, BeforeCreate(kdf, password, envSalt))]
      ensures !ok ==> users == old(users)
    {
      if email in users || dbFails {
        return false;
      }
      users := users[email := UserRecord(id, email, BeforeCreate(kdf, password, envSalt))];
      ok := true;
    }

    /** `User.findOne({where: {email}})` */
    function FindOne(email: string): Option<UserRecord>
      reads this
    {
      if email in users then Some(users[email]) else None
    }
  }

  /** A missing or empty field (`!value`). */
  predicate Falsy(v: Option<string>) {
    v.None? || v.value == ""
  }

  /** The presentation selectors U+FE0E and U+FE0F, which `isLength` does
      not count. */
  predicate IsPresentationSelector(c: char) {
    c == '\U{FE0E}' || c == '\U{FE0F}'
  }

  /** The length `isLength` compares: the characters of `s` less its
      presentation selectors. A character outside the Basic Multilingual
      Plane is one `char` here, and `isLength` counts its surrogate pair as
      one too. */
  function IsLengthCount(s: string): (n: nat)
    ensures n <= |s|
    decreases |s|
  {
    if s == [] then 0
    else IsLengthCount(s[..|s| - 1]) + (if IsPresentationSelector(s[|s| - 1]) then 0 else 1)
  }

  /** Without presentation selectors, `isLength` counts every character. */
  lemma {:induction false} IsLengthCountPlain(s: string)
    requires forall i :: 0 <= i < |s| ==> !IsPresentationSelector(s[i])
    ensures IsLengthCount(s) == |s|
    decreases |s|
  {
    if s != [] {
      IsLengthCountPlain(s[..|s| - 1]);
    }
  }

  /** Each presentation selector lowers the count by one: `s` followed by
      one counts as `s` alone. */
  lemma IsLengthCountSelector(s: string, c: char)
    requires IsPresentationSelector(c)
    ensures IsLengthCount(s + [c]) == IsLengthCount(s)
  {
    assert (s + [c])[..|s|] == s;
  }

  /** The register checks in their fixed order; the first that fails gives
      the error. `isEmpty` holds only for the empty string, and the length
      check uses `isLength`'s count. */
  function RegisterCheck(email: Option<string>, password: Option<string>, isEmail: string -> bool): (r: Option<string>)
    ensures r.None? <==>
      !Falsy(email) && isEmail(email.value) && !Falsy(password) && IsLengthCount(password.value) >= 6
    ensures Falsy(email) ==> r == Some("Email is required")
    ensures !Falsy(email) && !isEmail(email.value) ==> r == Some("Email is invalid")
    ensures !Falsy(email) && isEmail(email.value) ==>
      (Falsy(password) ==> r == Some("Password is required")) &&
      (!Falsy(password) && IsLengthCount(password.value) < 6 ==> r == Some("Password must be at least 6 characters"))
  {
    if Falsy(email) then Some("Email is required")
    else if |email.value| == 0 then Some("Email is invalid")
    else if !isEmail(email.value) then Some("Email is invalid")
    else if Falsy(password) then Some("Password is required")
    else if |password.value| == 0 then Some("Password is invalid")
    else if IsLengthCount(password.value) < 6 then Some("Password must be at least 6 characters")
    else None
  }

  /** Six characters, the last a presentation selector, are too short:
      `isLength` counts five. */
  lemma SelectorPasswordTooShort(email: string, isEmail: string -> bool)
    requires email != "" && isEmail(email)
    ensures RegisterCheck(Some(email), Some("abcde\U{FE0F}"), isEmail) == Some("Password must be at least 6 characters")
  {
    var p := "abcde\U{FE0F}";
    assert p == "abcde" + ['\U{FE0F}'];
    IsLengthCountSelector("abcde", '\U{FE0F}');
    IsLengthCountPlain("abcde");
  }

  /** Every e-mail check comes before every password check: whatever the
      password, a bad e-mail gets an e-mail error. */
  lemma EmailChecksFirst(email: Option<string>, password: Option<string>, other: Option<string>, isEmail: string -> bool)
    requires Falsy(email) || !isEmail(email.value)
    ensures RegisterCheck(email, password, isEmail) == RegisterCheck(email, other, isEmail)
    ensures RegisterCheck(email, password, isEmail).Some?
    ensures RegisterCheck(email, password, isEmail).value in {"Email is required", "Email is invalid"}
  {
  }

  /** The register handler: the checks, then the create (any failure reads
      as a taken e-mail), then the row looked up by e-mail is sent back.
      When that lookup rejects (`findError`), the handler rejects with
      nothing emitted and the new row kept; on every other path exactly one
      `auth.register` is emitted. */
  method Register(socket: Socket, table: UserTable, email: Option<string>, password: Option<string>,
                  isEmail: string -> bool, kdf: KdfInput -> seq<byte>, envSalt: Option<string>,
                  newId: string, dbFails: bool, findError: Option<string>)
    returns (r: Result<(), string>)
    modifies socket, table
    ensures socket.user == old(socket.user) && socket.token == old(socket.token)
    ensures RegisterCheck(email, password, isEmail).None? && email.value !in old(table.users) && !dbFails &&
            findError.Some? ==>
      r == Failure(findError.value) && socket.emitted == old(socket.emitted) &&
      table.users == old(table.users)[email.value := UserRecord(newId, email.value, BeforeCreate(kdf, password.value, envSalt))]
    ensures !(RegisterCheck(email, password, isEmail).None? && email.value !in old(table.users) && !dbFails &&
              findError.Some?) ==>
      r == Success(()) &&
      |socket.emitted| == |old(socket.emitted)| + 1 && socket.emitted[..|old(socket.emitted)|] == old(socket.emitted) &&
      socket.emitted[|socket.emitted| - 1].0 == RegisterEvent
    ensures RegisterCheck(email, password, isEmail).Some? ==>
      socket.emitted[|socket.emitted| - 1].1 == ErrorPayload(RegisterCheck(email, password, isEmail).value) &&
      table.users == old(table.users)
    ensures RegisterCheck(email, password, isEmail).None? && (email.value in old(table.users) || dbFails) ==>
      socket.emitted[|socket.emitted| - 1].1 == ErrorPayload("Email already exists") && table.users == old(table.users)
    ensures RegisterCheck(email, password, isEmail).None? && email.value !in old(table.users) && !dbFails &&
            findError.None? ==>
      var row := UserRecord(newId, email.value, BeforeCreate(kdf, password.value, envSalt));
      table.users == old(table.users)[email.value := row] &&
      socket.emitted[|socket.emitted| - 1].1 == RegisteredPayload(Public(row))
  {
    var problem := RegisterCheck(email, password, isEmail);
    if problem.Some? {
      socket.Emit(RegisterEvent, ErrorPayload(problem.value));
      return Success(());
    }
    var ok := table.Create(newId, email.value, password.value, kdf, envSalt, dbFails);
    if !ok {
      socket.Emit(RegisterEvent, ErrorPayload("Email already exists"));
      return Success(());
    }
    if findError.Some? {
      return Failure(findError.value);
    }
    var found := table.FindOne(email.value);
    socket.Emit(RegisterEvent, RegisteredPayload(Public(found.value)));
    r := Success(());
  }

  /** What the user lookup rejects with when the e-mail is missing: a where
      clause may not hold `undefined`. */
  const MissingEmailError := "WHERE parameter \"email\" has invalid \"undefined\" value"

  /** The login handler at instant `now`: an unknown e-mail and a wrong
      password are answered with an error and nothing else happens; otherwise
      a session token is made, kept on the socket with the user, and sent back
      with the user. A missing e-mail or a failing database (the lookup by
      e-mail rejects, `lookupError`), a failing reread of the user's password
      by primary key (`pkError`), a missing password or unset salt (the
      password check rejects) and a token creation that rejects make the
      handler reject with nothing emitted and the socket unchanged. `json` is
      the user's JSON text. */
  method Login(socket: Socket, table: UserTable, cache: SessionCache, email: Option<string>, password: Option<string>,
               kdf: KdfInput -> seq<byte>, envSalt: Option<string>, json: PublicUser -> string,
               random: seq<byte>, now: nat, lookupError: Option<string>, pkError: Option<string>,
               setError: Option<string>, expireError: Option<string>)
    returns (r: Result<(), string>)
    requires |random| == TokenBytes
    modifies socket, cache
    ensures email.None? ==>
      r == Failure(MissingEmailError) && unchanged(socket) && cache.entries == old(cache.entries) && cache.expiry == old(cache.expiry)
    ensures email.Some? && lookupError.Some? ==>
      r == Failure(lookupError.value) && unchanged(socket) && cache.entries == old(cache.entries) && cache.expiry == old(cache.expiry)
    ensures email.Some? && lookupError.None? && email.value in table.users && pkError.Some? ==>
      r == Failure(pkError.value) && unchanged(socket) && cache.entries == old(cache.entries) && cache.expiry == old(cache.expiry)
    ensures email.Some? && lookupError.None? && email.value !in table.users ==>
      r.Success? && socket.emitted == old(socket.emitted) + [(LoginEvent, ErrorPayload("User not found"))] &&
      socket.user == old(socket.user) && socket.token == old(socket.token) && cache.entries == old(cache.entries) && cache.expiry == old(cache.expiry)
    ensures email.Some? && lookupError.None? && email.value in table.users && pkError.None? && (password.None? || envSalt.None?) ==>
      r == Failure(if password.None? then PasswordError else SaltError) && unchanged(socket) && cache.entries == old(cache.entries) && cache.expiry == old(cache.expiry)
    ensures (email.Some? && lookupError.None? && email.value in table.users && pkError.None? && password.Some? && envSalt.Some? &&
             table.users[email.value].password != HashPassword(kdf, password.value, envSalt.value)) ==>
      r.Success? && socket.emitted == old(socket.emitted) + [(LoginEvent, ErrorPayload("Invalid password"))] &&
      socket.user == old(socket.user) && socket.token == old(socket.token) && cache.entries == old(cache.entries) && cache.expiry == old(cache.expiry)
    ensures (email.Some? && lookupError.None? && email.value in table.users && pkError.None? && password.Some? && envSalt.Some? &&
             table.users[email.value].password == HashPassword(kdf, password.value, envSalt.value)) ==>
      var user, token := Public(table.users[email.value]), Hex(random);
      var key := SessionKey(token);
      match (setError, expireError)
      case (Some(e), _) => r == Failure(e) && unchanged(socket) && cache.entries == old(cache.entries) && cache.expiry == old(cache.expiry)
      case (None, Some(e)) =>
        r == Failure(e) && unchanged(socket) &&
        cache.entries == old(cache.entries)[key := json(user)] && cache.expiry == old(cache.expiry) - {key}
      case (None, None) =>
        r.Success? && socket.user == Some(user) && socket.token == Some(token) &&
        socket.emitted == old(socket.emitted) + [(LoginEvent, LoginPayload(user, token))] &&
        cache.entries == old(cache.entries)[key := json(user)] &&
        cache.expiry == old(cache.expiry)[key := now + TokenLifetime]
  {
    if email.None? {
      return Failure(MissingEmailError);
    }
    if lookupError.Some? {
      return Failure(lookupError.value);
    }
    var found := table.FindOne(email.value);
    if found.None? {
      socket.Emit(LoginEvent, ErrorPayload("User not found"));
      return Success(());
    }
    var row := found.value;
    if pkError.Some? {
      return Failure(pkError.value);
    }
    var valid := IsValidPassword(kdf, Some(row.password), password, envSalt);
    if valid.Failure? {
      return Failure(valid.error);
    }
    if !valid.value {
      socket.Emit(LoginEvent, ErrorPayload("Invalid password"));
      return Success(());
    }
    r := StartSession(socket, cache, Public(row), json, random, now, setError, expireError);
  }

  /** The end of a successful login at instant `now`: a session token is
      made for the user; when that succeeds the socket keeps the user and the
      token and the user and token are emitted, and when it rejects the
      handler rejects with nothing emitted, the socket unchanged and the
      cache as the failed token creation left it. */
  method StartSession(socket: Socket, cache: SessionCache, user: PublicUser, json: PublicUser -> string,
                      random: seq<byte>, now: nat, setError: Option<string>, expireError: Option<string>)
    returns (r: Result<(), string>)
    requires |random| == TokenBytes
    modifies socket, cache
    ensures var key := SessionKey(Hex(random));
      match (setError, expireError)
      case (Some(e), _) => r == Failure(e) && unchanged(socket) && cache.entries == old(cache.entries) && cache.expiry == old(cache.expiry)
      case (None, Some(e)) =>
        r == Failure(e) && unchanged(socket) &&
        cache.entries == old(cache.entries)[key := json(user)] && cache.expiry == old(cache.expiry) - {key}
      case (None, None) =>
        r.Success? && socket.user == Some(user) && socket.token == Some(Hex(random)) &&
        socket.emitted == old(socket.emitted) + [(LoginEvent, LoginPayload(user, Hex(random)))] &&
        cache.entries == old(cache.entries)[key := json(user)] &&
        cache.expiry == old(cache.expiry)[key := now + TokenLifetime]
  {
    var token := cache.GenerateAuthToken(random, json(user), now, setError, expireError);
    if token.Failure? {
      return Failure(token.error);
    }
    socket.user := Some(user);
    socket.token := Some(token.value);
    socket.Emit(LoginEvent, LoginPayload(user, token.value));
    r := Success(());
  }

  /** The logout handler at instant `now`: without a user or without a
      token it answers `Not authenticated`. Otherwise it reads the session
      entry; when that read rejects (`getError`), the handler rejects with
      nothing emitted. Without a live (non-empty, unexpired) entry it answers
      `Not authenticated` and leaves the cache alone; otherwise it deletes
      the session entry and answers with success, or with the deletion's
      error and the cache unchanged. The socket keeps its user and token.
      Exactly one `auth.logout` is emitted unless the read rejects. */
  method Logout(socket: Socket, cache: SessionCache, now: nat, getError: Option<string>, delError: Option<string>)
    returns (r: Result<(), string>)
    modifies socket, cache
    ensures socket.user == old(socket.user) && socket.token == old(socket.token)
    ensures socket.user.Some? && !Falsy(socket.token) && getError.Some? ==>
      r == Failure(getError.value) && socket.emitted == old(socket.emitted) &&
      cache.entries == old(cache.entries) && cache.expiry == old(cache.expiry)
    ensures !(socket.user.Some? && !Falsy(socket.token) && getError.Some?) ==>
      r == Success(()) &&
      |socket.emitted| == |old(socket.emitted)| + 1 && socket.emitted[..|old(socket.emitted)|] == old(socket.emitted) &&
      socket.emitted[|socket.emitted| - 1].0 == LogoutEvent
    ensures (socket.user.None? || Falsy(socket.token) ||
             (getError.None? && Falsy(old(cache.Get(SessionKey(socket.token.value), now))))) ==>
      socket.emitted[|socket.emitted| - 1].1 == ErrorPayload(NotAuthenticated) &&
      cache.entries == old(cache.entries) && cache.expiry == old(cache.expiry)
    ensures socket.user.Some? && !Falsy(socket.token) && getError.None? &&
            !Falsy(old(cache.Get(SessionKey(socket.token.value), now))) ==>
      (delError.None? ==>
        socket.emitted[|socket.emitted| - 1].1 == LogoutPayload &&
        cache.entries == old(cache.entries) - {SessionKey(socket.token.value)} &&
        cache.expiry == old(cache.expiry) - {SessionKey(socket.token.value)}) &&
      (delError.Some? ==>
        socket.emitted[|socket.emitted| - 1].1 == ErrorPayload(delError.value) &&
        cache.entries == old(cache.entries) && cache.expiry == old(cache.expiry))
  {
    if socket.user.None? {
      socket.Emit(LogoutEvent, ErrorPayload(NotAuthenticated));
      return Success(());
    }
    var token := socket.token;
    if Falsy(token) {
      socket.Emit(LogoutEvent, ErrorPayload(NotAuthenticated));
      return Success(());
    }
    var key := SessionKey(token.value);
    if getError.Some? {
      return Failure(getError.value);
    }
    var tokenData := cache.Get(key, now);
    if Falsy(tokenData) {
      socket.Emit(LogoutEvent, ErrorPayload(NotAuthenticated));
      return Success(());
    }
    var deleted := cache.Del(key, delError);
    if deleted.Failure? {
      socket.Emit(LogoutEvent, ErrorPayload(deleted.error));
    } else {
      socket.Emit(LogoutEvent, LogoutPayload);
    }
    r := Success(());
  }

  /** A session started at `now` and a logout at `later`: the logout
      succeeds exactly when seven days have not yet passed (and the stored
      user JSON is not empty); from the deadline on, the socket's token no
      longer authenticates, though it is still kept on the socket. */
  method LogoutAfter(socket: Socket, cache: SessionCache, user: PublicUser, json: PublicUser -> string,
                     random: seq<byte>, now: nat, later: nat)
    returns (answer: Payload)
    requires |random| == TokenBytes
    modifies socket, cache
    ensures answer == (if later < now + TokenLifetime && json(user) != "" then LogoutPayload else ErrorPayload(NotAuthenticated))
    ensures socket.token == Some(Hex(random))
  {
    var started := StartSession(socket, cache, user, json, random, now, None, None);
    var done := Logout(socket, cache, later, None, None);
    answer := socket.emitted[|socket.emitted| - 1].1;
  }

  /** Logging out twice on the same socket: the first succeeds, and since
      the socket keeps its token while the entry is gone, the second is
      refused at the cache check. */
  method LogoutTwice(socket: Socket, cache: SessionCache, now: nat) returns (first: Payload, second: Payload)
    requires socket.user.Some? && !Falsy(socket.token) && !Falsy(cache.Get(SessionKey(socket.token.value), now))
    modifies socket, cache
    ensures first == LogoutPayload && second == ErrorPayload(NotAuthenticated)
    ensures socket.token == old(socket.token)
    ensures socket.token.Some? && SessionKey(socket.token.value) !in cache.entries
  {
    var done := Logout(socket, cache, now, None, None);
    first := socket.emitted[|socket.emitted| - 1].1;
    done := Logout(socket, cache, now, None, None);
    second := socket.emitted[|socket.emitted| - 1].1;
  }
}
