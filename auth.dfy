/**
 * The NextAuth options of `src/server/auth.ts`: the credentials provider's
 * `authorize` and the `jwt` and `session` callbacks. `verify` stands for
 * argon2's password check (a verdict or an exception), the user table for the rows Prisma reads.
 */
module Auth {
  import opened Wrappers
  import opened JsValue
  import opened Schema
  import opened Db

  /** argon2's `verify(hash, password)`: a verdict, or the exception it throws on a hash it cannot read. */
  type Verifier = (string, string) -> Result<bool, JsError>

  /** What `authorize` does once the stored row is known: `verify`'s exception propagates. */
  function CheckPassword(user: User, password: string, verify: Verifier): Result<Option<User>, JsError>
  {
    match verify(user.password, password)
    case Err(e) => Err(e)
    case Ok(ok) => Ok(if ok then Some(user) else None)
  }

  /**
   * `authorize(credentials)`: the credentials must pass `schema.login`; then
   * the first user with that email is looked up and returned when `verify`
   * accepts the stored hash against the password. A failed check is `null`;
   * an exception thrown by `verify` leaves `authorize` as an exception.
   */
  function Authorize(credentials: Json, rows: seq<User>, isEmail: string -> bool, verify: Verifier)
    : (r: Result<Option<User>, JsError>)
    ensures ParseCredentials(credentials, isEmail).None? ==> r == Ok(None)
    ensures r.Ok? && r.value.Some? ==> r.value.value in rows
    ensures r.Ok? && r.value.Some? ==> var c := ParseCredentials(credentials, isEmail).value;
              r.value.value.email == c.email && verify(r.value.value.password, c.password) == Ok(true)
    ensures r.Ok? && r.value.Some? ==> Get(credentials.fields, "email") == JStr(r.value.value.email)
    ensures r.Err? ==> ParseCredentials(credentials, isEmail).Some?
                       && exists i :: 0 <= i < |rows| && rows[i].email == ParseCredentials(credentials, isEmail).value.email
                                      && verify(rows[i].password, ParseCredentials(credentials, isEmail).value.password).Err?
    ensures ParseCredentials(credentials, isEmail).Some?
            && (forall i :: 0 <= i < |rows| ==> rows[i].email != ParseCredentials(credentials, isEmail).value.email)
            ==> r == Ok(None)
  {
    match ParseCredentials(credentials, isEmail)
    case None => Ok(None)
    case Some(c) =>
      match FindFirst(rows, EmailColumn, c.email)
      case None => Ok(None)
      case Some(user) => CheckPassword(user, c.password, verify)
  }

  /** With unique emails, valid credentials of a stored user get exactly `verify`'s answer about that user's hash. */
  lemma AuthorizeStoredUser(c: Credentials, rows: seq<User>, i: nat, isEmail: string -> bool, verify: Verifier)
    requires EmailsUnique(rows) && i < |rows| && rows[i].email == c.email
    requires isEmail(c.email) && JsLength(c.password) >= 6
    ensures Authorize(CredentialsToJson(c), rows, isEmail, verify) == CheckPassword(rows[i], c.password, verify)
    ensures verify(rows[i].password, c.password) == Ok(true)
            ==> Authorize(CredentialsToJson(c), rows, isEmail, verify) == Ok(Some(rows[i]))
  {
    CredentialsRoundTrip(c, isEmail);
    FindByUniqueEmail(rows, i);
  }

  /** When `verify` answers, an unknown email and a wrong password give the caller the same answer. */
  lemma UnknownEmailLooksLikeWrongPassword(c: Credentials, rows: seq<User>, i: nat, isEmail: string -> bool,
                                          verify: Verifier, stranger: Credentials)
    requires EmailsUnique(rows) && i < |rows| && rows[i].email == c.email
    requires verify(rows[i].password, c.password) == Ok(false)
    requires forall j :: 0 <= j < |rows| ==> rows[j].email != stranger.email
    ensures Authorize(CredentialsToJson(c), rows, isEmail, verify)
            == Authorize(CredentialsToJson(stranger), rows, isEmail, verify)
            == Ok(None)
  {
    if isEmail(c.email) && JsLength(c.password) >= 6 {
      AuthorizeStoredUser(c, rows, i, isEmail, verify);
    }
  }

  /**
   * When `verify` throws on the stored hash (argon2 given a hash in another
   * format), the known email ends in an exception while an unknown email
   * ends in `null`: the two cases can be told apart.
   */
  lemma ThrowingVerifyRevealsKnownEmail(c: Credentials, rows: seq<User>, i: nat, isEmail: string -> bool,
                                        verify: Verifier, stranger: Credentials)
    requires EmailsUnique(rows) && i < |rows| && rows[i].email == c.email
    requires isEmail(c.email) && JsLength(c.password) >= 6
    requires verify(rows[i].password, c.password).Err?
    requires forall j :: 0 <= j < |rows| ==> rows[j].email != stranger.email
    ensures Authorize(CredentialsToJson(c), rows, isEmail, verify).Err?
    ensures Authorize(CredentialsToJson(stranger), rows, isEmail, verify) == Ok(None)
  {
    AuthorizeStoredUser(c, rows, i, isEmail, verify);
  }

  /** A password shorter than six UTF-16 code units never signs in, whatever the table and `verify`. */
  lemma ShortPasswordNeverAuthorizes(credentials: Json, rows: seq<User>, isEmail: string -> bool, verify: Verifier)
    requires credentials.JObj? && Get(credentials.fields, "password").JStr?
    requires JsLength(Get(credentials.fields, "password").s) < 6
    ensures Authorize(credentials, rows, isEmail, verify) == Ok(None)
  {
  }

  /** `jwt({ token, user })`: the token with the user's properties copied over it, the user's winning. */
  function Jwt(token: Obj, user: Json): (r: Obj)
    ensures r.Keys == token.Keys + Spread(user).Keys
    ensures forall k :: k in Spread(user) ==> r[k] == Spread(user)[k]
    ensures forall k :: k in token && k !in Spread(user) ==> r[k] == token[k]
  {
    token + Spread(user)
  }

  /** At sign-in the whole user row enters the token, its password hash included. */
  lemma SignInTokenCarriesRow(token: Obj, u: User)
    ensures var t := Jwt(token, JObj(UserToJson(u)));
      Get(t, "id") == JStr(u.id) && Get(t, "password") == JStr(u.password)
      && Get(t, "roleId") == (if u.roleId.Some? then JNum(u.roleId.value as real) else JNull)
  {
  }

  /** The user object the `session` callback builds. */
  function SessionUser(session: Obj, token: Obj): Obj
  {
    Spread(Get(session, "user")) + map["id" := Get(token, "id"), "isSuperAdmin" := JBool(Get(token, "roleId") == JNum(2.0))]
  }

  /**
   * `session({ session, token })`: the session with its user extended by
   * `id` from the token and `isSuperAdmin`, true exactly when the token's
   * `roleId` is 2.
   */
  function SessionCallback(session: Obj, token: Obj): (r: Obj)
    ensures r.Keys == session.Keys + {"user"}
    ensures forall k :: k in session && k != "user" ==> r[k] == session[k]
    ensures r["user"].JObj?
    ensures r["user"].fields.Keys == Spread(Get(session, "user")).Keys + {"id", "isSuperAdmin"}
    ensures r["user"].fields["id"] == Get(token, "id")
    ensures r["user"].fields["isSuperAdmin"] == JBool(true) <==> Get(token, "roleId") == JNum(2.0)
    ensures forall k :: k in Spread(Get(session, "user")) && k != "id" && k != "isSuperAdmin" ==>
              r["user"].fields[k] == Spread(Get(session, "user"))[k]
  {
    session + map["user" := JObj(SessionUser(session, token))]
  }

  /** The `session` callback extended to copy the token's `roleId` into the session user as well. */
  function SessionCallbackWithRole(session: Obj, token: Obj): (r: Obj)
    ensures r.Keys == session.Keys + {"user"}
    ensures forall k :: k in session && k != "user" ==> r[k] == session[k]
    ensures r["user"].JObj?
    ensures r["user"].fields.Keys == Spread(Get(session, "user")).Keys + {"id", "isSuperAdmin", "roleId"}
    ensures r["user"].fields["roleId"] == Get(token, "roleId")
    ensures r["user"].fields["id"] == Get(token, "id")
    ensures r["user"].fields["isSuperAdmin"] == JBool(true) <==> Get(token, "roleId") == JNum(2.0)
    ensures forall k :: k in Spread(Get(session, "user")) && k !in {"id", "isSuperAdmin", "roleId"} ==>
              r["user"].fields[k] == Spread(Get(session, "user"))[k]
  {
    session + map["user" := JObj(SessionUser(session, token) + map["roleId" := Get(token, "roleId")])]
  }
}
