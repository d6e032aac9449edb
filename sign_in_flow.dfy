/**
 * Properties that span several files: a registration followed by a
 * credentials sign-in, and a signed-in session meeting the role middlewares.
 */
module SignInFlow {
  import opened Wrappers
  import opened JsValue
  import opened Schema
  import opened Db
  import opened Trpc
  import opened Auth
  import opened UserRouter

  /**
   * A password of four or five UTF-16 code units ("abcd", or two emoji) is
   * accepted by `register` and stored,
   * but `authorize` refuses it against any table, so that account can never
   * sign in with its credentials.
   */
  lemma ShortPasswordRegistersButCannotSignIn(rows: seq<User>, email: string, password: string, isEmail: string -> bool,
                                             hash: string -> string, verify: Verifier,
                                             newId: string, defaultRoleId: Option<int>)
    requires isEmail(email) && 4 <= JsLength(password) < 6
    requires forall i :: 0 <= i < |rows| ==> rows[i].email != email && rows[i].id != newId
    ensures var input := CredentialsToJson(Credentials(email, password));
      var out := RegisterSpec(rows, input, isEmail, hash, newId, defaultRoleId);
      && out.0 == Ok("Account created")
      && out.1 == rows + [User(newId, email, hash(password), defaultRoleId)]
      && Authorize(input, out.1, isEmail, verify) == Ok(None)
  {
    var input := CredentialsToJson(Credentials(email, password));
    var c := ParseRegisterInput(input, isEmail).value;
    assert c == Credentials(email, password);
  }

  /**
   * With `schema.register` as the input schema, a new account signs in with
   * the credentials it registered exactly when `verify` (argon2) accepts
   * the hash `hash` (bcrypt) made of the password, and `authorize` ends in
   * an exception exactly when `verify` throws on that hash.
   */
  lemma CorrectedRegisterThenSignIn(rows: seq<User>, c: Credentials, isEmail: string -> bool,
                                    hash: string -> string, verify: Verifier,
                                    newId: string, defaultRoleId: Option<int>)
    requires EmailsUnique(rows)
    requires RegisterSpecCorrected(rows, CredentialsToJson(c), isEmail, hash, newId, defaultRoleId).0.Ok?
    ensures var after := RegisterSpecCorrected(rows, CredentialsToJson(c), isEmail, hash, newId, defaultRoleId).1;
      var u := User(newId, c.email, hash(c.password), defaultRoleId);
      Authorize(CredentialsToJson(c), after, isEmail, verify) == CheckPassword(u, c.password, verify)
    ensures Authorize(CredentialsToJson(c), RegisterSpecCorrected(rows, CredentialsToJson(c), isEmail, hash, newId, defaultRoleId).1,
                      isEmail, verify).Ok?
            <==> verify(hash(c.password), c.password).Ok?
  {
    var input := CredentialsToJson(c);
    var parsed := ParseCredentials(input, isEmail);
    assert parsed == Some(c);
    var after := RegisterSpecCorrected(rows, input, isEmail, hash, newId, defaultRoleId).1;
    var u := User(newId, c.email, hash(c.password), defaultRoleId);
    assert after == rows + [u];
    AuthorizeStoredUser(c, after, |rows|, isEmail, verify);
  }

  /**
   * The session the `session` callback builds never passes either role
   * middleware when the incoming session user has no `roleId` (NextAuth's
   * default user has only name, email and image): the callback does not
   * copy `roleId` from the token.
   */
  lemma CallbackSessionFailsBothGates(session: Obj, token: Obj, rest: Obj)
    requires "roleId" !in Spread(Get(session, "user"))
    ensures EnforceAdminIsAuthed(Context(JObj(SessionCallback(session, token)), rest)) == Throw(Unauthorized)
    ensures EnforceSuperAdminIsAuthed(Context(JObj(SessionCallback(session, token)), rest)) == Throw(Unauthorized)
  {
    var user := SessionCallback(session, token)["user"].fields;
    assert "roleId" !in user;
  }

  /** A concrete signed-in administrator: token `roleId` 1, yet the admin middleware answers UNAUTHORIZED. */
  lemma AdminTokenRejectedExample()
    ensures var session := map["user" := JObj(map["name" := JStr("Ada"), "email" := JStr("ada@example.com")]),
                               "expires" := JStr("2030-01-01")];
      var token := map["id" := JStr("u1"), "roleId" := JNum(1.0)];
      EnforceAdminIsAuthed(Context(JObj(SessionCallback(session, token)), map[])) == Throw(Unauthorized)
  {
    var session := map["user" := JObj(map["name" := JStr("Ada"), "email" := JStr("ada@example.com")]),
                       "expires" := JStr("2030-01-01")];
    CallbackSessionFailsBothGates(session, map["id" := JStr("u1"), "roleId" := JNum(1.0)], map[]);
  }

  /**
   * With the role copied, a session passes the admin middleware exactly when
   * the token's `roleId` is 1, and the super-admin middleware exactly when
   * it is 2, which is also when `isSuperAdmin` is true.
   */
  lemma CorrectedSessionFollowsRole(session: Obj, token: Obj, rest: Obj)
    ensures EnforceAdminIsAuthed(Context(JObj(SessionCallbackWithRole(session, token)), rest)).Next?
            <==> Get(token, "roleId") == JNum(1.0)
    ensures EnforceSuperAdminIsAuthed(Context(JObj(SessionCallbackWithRole(session, token)), rest)).Next?
            <==> SessionCallbackWithRole(session, token)["user"].fields["isSuperAdmin"] == JBool(true)
  {
    var s := SessionCallbackWithRole(session, token);
    assert "user" in s;
    assert Get(s["user"].fields, "roleId") == Get(token, "roleId");
  }

  /**
   * From sign-in to middleware, with the role-copying session callback: a
   * user reaches the admin tier iff its row has role 1, the super-admin tier
   * iff role 2. (With the callback as written no user reaches either, as
   * `CallbackSessionFailsBothGates` shows.)
   */
  lemma SignedInUserTier(session: Obj, token: Obj, u: User, rest: Obj)
    ensures var t := Jwt(token, JObj(UserToJson(u)));
      var ctx := Context(JObj(SessionCallbackWithRole(session, t)), rest);
      && (EnforceAdminIsAuthed(ctx).Next? <==> u.roleId == Some(1))
      && (EnforceSuperAdminIsAuthed(ctx).Next? <==> u.roleId == Some(2))
  {
    var t := Jwt(token, JObj(UserToJson(u)));
    SignInTokenCarriesRow(token, u);
    CorrectedSessionFollowsRole(session, t, rest);
    if u.roleId.Some? {
      assert (JNum(u.roleId.value as real) == JNum(1.0)) <==> u.roleId.value == 1;
      assert (JNum(u.roleId.value as real) == JNum(2.0)) <==> u.roleId.value == 2;
    }
  }
}
