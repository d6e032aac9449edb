/**
 * The user router of `src/server/api/routers/user.ts`: `register`, which
 * reads and then inserts into the user table, and `detail`, which reads the
 * signed-in user's row. `hash` stands for bcrypt's `hash(password, 10)`.
 */
module UserRouter {
  import opened Wrappers
  import opened JsValue
  import opened Schema
  import opened Db
  import opened Trpc

  /** The router's own input schema for `register`: an email and a password of at least four characters. */
  function ParseRegisterInput(v: Json, isEmail: string -> bool): (r: Option<Credentials>)
    ensures r.Some? <==> v.JObj? && Get(v.fields, "email").JStr? && isEmail(Get(v.fields, "email").s)
                         && Get(v.fields, "password").JStr? && JsLength(Get(v.fields, "password").s) >= 4
    ensures r.Some? ==> Get(v.fields, "email") == JStr(r.value.email) && Get(v.fields, "password") == JStr(r.value.password)
  {
    if !v.JObj? then None
    else
      var email := Get(v.fields, "email");
      var password := Get(v.fields, "password");
      if email.JStr? && isEmail(email.s) && password.JStr? && JsLength(password.s) >= 4
      then Some(Credentials(email.s, password.s)) else None
  }

  /** What `register` answers and what the table holds afterwards, given what its input schema made of the input. */
  function RegisterWith(rows: seq<User>, parsed: Option<Credentials>, hash: string -> string,
                        newId: string, defaultRoleId: Option<int>): (out: (Result<string, ErrorCode>, seq<User>))
    ensures out.0.Err? ==> out.1 == rows
    ensures out.0 == Err(BadRequest) <==> parsed.None?
    ensures out.0 == Err(Conflict) <==>
              (parsed.Some? && !(forall i :: 0 <= i < |rows| ==> rows[i].email != parsed.value.email))
    ensures out.0.Ok? <==> parsed.Some? && forall i :: 0 <= i < |rows| ==> rows[i].email != parsed.value.email && rows[i].id != newId
    ensures out.0.Ok? ==> out.0.value == "Account created"
    ensures out.0.Ok? ==> out.1 == rows + [User(newId, parsed.value.email, hash(parsed.value.password), defaultRoleId)]
    ensures EmailsUnique(rows) ==> EmailsUnique(out.1)
    ensures IdsUnique(rows) ==> IdsUnique(out.1)
  {
    match parsed
    case None => (Err(BadRequest), rows)
    case Some(c) =>
      if FindFirst(rows, EmailColumn, c.email).Some? then (Err(Conflict), rows)
      else if FindFirst(rows, IdColumn, newId).Some? then (Err(InternalServerError), rows)
      else (Ok("Account created"), rows + [User(newId, c.email, hash(c.password), defaultRoleId)])
  }

  /** `register` as written: the router's inline schema, passwords of four characters and more. */
  function RegisterSpec(rows: seq<User>, input: Json, isEmail: string -> bool, hash: string -> string,
                        newId: string, defaultRoleId: Option<int>): (out: (Result<string, ErrorCode>, seq<User>))
    ensures out.0.Ok? ==> input.JObj? && Get(input.fields, "password").JStr? && JsLength(Get(input.fields, "password").s) >= 4
  {
    RegisterWith(rows, ParseRegisterInput(input, isEmail), hash, newId, defaultRoleId)
  }

  /** `register` validating its input with `schema.register`, the schema the login also uses. */
  function RegisterSpecCorrected(rows: seq<User>, input: Json, isEmail: string -> bool, hash: string -> string,
                                 newId: string, defaultRoleId: Option<int>): (out: (Result<string, ErrorCode>, seq<User>))
    ensures out.0.Ok? ==> ParseCredentials(input, isEmail).Some?
    ensures out.0.Ok? ==> input.JObj? && Get(input.fields, "password").JStr? && JsLength(Get(input.fields, "password").s) >= 6
  {
    RegisterWith(rows, ParseCredentials(input, isEmail), hash, newId, defaultRoleId)
  }

  /**
   * `register`: refuse an input the schema rejects, raise CONFLICT for a
   * taken email, otherwise store the email with the hashed password.
   */
  method Register(db: UserTable, input: Json, isEmail: string -> bool, hash: string -> string, newId: string)
    returns (r: Result<string, ErrorCode>)
    requires db.Valid()
    modifies db
    ensures db.Valid()
    ensures (r, db.rows) == RegisterSpec(old(db.rows), input, isEmail, hash, newId, db.defaultRoleId)
  {
    var parsed := ParseRegisterInput(input, isEmail);
    if parsed.None? {
      return Err(BadRequest);
    }
    var data := db.FindUniqueByEmail(parsed.value.email);
    if data.Some? {
      return Err(Conflict);
    }
    var hashedPassword := hash(parsed.value.password);
    var created := db.Create(newId, parsed.value.email, hashedPassword);
    if created.Err? {
      return Err(InternalServerError);
    }
    return Ok("Account created");
  }

  /** A successful registration adds exactly one row, and every earlier row is kept as it was. */
  lemma RegisterAddsOneUser(rows: seq<User>, input: Json, isEmail: string -> bool, hash: string -> string,
                            newId: string, defaultRoleId: Option<int>)
    requires RegisterSpec(rows, input, isEmail, hash, newId, defaultRoleId).0.Ok?
    ensures var after := RegisterSpec(rows, input, isEmail, hash, newId, defaultRoleId).1;
      var c := ParseRegisterInput(input, isEmail).value;
      && |after| == |rows| + 1
      && after[..|rows|] == rows
      && after[|rows|].email == c.email && after[|rows|].password == hash(c.password)
      && FindFirst(after, EmailColumn, c.email) == Some(after[|rows|])
  {
    var after := RegisterSpec(rows, input, isEmail, hash, newId, defaultRoleId).1;
    FindNewEmail(rows, after[|rows|]);
  }

  /**
   * `detail`: the first row whose id is the session user's id. When the
   * session carries no id, Prisma drops the `undefined` condition and some
   * row is returned; with the table's order standing for the database's
   * unspecified one, the model takes the first.
   */
  function Detail(db: UserTable, sessionUserId: Option<string>): (r: Option<User>)
    reads db
    ensures sessionUserId.Some? ==> (r.None? <==> forall i :: 0 <= i < |db.rows| ==> db.rows[i].id != sessionUserId.value)
    ensures sessionUserId.Some? && r.Some? ==> r.value in db.rows && r.value.id == sessionUserId.value
    ensures sessionUserId.None? ==> r == (if db.rows == [] then None else Some(db.rows[0]))
  {
    match sessionUserId
    case None => if db.rows == [] then None else Some(db.rows[0])
    case Some(id) => FindFirst(db.rows, IdColumn, id)
  }
}
