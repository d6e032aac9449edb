/**
 * The input validators of `src/server/api/schema/schema.ts`. Each zod schema
 * is a parser from a JavaScript value to a typed record: `None` when zod's
 * `safeParse` fails, the parsed data otherwise. `isEmail` stands for zod's
 * email-format check.
 */
module Schema {
  import opened Wrappers
  import opened JsValue

  // ---------------------------------------------------------------------
  // Enumerations

  datatype EmailType = Verify | ForgotPassword

  function EmailTypeToJson(e: EmailType): Json
  {
    match e
    case Verify => JStr("VERIFY")
    case ForgotPassword => JStr("FORGOT_PASSWORD")
  }

  /** `schema.email`: exactly "VERIFY" or "FORGOT_PASSWORD". */
  function ParseEmailType(v: Json): (r: Option<EmailType>)
    ensures r.Some? <==> v == JStr("VERIFY") || v == JStr("FORGOT_PASSWORD")
    ensures r.Some? ==> EmailTypeToJson(r.value) == v
  {
    if v == JStr("VERIFY") then Some(Verify)
    else if v == JStr("FORGOT_PASSWORD") then Some(ForgotPassword)
    else None
  }

  datatype Order = Asc | Desc

  function OrderToJson(o: Option<Order>): Json
  {
    match o
    case None => JUndefined
    case Some(Asc) => JStr("asc")
    case Some(Desc) => JStr("desc")
  }

  /** `schema.order`: absent, "asc" or "desc". */
  function ParseOrder(v: Json): (r: Option<Option<Order>>)
    ensures r.Some? <==> v == JUndefined || v == JStr("asc") || v == JStr("desc")
    ensures r == Some(None) <==> v == JUndefined
    ensures r.Some? ==> OrderToJson(r.value) == v
  {
    if v == JUndefined then Some(None)
    else if v == JStr("asc") then Some(Some(Asc))
    else if v == JStr("desc") then Some(Some(Desc))
    else None
  }

  // ---------------------------------------------------------------------
  // Pagination

  datatype Pagination = Pagination(page: real, limit: Option<real>)

  predicate ValidPagination(p: Pagination)
  {
    p.page >= 1.0 && (p.limit.Some? ==> p.limit.value >= 1.0)
  }

  function PaginationToJson(p: Pagination): Json
  {
    JObj(map["page" := JNum(p.page)] + if p.limit.Some? then map["limit" := JNum(p.limit.value)] else map[])
  }

  /** `schema.pagination`: a number `page` of at least 1, and `limit` absent or a number of at least 1. */
  function ParsePagination(v: Json): (r: Option<Pagination>)
    ensures r.Some? <==> v.JObj? && Get(v.fields, "page").JNum? && Get(v.fields, "page").n >= 1.0
                         && (Get(v.fields, "limit") == JUndefined
                             || (Get(v.fields, "limit").JNum? && Get(v.fields, "limit").n >= 1.0))
    ensures r.Some? ==> ValidPagination(r.value)
    ensures r.Some? ==> v.JObj? && Get(v.fields, "page") == JNum(r.value.page)
    ensures r.Some? ==> Get(v.fields, "limit") == (if r.value.limit.Some? then JNum(r.value.limit.value) else JUndefined)
  {
    if !v.JObj? then None
    else
      var page := Get(v.fields, "page");
      var limit := Get(v.fields, "limit");
      if !page.JNum? || page.n < 1.0 then None
      else if limit == JUndefined then Some(Pagination(page.n, None))
      else if limit.JNum? && limit.n >= 1.0 then Some(Pagination(page.n, Some(limit.n)))
      else None
  }

  /** Every valid pagination survives being written out and parsed again. */
  lemma PaginationRoundTrip(p: Pagination)
    requires ValidPagination(p)
    ensures ParsePagination(PaginationToJson(p)) == Some(p)
  {
  }

  /** A page below 1, or a limit present and below 1, is refused. */
  lemma PaginationRejectsBelowOne(page: real, limit: real)
    requires page < 1.0 || limit < 1.0
    ensures ParsePagination(JObj(map["page" := JNum(page), "limit" := JNum(limit)])).None?
  {
  }

  // ---------------------------------------------------------------------
  // Credentials

  /** `schema.password`: a string of at least six characters. */
  function ParsePassword(v: Json): (r: Option<string>)
    ensures r.Some? <==> v.JStr? && JsLength(v.s) >= 6
    ensures r.Some? ==> v == JStr(r.value)
  {
    if v.JStr? && JsLength(v.s) >= 6 then Some(v.s) else None
  }

  datatype Credentials = Credentials(email: string, password: string)

  function CredentialsToJson(c: Credentials): Json
  {
    JObj(map["email" := JStr(c.email), "password" := JStr(c.password)])
  }

  /**
   * `schema.login` and `schema.register`, which declare the same object: an
   * `email` string in email format and a `password` accepted by `schema.password`.
   */
  function ParseCredentials(v: Json, isEmail: string -> bool): (r: Option<Credentials>)
    ensures r.Some? <==> v.JObj? && Get(v.fields, "email").JStr? && isEmail(Get(v.fields, "email").s)
                         && ParsePassword(Get(v.fields, "password")).Some?
    ensures r.Some? ==> Get(v.fields, "email") == JStr(r.value.email) && Get(v.fields, "password") == JStr(r.value.password)
    ensures r.Some? ==> JsLength(r.value.password) >= 6 && isEmail(r.value.email)
  {
    if !v.JObj? then None
    else
      var email := Get(v.fields, "email");
      if !email.JStr? || !isEmail(email.s) then None
      else match ParsePassword(Get(v.fields, "password"))
        case None => None
        case Some(p) => Some(Credentials(email.s, p))
  }

  /** Credentials with a well-formed email and a six-character password are accepted as written. */
  lemma CredentialsRoundTrip(c: Credentials, isEmail: string -> bool)
    requires isEmail(c.email) && JsLength(c.password) >= 6
    ensures ParseCredentials(CredentialsToJson(c), isEmail) == Some(c)
  {
  }

  // ---------------------------------------------------------------------
  // Users and positions

  /** A `nullish` field: absent, `null`, or a string. */
  datatype Nullish = Absent | Null | Present(s: string)

  function NullishToJson(n: Nullish): Json
  {
    match n
    case Absent => JUndefined
    case Null => JNull
    case Present(s) => JStr(s)
  }

  function ParseNullishString(v: Json): (r: Option<Nullish>)
    ensures r.Some? <==> v == JUndefined || v == JNull || v.JStr?
    ensures r.Some? ==> NullishToJson(r.value) == v
  {
    match v
    case JUndefined => Some(Absent)
    case JNull => Some(Null)
    case JStr(s) => Some(Present(s))
    case _ => None
  }

  datatype UserCreate = UserCreate(name: string, email: string, positionId: Nullish, graduatedDate: string)

  predicate ValidUserCreate(u: UserCreate, isEmail: string -> bool)
  {
    JsLength(u.name) >= 4 && isEmail(u.email)
  }

  function UserCreateToJson(u: UserCreate): Json
  {
    JObj(map["name" := JStr(u.name), "email" := JStr(u.email), "graduatedDate" := JStr(u.graduatedDate)]
         + if u.positionId.Absent? then map[] else map["positionId" := NullishToJson(u.positionId)])
  }

  /**
   * `schema.user.create`: a name of at least four characters, an email, a
   * `positionId` that is a string, `null` or absent, and a string `graduatedDate`.
   */
  function ParseUserCreate(v: Json, isEmail: string -> bool): (r: Option<UserCreate>)
    ensures r.Some? ==> ValidUserCreate(r.value, isEmail)
    ensures r.Some? ==> v.JObj? && Get(v.fields, "name") == JStr(r.value.name) && Get(v.fields, "email") == JStr(r.value.email)
                        && Get(v.fields, "positionId") == NullishToJson(r.value.positionId)
                        && Get(v.fields, "graduatedDate") == JStr(r.value.graduatedDate)
    ensures r.None? <==> !v.JObj? || !Get(v.fields, "name").JStr? || JsLength(Get(v.fields, "name").s) < 4
                         || !Get(v.fields, "email").JStr? || !isEmail(Get(v.fields, "email").s)
                         || ParseNullishString(Get(v.fields, "positionId")).None?
                         || !Get(v.fields, "graduatedDate").JStr?
  {
    if !v.JObj? then None
    else
      var name := Get(v.fields, "name");
      var email := Get(v.fields, "email");
      var graduated := Get(v.fields, "graduatedDate");
      if !name.JStr? || JsLength(name.s) < 4 || !email.JStr? || !isEmail(email.s) || !graduated.JStr? then None
      else match ParseNullishString(Get(v.fields, "positionId"))
        case None => None
        case Some(p) => Some(UserCreate(name.s, email.s, p, graduated.s))
  }

  lemma UserCreateRoundTrip(u: UserCreate, isEmail: string -> bool)
    requires ValidUserCreate(u, isEmail)
    ensures ParseUserCreate(UserCreateToJson(u), isEmail) == Some(u)
  {
    var m := UserCreateToJson(u).fields;
    assert Get(m, "positionId") == NullishToJson(u.positionId);
  }

  datatype PositionCreate = PositionCreate(name: string)

  /** `schema.position.create`: a non-empty name. */
  function ParsePositionCreate(v: Json): (r: Option<PositionCreate>)
    ensures r.Some? <==> v.JObj? && Get(v.fields, "name").JStr? && JsLength(Get(v.fields, "name").s) >= 1
    ensures r.Some? ==> Get(v.fields, "name") == JStr(r.value.name) && r.value.name != ""
  {
    if v.JObj? && Get(v.fields, "name").JStr? && JsLength(Get(v.fields, "name").s) >= 1
    then Some(PositionCreate(Get(v.fields, "name").s)) else None
  }

  /** `schema.user.detail` and `schema.position.detail`: a string `id`. */
  function ParseDetail(v: Json): (r: Option<string>)
    ensures r.Some? <==> v.JObj? && Get(v.fields, "id").JStr?
    ensures r.Some? ==> Get(v.fields, "id") == JStr(r.value)
  {
    if v.JObj? && Get(v.fields, "id").JStr? then Some(Get(v.fields, "id").s) else None
  }

  datatype Update<T> = Update(id: string, body: T)

  /** `schema.user.update`: the `detail` id and a `body` that `schema.user.create` accepts. */
  function ParseUserUpdate(v: Json, isEmail: string -> bool): (r: Option<Update<UserCreate>>)
    ensures r.Some? <==> ParseDetail(v).Some? && ParseUserCreate(Get(v.fields, "body"), isEmail).Some?
    ensures r.Some? ==> r.value.id == ParseDetail(v).value && ValidUserCreate(r.value.body, isEmail)
  {
    match ParseDetail(v)
    case None => None
    case Some(id) =>
      match ParseUserCreate(Get(v.fields, "body"), isEmail)
      case None => None
      case Some(body) => Some(Update(id, body))
  }

  /** `schema.position.update`: the `detail` id and a `body` that `schema.position.create` accepts. */
  function ParsePositionUpdate(v: Json): (r: Option<Update<PositionCreate>>)
    ensures r.Some? <==> ParseDetail(v).Some? && ParsePositionCreate(Get(v.fields, "body")).Some?
    ensures r.Some? ==> r.value.id == ParseDetail(v).value && r.value.body.name != ""
  {
    match ParseDetail(v)
    case None => None
    case Some(id) =>
      match ParsePositionCreate(Get(v.fields, "body"))
      case None => None
      case Some(body) => Some(Update(id, body))
  }
}
