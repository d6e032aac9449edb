/**
 * The procedure builders of `src/server/api/trpc.ts`: the error formatter,
 * the public procedure and the two role-checking middlewares.
 */
module Trpc {
  import opened Wrappers
  import opened JsValue

  /** The tRPC error codes the core raises. An exception that is not a `TRPCError` surfaces as `InternalServerError`. */
  datatype ErrorCode = Unauthorized | Conflict | BadRequest | InternalServerError

  /** A request context: the NextAuth session (`null` when signed out) and the rest (database handle, headers). */
  datatype Context = Context(session: Json, rest: Obj)

  /** What a middleware does: call `next` with a context, or throw. */
  datatype Outcome = Next(ctx: Context) | Throw(code: ErrorCode)

  /** The session's user carries the given role: `session.user.roleId === role`. */
  predicate HasRole(session: Json, role: real)
  {
    && session.JObj?
    && "user" in session.fields
    && session.fields["user"].JObj?
    && Get(session.fields["user"].fields, "roleId") == JNum(role)
  }

  /**
   * The shared body of `enforceAdminIsAuthed` and `enforceSuperAdminIsAuthed`:
   * reject a missing session or a `roleId` other than `role`, otherwise call
   * `next` with `{ ...session, user: session.user }`.
   */
  function EnforceRole(ctx: Context, role: real): (r: Outcome)
    ensures r.Next? <==> HasRole(ctx.session, role)
    ensures r.Next? ==> r.ctx == ctx
    ensures !Truthy(ctx.session) ==> r == Throw(Unauthorized)
    ensures r.Throw? && r.code != Unauthorized ==>
              Truthy(ctx.session) && Member(ctx.session, "user") in {Ok(JUndefined), Ok(JNull)}
  {
    if !Truthy(ctx.session) then Throw(Unauthorized)
    else match Member(ctx.session, "user")
      case Err(_) => Throw(InternalServerError)
      case Ok(user) =>
        match Member(user, "roleId")
        case Err(_) => Throw(InternalServerError)
        case Ok(roleId) =>
          if roleId != JNum(role) then Throw(Unauthorized)
          else
            var s := ctx.session.fields;
            assert s + map["user" := user] == s;
            Next(Context(JObj(s + map["user" := user]), ctx.rest))
  }

  /** `enforceAdminIsAuthed`: passes exactly a session whose user has `roleId` 1, unchanged. */
  function EnforceAdminIsAuthed(ctx: Context): (r: Outcome)
    ensures r.Next? <==> HasRole(ctx.session, 1.0)
    ensures r.Next? ==> r.ctx == ctx
    ensures !Truthy(ctx.session) ==> r == Throw(Unauthorized)
  {
    EnforceRole(ctx, 1.0)
  }

  /** `enforceSuperAdminIsAuthed`: passes exactly a session whose user has `roleId` 2, unchanged. */
  function EnforceSuperAdminIsAuthed(ctx: Context): (r: Outcome)
    ensures r.Next? <==> HasRole(ctx.session, 2.0)
    ensures r.Next? ==> r.ctx == ctx
    ensures !Truthy(ctx.session) ==> r == Throw(Unauthorized)
  {
    EnforceRole(ctx, 2.0)
  }

  /** `publicProcedure`: no middleware, every context reaches the handler as it is. */
  function PublicProcedure(ctx: Context): (r: Outcome)
    ensures r.Next? && r.ctx == ctx
  {
    Next(ctx)
  }

  /** The two tiers are disjoint: no context passes both, so a super-admin is not an admin. */
  lemma GatesDisjoint(ctx: Context)
    ensures !(EnforceAdminIsAuthed(ctx).Next? && EnforceSuperAdminIsAuthed(ctx).Next?)
    ensures HasRole(ctx.session, 2.0) ==> EnforceAdminIsAuthed(ctx) == Throw(Unauthorized)
    ensures HasRole(ctx.session, 1.0) ==> EnforceSuperAdminIsAuthed(ctx) == Throw(Unauthorized)
  {
  }

  /** The `cause` of a tRPC error: a zod validation error (with its `flatten()`), or something else. */
  datatype Cause = ZodCause(flattened: Obj) | OtherCause

  /**
   * `errorFormatter`: the shape with its `data` copied and `zodError` set to
   * the flattened zod error, or `null` when the cause is not a zod error.
   */
  function ErrorFormatter(shape: Obj, cause: Cause): (r: Obj)
    ensures r.Keys == shape.Keys + {"data"}
    ensures forall k :: k in shape && k != "data" ==> r[k] == shape[k]
    ensures r["data"].JObj?
    ensures r["data"].fields.Keys == Spread(Get(shape, "data")).Keys + {"zodError"}
    ensures forall k :: k in Spread(Get(shape, "data")) && k != "zodError" ==>
              r["data"].fields[k] == Spread(Get(shape, "data"))[k]
    ensures r["data"].fields["zodError"] != JNull <==> cause.ZodCause?
    ensures cause.ZodCause? ==> r["data"].fields["zodError"] == JObj(cause.flattened)
  {
    var zodError := if cause.ZodCause? then JObj(cause.flattened) else JNull;
    shape + map["data" := JObj(Spread(Get(shape, "data")) + map["zodError" := zodError])]
  }
}
