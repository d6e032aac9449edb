/**
 * The `user` table as the source reaches it through Prisma: an ordered list
 * of rows, `findFirst`/`findUnique` as searches from the front, and
 * `create`, which enforces the unique `id` and `email` columns.
 */
module Db {
  import opened Wrappers
  import opened JsValue

  /** A user row: id, email, password hash and role (`null` when unset). */
  datatype User = User(id: string, email: string, password: string, roleId: Option<int>)

  /** The row as a JavaScript object, the form in which NextAuth receives it. */
  function UserToJson(u: User): Obj
  {
    map["id" := JStr(u.id), "email" := JStr(u.email), "password" := JStr(u.password),
        "roleId" := if u.roleId.Some? then JNum(u.roleId.value as real) else JNull]
  }

  /** The unique constraint on `email`. */
  predicate EmailsUnique(rows: seq<User>)
  {
    forall i, j :: 0 <= i < j < |rows| ==> rows[i].email != rows[j].email
  }

  /** The primary key constraint on `id`. */
  predicate IdsUnique(rows: seq<User>)
  {
    forall i, j :: 0 <= i < j < |rows| ==> rows[i].id != rows[j].id
  }

  /** The two unique columns a `findFirst`/`findUnique` filter names here. */
  datatype Column = EmailColumn | IdColumn

  function ColumnValue(u: User, c: Column): string
  {
    match c
    case EmailColumn => u.email
    case IdColumn => u.id
  }

  /** `findFirst({ where: { <column>: key } })`: the first row holding `key` in that column. */
  function FindFirst(rows: seq<User>, c: Column, key: string): (r: Option<User>)
    ensures r.None? <==> forall i :: 0 <= i < |rows| ==> ColumnValue(rows[i], c) != key
    ensures r.Some? ==> r.value in rows && ColumnValue(r.value, c) == key
    ensures r.Some? ==> exists i :: 0 <= i < |rows| && rows[i] == r.value
                                    && forall j :: 0 <= j < i ==> ColumnValue(rows[j], c) != key
    decreases |rows|
  {
    if rows == [] then None
    else if ColumnValue(rows[0], c) == key then Some(rows[0])
    else
      var rest := FindFirst(rows[1..], c, key);
      assert forall i :: 1 <= i < |rows| ==> rows[i] == rows[1..][i - 1];
      rest
  }

  /** Under the unique constraint, the row found by email is the one row holding it. */
  lemma {:induction false} FindByUniqueEmail(rows: seq<User>, i: nat)
    requires EmailsUnique(rows) && i < |rows|
    ensures FindFirst(rows, EmailColumn, rows[i].email) == Some(rows[i])
    decreases |rows|
  {
    if i > 0 {
      assert rows[0].email != rows[i].email;
      assert rows[1..][i - 1] == rows[i];
      FindByUniqueEmail(rows[1..], i - 1);
    }
  }

  /** A row added after the others is found by its email when no earlier row had it. */
  lemma FindNewEmail(rows: seq<User>, u: User)
    requires forall i :: 0 <= i < |rows| ==> rows[i].email != u.email
    ensures FindFirst(rows + [u], EmailColumn, u.email) == Some(u)
  {
    var all := rows + [u];
    assert all[|rows|] == u;
    assert forall i :: 0 <= i < |rows| ==> all[i].email != u.email;
  }

  datatype DbError = UniqueConstraintFailed

  /** The `user` table. */
  class UserTable {
    var rows: seq<User>
    /** The `roleId` a new row receives (the column default). */
    const defaultRoleId: Option<int>

    ghost predicate Valid()
      reads this
    {
      EmailsUnique(rows) && IdsUnique(rows)
    }

    constructor (defaultRoleId: Option<int>)
      ensures Valid() && rows == [] && this.defaultRoleId == defaultRoleId
    {
      rows := [];
      this.defaultRoleId := defaultRoleId;
    }

    /** `findUnique({ where: { email } })`. */
    function FindUniqueByEmail(email: string): (r: Option<User>)
      reads this
      ensures r.None? <==> forall i :: 0 <= i < |rows| ==> rows[i].email != email
      ensures r.Some? ==> r.value in rows && r.value.email == email
    {
      FindFirst(rows, EmailColumn, email)
    }

    /** `create({ data: { id, email, password } })`: appends the row, or fails on a taken id or email. */
    method Create(id: string, email: string, password: string) returns (r: Result<User, DbError>)
      requires Valid()
      modifies this
      ensures Valid()
      ensures r.Ok? <==> forall i :: 0 <= i < |old(rows)| ==> old(rows)[i].email != email && old(rows)[i].id != id
      ensures r.Ok? ==> r.value == User(id, email, password, defaultRoleId) && rows == old(rows) + [r.value]
      ensures r.Err? ==> rows == old(rows)
    {
      if FindFirst(rows, EmailColumn, email).Some? || FindFirst(rows, IdColumn, id).Some? {
        return Err(UniqueConstraintFailed);
      }
      var u := User(id, email, password, defaultRoleId);
      rows := rows + [u];
      return Ok(u);
    }
  }
}
