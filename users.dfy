/**
 * The user routes that touch the user table: the admin listing, the admin
 * dashboard patch, the self-service patch, approval and denial.
 *
 * A user row is a map from column name to value, the way the routes see it:
 * the request body is copied into it key by key, and `id` is an ordinary
 * column that the lookups match on.
 */
module Users {
  import opened Common

  /** A JSON value as stored in a column. */
  datatype Value = Null | Bool(b: bool) | Num(n: int) | Str(s: string)

  /** A property of a request body: JavaScript's `undefined`, or a value. */
  datatype JsValue = Undefined | Defined(value: Value)

  type Row = map<string, Value>
  type Body = map<string, JsValue>

  datatype UpdateResult = Updated(row: Row) | BadRequest | NotFound | ServerError

  const IdColumn: string := "id"
  const FirstNameColumn: string := "firstName"
  const AppointmentsKey: string := "appointments"
  const IsConfirmedColumn: string := "isConfirmed"
  const PasswordHashColumn: string := "passwordHash"

  /** JavaScript truthiness (`!x` is false). */
  predicate Truthy(v: JsValue)
  {
    match v
    case Undefined => false
    case Defined(Null) => false
    case Defined(Bool(b)) => b
    case Defined(Num(n)) => n != 0
    case Defined(Str(s)) => s != ""
  }

  predicate HasId(row: Row, id: int)
  {
    IdColumn in row && row[IdColumn] == Num(id)
  }

  /** The position of the first row whose `id` column is `id` (`findUnique`). */
  function IndexOfUser(rows: seq<Row>, id: int): (r: Option<nat>)
    ensures r.Some? ==> r.value < |rows| && HasId(rows[r.value], id)
    ensures r.Some? ==> forall j :: 0 <= j < r.value ==> !HasId(rows[j], id)
    ensures r.None? <==> forall j :: 0 <= j < |rows| ==> !HasId(rows[j], id)
  {
    if rows == [] then None
    else if HasId(rows[0], id) then Some(0)
    else match IndexOfUser(rows[1..], id)
      case None => None
      case Some(k) => Some(k + 1)
  }

  /** The defined properties of `body` other than `excluded`: what reaches the database. */
  function DefinedEntries(body: Body, excluded: string): (patch: map<string, Value>)
    ensures excluded !in patch
    ensures forall k :: k in patch <==> k in body && body[k].Defined? && k != excluded
    ensures forall k :: k in patch ==> body[k] == Defined(patch[k])
  {
    map k | k in body && body[k].Defined? && k != excluded :: body[k].value
  }

  /** A Prisma `update`: the listed columns take the new values, the others keep theirs. */
  function ApplyPatch(row: Row, patch: map<string, Value>): (r: Row)
    ensures r.Keys == row.Keys + patch.Keys
    ensures forall k :: k in patch ==> r[k] == patch[k]
    ensures forall k :: k in row && k !in patch ==> r[k] == row[k]
  {
    row + patch
  }

  /** The row after approval: confirmed, with the new password hash. */
  function Approved(row: Row, passwordHash: string): (r: Row)
    ensures r.Keys == row.Keys + {IsConfirmedColumn, PasswordHashColumn}
    ensures r[IsConfirmedColumn] == Bool(true) && r[PasswordHashColumn] == Str(passwordHash)
    ensures forall k :: k in row && k != IsConfirmedColumn && k != PasswordHashColumn ==> r[k] == row[k]
  {
    ApplyPatch(row, map[IsConfirmedColumn := Bool(true), PasswordHashColumn := Str(passwordHash)])
  }

  lemma ApprovedIdempotent(row: Row, passwordHash: string)
    ensures Approved(Approved(row, passwordHash), passwordHash) == Approved(row, passwordHash)
  {
  }

  /**
   * The loop of `PUT /:id` that copies the body into the update data, skipping
   * `undefined` values and the `appointments` relation.
   */
  method BuildPatch(body: Body) returns (patch: map<string, Value>)
    ensures forall k :: k in patch <==> k in body && body[k].Defined? && k != AppointmentsKey
    ensures forall k :: k in patch ==> body[k] == Defined(patch[k])
    ensures patch == DefinedEntries(body, AppointmentsKey)
  {
    patch := map[];
    var keys := body.Keys;
    while keys != {}
      invariant keys <= body.Keys
      invariant forall k :: k in patch <==> k in body && k !in keys && body[k].Defined? && k != AppointmentsKey
      invariant forall k :: k in patch ==> body[k] == Defined(patch[k])
      decreases keys
    {
      var k :| k in keys;
      if body[k].Defined? && k != AppointmentsKey {
        patch := patch[k := body[k].value];
      }
      keys := keys - {k};
    }
  }

  /** The sort key of `GET /`: the `firstName` column, or "" when it is not a string. */
  function FirstName(row: Row): string
  {
    if FirstNameColumn in row && row[FirstNameColumn].Str? then row[FirstNameColumn].s else ""
  }

  predicate FirstNameLe(a: Row, b: Row)
  {
    LexLe(FirstName(a), FirstName(b))
  }

  lemma FirstNameLeTotalPreorder()
    ensures TotalPreorder(FirstNameLe)
  {
    forall a: Row, b: Row ensures FirstNameLe(a, b) || FirstNameLe(b, a) {
      LexLeTotal(FirstName(a), FirstName(b));
    }
    forall a: Row, b: Row, c: Row | FirstNameLe(a, b) && FirstNameLe(b, c) ensures FirstNameLe(a, c) {
      LexLeTransitive(FirstName(a), FirstName(b), FirstName(c));
    }
  }

  /** `GET /`: every user, ascending by first name. */
  function ListUsers(rows: seq<Row>): seq<Row>
  {
    SortBy(rows, FirstNameLe)
  }

  lemma ListUsersSpec(rows: seq<Row>)
    ensures multiset(ListUsers(rows)) == multiset(rows)
    ensures forall i, j :: 0 <= i < j < |ListUsers(rows)| ==> LexLe(FirstName(ListUsers(rows)[i]), FirstName(ListUsers(rows)[j]))
  {
    FirstNameLeTotalPreorder();
    SortBySorted(rows, FirstNameLe);
  }

  /** The user table. */
  class UserTable {
    var rows: seq<Row>

    constructor (rows: seq<Row>)
      ensures this.rows == rows
    {
      this.rows := rows;
    }

    /**
     * `PUT /dashboard-update`: `id` is split off the body and names the row;
     * the rest of the body is the update. A falsy id is a 400. An id that names
     * no row, or is not a number, makes the update throw (a 500).
     */
    method DashboardUpdate(body: Body) returns (r: UpdateResult)
      modifies this
      ensures r == BadRequest <==> IdColumn !in body || !Truthy(body[IdColumn])
      ensures IdColumn !in body || !Truthy(body[IdColumn]) ==> rows == old(rows)
      ensures r.Updated? ==>
        && IdColumn in body && body[IdColumn].Defined? && body[IdColumn].value.Num?
        && var i := IndexOfUser(old(rows), body[IdColumn].value.n);
        && i.Some?
        && rows == old(rows)[i.value := ApplyPatch(old(rows)[i.value], DefinedEntries(body, IdColumn))]
        && r.row == rows[i.value]
      ensures r.Updated? || r == BadRequest || r == ServerError
      ensures r == ServerError <==>
        IdColumn in body && Truthy(body[IdColumn]) &&
        (!body[IdColumn].value.Num? || IndexOfUser(old(rows), body[IdColumn].value.n).None?)
      ensures !r.Updated? ==> rows == old(rows)
    {
      if IdColumn !in body || !Truthy(body[IdColumn]) {
        return BadRequest;
      }
      var id := body[IdColumn].value;
      if !id.Num? {
        return ServerError;
      }
      var i := IndexOfUser(rows, id.n);
      if i.None? {
        return ServerError;
      }
      var data := DefinedEntries(body, IdColumn);
      rows := rows[i.value := ApplyPatch(rows[i.value], data)];
      r := Updated(rows[i.value]);
    }

    /** `PUT /:id`: 404 for an unknown user, else the built patch is applied to that row only. */
    method Update(id: int, body: Body) returns (r: UpdateResult)
      modifies this
      ensures IndexOfUser(old(rows), id).None? ==> r == NotFound && rows == old(rows)
      ensures IndexOfUser(old(rows), id).Some? ==>
        var i := IndexOfUser(old(rows), id).value;
        && rows == old(rows)[i := ApplyPatch(old(rows)[i], DefinedEntries(body, AppointmentsKey))]
        && r == Updated(rows[i])
    {
      var i := IndexOfUser(rows, id);
      if i.None? {
        return NotFound;
      }
      var patch := BuildPatch(body);
      rows := rows[i.value := ApplyPatch(rows[i.value], patch)];
      r := Updated(rows[i.value]);
    }

    /** `POST /:id/approve`: 404 for an unknown user, else confirmed with a fresh password hash. */
    method Approve(id: int, passwordHash: string) returns (r: UpdateResult)
      modifies this
      ensures IndexOfUser(old(rows), id).None? ==> r == NotFound && rows == old(rows)
      ensures IndexOfUser(old(rows), id).Some? ==>
        var i := IndexOfUser(old(rows), id).value;
        && rows == old(rows)[i := Approved(old(rows)[i], passwordHash)]
        && r == Updated(rows[i])
    {
      var i := IndexOfUser(rows, id);
      if i.None? {
        return NotFound;
      }
      rows := rows[i.value := Approved(rows[i.value], passwordHash)];
      r := Updated(rows[i.value]);
    }

    /** `DELETE /:id/deny`: removes that user; deleting an unknown id throws (a 500) and changes nothing. */
    method Deny(id: int) returns (deleted: bool)
      modifies this
      ensures deleted <==> IndexOfUser(old(rows), id).Some?
      ensures !deleted ==> rows == old(rows)
      ensures deleted ==>
        var i := IndexOfUser(old(rows), id).value;
        rows == old(rows)[..i] + old(rows)[i+1..]
    {
      var i := IndexOfUser(rows, id);
      if i.None? {
        return false;
      }
      rows := rows[..i.value] + rows[i.value + 1..];
      deleted := true;
    }
  }
}
