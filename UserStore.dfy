/** The user table as the routes and scripts see it: an ordered list of rows with
    unique ids and unique (exact-case) emails, a `findUnique` by email, `create`,
    and `update` of one row's email. Writes that would break a unique constraint
    are refused, as the store does by raising an error. */
module UserStore {
  import opened Wrappers
  import opened Domain

  /** The unique constraints of the table: no two rows share an id or an email. */
  ghost predicate UniqueKeys(rows: seq<User>) {
    forall i, j :: 0 <= i < j < |rows| ==> rows[i].id != rows[j].id && rows[i].email != rows[j].email
  }

  /** `findUnique({ where: { email } })`: the row with exactly this email, if any. */
  function FindByEmail(rows: seq<User>, email: string): (r: Option<User>)
    ensures r.Some? ==> r.value in rows && r.value.email == email
    ensures r.None? ==> forall u :: u in rows ==> u.email != email
  {
    if rows == [] then None
    else if rows[0].email == email then Some(rows[0])
    else FindByEmail(rows[1..], email)
  }

  /** Whether `create` of `u` satisfies both unique constraints. */
  predicate Insertable(rows: seq<User>, u: User) {
    forall v :: v in rows ==> v.id != u.id && v.email != u.email
  }

  /** The rows after the row with id `id` gets email `email`. */
  function WithEmail(rows: seq<User>, id: UserId, email: string): (r: seq<User>)
    ensures |r| == |rows|
    ensures forall k :: 0 <= k < |rows| && rows[k].id == id ==> r[k] == rows[k].(email := email)
    ensures forall k :: 0 <= k < |rows| && rows[k].id != id ==> r[k] == rows[k]
  {
    seq(|rows|, k requires 0 <= k < |rows| => if rows[k].id == id then rows[k].(email := email) else rows[k])
  }

  /** Whether `update({ where: { id }, data: { email } })` succeeds: the row exists
      and no other row already has that email. */
  predicate Updatable(rows: seq<User>, id: UserId, email: string) {
    (exists k :: 0 <= k < |rows| && rows[k].id == id) &&
    forall k :: 0 <= k < |rows| && rows[k].id != id ==> rows[k].email != email
  }

  class UserTable {
    var rows: seq<User>
    /** The ids of the rows whose email was rewritten, in order. */
    ghost var emailWrites: seq<UserId>

    ghost predicate Valid()
      reads this
    {
      UniqueKeys(rows)
    }

    constructor (initial: seq<User>)
      requires UniqueKeys(initial)
      ensures Valid() && rows == initial && emailWrites == []
    {
      rows := initial;
      emailWrites := [];
    }

    method Find(email: string) returns (u: Option<User>)
      ensures u == FindByEmail(rows, email)
    {
      u := FindByEmail(rows, email);
    }

    /** `create({ data: u })`: appends the row, or refuses it (a unique-constraint
        error) when its id or email is already taken. */
    method Create(u: User) returns (ok: bool)
      requires Valid()
      modifies this
      ensures Valid() && emailWrites == old(emailWrites)
      ensures ok == Insertable(old(rows), u)
      ensures rows == if ok then old(rows) + [u] else old(rows)
    {
      ok := forall v :: v in rows ==> v.id != u.id && v.email != u.email;
      if ok {
        rows := rows + [u];
      }
    }

    /** `update({ where: { id }, data: { email } })`: rewrites one row's email, or
        refuses (the store raises) when the id is unknown or the email is taken by
        another row. */
    method UpdateEmail(id: UserId, email: string) returns (ok: bool)
      requires Valid()
      modifies this
      ensures Valid()
      ensures ok == Updatable(old(rows), id, email)
      ensures rows == if ok then WithEmail(old(rows), id, email) else old(rows)
      ensures emailWrites == if ok then old(emailWrites) + [id] else old(emailWrites)
    {
      ok := (exists k :: 0 <= k < |rows| && rows[k].id == id) &&
            forall k :: 0 <= k < |rows| && rows[k].id != id ==> rows[k].email != email;
      if ok {
        var r := WithEmail(rows, id, email);
        assert UniqueKeys(r) by {
          forall i, j | 0 <= i < j < |r| ensures r[i].id != r[j].id && r[i].email != r[j].email {
          }
        }
        rows := r;
        emailWrites := emailWrites + [id];
      }
    }
  }
}
