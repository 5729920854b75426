/** The bulk moderation endpoint: PATCH changes the status of many posts, DELETE
    removes many posts. A guard ladder runs in a fixed order (admin session, id
    array, status, all ids exist) and only then is the post table changed. */
module BulkModeration {
  import opened Wrappers
  import opened Domain

  const UnauthorizedError := "Unauthorized. Admin access required."
  const MissingIdsError := "Post IDs array is required and cannot be empty."
  const InvalidStatusError := "Invalid status. Must be APPROVED, REJECTED, or PENDING."
  const NotFoundError := "One or more posts not found"

  /** The `postIds` member of the request body as the JSON parser delivers it:
      absent (or another falsy value), some value that is not an array, or an array. */
  datatype IdsField = Missing | NotAnArray | IdArray(ids: seq<PostId>)

  datatype PatchBody = PatchBody(postIds: IdsField, status: Option<string>)
  datatype DeleteBody = DeleteBody(postIds: IdsField)

  /** A request that passed the checks that need no store access. */
  datatype PatchRequest = PatchRequest(ids: seq<PostId>, status: Status)

  /** The outcome of the checks that need no store access. */
  datatype Decision<T> = Refuse(code: nat, error: string) | Proceed(value: T)

  datatype BulkResponse =
    | Failed(code: nat, error: string)
    | Updated(updatedCount: nat, postIds: seq<PostId>)
    | Deleted(deletedCount: nat, postIds: seq<PostId>)

  /** The distinct ids named by a request. */
  function Elems(ids: seq<PostId>): set<PostId> {
    set i | i in ids
  }

  predicate Distinct(ids: seq<PostId>) {
    forall i, j :: 0 <= i < j < |ids| ==> ids[i] != ids[j]
  }

  /** The number of rows `findMany({ where: { id: { in: ids } } })` returns: one per
      existing post whose id occurs in `ids`, however often it occurs. */
  function MatchedCount(ids: seq<PostId>, rows: map<PostId, Post>): nat {
    |Elems(ids) * rows.Keys|
  }

  lemma {:induction false} ElemsCount(ids: seq<PostId>)
    ensures |Elems(ids)| <= |ids|
    ensures |Elems(ids)| == |ids| <==> Distinct(ids)
  {
    if ids != [] {
      var rest := ids[1..];
      ElemsCount(rest);
      assert Elems(ids) == {ids[0]} + Elems(rest) by {
        assert forall i :: i in ids <==> i == ids[0] || i in rest by {
          assert ids == [ids[0]] + rest;
        }
      }
      if ids[0] in rest {
        assert Elems(ids) == Elems(rest);
        var j :| 0 <= j < |rest| && rest[j] == ids[0];
        assert ids[j + 1] == ids[0];
        assert !Distinct(ids);
      } else {
        assert |Elems(ids)| == 1 + |Elems(rest)|;
        if Distinct(rest) {
          forall i, j | 0 <= i < j < |ids| ensures ids[i] != ids[j] {
            if i > 0 {
              assert ids[i] == rest[i - 1] && ids[j] == rest[j - 1];
            } else {
              assert ids[j] == rest[j - 1];
            }
          }
        } else {
          var i, j :| 0 <= i < j < |rest| && rest[i] == rest[j];
          assert ids[i + 1] == ids[j + 1];
        }
      }
    }
  }

  lemma SubsetCount(a: set<PostId>, b: set<PostId>)
    requires a <= b
    ensures |a| <= |b|
    ensures |a| == |b| ==> a == b
  {
    if a != b {
      var x :| x in b && x !in a;
      assert a <= b - {x};
      SubsetCount(a, b - {x});
    }
  }

  /** The existence check of the route (`existingPosts.length !== postIds.length`)
      passes exactly when every id exists AND no id is repeated: an array
      with a duplicate id is refused even if all its ids exist. */
  lemma MatchedCountExact(ids: seq<PostId>, rows: map<PostId, Post>)
    ensures MatchedCount(ids, rows) == |ids| <==> Elems(ids) <= rows.Keys && Distinct(ids)
  {
    var a := Elems(ids);
    ElemsCount(ids);
    SubsetCount(a * rows.Keys, a);
    if a <= rows.Keys {
      assert a * rows.Keys == a;
    }
  }

  /** The id-array guard: present, an array, and not empty. */
  function CheckIds(field: IdsField): (d: Decision<seq<PostId>>)
    ensures d.Proceed? <==> field.IdArray? && |field.ids| > 0
    ensures d.Proceed? ==> d.value == field.ids
    ensures d.Refuse? ==> d == Refuse(400, MissingIdsError)
  {
    if field.IdArray? && |field.ids| > 0 then Proceed(field.ids)
    else Refuse(400, MissingIdsError)
  }

  /** The PATCH guards that run before any store access, in the source's order:
      admin session (401), then id array (400), then status (400). */
  function ValidatePatch(session: Option<Session>, body: PatchBody): (d: Decision<PatchRequest>)
    ensures !IsAdminSession(session) ==> d == Refuse(401, UnauthorizedError)
    ensures IsAdminSession(session) && CheckIds(body.postIds).Refuse? ==> d == Refuse(400, MissingIdsError)
    ensures (IsAdminSession(session) && CheckIds(body.postIds).Proceed? &&
             (body.status.None? || ParseStatus(body.status.value).None?)) ==> d == Refuse(400, InvalidStatusError)
    ensures d.Proceed? <==> (IsAdminSession(session) && body.postIds.IdArray? && |body.postIds.ids| > 0 &&
                             body.status.Some? && body.status.value in {"APPROVED", "REJECTED", "PENDING"})
    ensures d.Proceed? ==> d.value.ids == body.postIds.ids && StatusName(d.value.status) == body.status.value
  {
    if !IsAdminSession(session) then Refuse(401, UnauthorizedError)
    else match CheckIds(body.postIds)
      case Refuse(code, error) => Refuse(code, error)
      case Proceed(ids) =>
        if body.status.None? then Refuse(400, InvalidStatusError)
        else match ParseStatus(body.status.value)
          case None => Refuse(400, InvalidStatusError)
          case Some(s) => Proceed(PatchRequest(ids, s))
  }

  /** The DELETE guards that run before any store access: admin session (401),
      then id array (400). */
  function ValidateDelete(session: Option<Session>, body: DeleteBody): (d: Decision<seq<PostId>>)
    ensures !IsAdminSession(session) ==> d == Refuse(401, UnauthorizedError)
    ensures IsAdminSession(session) ==> d == CheckIds(body.postIds)
    ensures d.Proceed? <==> IsAdminSession(session) && body.postIds.IdArray? && |body.postIds.ids| > 0
  {
    if !IsAdminSession(session) then Refuse(401, UnauthorizedError)
    else CheckIds(body.postIds)
  }

  /** The table after `updateMany`: every existing post named in `ids` gets the new
      status and the refreshed `updatedAt`; nothing else changes. */
  function WithStatus(rows: map<PostId, Post>, ids: set<PostId>, s: Status, now: int): (r: map<PostId, Post>)
    ensures r.Keys == rows.Keys
    ensures forall id :: id in rows && id in ids ==>
      r[id].status == s && r[id].updatedAt == now && r[id] == rows[id].(status := s, updatedAt := now)
    ensures forall id :: id in rows && id !in ids ==> r[id] == rows[id]
  {
    map id | id in rows :: if id in ids then rows[id].(status := s, updatedAt := now) else rows[id]
  }

  /** Re-applying the same status is harmless: the second update changes nothing
      but the timestamp, since any status may move to any other. */
  lemma WithStatusTwice(rows: map<PostId, Post>, ids: set<PostId>, s: Status, t1: int, t2: int)
    ensures WithStatus(WithStatus(rows, ids, s, t1), ids, s, t2) == WithStatus(rows, ids, s, t2)
  {
    var a := WithStatus(WithStatus(rows, ids, s, t1), ids, s, t2);
    var b := WithStatus(rows, ids, s, t2);
    assert a.Keys == b.Keys;
    forall id | id in a ensures a[id] == b[id] {
    }
  }

  /** The post table, shared by every request and changed in place. */
  class PostTable {
    var rows: map<PostId, Post>

    constructor (initial: map<PostId, Post>)
      ensures rows == initial
    {
      rows := initial;
    }

    /** `findMany({ where: { id: { in: ids } } }).length`. */
    method CountExisting(ids: seq<PostId>) returns (n: nat)
      ensures n == MatchedCount(ids, rows)
    {
      n := |Elems(ids) * rows.Keys|;
    }

    /** `updateMany({ where: { id: { in: ids } }, data: { status, updatedAt } })`. */
    method UpdateMany(ids: seq<PostId>, s: Status, now: int) returns (count: nat)
      modifies this
      ensures rows == WithStatus(old(rows), Elems(ids), s, now)
      ensures count == MatchedCount(ids, old(rows))
    {
      count := |Elems(ids) * rows.Keys|;
      rows := WithStatus(rows, Elems(ids), s, now);
    }

    /** `deleteMany({ where: { id: { in: ids } } })`. */
    method DeleteMany(ids: seq<PostId>) returns (count: nat)
      modifies this
      ensures rows == old(rows) - Elems(ids)
      ensures count == MatchedCount(ids, old(rows))
    {
      count := |Elems(ids) * rows.Keys|;
      rows := rows - Elems(ids);
    }
  }

  /** PATCH /api/admin/posts/bulk. A refused request, including one naming a missing
      post or repeating an id, leaves the table as it was; an accepted one sets the
      status of exactly the listed posts and reports one affected row per id. */
  method Patch(table: PostTable, session: Option<Session>, body: PatchBody, now: int) returns (resp: BulkResponse)
    modifies table
    ensures ValidatePatch(session, body).Refuse? ==>
      resp == Failed(ValidatePatch(session, body).code, ValidatePatch(session, body).error) &&
      table.rows == old(table.rows)
    ensures ValidatePatch(session, body).Proceed? ==>
      var req := ValidatePatch(session, body).value;
      if Elems(req.ids) <= old(table.rows).Keys && Distinct(req.ids) then
        resp == Updated(|req.ids|, req.ids) &&
        table.rows == WithStatus(old(table.rows), Elems(req.ids), req.status, now)
      else
        resp == Failed(404, NotFoundError) && table.rows == old(table.rows)
  {
    match ValidatePatch(session, body)
    case Refuse(code, error) =>
      resp := Failed(code, error);
    case Proceed(req) =>
      var found := table.CountExisting(req.ids);
      MatchedCountExact(req.ids, table.rows);
      if found != |req.ids| {
        resp := Failed(404, NotFoundError);
      } else {
        var count := table.UpdateMany(req.ids, req.status, now);
        resp := Updated(count, req.ids);
      }
  }

  /** DELETE /api/admin/posts/bulk. A refused request leaves the table as it was;
      an accepted one removes exactly the listed posts and keeps all others. */
  method Delete(table: PostTable, session: Option<Session>, body: DeleteBody) returns (resp: BulkResponse)
    modifies table
    ensures ValidateDelete(session, body).Refuse? ==>
      resp == Failed(ValidateDelete(session, body).code, ValidateDelete(session, body).error) &&
      table.rows == old(table.rows)
    ensures ValidateDelete(session, body).Proceed? ==>
      var ids := ValidateDelete(session, body).value;
      if Elems(ids) <= old(table.rows).Keys && Distinct(ids) then
        resp == Deleted(|ids|, ids) && table.rows == old(table.rows) - Elems(ids)
      else
        resp == Failed(404, NotFoundError) && table.rows == old(table.rows)
  {
    match ValidateDelete(session, body)
    case Refuse(code, error) =>
      resp := Failed(code, error);
    case Proceed(ids) =>
      var found := table.CountExisting(ids);
      MatchedCountExact(ids, table.rows);
      if found != |ids| {
        resp := Failed(404, NotFoundError);
      } else {
        var count := table.DeleteMany(ids);
        resp := Deleted(count, ids);
      }
  }

  /** After a successful delete, the remaining table holds exactly the posts that
      were not listed, unchanged, and is smaller by the number of ids. */
  lemma DeleteRemovesExactly(rows: map<PostId, Post>, ids: seq<PostId>)
    requires Elems(ids) <= rows.Keys && Distinct(ids)
    ensures (rows - Elems(ids)).Keys == rows.Keys - Elems(ids)
    ensures forall id :: id in rows && id !in Elems(ids) ==> (rows - Elems(ids))[id] == rows[id]
    ensures |rows - Elems(ids)| == |rows| - |ids|
  {
    ElemsCount(ids);
    var rest := rows - Elems(ids);
    assert rest.Keys == rows.Keys - Elems(ids);
    assert rows.Keys == rest.Keys + Elems(ids);
    assert rest.Keys !! Elems(ids);
  }
}
