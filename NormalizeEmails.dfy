/** The maintenance script that lower-cases every stored email. It reads all users
    once, then walks them in order, rewriting each email that is not already
    lower-case and counting the rewrites; the first failed write (the store
    raises, for instance because the lower-cased email is already taken) ends
    the run, and the writes made before it stay. */
module NormalizeEmails {
  import opened Wrappers
  import opened Text
  import opened Domain
  import opened UserStore

  predicate NeedsLowering(u: User) {
    u.email != ToLower(u.email)
  }

  /** The number of rows among the first `n` whose email is not lower-case. */
  function CountNotLower(rows: seq<User>, n: nat): (c: nat)
    requires n <= |rows|
    ensures c <= n
  {
    if n == 0 then 0
    else CountNotLower(rows, n - 1) + if NeedsLowering(rows[n - 1]) then 1 else 0
  }

  /** The ids of the rows among the first `n` whose email is not lower-case, in table order. */
  function IdsNotLower(rows: seq<User>, n: nat): (ids: seq<UserId>)
    requires n <= |rows|
    ensures |ids| == CountNotLower(rows, n)
  {
    if n == 0 then []
    else IdsNotLower(rows, n - 1) + if NeedsLowering(rows[n - 1]) then [rows[n - 1].id] else []
  }

  /** No row needs lowering exactly when every email is already lower-case. */
  lemma {:induction false} CountNotLowerZero(rows: seq<User>, n: nat)
    requires n <= |rows|
    ensures CountNotLower(rows, n) == 0 <==> forall k :: 0 <= k < n ==> IsLowerCase(rows[k].email)
  {
    if n > 0 {
      CountNotLowerZero(rows, n - 1);
      ToLowerFixesLowerCase(rows[n - 1].email);
    }
  }

  /** The table after the first `n` rows were processed: their emails lower-cased,
      the other rows as they were. */
  function NormalizedPrefix(rows: seq<User>, n: nat): (r: seq<User>)
    requires n <= |rows|
    ensures |r| == |rows|
    ensures forall k :: 0 <= k < n ==> r[k] == rows[k].(email := ToLower(rows[k].email))
    ensures forall k :: n <= k < |rows| ==> r[k] == rows[k]
  {
    seq(|rows|, k requires 0 <= k < |rows| => if k < n then rows[k].(email := ToLower(rows[k].email)) else rows[k])
  }

  /** The table with every email lower-cased and everything else kept. */
  function LowercasedEmails(rows: seq<User>): seq<User> {
    NormalizedPrefix(rows, |rows|)
  }

  /** A finished run leaves only lower-case emails, every row keeping its id,
      name, password hash and role. */
  lemma LowercasedEmailsAreLower(rows: seq<User>)
    ensures |LowercasedEmails(rows)| == |rows|
    ensures forall k :: 0 <= k < |rows| ==>
      IsLowerCase(LowercasedEmails(rows)[k].email) &&
      LowercasedEmails(rows)[k].id == rows[k].id &&
      LowercasedEmails(rows)[k].name == rows[k].name &&
      LowercasedEmails(rows)[k].passwordHash == rows[k].passwordHash &&
      LowercasedEmails(rows)[k].role == rows[k].role
  {
  }

  /** Idempotence: on a table a run has finished, a second run counts no update. */
  lemma SecondRunUpdatesNothing(rows: seq<User>)
    ensures CountNotLower(LowercasedEmails(rows), |rows|) == 0
    ensures IdsNotLower(LowercasedEmails(rows), |rows|) == []
  {
    CountNotLowerZero(LowercasedEmails(rows), |rows|);
  }

  /** Processing row `i` when it needs lowering is exactly the store's rewrite of its email. */
  lemma StepPrefix(rows: seq<User>, i: nat)
    requires i < |rows| && UniqueKeys(rows)
    ensures WithEmail(NormalizedPrefix(rows, i), rows[i].id, ToLower(rows[i].email)) == NormalizedPrefix(rows, i + 1)
  {
    var w := WithEmail(NormalizedPrefix(rows, i), rows[i].id, ToLower(rows[i].email));
    assert forall k :: 0 <= k < |rows| ==> w[k] == NormalizedPrefix(rows, i + 1)[k];
  }

  /** Processing row `i` when it is already lower-case changes nothing. */
  lemma StepKeep(rows: seq<User>, i: nat)
    requires i < |rows| && !NeedsLowering(rows[i])
    ensures NormalizedPrefix(rows, i) == NormalizedPrefix(rows, i + 1)
  {
    assert forall k :: 0 <= k < |rows| ==> NormalizedPrefix(rows, i)[k] == NormalizedPrefix(rows, i + 1)[k];
  }

  /** One pass of the loop: rewrites row `i` when it needs lowering and counts the rewrite. */
  method Step(table: UserTable, users: seq<User>, i: nat, ghost log0: seq<UserId>, count: nat)
    returns (ok: bool, count': nat)
    requires i < |users| && UniqueKeys(users)
    requires table.Valid() && table.rows == NormalizedPrefix(users, i)
    requires count == CountNotLower(users, i) && table.emailWrites == log0 + IdsNotLower(users, i)
    modifies table
    ensures table.Valid()
    ensures ok ==>
      table.rows == NormalizedPrefix(users, i + 1) && count' == CountNotLower(users, i + 1) &&
      table.emailWrites == log0 + IdsNotLower(users, i + 1)
    ensures !ok ==>
      NeedsLowering(users[i]) && !Updatable(NormalizedPrefix(users, i), users[i].id, ToLower(users[i].email)) &&
      table.rows == NormalizedPrefix(users, i) && count' == CountNotLower(users, i) &&
      table.emailWrites == log0 + IdsNotLower(users, i)
  {
    var user := users[i];
    var normalizedEmail := ToLower(user.email);
    count' := count;
    if user.email != normalizedEmail {
      StepPrefix(users, i);
      ok := table.UpdateEmail(user.id, normalizedEmail);
      if ok {
        assert table.emailWrites == log0 + (IdsNotLower(users, i) + [user.id]);
        count' := count + 1;
      }
    } else {
      StepKeep(users, i);
      ok := true;
    }
  }

  /** The script `normalizeEmails`. `failedAt` is the index of the row whose
      rewrite the store refused (`None` when the run completed). */
  method Normalize(table: UserTable) returns (updateCount: nat, failedAt: Option<nat>)
    requires table.Valid()
    modifies table
    ensures table.Valid()
    ensures |old(table.rows)| == 0 ==> updateCount == 0 && failedAt == None && table.rows == old(table.rows)
    ensures failedAt.None? ==>
      table.rows == LowercasedEmails(old(table.rows)) &&
      updateCount == CountNotLower(old(table.rows), |old(table.rows)|) &&
      table.emailWrites == old(table.emailWrites) + IdsNotLower(old(table.rows), |old(table.rows)|)
    ensures failedAt.Some? ==>
      var f := failedAt.value;
      var was := old(table.rows);
      f < |was| && NeedsLowering(was[f]) &&
      !Updatable(NormalizedPrefix(was, f), was[f].id, ToLower(was[f].email)) &&
      table.rows == NormalizedPrefix(was, f) &&
      updateCount == CountNotLower(was, f) &&
      table.emailWrites == old(table.emailWrites) + IdsNotLower(was, f)
  {
    var users := table.rows;
    ghost var log0 := table.emailWrites;
    if |users| == 0 {
      assert LowercasedEmails(users) == users;
      assert log0 + IdsNotLower(users, 0) == log0;
      return 0, None;
    }
    updateCount := 0;
    var i := 0;
    while i < |users|
      invariant 0 <= i <= |users|
      invariant table.Valid()
      invariant table.rows == NormalizedPrefix(users, i)
      invariant updateCount == CountNotLower(users, i)
      invariant table.emailWrites == log0 + IdsNotLower(users, i)
    {
      var ok;
      ok, updateCount := Step(table, users, i, log0, updateCount);
      if !ok {
        return updateCount, Some(i);
      }
      i := i + 1;
    }
    assert table.rows == LowercasedEmails(users);
    assert table.emailWrites == log0 + IdsNotLower(users, |users|);
    failedAt := None;
  }
}
