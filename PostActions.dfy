/** The moderation buttons of one post row in the admin console: which status
    changes are offered for the post's current status, plus delete. */
module PostActions {
  import opened Wrappers

  datatype Action = Approve | Reject | Delete

  /** The status a button moves the post to (`None` for delete). */
  function Target(a: Action): Option<string> {
    match a
    case Approve => Some("APPROVED")
    case Reject => Some("REJECTED")
    case Delete => None
  }

  /** The buttons, top to bottom: Approve and Reject for a pending post, Reject
      for an approved one, Approve for a rejected one, nothing for any other
      status; Delete always comes last. */
  function OfferedActions(currentStatus: string): (acts: seq<Action>)
    ensures |acts| >= 1 && acts[|acts| - 1] == Delete
    ensures Approve in acts <==> currentStatus == "PENDING" || currentStatus == "REJECTED"
    ensures Reject in acts <==> currentStatus == "PENDING" || currentStatus == "APPROVED"
    ensures forall a :: a in acts && Target(a).Some? ==> Target(a).value != currentStatus
    ensures forall i, j :: 0 <= i < j < |acts| ==> acts[i] != acts[j]
  {
    (if currentStatus == "PENDING" then [Approve, Reject] else []) +
    (if currentStatus == "APPROVED" then [Reject] else []) +
    (if currentStatus == "REJECTED" then [Approve] else []) +
    [Delete]
  }
}
