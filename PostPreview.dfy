/** The post preview dialog of the admin console: shown only while open and
    given a post, with a status badge and a footer whose buttons depend on the
    post's status. */
module PostPreview {
  import opened Wrappers
  import PostActions

  datatype PreviewPost = PreviewPost(id: string, title: string, content: string, status: string)

  datatype Button = RejectButton | ApproveButton | ViewLiveButton

  /** The footer: the review footer for a pending post, otherwise the footer
      that names the status. */
  datatype Footer = ReviewFooter(buttons: seq<Button>) | StatusFooter(status: string, buttons: seq<Button>)

  datatype Dialog = Dialog(title: string, badge: string, footer: Footer)

  const GreenBadge := "bg-green-100 text-green-800"
  const RedBadge := "bg-red-100 text-red-800"
  const YellowBadge := "bg-yellow-100 text-yellow-800"

  /** `getStatusBadge`: green for approved, red for rejected, yellow for
      anything else. */
  function StatusBadge(status: string): (badge: string)
    ensures status == "APPROVED" <==> badge == GreenBadge
    ensures status == "REJECTED" <==> badge == RedBadge
    ensures status != "APPROVED" && status != "REJECTED" <==> badge == YellowBadge
  {
    if status == "APPROVED" then GreenBadge
    else if status == "REJECTED" then RedBadge
    else YellowBadge
  }

  /** The footer for a status. */
  function FooterFor(status: string): (f: Footer)
    ensures f.ReviewFooter? <==> status == "PENDING"
    ensures status == "PENDING" ==> f.buttons == [RejectButton, ApproveButton]
    ensures status == "APPROVED" ==> f.buttons == [RejectButton, ViewLiveButton]
    ensures status == "REJECTED" ==> f.buttons == [ApproveButton]
    ensures status !in {"PENDING", "APPROVED", "REJECTED"} ==> f.buttons == []
    ensures f.StatusFooter? ==> f.status == status
  {
    if status == "PENDING" then ReviewFooter([RejectButton, ApproveButton])
    else StatusFooter(status,
      (if status == "APPROVED" then [RejectButton] else []) +
      (if status == "REJECTED" then [ApproveButton] else []) +
      (if status == "APPROVED" then [ViewLiveButton] else []))
  }

  /** The dialog: nothing unless it is open and has a post. */
  function RenderDialog(isOpen: bool, post: Option<PreviewPost>): (d: Option<Dialog>)
    ensures d.None? <==> !isOpen || post.None?
    ensures d.Some? ==> d.value.badge == StatusBadge(post.value.status)
    ensures d.Some? ==> d.value.footer == FooterFor(post.value.status)
    ensures d.Some? ==> d.value.title == post.value.title
  {
    if !isOpen || post.None? then None
    else Some(Dialog(post.value.title, StatusBadge(post.value.status), FooterFor(post.value.status)))
  }

  /** The dialog and the row buttons offer the same status changes for every
      status, known or not. */
  lemma DialogAgreesWithRowActions(status: string)
    ensures ApproveButton in FooterFor(status).buttons <==> PostActions.Approve in PostActions.OfferedActions(status)
    ensures RejectButton in FooterFor(status).buttons <==> PostActions.Reject in PostActions.OfferedActions(status)
  {
  }
}
