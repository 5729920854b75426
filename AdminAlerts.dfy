/** The alert panel of the admin console: from the post counts it builds at most
    three alerts (pending backlog, low approval rate, high rejection rate) in
    that order, or a lone all-clear alert, and it renders nothing when there is
    no alert at all. */
module AdminAlerts {
  import opened Wrappers

  datatype Stats = Stats(total: nat, pending: nat, approved: nat, rejected: nat)

  datatype Priority = High | Medium | Low

  /** What an alert says; the numbers are those interpolated into its text. */
  datatype Message =
    | PendingWaiting(count: nat)
    | PendingNeedsReview(count: nat)
    | LowApprovalRate(percent: nat)
    | HighRejectionRate(percent: nat)
    | AllReviewed

  datatype Alert = Alert(kind: string, message: Message, action: string, priority: Priority)

  /** The position of an alert's rule in the order the panel checks them. */
  function Rank(m: Message): nat {
    match m
    case PendingWaiting(_) => 0
    case PendingNeedsReview(_) => 0
    case LowApprovalRate(_) => 1
    case HighRejectionRate(_) => 2
    case AllReviewed => 3
  }

  /** `Math.round(part / total * 100)`: the percentage rounded to the nearest
      whole number, halves up; 0 when there is nothing to divide by. */
  function RoundedPercent(part: nat, total: nat): (p: nat)
    ensures total == 0 ==> p == 0
    ensures total > 0 ==> 2 * total * p <= 200 * part + total < 2 * total * p + 2 * total
  {
    if total > 0 then
      var q := (200 * part + total) / (2 * total);
      assert 2 * total * q <= 200 * part + total < 2 * total * q + 2 * total;
      q
    else 0
  }

  /** `stats.total > 0 ? (part / total) * 100 : 0` compared with `bound`: whether
      the rate is below it. */
  predicate RateBelow(part: nat, total: nat, bound: nat) {
    if total > 0 then 100 * part < bound * total else 0 < bound
  }

  /** Whether the rate is above `bound`. */
  predicate RateAbove(part: nat, total: nat, bound: nat) {
    if total > 0 then 100 * part > bound * total else 0 > bound
  }

  function PendingHighAlert(s: Stats): Alert {
    Alert("warning", PendingWaiting(s.pending), "Review pending posts", High)
  }

  function PendingMediumAlert(s: Stats): Alert {
    Alert("info", PendingNeedsReview(s.pending), "Review posts", Medium)
  }

  function LowApprovalAlert(s: Stats): Alert {
    Alert("warning", LowApprovalRate(RoundedPercent(s.approved, s.total)), "Review content guidelines", Medium)
  }

  function HighRejectionAlert(s: Stats): Alert {
    Alert("error", HighRejectionRate(RoundedPercent(s.rejected, s.total)), "Check quality standards", High)
  }

  const AllClearAlert := Alert("success", AllReviewed, "Great work!", Low)

  /** The rate alerts fire on more than ten posts: low approval when fewer than
      half are approved, high rejection when more than three in ten are rejected. */
  predicate LowApproval(s: Stats) {
    s.total > 10 && 2 * s.approved < s.total
  }

  predicate HighRejection(s: Stats) {
    s.total > 10 && 10 * s.rejected > 3 * s.total
  }

  /** The rate tests of the panel, for more than ten posts, in whole numbers. */
  lemma RateThresholds(s: Stats)
    requires s.total > 10
    ensures RateBelow(s.approved, s.total, 50) <==> LowApproval(s)
    ensures RateAbove(s.rejected, s.total, 30) <==> HighRejection(s)
  {
  }

  function PendingPart(s: Stats): seq<Alert> {
    if s.pending > 10 then [PendingHighAlert(s)]
    else if s.pending > 5 then [PendingMediumAlert(s)]
    else []
  }

  function ApprovalPart(s: Stats): seq<Alert> {
    if LowApproval(s) then [LowApprovalAlert(s)] else []
  }

  function RejectionPart(s: Stats): seq<Alert> {
    if HighRejection(s) then [HighRejectionAlert(s)] else []
  }

  /** The alerts the rules produce, in the order they are checked; the all-clear
      alert only when no rule fired and nothing is pending. */
  function AlertsOf(s: Stats): seq<Alert> {
    var fired := PendingPart(s) + ApprovalPart(s) + RejectionPart(s);
    if fired == [] && s.pending == 0 then [AllClearAlert] else fired
  }

  /** The alert list, built by appending under each rule in turn. */
  method BuildAlerts(s: Stats) returns (alerts: seq<Alert>)
    ensures alerts == AlertsOf(s)
  {
    alerts := [];
    if s.pending > 10 {
      alerts := alerts + [PendingHighAlert(s)];
    } else if s.pending > 5 {
      alerts := alerts + [PendingMediumAlert(s)];
    }
    assert alerts == PendingPart(s);
    if s.total > 10 && RateBelow(s.approved, s.total, 50) {
      RateThresholds(s);
      alerts := alerts + [LowApprovalAlert(s)];
    }
    assert s.total > 10 ==> (RateBelow(s.approved, s.total, 50) <==> LowApproval(s));
    assert alerts == PendingPart(s) + ApprovalPart(s);
    if s.total > 10 && RateAbove(s.rejected, s.total, 30) {
      RateThresholds(s);
      alerts := alerts + [HighRejectionAlert(s)];
    }
    assert s.total > 10 ==> (RateAbove(s.rejected, s.total, 30) <==> HighRejection(s));
    assert alerts == PendingPart(s) + ApprovalPart(s) + RejectionPart(s);
    if |alerts| == 0 && s.pending == 0 {
      alerts := alerts + [AllClearAlert];
    }
  }

  /** Each alert appears exactly when its rule fires. */
  lemma AlertRules(s: Stats)
    ensures PendingHighAlert(s) in AlertsOf(s) <==> s.pending > 10
    ensures PendingMediumAlert(s) in AlertsOf(s) <==> 5 < s.pending <= 10
    ensures LowApprovalAlert(s) in AlertsOf(s) <==> LowApproval(s)
    ensures HighRejectionAlert(s) in AlertsOf(s) <==> HighRejection(s)
    ensures AllClearAlert in AlertsOf(s) <==> s.pending == 0 && !LowApproval(s) && !HighRejection(s)
    ensures AlertsOf(s) == [] <==> 1 <= s.pending <= 5 && !LowApproval(s) && !HighRejection(s)
  {
    var fired := PendingPart(s) + ApprovalPart(s) + RejectionPart(s);
    assert forall a :: a in fired <==> a in PendingPart(s) || a in ApprovalPart(s) || a in RejectionPart(s);
  }

  /** At most three alerts, in rule order with no rule twice, and the all-clear
      alert never shares the panel. */
  lemma AlertsOrdered(s: Stats)
    ensures |AlertsOf(s)| <= 3
    ensures forall i, j :: 0 <= i < j < |AlertsOf(s)| ==> Rank(AlertsOf(s)[i].message) < Rank(AlertsOf(s)[j].message)
    ensures AllClearAlert in AlertsOf(s) ==> AlertsOf(s) == [AllClearAlert]
  {
    var p, a, r := PendingPart(s), ApprovalPart(s), RejectionPart(s);
    var fired := p + a + r;
    assert forall x :: x in p ==> Rank(x.message) == 0;
    assert forall x :: x in a ==> Rank(x.message) == 1;
    assert forall x :: x in r ==> Rank(x.message) == 2;
    assert forall i :: 0 <= i < |fired| ==> fired[i] in p || fired[i] in a || fired[i] in r;
    assert forall i :: 0 <= i < |fired| ==> (fired[i] in p <==> i < |p|);
    assert forall i :: 0 <= i < |fired| ==> (fired[i] in r <==> i >= |p| + |a|);
    assert AllClearAlert !in fired;
  }

  const ErrorStyle := "bg-red-50 border-red-200 text-red-800"
  const WarningStyle := "bg-yellow-50 border-yellow-200 text-yellow-800"
  const SuccessStyle := "bg-green-50 border-green-200 text-green-800"
  const InfoStyle := "bg-blue-50 border-blue-200 text-blue-800"

  const ErrorIcon := "\U{26A0}\U{FE0F}"
  const WarningIcon := "\U{1F4CB}"
  const SuccessIcon := "\U{2705}"
  const InfoIcon := "\U{2139}\U{FE0F}"

  /** `getAlertStyles`: red, yellow or green for the three known kinds, blue for
      any other kind. */
  function AlertStyle(kind: string): (style: string)
    ensures kind !in {"error", "warning", "success"} ==> style == InfoStyle
    ensures style == InfoStyle <==> kind !in {"error", "warning", "success"}
  {
    if kind == "error" then ErrorStyle
    else if kind == "warning" then WarningStyle
    else if kind == "success" then SuccessStyle
    else InfoStyle
  }

  /** `getAlertIcon`: the icon for the three known kinds, the info icon for any
      other kind. */
  function AlertIcon(kind: string): (icon: string)
    ensures kind !in {"error", "warning", "success"} ==> icon == InfoIcon
    ensures icon == InfoIcon <==> kind !in {"error", "warning", "success"}
  {
    if kind == "error" then ErrorIcon
    else if kind == "warning" then WarningIcon
    else if kind == "success" then SuccessIcon
    else InfoIcon
  }

  /** Style and icon always tell the same story: each kind gets its own pair,
      so two alerts share a style exactly when they share an icon. */
  lemma StyleMatchesIcon(k1: string, k2: string)
    ensures AlertStyle(k1) == AlertStyle(k2) <==> AlertIcon(k1) == AlertIcon(k2)
  {
  }

  datatype Card = Card(style: string, icon: string, message: Message, action: string, priorityBadge: bool)

  /** The panel: nothing for an empty list, otherwise one card per alert, in
      order, with the style and icon of its kind and a badge on high priority. */
  function Render(alerts: seq<Alert>): (r: Option<seq<Card>>)
    ensures r.None? <==> alerts == []
    ensures r.Some? ==> |r.value| == |alerts|
    ensures r.Some? ==> forall i :: 0 <= i < |alerts| ==>
      r.value[i] == Card(AlertStyle(alerts[i].kind), AlertIcon(alerts[i].kind), alerts[i].message,
                         alerts[i].action, alerts[i].priority == High)
  {
    if alerts == [] then None
    else Some(seq(|alerts|, i requires 0 <= i < |alerts| =>
      Card(AlertStyle(alerts[i].kind), AlertIcon(alerts[i].kind), alerts[i].message,
           alerts[i].action, alerts[i].priority == High)))
  }

  /** The panel renders nothing exactly when 1 to 5 posts are pending and
      neither rate alert fires. */
  method AdminAlertsPanel(s: Stats) returns (panel: Option<seq<Card>>)
    ensures panel.None? <==> 1 <= s.pending <= 5 && !LowApproval(s) && !HighRejection(s)
    ensures panel.Some? ==> 1 <= |panel.value| <= 3
  {
    var alerts := BuildAlerts(s);
    AlertRules(s);
    AlertsOrdered(s);
    panel := Render(alerts);
  }
}
