/** The profile page: the listing quota by subscription tier, the quota
    bar, the trust colour, the tab panels and the one-off AI audit of the
    signed-in user. The audit text itself comes from the AI service and is
    an input here. */
module ProfilePage {
  import opened Prelude
  import opened Types

  /** The monthly listing limit: 5 for Free, 50 for Pro, 9999 for every
      other tier. */
  function Limit(tier: SubscriptionTier): (r: int)
    ensures r > 0
    ensures tier == Free <==> r == 5
    ensures tier == Pro <==> r == 50
    ensures tier != Free && tier != Pro <==> r == 9999
  {
    if tier == Free then 5 else if tier == Pro then 50 else 9999
  }

  /** A higher tier never has a lower limit. */
  lemma LimitGrowsWithTier(a: SubscriptionTier, b: SubscriptionTier)
    requires TierRank(a) <= TierRank(b)
    ensures Limit(a) <= Limit(b)
  {
  }

  function TierRank(t: SubscriptionTier): nat
  {
    match t
    case Free => 0
    case Pro => 1
    case Unlimited => 2
    case Circle_VIP => 3
  }

  /** The width of the quota bar, in percent: `min(100, used / limit * 100)`. */
  function UsagePercent(used: int, tier: SubscriptionTier): (r: real)
    ensures r <= 100.0
    ensures used >= 0 ==> 0.0 <= r
    ensures r == 100.0 <==> used >= Limit(tier)
    ensures used < Limit(tier) ==> r * (Limit(tier) as real) == (used as real) * 100.0
  {
    var share := (used as real) / (Limit(tier) as real) * 100.0;
    if share < 100.0 then share else 100.0
  }

  /** More listings never shrink the bar. */
  lemma UsagePercentIsMonotone(a: int, b: int, tier: SubscriptionTier)
    requires a <= b
    ensures UsagePercent(a, tier) <= UsagePercent(b, tier)
  {
    var l := Limit(tier) as real;
    assert (a as real) / l <= (b as real) / l;
  }

  /** Trust scores of 95 and above are shown in green, lower ones in red. */
  function TrustIsGreen(trustScore: int): (green: bool)
    ensures green <==> 95 <= trustScore
  {
    trustScore >= 95
  }

  datatype Tab = Dashboard | Archive | Tiers | Security

  /** The tab buttons offered: every tab except Security. */
  const TabButtons: seq<Tab> := [Dashboard, Archive, Tiers]

  /** What the page shows. The Tiers and Security tabs have no panel. */
  datatype View =
    | RedirectTo(path: string)
    | DashboardPanel(limit: int, usage: real, trustGreen: bool, calibrating: bool, report: Option<string>)
    | ArchivePanel(totalRecords: nat, empty: bool)
    | NoPanel

  /** The page's own state: the tab, the held audit report and whether an
      audit is running. */
  datatype Page = Page(activeTab: Tab, aiReport: Option<string>, isAuditing: bool)

  const InitialPage := Page(Dashboard, None, false)

  /** A JavaScript truthiness test on the held report: null and the empty
      string are both falsy. */
  predicate HoldsReport(p: Page)
  {
    p.aiReport.Some? && p.aiReport.value != ""
  }

  /** The page for the session's user and orders. */
  function Render(p: Page, user: Option<User>, orders: seq<Order>): (v: View)
    ensures user.None? <==> v == RedirectTo("/auth")
    ensures user.Some? && p.activeTab == Dashboard ==>
      v.DashboardPanel? && v.limit == Limit(user.value.tier)
      && v.usage == UsagePercent(user.value.monthlyListingsUsed, user.value.tier)
      && (v.trustGreen <==> user.value.trustScore >= 95)
      && (v.calibrating <==> p.isAuditing)
      && (p.isAuditing ==> v.report.None?)
      && (!p.isAuditing ==> v.report == p.aiReport)
    ensures user.Some? && p.activeTab == Archive ==>
      v.ArchivePanel? && v.totalRecords == |orders| && (v.empty <==> orders == [])
    ensures user.Some? && (p.activeTab == Tiers || p.activeTab == Security) ==> v == NoPanel
  {
    if user.None? then RedirectTo("/auth")
    else
      match p.activeTab
      case Dashboard =>
        var u := user.value;
        DashboardPanel(Limit(u.tier), UsagePercent(u.monthlyListingsUsed, u.tier), TrustIsGreen(u.trustScore),
                       p.isAuditing, if p.isAuditing then None else p.aiReport)
      case Archive => ArchivePanel(|orders|, |orders| == 0)
      case Tiers => NoPanel
      case Security => NoPanel
  }

  /** The effect that runs whenever the user changes: an audit starts only
      for a signed-in user when no report is held. */
  function UserChanged(p: Page, user: Option<User>): (r: (Page, bool))
    ensures r.1 <==> user.Some? && !HoldsReport(p)
    ensures r.1 ==> r.0 == p.(isAuditing := true)
    ensures !r.1 ==> r.0 == p
  {
    if user.Some? && !HoldsReport(p) then (p.(isAuditing := true), true) else (p, false)
  }

  /** The audit's answer is stored and the running flag dropped. */
  function ReportArrived(p: Page, report: string): (r: Page)
    ensures r.aiReport == Some(report) && !r.isAuditing && r.activeTab == p.activeTab
  {
    p.(aiReport := Some(report), isAuditing := false)
  }

  /** How the audit's promise settles: with an answer, or rejected (the
      service call has no retry and no catch of its own). */
  datatype AuditOutcome = Answered(text: string) | Rejected

  /** The audit's settlement as written: only the fulfilment handler is
      attached, so a rejection changes nothing and the running flag stays. */
  function AuditSettledAsWritten(p: Page, outcome: AuditOutcome): (r: Page)
    ensures outcome.Answered? ==> r.aiReport == Some(outcome.text) && !r.isAuditing && r.activeTab == p.activeTab
    ensures outcome.Rejected? ==> r == p
  {
    match outcome
    case Answered(text) => ReportArrived(p, text)
    case Rejected => p
  }

  /** A rejected audit leaves the dashboard calibrating: neither a tab click
      nor a later user change drops the running flag, so only a later audit
      that answers can. */
  lemma RejectedAuditStaysCalibrating(p: Page, u: User, orders: seq<Order>, t: Tab, later: Option<User>)
    requires t in TabButtons
    ensures var q := AuditSettledAsWritten(UserChanged(p, Some(u)).0, Rejected);
      !HoldsReport(p) ==>
        q.isAuditing
        && Render(q.(activeTab := Dashboard), Some(u), orders).calibrating
        && ChooseTab(q, t).isAuditing
        && UserChanged(q, later).0.isAuditing
  {
  }

  /** The audit's settlement with the running flag dropped in every
      outcome, as the application's other AI-backed handlers do. */
  function AuditSettled(p: Page, outcome: AuditOutcome): (r: Page)
    ensures !r.isAuditing && r.activeTab == p.activeTab
    ensures outcome.Answered? ==> r.aiReport == Some(outcome.text)
    ensures outcome.Rejected? ==> r.aiReport == p.aiReport
  {
    match outcome
    case Answered(text) => ReportArrived(p, text)
    case Rejected => p.(isAuditing := false)
  }

  /** The corrected settlement agrees with the one as written except that a
      rejection drops the running flag. */
  lemma AuditSettledAgrees(p: Page, outcome: AuditOutcome)
    ensures outcome.Answered? ==> AuditSettled(p, outcome) == AuditSettledAsWritten(p, outcome)
    ensures outcome.Rejected? ==> AuditSettled(p, outcome) == AuditSettledAsWritten(p, outcome).(isAuditing := false)
  {
  }

  /** With the corrected settlement a rejected audit leaves the dashboard
      out of the calibrating state, and the next user change, still finding
      no report, starts the audit again. */
  lemma RejectedAuditIsRetried(p: Page, u: User, orders: seq<Order>, later: User)
    ensures var q := AuditSettled(UserChanged(p, Some(u)).0, Rejected);
      !HoldsReport(p) ==>
        !Render(q.(activeTab := Dashboard), Some(u), orders).calibrating
        && UserChanged(q, Some(later)).1
  {
  }

  /** Once a non-empty report has arrived, later user changes start no
      further audit; while no report is held, each signed-in change does. */
  lemma AuditRunsOncePerReport(p: Page, user: Option<User>, report: string)
    requires report != ""
    ensures !UserChanged(ReportArrived(p, report), user).1
    ensures user.Some? && p.aiReport == None ==> UserChanged(p, user).1
  {
  }

  /** Choosing a tab button shows its panel, or none for Tiers. */
  function ChooseTab(p: Page, t: Tab): (r: Page)
    requires t in TabButtons
    ensures r.activeTab == t && r.aiReport == p.aiReport && r.isAuditing == p.isAuditing
  {
    p.(activeTab := t)
  }

  /** No tab button leads to the Security tab, so from the initial page the
      Security panel is never reached. */
  lemma SecurityIsUnreachable(tabs: seq<Tab>)
    requires forall i :: 0 <= i < |tabs| ==> tabs[i] in TabButtons
    ensures ChooseAll(InitialPage, tabs).activeTab != Security
  {
    if tabs != [] {
      assert tabs[|tabs| - 1] in TabButtons;
    }
  }

  function ChooseAll(p: Page, tabs: seq<Tab>): (r: Page)
    requires forall i :: 0 <= i < |tabs| ==> tabs[i] in TabButtons
    ensures tabs == [] ==> r == p
    ensures tabs != [] ==> r.activeTab == tabs[|tabs| - 1]
    decreases |tabs|
  {
    if tabs == [] then p else ChooseAll(ChooseTab(p, tabs[0]), tabs[1..])
  }
}
