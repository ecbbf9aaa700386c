/** The page frame's health guard: on every route, and then every minute,
    the design audit runs; a drift puts the frame into repair, records the
    audit's style fixes and shows the score, and the repair ends three
    seconds later with full integrity. The delayed end of a repair is one
    later transition. */
module LayoutGuard {
  import opened Prelude
  import GeminiService

  datatype SystemState = Stable | Scanning | Repairing

  /** The guard's state. The integrity shown is None when a drifting audit
      gave no score, which the frame stores as it is. `healing` is the
      healing-active class on the document body. */
  datatype Guard = Guard(integrity: Option<int>, state: SystemState, fixes: string, healing: bool)

  const InitialGuard := Guard(Some(100), Stable, "", false)

  /** How an audit ends for the frame: with a result, or by throwing. */
  datatype AuditOutcome = Audited(result: GeminiService.AuditResult) | Threw

  /** The start of runAutonomousHealing. */
  function StartHealing(g: Guard): (r: Guard)
    ensures r.state == Scanning && r.healing
    ensures r.integrity == g.integrity && r.fixes == g.fixes
  {
    g.(state := Scanning, healing := true)
  }

  /** A drift is reported, or the score is below 100. */
  predicate NeedsRepair(a: GeminiService.AuditResult)
  {
    a.status == Some("DRIFT_DETECTED") || (a.integrityScore.Some? && a.integrityScore.value < 100)
  }

  /** A payload that is present and not empty. */
  predicate HasPayload(a: GeminiService.AuditResult)
  {
    a.cssRepairPayload.Some? && a.cssRepairPayload.value != ""
  }

  /** The audit's answer: a drift repairs with the reported score and
      appends the payload after a newline; anything else is stable at 100;
      an exception is stable with the integrity as it was. */
  function AuditDone(g: Guard, outcome: AuditOutcome): (r: Guard)
    ensures r.state == Repairing <==> outcome.Audited? && NeedsRepair(outcome.result)
    ensures r.state != Repairing ==> r.state == Stable && !r.healing && r.fixes == g.fixes
    ensures r.state == Repairing ==> (r.integrity == outcome.result.integrityScore && r.healing == g.healing)
    ensures outcome.Audited? && !NeedsRepair(outcome.result) ==> r.integrity == Some(100)
    ensures outcome.Threw? ==> r.integrity == g.integrity
    ensures outcome.Audited? && NeedsRepair(outcome.result) && HasPayload(outcome.result) ==>
      r.fixes == g.fixes + "\n" + outcome.result.cssRepairPayload.value
    ensures !(outcome.Audited? && NeedsRepair(outcome.result) && HasPayload(outcome.result)) ==> r.fixes == g.fixes
  {
    match outcome
    case Threw => g.(state := Stable, healing := false)
    case Audited(a) =>
      if NeedsRepair(a) then
        var fixes := if HasPayload(a) then g.fixes + "\n" + a.cssRepairPayload.value else g.fixes;
        g.(state := Repairing, integrity := a.integrityScore, fixes := fixes)
      else g.(state := Stable, integrity := Some(100), healing := false)
  }

  /** The end of a repair, three seconds later. */
  function RepairDone(g: Guard): (r: Guard)
    ensures r.state == Stable && r.integrity == Some(100) && !r.healing && r.fixes == g.fixes
  {
    g.(state := Stable, integrity := Some(100), healing := false)
  }

  /** A whole healing cycle, the repair's end included. */
  function Heal(g: Guard, outcome: AuditOutcome): (r: Guard)
    ensures r.state == Stable && !r.healing
    ensures StartsWith(r.fixes, g.fixes)
  {
    var a := AuditDone(StartHealing(g), outcome);
    if a.state == Repairing then RepairDone(a) else a
  }

  /** Every cycle ends stable with the body class removed and with full
      integrity, unless the audit threw, which leaves the integrity alone;
      the fixes only ever grow, by the payload of a drift. */
  lemma HealEndsStable(g: Guard, outcome: AuditOutcome)
    ensures var r := Heal(g, outcome);
      r.state == Stable && !r.healing
      && (outcome.Audited? ==> r.integrity == Some(100))
      && (outcome.Threw? ==> r.integrity == g.integrity)
      && StartsWith(r.fixes, g.fixes)
  {
  }

  /** The guard over a series of audits. */
  function Run(g: Guard, outcomes: seq<AuditOutcome>): (r: Guard)
    decreases |outcomes|
  {
    if outcomes == [] then g else Run(Heal(g, outcomes[0]), outcomes[1..])
  }

  /** The fixes are append-only over any series of audits: earlier fixes
      stay in place as a prefix. */
  lemma {:induction false} FixesOnlyGrow(g: Guard, outcomes: seq<AuditOutcome>)
    ensures StartsWith(Run(g, outcomes).fixes, g.fixes)
    ensures outcomes != [] ==> Run(g, outcomes).state == Stable
    decreases |outcomes|
  {
    if outcomes != [] {
      var next := Heal(g, outcomes[0]);
      HealEndsStable(g, outcomes[0]);
      FixesOnlyGrow(next, outcomes[1..]);
      var f := Run(g, outcomes).fixes;
      assert f[..|next.fixes|] == next.fixes;
      assert f[..|g.fixes|] == next.fixes[..|g.fixes|];
    }
  }

  /** Bar i of the integrity gauge, for i in 1..3, is lit at 33·i percent
      and above; a missing score lights none. */
  predicate BarLit(integrity: Option<int>, i: int)
  {
    integrity.Some? && integrity.value >= 33 * i
  }

  /** The lit bars are always the lowest ones, and full integrity lights
      all three. */
  lemma BarsFillFromTheBottom(integrity: Option<int>)
    ensures forall i, j :: 1 <= i <= j <= 3 && BarLit(integrity, j) ==> BarLit(integrity, i)
    ensures integrity == Some(100) ==> BarLit(integrity, 1) && BarLit(integrity, 2) && BarLit(integrity, 3)
    ensures integrity.Some? && integrity.value < 33 ==> !BarLit(integrity, 1)
  {
  }

  /** Composed with the audit service, which falls back instead of
      failing, the frame never takes its exception path: when every
      attempt fails it sees the fallback and ends stable at 100. */
  lemma AuditFailureReadsAsHealthy(g: Guard, attempts: nat -> GeminiService.Attempt<GeminiService.AuditResult>)
    requires forall k :: 0 <= k <= 3 ==> attempts(k).Failure?
    ensures var r := Heal(g, Audited(GeminiService.PerformGlobalDesignAudit(attempts)));
      r.state == Stable && r.integrity == Some(100) && r.fixes == g.fixes && !r.healing
  {
    assert !NeedsRepair(GeminiService.AuditFallback);
  }
}
