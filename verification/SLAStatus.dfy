/** The SLA record and its transitions (packages/sla/src/status.ts, packages/sla/src/ruleSla.ts).

    Each transition is a function on record values; the `StatusStore` methods, which read the stored record,
    compute with the loops of `Policy` and overwrite it, are proved against them.
 */
module SLAStatuses {
  import opened Basics
  import opened Wrappers
  import opened ServiceTime
  import opened Zones
  import opened Policy
  import opened SLAClocks

  /** A warning lead is a positive whole number of minutes. */
  type Lead = m: int | m > 0 witness 30

  datatype Tier = Tier(severity: string, responseMinutes: nat, resolveMinutes: nat, businessHours: bool,
                       warningMinutes: Lead)

  datatype SLAPolicy = SLAPolicy(id: string, timezone: Zone, calendar: Option<ServiceCalendar>, tiers: seq<Tier>)

  datatype PauseType = PauseResolve | PauseResponse | PauseBoth

  datatype SLAStatus = SLAStatus(
    startedAt: int,
    responseDeadline: int,
    resolveDeadline: int,
    responseMet: bool,
    resolveMet: bool,
    breached: bool,
    breachedAt: Option<int>,
    resolvedAt: Option<int>,
    pausedAt: Option<int>,
    pausedType: Option<PauseType>,
    policyId: Option<string>,
    pausedTotal: nat,
    responseBreachNotifiedAt: Option<int>,
    responseMetAt: Option<int>,
    warningSentFor: Option<int>,
    tier: Tier)

  datatype StatusError = NoTier | NoPolicyNamed | PolicyGone | NoTimezone | NotATarget | Failed(cause: PolicyError)

  /** What the store holds of a policy; its zone is its own, else the tenant's. */
  datatype PolicyNode = PolicyNode(timezone: Option<Zone>, calendar: Option<ServiceCalendar>, businessHours: bool,
                                   responseMinutes: nat, resolveMinutes: nat, warningMinutes: Lead)

  type Policies = map<string, PolicyNode>

  /** `clockOf`: the clock of a stored SLA is the one of the policy it came from, as that policy is now. */
  function ClockOf(s: SLAStatus, policies: Policies): (r: Result<SLAClock, StatusError>)
    ensures r.Ok? ==> Complete(r.value)
  {
    if !s.tier.businessHours then Ok(TWENTY_FOUR_SEVEN)
    else if s.policyId.None? then Err(NoPolicyNamed)
    else if s.policyId.value !in policies then Err(PolicyGone)
    else
      var p := policies[s.policyId.value];
      if p.timezone.None? then Err(NoTimezone)
      else if p.calendar.None? then Err(Failed(NoCalendar))
      else Ok(SLAClock(true, p.timezone.value, p.calendar))
  }

  function TierClock(p: SLAPolicy, t: Tier): SLAClock { SLAClock(t.businessHours, p.timezone, p.calendar) }

  function PauseTypeOf(s: SLAStatus): PauseType {
    if s.pausedType.Some? then s.pausedType.value else PauseBoth
  }

  predicate StopsResolve(p: PauseType) { p != PauseResponse }

  predicate StopsResponse(p: PauseType) { p != PauseResolve }

  predicate ResolvePaused(s: SLAStatus) { s.pausedAt.Some? && StopsResolve(PauseTypeOf(s)) }

  predicate IsOpen(s: SLAStatus) { s.resolvedAt.None? }

  // ── The transitions ────────────────────────────────────────────────────────

  ghost function Created(policyId: string, tier: Tier, clock: SLAClock, startedAt: int): SLAStatus
    requires Complete(clock)
  {
    SLAStatus(startedAt, Deadline(startedAt, tier.responseMinutes, clock),
              Deadline(startedAt, tier.resolveMinutes, clock),
              false, false, false, None, None, None, None, Some(policyId), 0, None, None, None, tier)
  }

  predicate CanPause(s: SLAStatus) { s.pausedAt.None? && !s.resolveMet && s.resolvedAt.None? }

  function Paused(s: SLAStatus, p: PauseType, at: int): SLAStatus {
    s.(pausedAt := Some(at), pausedType := Some(p))
  }

  ghost function Resumed(s: SLAStatus, at: int, clock: SLAClock): SLAStatus
    requires Complete(clock) && s.pausedAt.Some?
  {
    var shift := Counted(s.pausedAt.value, at, clock);
    var p := PauseTypeOf(s);
    s.(responseDeadline := if StopsResponse(p) then Extended(s.responseDeadline, shift, clock) else s.responseDeadline,
       resolveDeadline := if StopsResolve(p) then Extended(s.resolveDeadline, shift, clock) else s.resolveDeadline,
       pausedAt := None, pausedType := None, pausedTotal := s.pausedTotal + shift)
  }

  /** The time a pause still open at the resolution adds to the resolve deadline. */
  ghost function OpenPause(s: SLAStatus, at: int, clock: SLAClock): nat
    requires Complete(clock)
  {
    if ResolvePaused(s) then Counted(s.pausedAt.value, at, clock) else 0
  }

  ghost function Resolved(s: SLAStatus, at: int, clock: SLAClock): SLAStatus
    requires Complete(clock)
  {
    var shift := OpenPause(s, at, clock);
    var deadline := Extended(s.resolveDeadline, shift, clock);
    s.(resolveMet := at <= deadline, breached := s.breached || at > deadline, resolvedAt := Some(at),
       resolveDeadline := deadline, pausedTotal := s.pausedTotal + shift, pausedAt := None, pausedType := None)
  }

  ghost function Reopened(s: SLAStatus, at: int, clock: SLAClock): SLAStatus
    requires Complete(clock) && s.resolvedAt.Some?
  {
    var shift := Counted(s.resolvedAt.value, at, clock);
    s.(resolveDeadline := Extended(s.resolveDeadline, shift, clock), pausedTotal := s.pausedTotal + shift,
       resolvedAt := None, resolveMet := false)
  }

  /** A change of policy applies to an open SLA that came from a policy, when the policy or the tier differs. */
  predicate CanRepolicy(s: SLAStatus, policyId: string, severity: string) {
    s.resolvedAt.None? && s.policyId.Some? && !(s.policyId.value == policyId && s.tier.severity == severity)
  }

  ghost function Repoliced(s: SLAStatus, policyId: string, tier: Tier, clock: SLAClock): SLAStatus
    requires Complete(clock)
  {
    s.(responseDeadline := Extended(Deadline(s.startedAt, tier.responseMinutes, clock), s.pausedTotal, clock),
       resolveDeadline := Extended(Deadline(s.startedAt, tier.resolveMinutes, clock), s.pausedTotal, clock),
       tier := tier, policyId := Some(policyId))
  }

  function MarkedBreached(s: SLAStatus, at: int): SLAStatus {
    s.(breached := true, breachedAt := if s.breachedAt.Some? then s.breachedAt else Some(at))
  }

  function MarkedResponse(s: SLAStatus, at: int): SLAStatus {
    s.(responseMet := true, responseMetAt := if s.responseMetAt.Some? then s.responseMetAt else Some(at))
  }

  function MarkedResponseNotified(s: SLAStatus, at: int): SLAStatus {
    s.(responseBreachNotifiedAt :=
         if s.responseBreachNotifiedAt.Some? then s.responseBreachNotifiedAt else Some(at))
  }

  /** The targets of a rule: always around the clock, the response not after the resolution. */
  datatype RuleSLA = RuleSLA(responseMinutes: int, resolveMinutes: int, warningMinutes: Lead, startedAt: int)

  predicate ValidRule(r: RuleSLA) {
    0 < r.responseMinutes <= r.resolveMinutes
  }

  /** `applyRuleSLA`: a new record with the rule's targets that keeps the start and the facts of the one it replaces. */
  function RuleReplaced(previous: Option<SLAStatus>, rule: RuleSLA): SLAStatus
    requires ValidRule(rule)
  {
    var tier := Tier("custom", rule.responseMinutes, rule.resolveMinutes, false, rule.warningMinutes);
    match previous
    case None =>
      SLAStatus(rule.startedAt, rule.startedAt + rule.responseMinutes, rule.startedAt + rule.resolveMinutes,
                false, false, false, None, None, None, None, None, 0, None, None, None, tier)
    case Some(s) =>
      SLAStatus(s.startedAt,
                s.startedAt + rule.responseMinutes + s.pausedTotal, s.startedAt + rule.resolveMinutes + s.pausedTotal,
                s.responseMet, s.resolveMet, s.breached, if s.breached then s.breachedAt else None,
                s.resolvedAt, s.pausedAt, if s.pausedAt.Some? then s.pausedType else None,
                None, s.pausedTotal, None, None, None, tier)
  }

  // ── When a transition has a result ─────────────────────────────────────────

  /** The clock is read only when a pause of the resolve clock is still open. */
  function ResolutionClock(s: SLAStatus, policies: Policies): (r: Result<SLAClock, StatusError>)
    ensures r.Ok? ==> Complete(r.value)
  {
    if ResolvePaused(s) then ClockOf(s, policies) else Ok(TWENTY_FOUR_SEVEN)
  }

  /** The first tier of the severity. */
  function FindTier(tiers: seq<Tier>, severity: string): (r: Option<Tier>)
    ensures r.Some? ==> exists i | 0 <= i < |tiers| ::
                          tiers[i] == r.value && r.value.severity == severity && NoneBefore(tiers, i, severity)
    ensures r.None? <==> NoneBefore(tiers, |tiers|, severity)
  {
    if tiers == [] then None
    else if tiers[0].severity == severity then
      assert NoneBefore(tiers, 0, severity);
      Some(tiers[0])
    else
      var r := FindTier(tiers[1..], severity);
      assert forall i | 0 <= i < |tiers| :: NoneBefore(tiers[1..], i, severity) ==> NoneBefore(tiers, i + 1, severity);
      assert NoneBefore(tiers, |tiers|, severity) ==> NoneBefore(tiers[1..], |tiers| - 1, severity) by {
        assert forall j | 0 <= j < |tiers| - 1 :: tiers[1..][j] == tiers[j + 1];
      }
      r
  }

  predicate NoneBefore(tiers: seq<Tier>, n: int, severity: string)
    requires n <= |tiers|
  {
    forall j | 0 <= j < n :: tiers[j].severity != severity
  }

  /** Both deadlines of a tier, or why one of them is missing. */
  ghost function TierResult(from: int, tier: Tier, clock: SLAClock): Result<(), StatusError> {
    var response := DeadlineOn(from, tier.responseMinutes, clock);
    var resolve := DeadlineOn(from, tier.resolveMinutes, clock);
    if response.Err? then Err(Failed(response.error))
    else if resolve.Err? then Err(Failed(resolve.error)) else Ok(())
  }

  ghost function CreateResult(policy: SLAPolicy, severity: string, startedAt: int): Result<SLAStatus, StatusError> {
    var tier := FindTier(policy.tiers, severity);
    if tier.None? then Err(NoTier) else
    var r := TierResult(startedAt, tier.value, TierClock(policy, tier.value));
    if r.Err? then Err(r.error) else Ok(Created(policy.id, tier.value, TierClock(policy, tier.value), startedAt))
  }

  /** The deadlines moved by the counted shift, those that are to move. */
  ghost function ShiftResult(s: SLAStatus, response: bool, resolve: bool, shift: Result<nat, PolicyError>, clock: SLAClock)
    : Result<(), StatusError>
  {
    if shift.Err? then Err(Failed(shift.error)) else
    var first := if response then ExtendedOn(s.responseDeadline, shift.value, clock) else Ok(s.responseDeadline);
    var second := if resolve then ExtendedOn(s.resolveDeadline, shift.value, clock) else Ok(s.resolveDeadline);
    if first.Err? then Err(Failed(first.error)) else if second.Err? then Err(Failed(second.error)) else Ok(())
  }

  ghost function ResumeResult(s: SLAStatus, at: int, policies: Policies): Result<SLAStatus, StatusError>
    requires s.pausedAt.Some?
  {
    var clock, p := ClockOf(s, policies), PauseTypeOf(s);
    if clock.Err? then Err(clock.error) else
    var r := ShiftResult(s, StopsResponse(p), StopsResolve(p), CountedOn(s.pausedAt.value, at, clock.value), clock.value);
    if r.Err? then Err(r.error) else Ok(Resumed(s, at, clock.value))
  }

  ghost function ResolveResult(s: SLAStatus, at: int, policies: Policies): Result<SLAStatus, StatusError> {
    var clock := ResolutionClock(s, policies);
    if clock.Err? then Err(clock.error) else
    var shift := if ResolvePaused(s) then CountedOn(s.pausedAt.value, at, clock.value) else Ok(0);
    var r := ShiftResult(s, false, true, shift, clock.value);
    if r.Err? then Err(r.error) else Ok(Resolved(s, at, clock.value))
  }

  ghost function ReopenResult(s: SLAStatus, at: int, policies: Policies): Result<SLAStatus, StatusError>
    requires s.resolvedAt.Some?
  {
    var clock := ClockOf(s, policies);
    if clock.Err? then Err(clock.error) else
    var r := ShiftResult(s, false, true, CountedOn(s.resolvedAt.value, at, clock.value), clock.value);
    if r.Err? then Err(r.error) else Ok(Reopened(s, at, clock.value))
  }

  ghost function RepolicyResult(s: SLAStatus, policy: SLAPolicy, severity: string): Result<SLAStatus, StatusError> {
    var found := FindTier(policy.tiers, severity);
    if found.None? then Err(NoTier) else
    var tier, clock := found.value, TierClock(policy, found.value);
    var response := ReappliedOn(s, tier.responseMinutes, clock);
    var resolve := ReappliedOn(s, tier.resolveMinutes, clock);
    if response.Err? then Err(Failed(response.error))
    else if resolve.Err? then Err(Failed(resolve.error)) else Ok(Repoliced(s, policy.id, tier, clock))
  }

  /** A deadline from the start, moved by the pause total. */
  ghost function ReappliedOn(s: SLAStatus, minutes: nat, clock: SLAClock): (r: Result<int, PolicyError>)
    ensures r.Ok? ==> Complete(clock) && r.value == Extended(Deadline(s.startedAt, minutes, clock), s.pausedTotal, clock)
  {
    var first := DeadlineOn(s.startedAt, minutes, clock);
    if first.Err? then first else ExtendedOn(first.value, s.pausedTotal, clock)
  }

  /** NO TRANSITION FAILS on a clock with at most 522 holidays, over stops of up to 36600 days. */
  lemma ResumeSucceeds(s: SLAStatus, at: int, policies: Policies)
    requires s.pausedAt.Some? && ClockOf(s, policies).Ok? && Searchable(ClockOf(s, policies).value)
    requires WithinCentury(s.pausedAt.value, at, ClockOf(s, policies).value)
    ensures ResumeResult(s, at, policies) == Ok(Resumed(s, at, ClockOf(s, policies).value))
  {
    var clock := ClockOf(s, policies).value;
    SearchableCounts(s.pausedAt.value, at, clock);
    var shift := Counted(s.pausedAt.value, at, clock);
    SearchableExtends(s.responseDeadline, shift, clock);
    SearchableExtends(s.resolveDeadline, shift, clock);
  }

  lemma ResolveSucceeds(s: SLAStatus, at: int, policies: Policies)
    requires ResolutionClock(s, policies).Ok? && Searchable(ResolutionClock(s, policies).value)
    requires ResolvePaused(s) ==> WithinCentury(s.pausedAt.value, at, ResolutionClock(s, policies).value)
    ensures ResolveResult(s, at, policies) == Ok(Resolved(s, at, ResolutionClock(s, policies).value))
  {
    var clock := ResolutionClock(s, policies).value;
    if ResolvePaused(s) { SearchableCounts(s.pausedAt.value, at, clock); }
    SearchableExtends(s.resolveDeadline, OpenPause(s, at, clock), clock);
  }

  lemma ReopenSucceeds(s: SLAStatus, at: int, policies: Policies)
    requires s.resolvedAt.Some? && ClockOf(s, policies).Ok? && Searchable(ClockOf(s, policies).value)
    requires WithinCentury(s.resolvedAt.value, at, ClockOf(s, policies).value)
    ensures ReopenResult(s, at, policies) == Ok(Reopened(s, at, ClockOf(s, policies).value))
  {
    var clock := ClockOf(s, policies).value;
    SearchableCounts(s.resolvedAt.value, at, clock);
    SearchableExtends(s.resolveDeadline, Counted(s.resolvedAt.value, at, clock), clock);
  }

  lemma CreateSucceeds(policy: SLAPolicy, severity: string, startedAt: int)
    requires FindTier(policy.tiers, severity).Some?
    requires Searchable(TierClock(policy, FindTier(policy.tiers, severity).value))
    ensures var tier := FindTier(policy.tiers, severity).value;
            CreateResult(policy, severity, startedAt) == Ok(Created(policy.id, tier, TierClock(policy, tier), startedAt))
  {
    var tier := FindTier(policy.tiers, severity).value;
    SearchableExtends(startedAt, tier.responseMinutes, TierClock(policy, tier));
    SearchableExtends(startedAt, tier.resolveMinutes, TierClock(policy, tier));
  }

  lemma RepolicySucceeds(s: SLAStatus, policy: SLAPolicy, severity: string)
    requires FindTier(policy.tiers, severity).Some?
    requires Searchable(TierClock(policy, FindTier(policy.tiers, severity).value))
    ensures var tier := FindTier(policy.tiers, severity).value;
            RepolicyResult(s, policy, severity) == Ok(Repoliced(s, policy.id, tier, TierClock(policy, tier)))
  {
    var tier := FindTier(policy.tiers, severity).value;
    var clock := TierClock(policy, tier);
    SearchableExtends(s.startedAt, tier.responseMinutes, clock);
    SearchableExtends(s.startedAt, tier.resolveMinutes, clock);
    SearchableExtends(Deadline(s.startedAt, tier.responseMinutes, clock), s.pausedTotal, clock);
    SearchableExtends(Deadline(s.startedAt, tier.resolveMinutes, clock), s.pausedTotal, clock);
  }

  // ── The ledger ─────────────────────────────────────────────────────────────

  /** The resolve deadline is the one of a fresh SLA, moved by the pause total: no shift is lost or counted twice. */
  ghost predicate Ledger(s: SLAStatus, clock: SLAClock)
    requires Complete(clock)
  {
    s.resolveDeadline == Extended(Deadline(s.startedAt, s.tier.resolveMinutes, clock), s.pausedTotal, clock)
  }

  lemma CreatedLedger(policyId: string, tier: Tier, clock: SLAClock, startedAt: int)
    requires Complete(clock)
    ensures Ledger(Created(policyId, tier, clock, startedAt), clock)
  {}

  /** The record's deadline, when it was moved already, crosses no service time. */
  ghost predicate TargetClear(s: SLAStatus, clock: SLAClock) {
    Complete(clock) && (s.pausedTotal > 0 ==>
      CrossesNothing(Deadline(s.startedAt, s.tier.resolveMinutes, clock), s.pausedTotal, clock))
  }

  function Shifted(s: SLAStatus, deadline: int, shift: nat): SLAStatus {
    s.(resolveDeadline := deadline, pausedTotal := s.pausedTotal + shift)
  }

  lemma ShiftKeepsLedger(s: SLAStatus, s': SLAStatus, shift: nat, clock: SLAClock)
    requires TargetClear(s, clock) && Ledger(s, clock)
    requires s'.startedAt == s.startedAt && s'.tier == s.tier
    requires s'.resolveDeadline == Extended(s.resolveDeadline, shift, clock) && s'.pausedTotal == s.pausedTotal + shift
    ensures Ledger(s', clock)
  {
    ExtensionsAdd(Deadline(s.startedAt, s.tier.resolveMinutes, clock), s.pausedTotal, shift, clock);
  }

  /** EXACTLY. In a zone with bounded offsets, whatever shift comes next the ledger survives it exactly if the record's
      deadline is clear. */
  lemma LedgerSurvivesIff(s: SLAStatus, clock: SLAClock)
    requires Complete(clock) && Bounded(clock.timezone) && Ledger(s, clock)
    ensures (forall shift: nat :: Ledger(Shifted(s, Extended(s.resolveDeadline, shift, clock), shift), clock))
       <==> TargetClear(s, clock)
  {
    if TargetClear(s, clock) {
      forall shift: nat ensures Ledger(Shifted(s, Extended(s.resolveDeadline, shift, clock), shift), clock) {
        ShiftKeepsLedger(s, Shifted(s, Extended(s.resolveDeadline, shift, clock), shift), shift, clock);
      }
    } else {
      var shift := BrokenExtension(Deadline(s.startedAt, s.tier.resolveMinutes, clock), s.pausedTotal, clock);
      ShiftedLedgerIff(s, shift, clock);
    }
  }

  lemma ShiftedLedgerIff(s: SLAStatus, shift: nat, clock: SLAClock)
    requires Complete(clock) && Ledger(s, clock) && shift > 0
    ensures var first := Deadline(s.startedAt, s.tier.resolveMinutes, clock);
            Ledger(Shifted(s, Extended(s.resolveDeadline, shift, clock), shift), clock)
            <==> s.pausedTotal == 0 || Extended(Deadline(first, s.pausedTotal, clock), shift, clock)
                                       == Deadline(first, s.pausedTotal + shift, clock)
  {}

  lemma ResumeKeepsLedger(s: SLAStatus, at: int, clock: SLAClock)
    requires TargetClear(s, clock) && Ledger(s, clock) && ResolvePaused(s)
    ensures Ledger(Resumed(s, at, clock), clock)
  {
    ShiftKeepsLedger(s, Resumed(s, at, clock), Counted(s.pausedAt.value, at, clock), clock);
  }

  /** A resume keeps the ledger when the pause stopped the resolve clock. A response-only pause is added to the total
      without moving the resolve deadline, so the ledger then survives exactly if the pause counted nothing — on any clock
      on which neither the deadline before nor the one it should have moved to crosses service time. */
  lemma ResumeAndLedger(s: SLAStatus, at: int, clock: SLAClock)
    requires s.pausedAt.Some? && TargetClear(s, clock) && Ledger(s, clock)
    requires TargetClear(s.(pausedTotal := s.pausedTotal + Counted(s.pausedAt.value, at, clock)), clock)
    ensures Ledger(Resumed(s, at, clock), clock)
       <==> ResolvePaused(s) || Counted(s.pausedAt.value, at, clock) == 0
  {
    if ResolvePaused(s) {
      ResumeKeepsLedger(s, at, clock);
    } else if Counted(s.pausedAt.value, at, clock) > 0 {
      MoreIsElsewhere(Deadline(s.startedAt, s.tier.resolveMinutes, clock), s.pausedTotal,
                      s.pausedTotal + Counted(s.pausedAt.value, at, clock), clock);
    }
  }

  /** Different extensions that cross no service time end at different instants. */
  lemma MoreIsElsewhere(deadline: int, a: nat, b: nat, clock: SLAClock)
    requires Complete(clock) && a < b && CrossesNothing(deadline, b, clock)
    requires a > 0 ==> CrossesNothing(deadline, a, clock)
    ensures Extended(deadline, a, clock) != Extended(deadline, b, clock)
  {
    if clock.businessHours {
      var c, z := clock.calendar.value, clock.timezone;
      var local := Local(z, deadline);
      var first := if a > 0 then LocalDeadline(c, z, deadline, a) else local;
      var later := LocalDeadline(c, z, deadline, b);
      ServiceUpTo(c, local, a, b);
      assert first <= later - 1 && IsService(c, later - 1);
      assert NoServiceBetween(c, later, ShownAtTarget(z, later));
      if a > 0 { assert NoServiceBetween(c, first, ShownAtTarget(z, first)); }
    }
  }

  /** The target of `b` minutes ends after a service minute, which lies beyond the target of fewer minutes. */
  lemma ServiceUpTo(c: ServiceCalendar, local: int, a: nat, b: nat)
    requires a < b
    ensures var later := DeadlineAt(c, local, b);
            && IsService(c, later - 1) && local <= later - 1
            && DeadlineAt(c, local, a) <= later - 1
  {
    TargetAfterStart(c, local, b);
    DeadlineIsWalk(c, local, b);
    WalkComposes(c, AdvanceToService(c, local), a, b - a);
    WalkCounts(c, DeadlineAt(c, local, a), b - a);
  }

  /** A longer target has a strictly later deadline, on a clock that repeats no service time, when neither crosses any. */
  lemma LongerIsLater(from: int, m: nat, more: nat, clock: SLAClock)
    requires NoServiceRepeated(clock) && more > 0
    requires CrossesNothing(from, m, clock) && CrossesNothing(from, m + more, clock)
    ensures Deadline(from, m, clock) < Deadline(from, m + more, clock)
  {
    if clock.businessHours {
      var c, z := clock.calendar.value, clock.timezone;
      var first, later := LocalDeadline(c, z, from, m), LocalDeadline(c, z, from, m + more);
      ServiceUpTo(c, Local(z, from), m, m + more);
      var s := later - 1;
      assert !(Min(first, ShownAtTarget(z, first)) <= s < Max(first, ShownAtTarget(z, first)));
      assert !(Min(later, ShownAtTarget(z, later)) <= s < Max(later, ShownAtTarget(z, later)));
      assert ShownAtTarget(z, first) <= s < ShownAtTarget(z, later);
      assert Local(z, Deadline(from, m, clock)) <= s < Local(z, Deadline(from, m + more, clock));
    }
  }

  lemma ResolveKeepsLedger(s: SLAStatus, at: int, clock: SLAClock)
    requires TargetClear(s, clock) && Ledger(s, clock)
    ensures Ledger(Resolved(s, at, clock), clock)
  {
    ShiftKeepsLedger(s, Resolved(s, at, clock), OpenPause(s, at, clock), clock);
  }

  lemma ReopenKeepsLedger(s: SLAStatus, at: int, clock: SLAClock)
    requires TargetClear(s, clock) && Ledger(s, clock) && s.resolvedAt.Some?
    ensures Ledger(Reopened(s, at, clock), clock)
  {
    ShiftKeepsLedger(s, Reopened(s, at, clock), Counted(s.resolvedAt.value, at, clock), clock);
  }

  lemma RuleLedger(previous: Option<SLAStatus>, rule: RuleSLA)
    requires ValidRule(rule)
    ensures Ledger(RuleReplaced(previous, rule), TWENTY_FOUR_SEVEN)
  {}

  // ── The store ──────────────────────────────────────────────────────────────

  /** A result that is stored and returned, or an error that changes nothing. */
  predicate Stored(result: Result<SLAStatus, StatusError>, r: Result<Option<SLAStatus>, StatusError>, entity: string,
                   before: map<string, SLAStatus>, after: map<string, SLAStatus>)
  {
    if result.Err? then r == Err(result.error) && after == before
    else r == Ok(Some(result.value)) && after == before[entity := result.value]
  }

  /** The stored records, one per ticket. A method that fails throws before it writes. */
  class StatusStore {
    var rows: map<string, SLAStatus>
    const policies: Policies

    constructor (policies: Policies)
      ensures rows == map[] && this.policies == policies
    {
      rows := map[];
      this.policies := policies;
    }

    /** Creates the record once: for a ticket that has one, the stored record is returned unchanged. */
    method CreateSLAStatus(entity: string, severity: string, policy: SLAPolicy, startedAt: int)
      returns (r: Result<SLAStatus, StatusError>)
      modifies this`rows
      ensures r == if CreateResult(policy, severity, startedAt).Ok? && entity in old(rows) then Ok(old(rows)[entity])
                   else CreateResult(policy, severity, startedAt)
      ensures rows == if r.Ok? then old(rows)[entity := r.value] else old(rows)
    {
      var found := FindTier(policy.tiers, severity);
      if found.None? { return Err(NoTier); }
      var tier := found.value;
      var response := CalculateDeadline(startedAt, tier.responseMinutes, tier.businessHours, policy.timezone, policy.calendar);
      if response.Err? { return Err(Failed(response.error)); }
      var resolve := CalculateDeadline(startedAt, tier.resolveMinutes, tier.businessHours, policy.timezone, policy.calendar);
      if resolve.Err? { return Err(Failed(resolve.error)); }
      if entity !in rows {
        rows := rows[entity := SLAStatus(startedAt, response.value, resolve.value, false, false, false,
                                         None, None, None, None, Some(policy.id), 0, None, None, None, tier)];
      }
      return Ok(rows[entity]);
    }

    method PauseSLA(entity: string, p: PauseType, at: int) returns (r: Option<SLAStatus>)
      modifies this`rows
      ensures if entity in old(rows) && CanPause(old(rows)[entity])
              then r == Some(Paused(old(rows)[entity], p, at)) && rows == old(rows)[entity := r.value]
              else r == None && rows == old(rows)
    {
      if entity !in rows || rows[entity].pausedAt.Some? || rows[entity].resolveMet || rows[entity].resolvedAt.Some? {
        return None;
      }
      rows := rows[entity := rows[entity].(pausedAt := Some(at), pausedType := Some(p))];
      return Some(rows[entity]);
    }

    /** The record that is returned still says which clock was paused, for the caller to re-arm its timers. */
    method ResumeSLA(entity: string, at: int) returns (r: Result<Option<SLAStatus>, StatusError>)
      modifies this`rows
      ensures if entity in old(rows) && old(rows)[entity].pausedAt.Some? then
                var s := old(rows)[entity];
                var result := ResumeResult(s, at, policies);
                && r == (if result.Err? then Err(result.error)
                         else Ok(Some(result.value.(pausedType := Some(PauseTypeOf(s))))))
                && rows == (if result.Err? then old(rows) else old(rows)[entity := result.value])
              else r == Ok(None) && rows == old(rows)
    {
      if entity !in rows || rows[entity].pausedAt.None? { return Ok(None); }
      var s := rows[entity];
      var p := PauseTypeOf(s);
      var clock := ClockOf(s, policies);
      if clock.Err? { return Err(clock.error); }
      var shift := CountedTime(s.pausedAt.value, at, clock.value);
      if shift.Err? { return Err(Failed(shift.error)); }
      var response, resolve := Ok(s.responseDeadline), Ok(s.resolveDeadline);
      if StopsResponse(p) { response := ExtendDeadline(s.responseDeadline, shift.value, clock.value); }
      if response.Err? { return Err(Failed(response.error)); }
      if StopsResolve(p) { resolve := ExtendDeadline(s.resolveDeadline, shift.value, clock.value); }
      if resolve.Err? { return Err(Failed(resolve.error)); }
      var s' := s.(responseDeadline := response.value, resolveDeadline := resolve.value,
                   pausedAt := None, pausedType := None, pausedTotal := s.pausedTotal + shift.value);
      rows := rows[entity := s'];
      return Ok(Some(s'.(pausedType := Some(p))));
    }

    method MarkResolveMet(entity: string, at: int) returns (r: Result<Option<SLAStatus>, StatusError>)
      modifies this`rows
      ensures if entity in old(rows)
              then Stored(ResolveResult(old(rows)[entity], at, policies), r, entity, old(rows), rows)
              else r == Ok(None) && rows == old(rows)
    {
      if entity !in rows { return Ok(None); }
      var s := rows[entity];
      var clock := ResolutionClock(s, policies);
      if clock.Err? { return Err(clock.error); }
      var shift: Result<nat, PolicyError> := Ok(0);
      if ResolvePaused(s) { shift := CountedTime(s.pausedAt.value, at, clock.value); }
      if shift.Err? { return Err(Failed(shift.error)); }
      var deadline := ExtendDeadline(s.resolveDeadline, shift.value, clock.value);
      if deadline.Err? { return Err(Failed(deadline.error)); }
      var met := at <= deadline.value;
      var s' := s.(resolveMet := met, breached := if met then s.breached else true, resolvedAt := Some(at),
                   resolveDeadline := deadline.value, pausedTotal := s.pausedTotal + shift.value,
                   pausedAt := None, pausedType := None);
      rows := rows[entity := s'];
      return Ok(Some(s'));
    }

    method ReopenSLA(entity: string, at: int) returns (r: Result<Option<SLAStatus>, StatusError>)
      modifies this`rows
      ensures if entity in old(rows) && old(rows)[entity].resolvedAt.Some?
              then Stored(ReopenResult(old(rows)[entity], at, policies), r, entity, old(rows), rows)
              else r == Ok(None) && rows == old(rows)
    {
      if entity !in rows || rows[entity].resolvedAt.None? { return Ok(None); }
      var s := rows[entity];
      var clock := ClockOf(s, policies);
      if clock.Err? { return Err(clock.error); }
      var shift := CountedTime(s.resolvedAt.value, at, clock.value);
      if shift.Err? { return Err(Failed(shift.error)); }
      var deadline := ExtendDeadline(s.resolveDeadline, shift.value, clock.value);
      if deadline.Err? { return Err(Failed(deadline.error)); }
      var s' := s.(resolveDeadline := deadline.value, pausedTotal := s.pausedTotal + shift.value,
                   resolvedAt := None, resolveMet := false);
      rows := rows[entity := s'];
      return Ok(Some(s'));
    }

    method RepolicySLA(entity: string, policy: SLAPolicy, severity: string)
      returns (r: Result<Option<SLAStatus>, StatusError>)
      modifies this`rows
      ensures if entity in old(rows) && CanRepolicy(old(rows)[entity], policy.id, severity)
              then Stored(RepolicyResult(old(rows)[entity], policy, severity), r, entity, old(rows), rows)
              else r == Ok(None) && rows == old(rows)
    {
      if entity !in rows || !CanRepolicy(rows[entity], policy.id, severity) { return Ok(None); }
      var s := rows[entity];
      var found := FindTier(policy.tiers, severity);
      if found.None? { return Err(NoTier); }
      var tier := found.value;
      var clock := TierClock(policy, tier);
      var response := CalculateDeadline(s.startedAt, tier.responseMinutes, tier.businessHours, policy.timezone, policy.calendar);
      if response.Err? { return Err(Failed(response.error)); }
      response := ExtendDeadline(response.value, s.pausedTotal, clock);
      if response.Err? { return Err(Failed(response.error)); }
      var resolve := CalculateDeadline(s.startedAt, tier.resolveMinutes, tier.businessHours, policy.timezone, policy.calendar);
      if resolve.Err? { return Err(Failed(resolve.error)); }
      resolve := ExtendDeadline(resolve.value, s.pausedTotal, clock);
      if resolve.Err? { return Err(Failed(resolve.error)); }
      var s' := s.(responseDeadline := response.value, resolveDeadline := resolve.value, tier := tier,
                   policyId := Some(policy.id));
      rows := rows[entity := s'];
      return Ok(Some(s'));
    }

    /** The record part of `applyRuleSLA`. */
    method ReplaceByRule(entity: string, rule: RuleSLA) returns (r: Result<SLAStatus, StatusError>)
      modifies this`rows
      ensures r.Ok? <==> ValidRule(rule)
      ensures r.Err? ==> rows == old(rows)
      ensures r.Ok? ==> rows == old(rows)[entity := r.value]
      ensures r.Ok? ==> r.value == RuleReplaced(if entity in old(rows) then Some(old(rows)[entity]) else None, rule)
    {
      if rule.responseMinutes <= 0 || rule.resolveMinutes <= 0 || rule.responseMinutes > rule.resolveMinutes {
        return Err(NotATarget);
      }
      var tier := Tier("custom", rule.responseMinutes, rule.resolveMinutes, false, rule.warningMinutes);
      var startedAt, pausedTotal := rule.startedAt, 0;
      var s := SLAStatus(startedAt, 0, 0, false, false, false, None, None, None, None, None, 0, None, None, None, tier);
      if entity in rows {
        var previous := rows[entity];
        startedAt, pausedTotal := previous.startedAt, previous.pausedTotal;
        s := s.(startedAt := startedAt, responseMet := previous.responseMet, resolveMet := previous.resolveMet,
                breached := previous.breached, breachedAt := if previous.breached then previous.breachedAt else None,
                resolvedAt := previous.resolvedAt, pausedAt := previous.pausedAt,
                pausedType := if previous.pausedAt.Some? then previous.pausedType else None, pausedTotal := pausedTotal);
      }
      var response := CalculateDeadline(startedAt, rule.responseMinutes, false, TWENTY_FOUR_SEVEN.timezone, None);
      var resolve := CalculateDeadline(startedAt, rule.resolveMinutes, false, TWENTY_FOUR_SEVEN.timezone, None);
      s := s.(responseDeadline := response.value + pausedTotal, resolveDeadline := resolve.value + pausedTotal);
      rows := rows[entity := s];
      return Ok(s);
    }

    /** Applies one of the single-field marks to a ticket that has a record. */
    method Mark(entity: string, mark: SLAStatus -> SLAStatus)
      modifies this`rows
      ensures rows == if entity in old(rows) then old(rows)[entity := mark(old(rows)[entity])] else old(rows)
    {
      if entity in rows { rows := rows[entity := mark(rows[entity])]; }
    }
  }
}
