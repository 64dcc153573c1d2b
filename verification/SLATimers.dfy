/** The timers of an SLA and the steps that arm, cancel and fire them (packages/sla/src/engine.ts,
    packages/sla/src/scheduler.ts, packages/sla/src/sweep.ts), as functions on one ticket: its record and its
    queued jobs. `SLAEngines` proves the handlers against these steps; here they are proved over whole runs.

    A handler runs to its end without a timer of the same ticket firing in between.
 */
module SLATimers {
  import opened Basics
  import opened Wrappers
  import opened Zones
  import opened Policy
  import opened SLAClocks
  import opened SLAStatuses

  datatype Kind = Warning | Breach | Response

  /** A delayed job: it fires at `armedAt + delay`, and carries the deadline it was armed for. */
  datatype Job = Job(armedAt: int, delay: nat, resolveDeadline: int) {
    function Due(): int { armedAt + delay }
  }

  datatype Timers = Timers(warning: Option<Job>, breach: Option<Job>, response: Option<Job>) {
    function Get(k: Kind): Option<Job> {
      match k case Warning => warning case Breach => breach case Response => response
    }

    function Set(k: Kind, j: Option<Job>): Timers {
      match k
      case Warning => this.(warning := j)
      case Breach => this.(breach := j)
      case Response => this.(response := j)
    }
  }

  const NO_TIMERS: Timers := Timers(None, None, None)

  datatype Ticket = Ticket(status: Option<SLAStatus>, timers: Timers)

  /** `scheduleJob`: the delay to the target, clamped to zero when the target has passed. */
  function Arm(target: int, s: SLAStatus, now: int): Job {
    Job(now, Max(target - now, 0), s.resolveDeadline)
  }

  function ArmResponse(q: Timers, s: SLAStatus, now: int): Timers {
    q.(response := Some(Arm(s.responseDeadline, s, now)))
  }

  function ArmResolve(q: Timers, s: SLAStatus, now: int): Timers {
    q.(warning := Some(Arm(s.resolveDeadline - s.tier.warningMinutes, s, now)),
       breach := Some(Arm(s.resolveDeadline, s, now)))
  }

  function Cancel(q: Timers, which: PauseType): Timers {
    Timers(if StopsResolve(which) then None else q.warning, if StopsResolve(which) then None else q.breach,
           if StopsResponse(which) then None else q.response)
  }

  // ── The steps ──────────────────────────────────────────────────────────────

  datatype Step =
    | Start(policyId: string, severity: string, startedAt: int)
    | Pause(kind: PauseType, at: int)
    | Resume(at: int)
    | Respond(at: int)
    | Resolve(at: int)
    | Reopen(at: int)
    | Repolicy(policyId: string, severity: string)
    | ApplyRule(rule: RuleSLA)
    | Fire(timer: Kind)
    | Sweep
    | LoseJob(timer: Kind)

  /** `resolvePolicy`: the tier of the chosen policy, with its calendar when it counts service hours. */
  function ResolvePolicy(policies: Policies, policyId: string, severity: string): (r: Result<SLAPolicy, StatusError>)
    ensures r.Ok? ==> r.value.id == policyId && |r.value.tiers| == 1 && r.value.tiers[0].severity == severity
    ensures r.Ok? ==> Complete(TierClock(r.value, r.value.tiers[0]))
  {
    if policyId !in policies then Err(PolicyGone) else
    var p := policies[policyId];
    if p.timezone.None? then Err(NoTimezone)
    else if p.businessHours && p.calendar.None? then Err(Failed(NoCalendar))
    else Ok(SLAPolicy(policyId, p.timezone.value, if p.businessHours then p.calendar else None,
                      [Tier(severity, p.responseMinutes, p.resolveMinutes, p.businessHours, p.warningMinutes)]))
  }

  /** The record of a started SLA; the arming repeats on every delivery of the event. */
  ghost function Started(t: Ticket, p: SLAPolicy, tier: Tier, startedAt: int, now: int): Ticket
    requires Complete(TierClock(p, tier))
  {
    var s := if t.status.Some? then t.status.value else Created(p.id, tier, TierClock(p, tier), startedAt);
    Ticket(Some(s), ArmResponse(ArmResolve(t.timers, s, now), s, now))
  }

  ghost function ResumedTicket(s: SLAStatus, q: Timers, at: int, clock: SLAClock, now: int): Ticket
    requires Complete(clock) && s.pausedAt.Some?
  {
    var s' := Resumed(s, at, clock);
    Ticket(Some(s'), ResumedTimers(q, s', PauseTypeOf(s), now))
  }

  /** The targets that were paused and are still owed are armed again. */
  function ResumedTimers(q: Timers, s: SLAStatus, paused: PauseType, now: int): Timers {
    var q1 := if StopsResponse(paused) && !s.responseMet && s.responseBreachNotifiedAt.None?
              then ArmResponse(q, s, now) else q;
    if StopsResolve(paused) && !s.resolveMet then ArmResolve(q1, s, now) else q1
  }

  ghost function ReopenedTicket(s: SLAStatus, q: Timers, at: int, clock: SLAClock, now: int): Ticket
    requires Complete(clock) && s.resolvedAt.Some?
  {
    var s' := Reopened(s, at, clock);
    Ticket(Some(s'), if s'.breached then q else ArmResolve(q, s', now))
  }

  function Rearmed(q: Timers, s: SLAStatus, now: int): Timers {
    var q1 := if s.responseMet then q else ArmResponse(q, s, now);
    if s.breached then q1 else ArmResolve(q1, s, now)
  }

  ghost function RepolicedTicket(s: SLAStatus, q: Timers, p: SLAPolicy, tier: Tier, now: int): Ticket
    requires Complete(TierClock(p, tier))
  {
    var s' := Repoliced(s, p.id, tier, TierClock(p, tier));
    Ticket(Some(s'), if s'.pausedAt.Some? then q else Rearmed(q, s', now))
  }

  function RuleTicket(t: Ticket, rule: RuleSLA, now: int): Ticket
    requires ValidRule(rule)
  {
    var s := RuleReplaced(t.status, rule);
    Ticket(Some(s), if s.resolvedAt.None? && !s.resolveMet && s.pausedAt.None?
                    then Rearmed(NO_TIMERS, s, now) else NO_TIMERS)
  }

  /** `statusIfStillRelevant`. */
  predicate Relevant(s: SLAStatus, k: Kind) {
    && !(k == Response && s.responseMet)
    && !s.resolveMet && s.resolvedAt.None? && s.pausedAt.None?
  }

  /** `fireSLATimer`: what a timer does to the record, whoever fires it. No deadline is compared. */
  function Fired(s: SLAStatus, k: Kind, now: int): SLAStatus {
    if !Relevant(s, k) then s else
    match k
    case Warning => s.(warningSentFor := Some(s.resolveDeadline))
    case Breach => MarkedBreached(s, now)
    case Response => MarkedResponseNotified(s, now)
  }

  /** How late a timer must be before the sweep fires it: two minutes. */
  const SLA_SWEEP_GRACE: int := 2

  /** The rows of the first sweep query: open, running, not breached. */
  predicate ResolveRow(s: SLAStatus) {
    !s.breached && !s.resolveMet && s.resolvedAt.None? && s.pausedAt.None?
  }

  predicate BreachLost(s: SLAStatus, now: int) {
    ResolveRow(s) && s.resolveDeadline <= now - SLA_SWEEP_GRACE
  }

  predicate WarningLost(s: SLAStatus, now: int) {
    && ResolveRow(s) && s.resolveDeadline > now - SLA_SWEEP_GRACE
    && s.resolveDeadline - s.tier.warningMinutes <= now - SLA_SWEEP_GRACE
    && s.warningSentFor != Some(s.resolveDeadline)
  }

  /** The rows of the second sweep query: open, running, the response owed, overdue and never notified. */
  predicate ResponseLost(s: SLAStatus, now: int) {
    && !s.responseMet && s.responseBreachNotifiedAt.None? && s.resolvedAt.None? && s.pausedAt.None?
    && s.responseDeadline <= now - SLA_SWEEP_GRACE
  }

  function SweptResolve(s: SLAStatus, now: int): SLAStatus {
    if BreachLost(s, now) then Fired(s, Breach, now)
    else if WarningLost(s, now) then Fired(s, Warning, now) else s
  }

  function Swept(s: SLAStatus, now: int): SLAStatus {
    var s1 := SweptResolve(s, now);
    if ResponseLost(s, now) then Fired(s1, Response, now) else s1
  }

  /** One step at the processing instant `now`; a step that throws before it writes changes nothing. */
  ghost function Next(t: Ticket, step: Step, now: int, policies: Policies): Ticket {
    match step
    case Start(policyId, severity, startedAt) =>
      var p := ResolvePolicy(policies, policyId, severity);
      if p.Err? then t else Started(t, p.value, p.value.tiers[0], startedAt, now)
    case ApplyRule(rule) => if ValidRule(rule) then RuleTicket(t, rule, now) else t
    case LoseJob(k) => t.(timers := t.timers.Set(k, None))
    case Respond(at) =>
      Ticket(if t.status.Some? then Some(MarkedResponse(t.status.value, at)) else None, Cancel(t.timers, PauseResponse))
    case Fire(k) =>
      if t.timers.Get(k).Some? && t.timers.Get(k).value.Due() <= now
      then Ticket(if t.status.Some? then Some(Fired(t.status.value, k, now)) else None, t.timers.Set(k, None))
      else t
    case _ => if t.status.Some? then NextOf(t.status.value, t.timers, step, now, policies) else t
  }

  ghost function NextOf(s: SLAStatus, q: Timers, step: Step, now: int, policies: Policies): Ticket {
    var t := Ticket(Some(s), q);
    var clock := ClockOf(s, policies);
    match step
    case Pause(kind, at) => if CanPause(s) then Ticket(Some(Paused(s, kind, at)), Cancel(q, kind)) else t
    case Resume(at) => if s.pausedAt.Some? && clock.Ok? then ResumedTicket(s, q, at, clock.value, now) else t
    case Resolve(at) =>
      var clock := ResolutionClock(s, policies);
      if s.resolvedAt.None? && clock.Ok? then Ticket(Some(Resolved(s, at, clock.value)), NO_TIMERS) else t
    case Reopen(at) => if s.resolvedAt.Some? && clock.Ok? then ReopenedTicket(s, q, at, clock.value, now) else t
    case Repolicy(policyId, severity) =>
      var p := ResolvePolicy(policies, policyId, severity);
      if p.Ok? && CanRepolicy(s, policyId, severity) then RepolicedTicket(s, q, p.value, p.value.tiers[0], now) else t
    case Sweep => Ticket(Some(Swept(s, now)), q)
    case _ => t
  }

  // ── When a step fails ──────────────────────────────────────────────────────

  /** The handler of the step throws; it has then written nothing, so a run of the program is a run without that step. */
  ghost predicate StepFails(t: Ticket, step: Step, policies: Policies) {
    match step
    case Start(policyId, severity, startedAt) =>
      var p := ResolvePolicy(policies, policyId, severity);
      p.Err? || CreateResult(p.value, severity, startedAt).Err?
    case Resume(at) =>
      t.status.Some? && t.status.value.pausedAt.Some? && ResumeResult(t.status.value, at, policies).Err?
    case Resolve(at) =>
      t.status.Some? && t.status.value.resolvedAt.None? && ResolveResult(t.status.value, at, policies).Err?
    case Reopen(at) =>
      t.status.Some? && t.status.value.resolvedAt.Some? && ReopenResult(t.status.value, at, policies).Err?
    case Repolicy(policyId, severity) =>
      t.status.Some? && t.status.value.resolvedAt.None? && t.status.value.policyId.Some? &&
      var p := ResolvePolicy(policies, policyId, severity);
      p.Err? || (CanRepolicy(t.status.value, policyId, severity) && RepolicyResult(t.status.value, p.value, severity).Err?)
    case ApplyRule(rule) => !ValidRule(rule)
    case _ => false
  }

  /** The clock of the record is there, its searches never give up, and the stop that ends at `at` is not too long. */
  ghost predicate ClockServes(s: SLAStatus, since: int, at: int, policies: Policies) {
    var clock := ClockOf(s, policies);
    clock.Ok? && Searchable(clock.value) && WithinCentury(since, at, clock.value)
  }

  predicate PolicyServes(policies: Policies, policyId: string, severity: string) {
    var p := ResolvePolicy(policies, policyId, severity);
    p.Ok? && Searchable(TierClock(p.value, p.value.tiers[0]))
  }

  /** What a step needs of the configuration: the policy it names, or the clock of the SLA it works on. */
  ghost predicate StepServed(t: Ticket, step: Step, policies: Policies) {
    match step
    case Start(policyId, severity, _) => PolicyServes(policies, policyId, severity)
    case Repolicy(policyId, severity) => PolicyServes(policies, policyId, severity)
    case Resume(at) =>
      t.status.Some? && t.status.value.pausedAt.Some? ==> ClockServes(t.status.value, t.status.value.pausedAt.value, at, policies)
    case Resolve(at) =>
      t.status.Some? && ResolvePaused(t.status.value) ==> ClockServes(t.status.value, t.status.value.pausedAt.value, at, policies)
    case Reopen(at) =>
      t.status.Some? && t.status.value.resolvedAt.Some? ==> ClockServes(t.status.value, t.status.value.resolvedAt.value, at, policies)
    case ApplyRule(rule) => ValidRule(rule)
    case _ => true
  }

  /** NO HANDLER FAILS when the policies are there, their calendars have at most 522 holidays and no stop is longer than
      36600 days. */
  lemma ServedStepGoesThrough(t: Ticket, step: Step, policies: Policies)
    requires StepServed(t, step, policies)
    ensures !StepFails(t, step, policies)
  {
    match step {
      case Start(policyId, severity, startedAt) =>
        OnlyTier(policies, policyId, severity);
        CreateSucceeds(ResolvePolicy(policies, policyId, severity).value, severity, startedAt);
      case Repolicy(policyId, severity) =>
        OnlyTier(policies, policyId, severity);
        if t.status.Some? { RepolicySucceeds(t.status.value, ResolvePolicy(policies, policyId, severity).value, severity); }
      case Resume(at) =>
        if t.status.Some? && t.status.value.pausedAt.Some? { ResumeSucceeds(t.status.value, at, policies); }
      case Resolve(at) =>
        if t.status.Some? { ResolveSucceeds(t.status.value, at, policies); }
      case Reopen(at) =>
        if t.status.Some? && t.status.value.resolvedAt.Some? { ReopenSucceeds(t.status.value, at, policies); }
      case _ =>
    }
  }

  lemma OnlyTier(policies: Policies, policyId: string, severity: string)
    requires ResolvePolicy(policies, policyId, severity).Ok?
    ensures var tiers := ResolvePolicy(policies, policyId, severity).value.tiers;
            FindTier(tiers, severity) == Some(tiers[0])
  {}

  // ── Runs ───────────────────────────────────────────────────────────────────

  datatype Timed = Timed(now: int, step: Step)

  const NO_TICKET: Ticket := Ticket(None, NO_TIMERS)

  ghost function Run(h: seq<Timed>, policies: Policies): Ticket {
    if h == [] then NO_TICKET else Next(Run(h[..|h| - 1], policies), h[|h| - 1].step, h[|h| - 1].now, policies)
  }

  // ── What every step keeps ──────────────────────────────────────────────────

  /** A concluded SLA has an outcome and is never paused. */
  predicate Shape(s: SLAStatus) {
    && (s.resolvedAt.Some? ==> (s.resolveMet || s.breached) && s.pausedAt.None?)
    && (s.resolveMet ==> s.resolvedAt.Some?)
    && (s.pausedAt.Some? ==> s.pausedType.Some?)
    && (s.breachedAt.Some? ==> s.breached)
  }

  lemma StepKeepsShape(t: Ticket, step: Step, now: int, policies: Policies)
    requires t.status.Some? ==> Shape(t.status.value)
    ensures var t' := Next(t, step, now, policies); t'.status.Some? ==> Shape(t'.status.value)
  {}

  lemma {:induction false} RunShape(h: seq<Timed>, policies: Policies)
    ensures Run(h, policies).status.Some? ==> Shape(Run(h, policies).status.value)
  {
    if h != [] {
      RunShape(h[..|h| - 1], policies);
      StepKeepsShape(Run(h[..|h| - 1], policies), h[|h| - 1].step, h[|h| - 1].now, policies);
    }
  }

  /** The two index flags of the sweep say exactly "open and not breached", at every reachable record. */
  lemma {:induction false} SweepFlagsExact(h: seq<Timed>, policies: Policies)
    requires Run(h, policies).status.Some?
    ensures var s := Run(h, policies).status.value;
            !s.breached && !s.resolveMet <==> IsOpen(s) && !s.breached
  {
    RunShape(h, policies);
  }

  /** A breach is history: no step clears it or moves its instant, and no step removes the record. */
  lemma BreachIsForever(t: Ticket, step: Step, now: int, policies: Policies)
    requires t.status.Some? && t.status.value.breached
    ensures var t' := Next(t, step, now, policies);
            && t'.status.Some? && t'.status.value.breached
            && (t.status.value.breachedAt.Some? ==> t'.status.value.breachedAt == t.status.value.breachedAt)
  {}

  // ── No early breach ────────────────────────────────────────────────────────

  /** A queued breach job of an open, unbreached SLA whose resolve clock runs was armed for its current deadline. */
  predicate BreachTimerRight(t: Ticket) {
    t.status.Some? ==>
      var s := t.status.value;
      IsOpen(s) && !s.breached && !ResolvePaused(s) && t.timers.breach.Some? ==>
        var j := t.timers.breach.value;
        j.resolveDeadline == s.resolveDeadline && j.Due() == Max(s.resolveDeadline, j.armedAt)
  }

  predicate Sound(t: Ticket) {
    (t.status.Some? ==> Shape(t.status.value)) && BreachTimerRight(t)
  }

  /** The one step that must not happen: a change of policy while only the response clock is paused. */
  predicate Disciplined(t: Ticket, step: Step) {
    step.Repolicy? && t.status.Some? && t.status.value.pausedAt.Some? ==> ResolvePaused(t.status.value)
  }

  lemma StepKeepsSound(t: Ticket, step: Step, now: int, policies: Policies)
    requires Sound(t) && Disciplined(t, step)
    ensures Sound(Next(t, step, now, policies))
  {}

  ghost predicate DisciplinedRun(h: seq<Timed>, policies: Policies) {
    forall i | 0 <= i < |h| :: Disciplined(Run(h[..i], policies), h[i].step)
  }

  lemma {:induction false} RunSound(h: seq<Timed>, policies: Policies)
    requires DisciplinedRun(h, policies)
    ensures Sound(Run(h, policies))
  {
    if h != [] {
      var before := h[..|h| - 1];
      assert forall i | 0 <= i < |before| :: before[..i] == h[..i];
      RunSound(before, policies);
      StepKeepsSound(Run(before, policies), h[|h| - 1].step, h[|h| - 1].now, policies);
    }
  }

  /** NO EARLY BREACH. In every disciplined run, whatever jobs were lost and whatever was delivered twice, a timer or
      a sweep marks a breach only at or after the current resolve deadline. */
  lemma {:induction false} NoEarlyBreach(h: seq<Timed>, step: Step, now: int, policies: Policies)
    requires DisciplinedRun(h, policies) && (step.Fire? || step.Sweep?)
    requires var t := Run(h, policies);
             && t.status.Some? && !t.status.value.breached
             && Next(t, step, now, policies).status.value.breached
    ensures now >= Run(h, policies).status.value.resolveDeadline
    ensures step.Sweep? ==> now >= Run(h, policies).status.value.resolveDeadline + SLA_SWEEP_GRACE
  {
    RunSound(h, policies);
    MarkIsLate(Run(h, policies), step, now, policies);
  }

  lemma MarkIsLate(t: Ticket, step: Step, now: int, policies: Policies)
    requires Sound(t) && (step.Fire? || step.Sweep?) && t.status.Some? && !t.status.value.breached
    requires Next(t, step, now, policies).status.value.breached
    ensures now >= t.status.value.resolveDeadline
    ensures step.Sweep? ==> now >= t.status.value.resolveDeadline + SLA_SWEEP_GRACE
  {}

  ghost function NextTimed(t: Ticket, x: Timed, policies: Policies): Ticket { Next(t, x.step, x.now, policies) }

  /** The ticket after further steps. */
  ghost function RunFrom(t: Ticket, h: seq<Timed>, policies: Policies): Ticket {
    if h == [] then t else NextTimed(RunFrom(t, h[..|h| - 1], policies), h[|h| - 1], policies)
  }

  /** Further steps from the instant `since` on: disciplined, and no handler among them fails. */
  ghost predicate Continues(t: Ticket, h: seq<Timed>, since: int, policies: Policies) {
    forall i | 0 <= i < |h| ::
      && h[i].now >= since
      && Disciplined(RunFrom(t, h[..i], policies), h[i].step)
      && !StepFails(RunFrom(t, h[..i], policies), h[i].step, policies)
  }

  /** A timer or a sweep marks a breach before the deadline. */
  ghost predicate MarksEarly(t: Ticket, x: Timed, policies: Policies) {
    && (x.step.Fire? || x.step.Sweep?) && t.status.Some? && !t.status.value.breached
    && NextTimed(t, x, policies).status.value.breached && x.now < t.status.value.resolveDeadline
  }

  ghost predicate BreachesEarly(t: Ticket, h: seq<Timed>, x: Timed, since: int, policies: Policies) {
    Continues(t, h, since, policies) && x.now >= since && MarksEarly(RunFrom(t, h, policies), x, policies)
  }

  /** A queued breach job of an open, unbreached SLA whose resolve clock runs cannot fire before the deadline any more. */
  predicate NotEarly(t: Ticket, since: int) {
    t.status.Some? ==>
      var s := t.status.value;
      IsOpen(s) && !s.breached && !ResolvePaused(s) && t.timers.breach.Some? ==>
        Max(t.timers.breach.value.Due(), since) >= s.resolveDeadline
  }

  lemma StepKeepsNotEarly(t: Ticket, x: Timed, since: int, policies: Policies)
    requires ShapedTicket(t) && NotEarly(t, since) && Disciplined(t, x.step) && x.now >= since
    ensures ShapedTicket(NextTimed(t, x, policies)) && NotEarly(NextTimed(t, x, policies), since)
  {
    StepKeepsShape(t, x.step, x.now, policies);
    if x.step.Start? || x.step.ApplyRule? || x.step.Repolicy? {
      NewTargetKeepsNotEarly(t, x, since, policies);
    } else {
      OldTargetKeepsNotEarly(t, x, since, policies);
    }
  }

  predicate ShapedTicket(t: Ticket) { t.status.Some? ==> Shape(t.status.value) }

  lemma NewTargetKeepsNotEarly(t: Ticket, x: Timed, since: int, policies: Policies)
    requires x.step.Start? || x.step.ApplyRule? || x.step.Repolicy?
    requires ShapedTicket(t) && NotEarly(t, since) && Disciplined(t, x.step) && x.now >= since
    ensures NotEarly(NextTimed(t, x, policies), since)
  {}

  lemma OldTargetKeepsNotEarly(t: Ticket, x: Timed, since: int, policies: Policies)
    requires !x.step.Start? && !x.step.ApplyRule? && !x.step.Repolicy?
    requires ShapedTicket(t) && NotEarly(t, since) && x.now >= since
    ensures NotEarly(NextTimed(t, x, policies), since)
  {}

  lemma NotEarlyMarksLate(t: Ticket, x: Timed, since: int, policies: Policies)
    requires NotEarly(t, since) && x.now >= since
    ensures !MarksEarly(t, x, policies)
  {}

  lemma {:induction false} ContinuationKeepsNotEarly(t: Ticket, h: seq<Timed>, since: int, policies: Policies)
    requires ShapedTicket(t) && NotEarly(t, since) && Continues(t, h, since, policies)
    ensures ShapedTicket(RunFrom(t, h, policies)) && NotEarly(RunFrom(t, h, policies), since)
  {
    if h != [] {
      var n := |h| - 1;
      assert forall i | 0 <= i < n :: h[..n][..i] == h[..i];
      ContinuationKeepsNotEarly(t, h[..n], since, policies);
      StepKeepsNotEarly(RunFrom(t, h[..n], policies), h[n], since, policies);
    }
  }

  /** EXACTLY when the excluded step breaks the promise: after a change of policy during a response-only pause, some
      continuation marks a breach early exactly if the job that stayed queued is due, from `since` on, before the new
      deadline. A shorter target is harmless, a longer one is not. */
  lemma {:induction false} UndisciplinedStep(s: SLAStatus, q: Timers, policyId: string, severity: string, now: int, since: int,
                                             policies: Policies)
    requires Sound(Ticket(Some(s), q)) && s.pausedAt.Some? && !ResolvePaused(s) && !s.breached
    requires ResolvePolicy(policies, policyId, severity).Ok? && CanRepolicy(s, policyId, severity)
    ensures var t := Next(Ticket(Some(s), q), Repolicy(policyId, severity), now, policies);
            (exists h, x :: BreachesEarly(t, h, x, since, policies))
            <==> q.breach.Some? && Max(q.breach.value.Due(), since) < t.status.value.resolveDeadline
  {
    var t := Next(Ticket(Some(s), q), Repolicy(policyId, severity), now, policies);
    StillPaused(s, q, policyId, severity, now, policies);
    if q.breach.Some? && Max(q.breach.value.Due(), since) < t.status.value.resolveDeadline {
      ResumeThenFire(t, since, policies);
    } else {
      forall h, x ensures !BreachesEarly(t, h, x, since, policies) {
        if Continues(t, h, since, policies) && x.now >= since {
          ContinuationKeepsNotEarly(t, h, since, policies);
          NotEarlyMarksLate(RunFrom(t, h, policies), x, since, policies);
        }
      }
    }
  }

  /** Open, unbreached and paused on the response clock only, with the clock of its policy. */
  ghost predicate ResponsePaused(t: Ticket, policies: Policies) {
    && t.status.Some? && Shape(t.status.value) && t.status.value.resolvedAt.None? && !t.status.value.breached
    && t.status.value.pausedAt.Some? && PauseTypeOf(t.status.value) == PauseResponse
    && ClockOf(t.status.value, policies).Ok?
  }

  lemma StillPaused(s: SLAStatus, q: Timers, policyId: string, severity: string, now: int, policies: Policies)
    requires Shape(s) && s.pausedAt.Some? && !ResolvePaused(s) && !s.breached
    requires ResolvePolicy(policies, policyId, severity).Ok? && CanRepolicy(s, policyId, severity)
    ensures var t := Next(Ticket(Some(s), q), Repolicy(policyId, severity), now, policies);
            ResponsePaused(t, policies) && t.timers == q
  {}

  /** Resuming at the instant of the pause moves nothing and leaves the breach job queued; when it fires it marks. */
  lemma ResumeThenFire(t: Ticket, since: int, policies: Policies)
    requires ResponsePaused(t, policies) && t.timers.breach.Some?
    requires Max(t.timers.breach.value.Due(), since) < t.status.value.resolveDeadline
    ensures exists h, x :: BreachesEarly(t, h, x, since, policies)
  {
    var resume := Timed(since, Resume(t.status.value.pausedAt.value));
    var fire := Timed(Max(t.timers.breach.value.Due(), since), Fire(Breach));
    var h := [resume];
    assert h[..0] == [];
    assert RunFrom(t, h[..0], policies) == t;
    assert RunFrom(t, h, policies) == NextTimed(t, resume, policies);
    EmptyResume(t, resume, policies);
    assert BreachesEarly(t, h, fire, since, policies);
  }

  lemma EmptyResume(t: Ticket, resume: Timed, policies: Policies)
    requires ResponsePaused(t, policies) && resume.step == Resume(t.status.value.pausedAt.value)
    ensures !StepFails(t, resume.step, policies)
    ensures var t' := NextTimed(t, resume, policies);
            && t'.status.Some? && t'.status.value.pausedAt.None? && t'.timers.breach == t.timers.breach
            && t'.status.value == t.status.value.(pausedAt := None, pausedType := None)
  {}

  /** Two policies around the clock, with targets of one hour and of ten. */
  const SHORT: string := "short"
  const LONG: string := "long"

  function TwoPolicies(): (p: Policies)
    ensures SHORT in p && p[SHORT] == PolicyNode(Some(Zone(t => 0)), None, false, 30, 60, 10)
    ensures LONG in p && p[LONG] == PolicyNode(Some(Zone(t => 0)), None, false, 30, 600, 10)
  {
    assert |SHORT| != |LONG|;
    map[SHORT := PolicyNode(Some(Zone(t => 0)), None, false, 30, 60, 10),
        LONG := PolicyNode(Some(Zone(t => 0)), None, false, 30, 600, 10)]
  }

  function UndisciplinedRun(): seq<Timed> {
    [Timed(0, Start(SHORT, "high", 0)), Timed(1, Pause(PauseResponse, 1)), Timed(2, Repolicy(LONG, "high")),
     Timed(2, Resume(1)), Timed(60, Fire(Breach))]
  }

  lemma RunStep(h: seq<Timed>, n: nat, policies: Policies)
    requires n < |h|
    ensures Run(h[..n + 1], policies) == Next(Run(h[..n], policies), h[n].step, h[n].now, policies)
  {
    assert h[..n + 1][..n] == h[..n];
  }

  lemma FiveSteps(h: seq<Timed>, p: Policies)
    requires |h| == 5
    ensures Run(h, p) == NextTimed(NextTimed(NextTimed(NextTimed(NextTimed(NO_TICKET, h[0], p), h[1], p), h[2], p),
                                             h[3], p), h[4], p)
  {
    RunStep(h, 0, p);
    RunStep(h, 1, p);
    RunStep(h, 2, p);
    RunStep(h, 3, p);
    RunStep(h, 4, p);
    assert h[..0] == [] && h[..5] == h;
  }

  /** Paused on the response clock only, around the clock, with the job of an earlier policy still queued. */
  predicate StaleJob(t: Ticket) {
    && t.status.Some? && t.timers.breach == Some(Job(0, 60, 60))
    && var s := t.status.value;
       && s.resolveDeadline == 600 && s.pausedAt == Some(1) && s.pausedType == Some(PauseResponse)
       && !s.tier.businessHours && s.resolvedAt.None? && !s.resolveMet
  }

  lemma RepolicyLeavesStaleJob()
    ensures var h, p := UndisciplinedRun(), TwoPolicies();
            StaleJob(NextTimed(NextTimed(NextTimed(NO_TICKET, h[0], p), h[1], p), h[2], p))
  {
    var h, p := UndisciplinedRun(), TwoPolicies();
    assert |SHORT| != |LONG|;
    var t1 := NextTimed(NO_TICKET, h[0], p);
    assert t1.status.value.resolveDeadline == 60 && t1.timers.breach == Some(Job(0, 60, 60));
  }

  lemma StaleJobBreachesEarly(t: Ticket, policies: Policies)
    requires StaleJob(t)
    ensures var t' := NextTimed(NextTimed(t, Timed(2, Resume(1)), policies), Timed(60, Fire(Breach)), policies);
            t'.status.Some? && t'.status.value.breached && t'.status.value.resolveDeadline == 600
  {}

  /** What goes wrong without the discipline: a response pause, a longer policy, a resume — and the old job breaches
      at minute 60 an SLA whose deadline is minute 600. */
  lemma ResponsePauseBreachesEarly()
    ensures var t := Run(UndisciplinedRun(), TwoPolicies());
            t.status.Some? && t.status.value.breached && t.status.value.resolveDeadline == 600
  {
    FiveSteps(UndisciplinedRun(), TwoPolicies());
    RepolicyLeavesStaleJob();
    var h, p := UndisciplinedRun(), TwoPolicies();
    StaleJobBreachesEarly(NextTimed(NextTimed(NextTimed(NO_TICKET, h[0], p), h[1], p), h[2], p), p);
  }

  // ── No missed breach ───────────────────────────────────────────────────────

  /** An open, unbreached SLA whose resolve clock runs. */
  predicate Awaiting(s: SLAStatus) { IsOpen(s) && !s.breached && !ResolvePaused(s) }

  /** Its breach job is queued. */
  predicate JobQueued(t: Ticket) {
    t.status.Some? && Awaiting(t.status.value) ==> t.timers.breach.Some?
  }

  /** The steps that take the breach job of such an SLA away and leave it unbreached: the queue loses it; or, during a
      response-only pause, it comes due and is skipped, or a rule cancels it and arms nothing. */
  predicate DropsJob(t: Ticket, step: Step, now: int) {
    && t.status.Some? && Awaiting(t.status.value) && t.timers.breach.Some?
    && (|| step == LoseJob(Breach)
        || (t.status.value.pausedAt.Some? && step == Fire(Breach) && t.timers.breach.value.Due() <= now)
        || (t.status.value.pausedAt.Some? && step.ApplyRule? && ValidRule(step.rule)))
  }

  /** EXACTLY. A step keeps the breach job queued exactly if it is not one of those. */
  lemma StepKeepsJobIff(t: Ticket, step: Step, now: int, policies: Policies)
    requires ShapedTicket(t) && JobQueued(t)
    ensures JobQueued(Next(t, step, now, policies)) <==> !DropsJob(t, step, now)
  {
    if step.Start? || step.ApplyRule? || step.Repolicy? {
      NewTargetJob(t, step, now, policies);
    } else {
      OldTargetJob(t, step, now, policies);
    }
  }

  lemma NewTargetJob(t: Ticket, step: Step, now: int, policies: Policies)
    requires step.Start? || step.ApplyRule? || step.Repolicy?
    requires ShapedTicket(t) && JobQueued(t)
    ensures JobQueued(Next(t, step, now, policies)) <==> !DropsJob(t, step, now)
  {}

  lemma OldTargetJob(t: Ticket, step: Step, now: int, policies: Policies)
    requires !step.Start? && !step.ApplyRule? && !step.Repolicy?
    requires ShapedTicket(t) && JobQueued(t)
    ensures JobQueued(Next(t, step, now, policies)) <==> !DropsJob(t, step, now)
  {}

  ghost predicate DropsNothing(h: seq<Timed>, policies: Policies) {
    forall i | 0 <= i < |h| :: !DropsJob(Run(h[..i], policies), h[i].step, h[i].now)
  }

  lemma {:induction false} RunKeepsJob(h: seq<Timed>, policies: Policies)
    requires DropsNothing(h, policies)
    ensures JobQueued(Run(h, policies))
  {
    if h != [] {
      var before := h[..|h| - 1];
      assert forall i | 0 <= i < |before| :: before[..i] == h[..i];
      RunKeepsJob(before, policies);
      RunShape(before, policies);
      StepKeepsJobIff(Run(before, policies), h[|h| - 1].step, h[|h| - 1].now, policies);
    }
  }

  /** NO MISSED BREACH. In every disciplined run that drops no job, an open, running, unbreached SLA has its breach job
      queued, due at its current deadline or at once when that has passed: from the deadline on a timer can fire, and
      firing marks the breach. */
  lemma {:induction false} NoMissedBreach(h: seq<Timed>, now: int, policies: Policies)
    requires DisciplinedRun(h, policies) && DropsNothing(h, policies) && Run(h, policies).status.Some?
    requires var s := Run(h, policies).status.value; IsOpen(s) && !s.breached && s.pausedAt.None?
    ensures var t := Run(h, policies);
            && t.timers.breach.Some?
            && t.timers.breach.value.Due() == Max(t.status.value.resolveDeadline, t.timers.breach.value.armedAt)
            && (now >= t.timers.breach.value.Due() ==> Next(t, Fire(Breach), now, policies).status.value.breached)
  {
    RunKeepsJob(h, policies);
    RunSound(h, policies);
  }

  /** Pauses stop the resolve clock, and no job of a breach is lost. */
  predicate WholeClockRun(h: seq<Timed>) {
    forall x | x in h :: WholeClockStep(x.step) && x.step != LoseJob(Breach)
  }

  predicate WholePause(t: Ticket) {
    t.status.Some? && t.status.value.pausedAt.Some? ==> ResolvePaused(t.status.value)
  }

  lemma StepKeepsWholePause(t: Ticket, step: Step, now: int, policies: Policies)
    requires WholePause(t) && WholeClockStep(step)
    ensures WholePause(Next(t, step, now, policies))
  {}

  lemma {:induction false} RunKeepsWholePause(h: seq<Timed>, policies: Policies)
    requires WholeClockRun(h)
    ensures WholePause(Run(h, policies))
  {
    if h != [] {
      var before := h[..|h| - 1];
      assert forall x | x in before :: x in h;
      RunKeepsWholePause(before, policies);
      assert h[|h| - 1] in h;
      StepKeepsWholePause(Run(before, policies), h[|h| - 1].step, h[|h| - 1].now, policies);
    }
  }

  /** Such a run is disciplined and drops nothing. */
  lemma {:induction false} WholeClockRunDropsNothing(h: seq<Timed>, policies: Policies)
    requires WholeClockRun(h)
    ensures DisciplinedRun(h, policies) && DropsNothing(h, policies)
  {
    forall i | 0 <= i < |h|
      ensures Disciplined(Run(h[..i], policies), h[i].step) && !DropsJob(Run(h[..i], policies), h[i].step, h[i].now)
    {
      assert forall x | x in h[..i] :: x in h;
      RunKeepsWholePause(h[..i], policies);
      assert h[i] in h;
    }
  }

  function SkippedRun(): seq<Timed> {
    [Timed(0, Start(SHORT, "high", 0)), Timed(1, Pause(PauseResponse, 1)), Timed(60, Fire(Breach)), Timed(61, Resume(61))]
  }

  lemma FourSteps(h: seq<Timed>, p: Policies)
    requires |h| == 4
    ensures Run(h, p) == NextTimed(NextTimed(NextTimed(NextTimed(NO_TICKET, h[0], p), h[1], p), h[2], p), h[3], p)
  {
    RunStep(h, 0, p);
    RunStep(h, 1, p);
    RunStep(h, 2, p);
    RunStep(h, 3, p);
    assert h[..0] == [] && h[..4] == h;
  }

  /** Started on the hour's policy and paused on the response clock, its job due at minute 60. */
  predicate PausedWithJob(t: Ticket) {
    && t.status.Some? && t.timers.breach == Some(Job(0, 60, 60))
    && var s := t.status.value;
       && s.resolveDeadline == 60 && s.pausedAt == Some(1) && s.pausedType == Some(PauseResponse)
       && !s.tier.businessHours && s.resolvedAt.None? && !s.resolveMet && !s.breached
  }

  lemma PausesWithJob()
    ensures var h, p := SkippedRun(), TwoPolicies(); PausedWithJob(NextTimed(NextTimed(NO_TICKET, h[0], p), h[1], p))
  {
    var h, p := SkippedRun(), TwoPolicies();
    var t1 := NextTimed(NO_TICKET, h[0], p);
    assert t1.status.value.resolveDeadline == 60 && t1.timers.breach == Some(Job(0, 60, 60));
  }

  lemma SkippedJobIsGone(t: Ticket, policies: Policies)
    requires PausedWithJob(t)
    ensures var t' := NextTimed(NextTimed(t, Timed(60, Fire(Breach)), policies), Timed(61, Resume(61)), policies);
            && t'.status.Some? && t'.timers.breach.None?
            && var s := t'.status.value; IsOpen(s) && !s.breached && s.pausedAt.None? && s.resolveDeadline == 60
  {}

  /** Where it stops: the job comes due during a response-only pause and is skipped; after the resume at minute 61 the SLA is
      overdue since minute 60, unbreached, and no job is left to say so. */
  lemma ResponsePauseMissesBreach()
    ensures var t := Run(SkippedRun(), TwoPolicies());
            && t.status.Some? && t.timers.breach.None?
            && var s := t.status.value; IsOpen(s) && !s.breached && s.pausedAt.None? && s.resolveDeadline == 60
  {
    var h, p := SkippedRun(), TwoPolicies();
    FourSteps(h, p);
    PausesWithJob();
    SkippedJobIsGone(NextTimed(NextTimed(NO_TICKET, h[0], p), h[1], p), p);
  }

  // ── The ledger, over runs ──────────────────────────────────────────────────

  /** The deadline of the record, on its current clock, crosses no service time. */
  ghost predicate TicketClear(t: Ticket, policies: Policies) {
    t.status.Some? && ClockOf(t.status.value, policies).Ok? ==>
      TargetClear(t.status.value, ClockOf(t.status.value, policies).value)
  }

  /** The deadlines the run really had cross no service time. */
  ghost predicate ClearRun(h: seq<Timed>, policies: Policies) {
    forall i | 0 <= i < |h| :: TicketClear(Run(h[..i], policies), policies)
  }

  /** No target of the tenant's policies crosses service time: a check of the calendars against the zones. */
  ghost predicate PoliciesCrossNothing(policies: Policies) {
    forall id | id in policies ::
      policies[id].timezone.Some? && policies[id].calendar.Some? ==>
        NoTargetCrosses(SLAClock(true, policies[id].timezone.value, policies[id].calendar))
  }

  /** The ledger holds on the SLA's current clock, and a pause, if any, stops the resolve clock. */
  ghost predicate Balanced(t: Ticket, policies: Policies) {
    t.status.Some? ==>
      var s := t.status.value;
      && (s.pausedAt.Some? ==> ResolvePaused(s))
      && (ClockOf(s, policies).Ok? ==> Ledger(s, ClockOf(s, policies).value))
  }

  predicate WholeClockStep(step: Step) { step.Pause? ==> StopsResolve(step.kind) }

  lemma PolicyTicketIsClear(t: Ticket, policies: Policies)
    requires PoliciesCrossNothing(policies)
    ensures TicketClear(t, policies)
  {
    if t.status.Some? && ClockOf(t.status.value, policies).Ok? {
      var s, clock := t.status.value, ClockOf(t.status.value, policies).value;
      EveryTargetCrossesNothing(Deadline(s.startedAt, s.tier.resolveMinutes, clock), s.pausedTotal, clock);
    }
  }

  /** A clock around the clock is one clock: its zone and calendar do not matter. */
  lemma AroundTheClockLedger(s: SLAStatus, c1: SLAClock, c2: SLAClock)
    requires !c1.businessHours && !c2.businessHours
    ensures Ledger(s, c1) == Ledger(s, c2)
  {}

  lemma StepKeepsBalance(t: Ticket, step: Step, now: int, policies: Policies)
    requires TicketClear(t, policies) && Balanced(t, policies) && WholeClockStep(step)
    ensures Balanced(Next(t, step, now, policies), policies)
  {
    match step {
      case Start(_, _, _) => StartBalance(t, step, now, policies);
      case Repolicy(_, _) => RepolicyBalance(t, step, now, policies);
      case Resume(_) => ResumeBalance(t, step, now, policies);
      case Resolve(_) => ResolveBalance(t, step, now, policies);
      case Reopen(_) => ReopenBalance(t, step, now, policies);
      case ApplyRule(_) => RuleBalance(t, step, now, policies);
      case _ => OtherBalance(t, step, now, policies);
    }
  }

  /** The clock of a record that came from a policy's tier measures like the clock of that tier. */
  lemma TierClockAgrees(s: SLAStatus, policies: Policies, policyId: string, severity: string)
    requires ResolvePolicy(policies, policyId, severity).Ok? && s.policyId == Some(policyId)
    requires s.tier == ResolvePolicy(policies, policyId, severity).value.tiers[0]
    requires Ledger(s, TierClock(ResolvePolicy(policies, policyId, severity).value, s.tier))
    ensures ClockOf(s, policies).Ok? ==> Ledger(s, ClockOf(s, policies).value)
  {
    var p := ResolvePolicy(policies, policyId, severity).value;
    if !s.tier.businessHours { AroundTheClockLedger(s, TierClock(p, s.tier), TWENTY_FOUR_SEVEN); }
  }

  lemma StartBalance(t: Ticket, step: Step, now: int, policies: Policies)
    requires step.Start? && Balanced(t, policies)
    ensures Balanced(Next(t, step, now, policies), policies)
  {
    var p := ResolvePolicy(policies, step.policyId, step.severity);
    if p.Ok? && t.status.None? {
      var tier := p.value.tiers[0];
      CreatedLedger(step.policyId, tier, TierClock(p.value, tier), step.startedAt);
      TierClockAgrees(Next(t, step, now, policies).status.value, policies, step.policyId, step.severity);
    }
  }

  lemma RepolicyBalance(t: Ticket, step: Step, now: int, policies: Policies)
    requires step.Repolicy? && Balanced(t, policies)
    ensures Balanced(Next(t, step, now, policies), policies)
  {
    var p := ResolvePolicy(policies, step.policyId, step.severity);
    if p.Ok? && t.status.Some? && CanRepolicy(t.status.value, step.policyId, step.severity) {
      TierClockAgrees(Next(t, step, now, policies).status.value, policies, step.policyId, step.severity);
    }
  }

  lemma ResumeBalance(t: Ticket, step: Step, now: int, policies: Policies)
    requires step.Resume? && TicketClear(t, policies) && Balanced(t, policies)
    ensures Balanced(Next(t, step, now, policies), policies)
  {
    if t.status.Some? && t.status.value.pausedAt.Some? && ClockOf(t.status.value, policies).Ok? {
      var s, clock := t.status.value, ClockOf(t.status.value, policies).value;
      ShiftKeepsLedger(s, Resumed(s, step.at, clock), Counted(s.pausedAt.value, step.at, clock), clock);
    }
  }

  lemma ResolveBalance(t: Ticket, step: Step, now: int, policies: Policies)
    requires step.Resolve? && TicketClear(t, policies) && Balanced(t, policies)
    ensures Balanced(Next(t, step, now, policies), policies)
  {
    if t.status.Some? && ClockOf(t.status.value, policies).Ok? {
      ResolveKeepsLedger(t.status.value, step.at, ClockOf(t.status.value, policies).value);
    }
  }

  lemma ReopenBalance(t: Ticket, step: Step, now: int, policies: Policies)
    requires step.Reopen? && TicketClear(t, policies) && Balanced(t, policies)
    ensures Balanced(Next(t, step, now, policies), policies)
  {
    if t.status.Some? && t.status.value.resolvedAt.Some? && ClockOf(t.status.value, policies).Ok? {
      ReopenKeepsLedger(t.status.value, step.at, ClockOf(t.status.value, policies).value);
    }
  }

  lemma RuleBalance(t: Ticket, step: Step, now: int, policies: Policies)
    requires step.ApplyRule? && Balanced(t, policies)
    ensures Balanced(Next(t, step, now, policies), policies)
  {
    if ValidRule(step.rule) { RuleLedger(t.status, step.rule); }
  }

  lemma OtherBalance(t: Ticket, step: Step, now: int, policies: Policies)
    requires step.Pause? || step.Respond? || step.Fire? || step.Sweep? || step.LoseJob?
    requires Balanced(t, policies) && WholeClockStep(step)
    ensures Balanced(Next(t, step, now, policies), policies)
  {
    if t.status.Some? && Next(t, step, now, policies).status.Some? {
      SameLedger(t.status.value, Next(t, step, now, policies).status.value, policies);
    }
  }

  lemma SameLedger(s: SLAStatus, s': SLAStatus, policies: Policies)
    requires s'.startedAt == s.startedAt && s'.tier == s.tier && s'.policyId == s.policyId
    requires s'.resolveDeadline == s.resolveDeadline && s'.pausedTotal == s.pausedTotal
    ensures ClockOf(s', policies) == ClockOf(s, policies)
    ensures ClockOf(s, policies).Ok? ==>
              Ledger(s', ClockOf(s, policies).value) == Ledger(s, ClockOf(s, policies).value)
  {}

  /** THE LEDGER, at every reachable record: creation, pauses of the resolve clock, resumes, resolutions, reopenings,
      re-policies and rules in any order leave the resolve deadline equal to the fresh deadline of the current tier on
      the current clock, moved by the recorded pause total. */
  lemma {:induction false} RunBalanced(h: seq<Timed>, policies: Policies)
    requires ClearRun(h, policies)
    requires forall x | x in h :: WholeClockStep(x.step)
    ensures Balanced(Run(h, policies), policies)
  {
    if h != [] {
      var before := h[..|h| - 1];
      assert forall i | 0 <= i < |before| :: before[..i] == h[..i];
      RunBalanced(before, policies);
      assert h[|h| - 1] in h;
      StepKeepsBalance(Run(before, policies), h[|h| - 1].step, h[|h| - 1].now, policies);
    }
  }

  /** Policies whose targets cross no service time keep the ledger of every run. */
  lemma {:induction false} PoliciesBalance(h: seq<Timed>, policies: Policies)
    requires PoliciesCrossNothing(policies)
    requires forall x | x in h :: WholeClockStep(x.step)
    ensures Balanced(Run(h, policies), policies)
  {
    forall i | 0 <= i < |h| ensures TicketClear(Run(h[..i], policies), policies) {
      PolicyTicketIsClear(Run(h[..i], policies), policies);
    }
    RunBalanced(h, policies);
  }

  // ── The sweep ──────────────────────────────────────────────────────────────

  /** After a sweep nothing is left to fire: no open running SLA is overdue beyond the grace and unbreached, and an
      immediate second sweep finds no row to act on and changes nothing. */
  lemma SweepSettles(s: SLAStatus, now: int)
    requires Shape(s)
    ensures var s' := Swept(s, now);
            && (IsOpen(s') && s'.pausedAt.None? && s'.resolveDeadline <= now - SLA_SWEEP_GRACE ==> s'.breached)
            && !BreachLost(s', now) && !WarningLost(s', now) && !ResponseLost(s', now)
            && Swept(s', now) == s'
  {}

  /** At every reachable record, whatever jobs were lost: the sweep breaches exactly the open running unbreached SLAs
      that are overdue by the grace. */
  lemma {:induction false} SweepRecoversLostBreaches(h: seq<Timed>, now: int, policies: Policies)
    requires Run(h, policies).status.Some?
    ensures var s := Run(h, policies).status.value;
            var s' := Next(Run(h, policies), Sweep, now, policies).status.value;
            && s'.breached == (s.breached || (IsOpen(s) && s.pausedAt.None? && s.resolveDeadline <= now - SLA_SWEEP_GRACE))
            && !BreachLost(s', now) && !WarningLost(s', now) && !ResponseLost(s', now)
  {
    RunShape(h, policies);
    SweepSettles(Run(h, policies).status.value, now);
  }
}
