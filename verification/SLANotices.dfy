/** The other two timers over whole runs: the response notice and the warning, and where they can be early or missing
    (packages/sla/src/engine.ts, packages/sla/src/scheduler.ts:48-143, packages/sla/src/sweep.ts).
 */
module SLANotices {
  import opened Basics
  import opened Wrappers
  import opened Zones
  import opened Policy
  import opened SLAClocks
  import opened SLAStatuses
  import opened SLATimers

  // ── The response timer ─────────────────────────────────────────────────────

  predicate ResponseStopped(s: SLAStatus) { s.pausedAt.Some? && StopsResponse(PauseTypeOf(s)) }

  /** The first response is still to come, nobody was told that it is late, and its clock runs. */
  predicate ResponseOwed(s: SLAStatus) { !s.responseMet && s.responseBreachNotifiedAt.None? && !ResponseStopped(s) }

  /** A queued job of a response still owed is due at its current deadline, or at once when that had passed. */
  predicate ResponseTimerRight(t: Ticket) {
    t.status.Some? && ResponseOwed(t.status.value) && t.timers.response.Some? ==>
      t.timers.response.value.Due() == Max(t.status.value.responseDeadline, t.timers.response.value.armedAt)
  }

  /** The one step that must not happen: a change of policy while only the resolve clock is paused. */
  predicate ResponseDisciplined(t: Ticket, step: Step) {
    step.Repolicy? && t.status.Some? && t.status.value.pausedAt.Some? ==> ResponseStopped(t.status.value)
  }

  predicate NewTarget(step: Step) { step.Start? || step.ApplyRule? || step.Repolicy? }

  lemma StepKeepsResponseTimer(t: Ticket, step: Step, now: int, policies: Policies)
    requires ShapedTicket(t) && ResponseTimerRight(t) && ResponseDisciplined(t, step)
    ensures ResponseTimerRight(Next(t, step, now, policies))
  {
    if NewTarget(step) { NewTargetResponse(t, step, now, policies); } else { OldTargetResponse(t, step, now, policies); }
  }

  lemma NewTargetResponse(t: Ticket, step: Step, now: int, policies: Policies)
    requires NewTarget(step) && ShapedTicket(t) && ResponseTimerRight(t) && ResponseDisciplined(t, step)
    ensures ResponseTimerRight(Next(t, step, now, policies))
  {}

  lemma OldTargetResponse(t: Ticket, step: Step, now: int, policies: Policies)
    requires !NewTarget(step) && ShapedTicket(t) && ResponseTimerRight(t)
    ensures ResponseTimerRight(Next(t, step, now, policies))
  {}

  ghost predicate ResponseDisciplinedRun(h: seq<Timed>, policies: Policies) {
    forall i | 0 <= i < |h| :: ResponseDisciplined(Run(h[..i], policies), h[i].step)
  }

  lemma {:induction false} RunResponseRight(h: seq<Timed>, policies: Policies)
    requires ResponseDisciplinedRun(h, policies)
    ensures ResponseTimerRight(Run(h, policies))
  {
    if h != [] {
      var before := h[..|h| - 1];
      assert forall i | 0 <= i < |before| :: before[..i] == h[..i];
      RunResponseRight(before, policies);
      RunShape(before, policies);
      StepKeepsResponseTimer(Run(before, policies), h[|h| - 1].step, h[|h| - 1].now, policies);
    }
  }

  /** A timer or a sweep tells that the response is late. */
  ghost predicate Notifies(t: Ticket, step: Step, now: int, policies: Policies) {
    && (step.Fire? || step.Sweep?) && t.status.Some? && t.status.value.responseBreachNotifiedAt.None?
    && Next(t, step, now, policies).status.value.responseBreachNotifiedAt.Some?
  }

  /** NO EARLY NOTICE. In every disciplined run a timer or a sweep tells that the response is late only while it is owed and
      at or after its current deadline, and records that instant. */
  lemma {:induction false} NoEarlyNotice(h: seq<Timed>, step: Step, now: int, policies: Policies)
    requires ResponseDisciplinedRun(h, policies) && Notifies(Run(h, policies), step, now, policies)
    ensures var s := Run(h, policies).status.value;
            && IsOpen(s) && !s.responseMet && s.pausedAt.None?
            && now >= s.responseDeadline
            && (step.Sweep? ==> now >= s.responseDeadline + SLA_SWEEP_GRACE)
            && Next(Run(h, policies), step, now, policies).status.value.responseBreachNotifiedAt == Some(now)
  {
    RunResponseRight(h, policies);
    NoticeIsLate(Run(h, policies), step, now, policies);
  }

  lemma NoticeIsLate(t: Ticket, step: Step, now: int, policies: Policies)
    requires ResponseTimerRight(t) && Notifies(t, step, now, policies)
    ensures var s := t.status.value;
            && IsOpen(s) && !s.responseMet && s.pausedAt.None?
            && now >= s.responseDeadline
            && (step.Sweep? ==> now >= s.responseDeadline + SLA_SWEEP_GRACE)
            && Next(t, step, now, policies).status.value.responseBreachNotifiedAt == Some(now)
  {}

  // ── What the excluded step breaks ──────────────────────────────────────────

  ghost predicate ResponseContinues(t: Ticket, h: seq<Timed>, since: int, policies: Policies) {
    forall i | 0 <= i < |h| ::
      && h[i].now >= since
      && ResponseDisciplined(RunFrom(t, h[..i], policies), h[i].step)
      && !StepFails(RunFrom(t, h[..i], policies), h[i].step, policies)
  }

  /** Some disciplined continuation from `since` on, in which no handler fails, ends in an early notice. */
  ghost predicate NotifiesEarly(t: Ticket, h: seq<Timed>, x: Timed, since: int, policies: Policies) {
    && ResponseContinues(t, h, since, policies) && x.now >= since
    && Notifies(RunFrom(t, h, policies), x.step, x.now, policies)
    && x.now < RunFrom(t, h, policies).status.value.responseDeadline
  }

  /** The queued job of a response still owed cannot fire before the deadline any more. */
  predicate NotEarlyResponse(t: Ticket, since: int) {
    t.status.Some? && ResponseOwed(t.status.value) && t.timers.response.Some? ==>
      Max(t.timers.response.value.Due(), since) >= t.status.value.responseDeadline
  }

  lemma StepKeepsNotEarlyResponse(t: Ticket, x: Timed, since: int, policies: Policies)
    requires ShapedTicket(t) && NotEarlyResponse(t, since) && ResponseDisciplined(t, x.step) && x.now >= since
    ensures ShapedTicket(NextTimed(t, x, policies)) && NotEarlyResponse(NextTimed(t, x, policies), since)
  {
    StepKeepsShape(t, x.step, x.now, policies);
    if NewTarget(x.step) { NewTargetNotEarly(t, x, since, policies); } else { OldTargetNotEarly(t, x, since, policies); }
  }

  lemma NewTargetNotEarly(t: Ticket, x: Timed, since: int, policies: Policies)
    requires NewTarget(x.step)
    requires ShapedTicket(t) && NotEarlyResponse(t, since) && ResponseDisciplined(t, x.step) && x.now >= since
    ensures NotEarlyResponse(NextTimed(t, x, policies), since)
  {}

  lemma OldTargetNotEarly(t: Ticket, x: Timed, since: int, policies: Policies)
    requires !NewTarget(x.step) && ShapedTicket(t) && NotEarlyResponse(t, since) && x.now >= since
    ensures NotEarlyResponse(NextTimed(t, x, policies), since)
  {}

  lemma NotEarlyNotifiesLate(t: Ticket, x: Timed, since: int, policies: Policies)
    requires NotEarlyResponse(t, since) && x.now >= since && Notifies(t, x.step, x.now, policies)
    ensures x.now >= t.status.value.responseDeadline
  {}

  lemma {:induction false} ContinuationKeepsNotEarlyResponse(t: Ticket, h: seq<Timed>, since: int, policies: Policies)
    requires ShapedTicket(t) && NotEarlyResponse(t, since) && ResponseContinues(t, h, since, policies)
    ensures ShapedTicket(RunFrom(t, h, policies)) && NotEarlyResponse(RunFrom(t, h, policies), since)
  {
    if h != [] {
      var n := |h| - 1;
      assert forall i | 0 <= i < n :: h[..n][..i] == h[..i];
      ContinuationKeepsNotEarlyResponse(t, h[..n], since, policies);
      StepKeepsNotEarlyResponse(RunFrom(t, h[..n], policies), h[n], since, policies);
    }
  }

  /** EXACTLY when the excluded step breaks the promise: after a change of policy while only the resolve clock is paused, some
      continuation tells too early that the response is late exactly if the job that stayed queued is due, from `since` on,
      before the new response deadline. */
  lemma {:induction false} UndisciplinedResponse(s: SLAStatus, q: Timers, policyId: string, severity: string, now: int,
                                                 since: int, policies: Policies)
    requires Shape(s) && s.pausedAt.Some? && ResponseOwed(s)
    requires ResolvePolicy(policies, policyId, severity).Ok? && CanRepolicy(s, policyId, severity)
    ensures var t := Next(Ticket(Some(s), q), Repolicy(policyId, severity), now, policies);
            (exists h, x :: NotifiesEarly(t, h, x, since, policies))
            <==> q.response.Some? && Max(q.response.value.Due(), since) < t.status.value.responseDeadline
  {
    var t := Next(Ticket(Some(s), q), Repolicy(policyId, severity), now, policies);
    StillResolvePaused(s, q, policyId, severity, now, policies);
    if q.response.Some? && Max(q.response.value.Due(), since) < t.status.value.responseDeadline {
      ResumeThenNotify(t, since, policies);
    } else {
      forall h, x ensures !NotifiesEarly(t, h, x, since, policies) {
        if NotifiesEarly(t, h, x, since, policies) {
          ContinuationKeepsNotEarlyResponse(t, h, since, policies);
          NotEarlyNotifiesLate(RunFrom(t, h, policies), x, since, policies);
        }
      }
    }
  }

  /** Open, the response owed, and paused on the resolve clock only, with the clock of its policy. */
  ghost predicate ResolveOnlyPaused(t: Ticket, policies: Policies) {
    && t.status.Some? && Shape(t.status.value) && t.status.value.resolvedAt.None? && ResponseOwed(t.status.value)
    && t.status.value.pausedAt.Some? && PauseTypeOf(t.status.value) == PauseResolve
    && ClockOf(t.status.value, policies).Ok?
  }

  lemma StillResolvePaused(s: SLAStatus, q: Timers, policyId: string, severity: string, now: int, policies: Policies)
    requires Shape(s) && s.pausedAt.Some? && ResponseOwed(s)
    requires ResolvePolicy(policies, policyId, severity).Ok? && CanRepolicy(s, policyId, severity)
    ensures var t := Next(Ticket(Some(s), q), Repolicy(policyId, severity), now, policies);
            ResolveOnlyPaused(t, policies) && t.timers == q
  {}

  /** Resuming at the instant of the pause moves nothing and leaves the response job queued; when it fires it notifies. */
  lemma ResumeThenNotify(t: Ticket, since: int, policies: Policies)
    requires ResolveOnlyPaused(t, policies) && t.timers.response.Some?
    requires Max(t.timers.response.value.Due(), since) < t.status.value.responseDeadline
    ensures exists h, x :: NotifiesEarly(t, h, x, since, policies)
  {
    var resume := Timed(since, Resume(t.status.value.pausedAt.value));
    var fire := Timed(Max(t.timers.response.value.Due(), since), Fire(Response));
    var h := [resume];
    assert h[..0] == [];
    assert RunFrom(t, h[..0], policies) == t;
    assert RunFrom(t, h, policies) == NextTimed(t, resume, policies);
    ResumeAtOnce(t, resume, policies);
    assert NotifiesEarly(t, h, fire, since, policies);
  }

  lemma ResumeAtOnce(t: Ticket, resume: Timed, policies: Policies)
    requires ResolveOnlyPaused(t, policies) && resume.step == Resume(t.status.value.pausedAt.value)
    ensures !StepFails(t, resume.step, policies)
    ensures var t' := NextTimed(t, resume, policies);
            && t'.status.Some? && t'.timers.response == t.timers.response
            && t'.status.value == t.status.value.(pausedAt := None, pausedType := None)
  {}

  /** Two policies around the clock, with a response in ten minutes and in a hundred. */
  const QUICK: string := "quick"
  const PATIENT: string := "patient"

  function TwoResponses(): (p: Policies)
    ensures QUICK in p && p[QUICK] == PolicyNode(Some(Zone(t => 0)), None, false, 10, 600, 10)
    ensures PATIENT in p && p[PATIENT] == PolicyNode(Some(Zone(t => 0)), None, false, 100, 600, 10)
  {
    assert |QUICK| != |PATIENT|;
    map[QUICK := PolicyNode(Some(Zone(t => 0)), None, false, 10, 600, 10),
        PATIENT := PolicyNode(Some(Zone(t => 0)), None, false, 100, 600, 10)]
  }

  function EarlyNoticeRun(): seq<Timed> {
    [Timed(0, Start(QUICK, "high", 0)), Timed(1, Pause(PauseResolve, 1)), Timed(2, Repolicy(PATIENT, "high")),
     Timed(2, Resume(1)), Timed(10, Fire(Response))]
  }

  /** Paused on the resolve clock only, around the clock, with the response job of an earlier policy still queued. */
  predicate StaleResponseJob(t: Ticket) {
    && t.status.Some? && t.timers.response.Some? && t.timers.response.value.Due() == 10
    && var s := t.status.value;
       && s.responseDeadline == 100 && s.pausedAt == Some(1) && s.pausedType == Some(PauseResolve)
       && !s.tier.businessHours && s.resolvedAt.None? && !s.resolveMet && !s.responseMet
       && s.responseBreachNotifiedAt.None?
  }

  lemma RepolicyLeavesResponseJob()
    ensures var h, p := EarlyNoticeRun(), TwoResponses();
            StaleResponseJob(NextTimed(NextTimed(NextTimed(NO_TICKET, h[0], p), h[1], p), h[2], p))
  {
    var h, p := EarlyNoticeRun(), TwoResponses();
    assert |QUICK| != |PATIENT|;
    var t1 := NextTimed(NO_TICKET, h[0], p);
    assert t1.status.value.responseDeadline == 10 && t1.timers.response.value.Due() == 10;
  }

  lemma StaleResponseJobNotifies(t: Ticket, policies: Policies)
    requires StaleResponseJob(t)
    ensures var t' := NextTimed(NextTimed(t, Timed(2, Resume(1)), policies), Timed(10, Fire(Response)), policies);
            && t'.status.Some? && t'.status.value.responseBreachNotifiedAt == Some(10)
            && t'.status.value.responseDeadline == 100
  {}

  /** What goes wrong without the discipline: a resolve pause, a more patient policy, a resume — and the old job tells at
      minute 10 that a response due at minute 100 is late. */
  lemma ResolvePauseNotifiesEarly()
    ensures var t := Run(EarlyNoticeRun(), TwoResponses());
            t.status.Some? && t.status.value.responseBreachNotifiedAt == Some(10) && t.status.value.responseDeadline == 100
  {
    FiveSteps(EarlyNoticeRun(), TwoResponses());
    RepolicyLeavesResponseJob();
    var h, p := EarlyNoticeRun(), TwoResponses();
    StaleResponseJobNotifies(NextTimed(NextTimed(NextTimed(NO_TICKET, h[0], p), h[1], p), h[2], p), p);
  }

  // ── No missed notice ───────────────────────────────────────────────────────

  /** An open SLA that owes its response has the job queued. */
  predicate ResponseJobQueued(t: Ticket) {
    t.status.Some? && IsOpen(t.status.value) && ResponseOwed(t.status.value) ==> t.timers.response.Some?
  }

  /** The steps after which such an SLA has none: the queue loses it; during a resolve-only pause it comes due and is skipped,
      or a rule cancels it and arms nothing; and a reopening, which arms the resolve timers only. */
  ghost predicate DropsResponseJob(t: Ticket, step: Step, now: int, policies: Policies) {
    && t.status.Some? && !t.status.value.responseMet && !ResponseStopped(t.status.value)
    && var s := t.status.value;
       match step
       case LoseJob(k) => IsOpen(s) && ResponseOwed(s) && k == Response
       case Fire(k) =>
         && IsOpen(s) && ResponseOwed(s) && s.pausedAt.Some? && k == Response
         && t.timers.response.Some? && t.timers.response.value.Due() <= now
       case ApplyRule(rule) => IsOpen(s) && s.pausedAt.Some? && ValidRule(rule)
       case Reopen(_) => !IsOpen(s) && ResponseOwed(s) && ClockOf(s, policies).Ok? && t.timers.response.None?
       case _ => false
  }

  /** EXACTLY. A step keeps the response job queued exactly if it is not one of those. */
  lemma StepKeepsResponseJobIff(t: Ticket, step: Step, now: int, policies: Policies)
    requires ShapedTicket(t) && ResponseJobQueued(t)
    ensures ResponseJobQueued(Next(t, step, now, policies)) <==> !DropsResponseJob(t, step, now, policies)
  {
    if NewTarget(step) { NewTargetResponseJob(t, step, now, policies); } else { OldTargetResponseJob(t, step, now, policies); }
  }

  lemma NewTargetResponseJob(t: Ticket, step: Step, now: int, policies: Policies)
    requires NewTarget(step) && ShapedTicket(t) && ResponseJobQueued(t)
    ensures ResponseJobQueued(Next(t, step, now, policies)) <==> !DropsResponseJob(t, step, now, policies)
  {}

  lemma OldTargetResponseJob(t: Ticket, step: Step, now: int, policies: Policies)
    requires !NewTarget(step) && ShapedTicket(t) && ResponseJobQueued(t)
    ensures ResponseJobQueued(Next(t, step, now, policies)) <==> !DropsResponseJob(t, step, now, policies)
  {}

  ghost predicate DropsNoResponseJob(h: seq<Timed>, policies: Policies) {
    forall i | 0 <= i < |h| :: !DropsResponseJob(Run(h[..i], policies), h[i].step, h[i].now, policies)
  }

  lemma {:induction false} RunKeepsResponseJob(h: seq<Timed>, policies: Policies)
    requires DropsNoResponseJob(h, policies)
    ensures ResponseJobQueued(Run(h, policies))
  {
    if h != [] {
      var before := h[..|h| - 1];
      assert forall i | 0 <= i < |before| :: before[..i] == h[..i];
      RunKeepsResponseJob(before, policies);
      RunShape(before, policies);
      StepKeepsResponseJobIff(Run(before, policies), h[|h| - 1].step, h[|h| - 1].now, policies);
    }
  }

  /** NO MISSED NOTICE. In every disciplined run that drops no response job, an open, running SLA that owes its response has
      the job queued, due at the current response deadline or at once when that had passed; fired then, it tells. */
  lemma {:induction false} NoMissedNotice(h: seq<Timed>, now: int, policies: Policies)
    requires ResponseDisciplinedRun(h, policies) && DropsNoResponseJob(h, policies) && Run(h, policies).status.Some?
    requires var s := Run(h, policies).status.value;
             IsOpen(s) && s.pausedAt.None? && !s.responseMet && s.responseBreachNotifiedAt.None?
    ensures var t := Run(h, policies);
            && t.timers.response.Some?
            && t.timers.response.value.Due() == Max(t.status.value.responseDeadline, t.timers.response.value.armedAt)
            && (now >= t.timers.response.value.Due() ==> Notifies(t, Fire(Response), now, policies))
  {
    RunKeepsResponseJob(h, policies);
    RunResponseRight(h, policies);
    RunShape(h, policies);
    if now >= Run(h, policies).timers.response.value.Due() { DueResponseNotifies(Run(h, policies), now, policies); }
  }

  lemma DueResponseNotifies(t: Ticket, now: int, policies: Policies)
    requires ShapedTicket(t) && t.status.Some? && IsOpen(t.status.value) && t.status.value.pausedAt.None?
    requires ResponseOwed(t.status.value) && t.timers.response.Some? && now >= t.timers.response.value.Due()
    ensures Notifies(t, Fire(Response), now, policies)
  {}

  /** Resolved and reopened with the response still owed: no job is left, and only the sweep can tell. */
  lemma ReopeningForgetsResponse(t: Ticket, at: int, from: int, now: int, policies: Policies)
    requires ShapedTicket(t) && t.status.Some? && IsOpen(t.status.value) && t.status.value.pausedAt.None?
    requires ResponseOwed(t.status.value) && ClockOf(t.status.value, policies).Ok?
    ensures var t' := Next(Next(t, Resolve(at), now, policies), Reopen(from), now, policies);
            && t'.status.Some? && IsOpen(t'.status.value) && ResponseOwed(t'.status.value) && t'.timers.response.None?
  {}

  // ── The warning ────────────────────────────────────────────────────────────

  /** The warning of a record is due the lead of its tier before its resolve deadline. */
  function WarningAt(s: SLAStatus): int { s.resolveDeadline - s.tier.warningMinutes }

  /** A queued warning job of an open, unbreached SLA whose resolve clock runs is due then, or at once when that had passed. */
  predicate WarningTimerRight(t: Ticket) {
    t.status.Some? && Awaiting(t.status.value) && t.timers.warning.Some? ==>
      t.timers.warning.value.Due() == Max(WarningAt(t.status.value), t.timers.warning.value.armedAt)
  }

  lemma StepKeepsWarningTimer(t: Ticket, step: Step, now: int, policies: Policies)
    requires ShapedTicket(t) && WarningTimerRight(t) && Disciplined(t, step)
    ensures WarningTimerRight(Next(t, step, now, policies))
  {
    if NewTarget(step) { NewTargetWarning(t, step, now, policies); } else { OldTargetWarning(t, step, now, policies); }
  }

  lemma NewTargetWarning(t: Ticket, step: Step, now: int, policies: Policies)
    requires NewTarget(step) && ShapedTicket(t) && WarningTimerRight(t) && Disciplined(t, step)
    ensures WarningTimerRight(Next(t, step, now, policies))
  {}

  lemma OldTargetWarning(t: Ticket, step: Step, now: int, policies: Policies)
    requires !NewTarget(step) && ShapedTicket(t) && WarningTimerRight(t)
    ensures WarningTimerRight(Next(t, step, now, policies))
  {}

  lemma {:induction false} RunWarningRight(h: seq<Timed>, policies: Policies)
    requires DisciplinedRun(h, policies)
    ensures WarningTimerRight(Run(h, policies))
  {
    if h != [] {
      var before := h[..|h| - 1];
      assert forall i | 0 <= i < |before| :: before[..i] == h[..i];
      RunWarningRight(before, policies);
      RunShape(before, policies);
      StepKeepsWarningTimer(Run(before, policies), h[|h| - 1].step, h[|h| - 1].now, policies);
    }
  }

  /** A timer or a sweep warns of the deadline. */
  ghost predicate Warns(t: Ticket, step: Step, now: int, policies: Policies) {
    && (step.Fire? || step.Sweep?) && t.status.Some?
    && t.status.value.warningSentFor != Next(t, step, now, policies).status.value.warningSentFor
  }

  /** NO EARLY WARNING. In every disciplined run an unbreached SLA is warned of its current resolve deadline, and not before
      the lead of its tier; a sweep warns only from the grace after that instant until the grace after the deadline. */
  lemma {:induction false} NoEarlyWarning(h: seq<Timed>, step: Step, now: int, policies: Policies)
    requires DisciplinedRun(h, policies) && Warns(Run(h, policies), step, now, policies)
    ensures var s := Run(h, policies).status.value;
            && IsOpen(s) && s.pausedAt.None?
            && Next(Run(h, policies), step, now, policies).status.value.warningSentFor == Some(s.resolveDeadline)
            && (!s.breached ==> now >= s.resolveDeadline - s.tier.warningMinutes)
            && (step.Sweep? ==> && s.resolveDeadline - s.tier.warningMinutes + SLA_SWEEP_GRACE <= now
                                && now < s.resolveDeadline + SLA_SWEEP_GRACE && !s.breached)
  {
    RunWarningRight(h, policies);
    WarningIsLate(Run(h, policies), step, now, policies);
  }

  lemma WarningIsLate(t: Ticket, step: Step, now: int, policies: Policies)
    requires WarningTimerRight(t) && Warns(t, step, now, policies)
    ensures var s := t.status.value;
            && IsOpen(s) && s.pausedAt.None?
            && Next(t, step, now, policies).status.value.warningSentFor == Some(s.resolveDeadline)
            && (!s.breached ==> now >= s.resolveDeadline - s.tier.warningMinutes)
            && (step.Sweep? ==> && s.resolveDeadline - s.tier.warningMinutes + SLA_SWEEP_GRACE <= now
                                && now < s.resolveDeadline + SLA_SWEEP_GRACE && !s.breached)
  {}

  // ── The sweep ──────────────────────────────────────────────────────────────

  /** EXACTLY what a sweep makes up for, besides lost breaches: the notices of the open, running SLAs whose response is overdue
      by the grace, and the warnings of those that are due by the grace and not yet overdue by it. */
  lemma SweepTells(t: Ticket, now: int, policies: Policies)
    requires ShapedTicket(t) && t.status.Some?
    ensures var s, s' := t.status.value, Next(t, Sweep, now, policies).status.value;
            var runs := s.resolvedAt.None? && s.pausedAt.None?;
            && (s'.responseBreachNotifiedAt.Some? <==>
                  s.responseBreachNotifiedAt.Some? || (runs && !s.responseMet && s.responseDeadline + SLA_SWEEP_GRACE <= now))
            && (s'.warningSentFor == Some(s.resolveDeadline) <==>
                  || s.warningSentFor == Some(s.resolveDeadline)
                  || (runs && !s.breached
                      && s.resolveDeadline - s.tier.warningMinutes + SLA_SWEEP_GRACE <= now < s.resolveDeadline + SLA_SWEEP_GRACE))
            && (s'.warningSentFor == s.warningSentFor || s'.warningSentFor == Some(s.resolveDeadline))
  {}
}
