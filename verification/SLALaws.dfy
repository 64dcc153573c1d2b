/** What the steps of an SLA do to its record, said of the record's fields, of the stored policy and of the events alone
    (packages/sla/src/status.ts, packages/sla/src/ruleSla.ts:59-156, packages/sla/src/engine.ts:42-83).
 */
module SLALaws {
  import opened Basics
  import opened Wrappers
  import opened ServiceTime
  import opened Zones
  import opened Policy
  import opened SLAClocks
  import opened SLAStatuses
  import opened SLATimers

  // ── Facts ──────────────────────────────────────────────────────────────────

  /** What may change from one record to the next, and by which step. */
  predicate FactsKept(s: SLAStatus, s': SLAStatus, step: Step) {
    && s'.startedAt == s.startedAt
    && s'.pausedTotal >= s.pausedTotal
    && ConclusionKept(s, s', step)
    && PauseKept(s, s', step)
    && (s.responseMet ==> s'.responseMet)
    && (s'.responseMet && !s.responseMet ==> step.Respond? && s'.responseMetAt.Some?)
    && (s.breached ==> s'.breached)
    && (s'.breached && !s.breached ==> step == Fire(Breach) || step.Sweep? || step.Resolve?)
    && (s'.policyId != s.policyId || s'.tier != s.tier ==> step.Repolicy? || step.ApplyRule?)
    && (s'.responseDeadline != s.responseDeadline ==> step.Resume? || step.Repolicy? || step.ApplyRule?)
    && (s'.resolveDeadline != s.resolveDeadline ==>
          step.Resume? || step.Resolve? || step.Reopen? || step.Repolicy? || step.ApplyRule?)
  }

  /** A concluded SLA stays concluded, with its instant and outcome, until it is reopened; only a resolution concludes. */
  predicate ConclusionKept(s: SLAStatus, s': SLAStatus, step: Step) {
    && (s.resolvedAt.Some? && s'.resolvedAt.None? ==> step.Reopen?)
    && (s.resolvedAt.Some? && s'.resolvedAt.Some? ==> s'.resolvedAt == s.resolvedAt && s'.resolveMet == s.resolveMet)
    && (s.resolvedAt.None? && s'.resolvedAt.Some? ==> step.Resolve? && s'.resolvedAt == Some(step.at))
    && (s'.resolvedAt.None? ==> !s'.resolveMet)
  }

  /** A pause lasts, with its instant and type, until a resume or a resolution; only a pause begins one. */
  predicate PauseKept(s: SLAStatus, s': SLAStatus, step: Step) {
    && (s.pausedAt.Some? && s'.pausedAt.None? ==> step.Resume? || step.Resolve?)
    && (s.pausedAt.Some? && s'.pausedAt.Some? ==> s'.pausedAt == s.pausedAt && s'.pausedType == s.pausedType)
    && (s.pausedAt.None? && s'.pausedAt.Some? ==>
          step.Pause? && s'.pausedAt == Some(step.at) && s'.pausedType == Some(step.kind))
  }

  /** FACTS. No step — a rule, a new policy, a redelivered start, a timer or a sweep included — removes the record or
      changes a fact it does not state. */
  lemma StepKeepsFacts(t: Ticket, step: Step, now: int, policies: Policies)
    requires ShapedTicket(t) && t.status.Some?
    ensures var t' := Next(t, step, now, policies); t'.status.Some? && FactsKept(t.status.value, t'.status.value, step)
  {
    if step.Resume? || step.Resolve? || step.Reopen? {
      StopKeepsFacts(t, step, now, policies);
    } else {
      OtherKeepsFacts(t, step, now, policies);
    }
  }

  lemma StopKeepsFacts(t: Ticket, step: Step, now: int, policies: Policies)
    requires ShapedTicket(t) && t.status.Some? && (step.Resume? || step.Resolve? || step.Reopen?)
    ensures var t' := Next(t, step, now, policies); t'.status.Some? && FactsKept(t.status.value, t'.status.value, step)
  {}

  lemma OtherKeepsFacts(t: Ticket, step: Step, now: int, policies: Policies)
    requires ShapedTicket(t) && t.status.Some? && !step.Resume? && !step.Resolve? && !step.Reopen?
    ensures var t' := Next(t, step, now, policies); t'.status.Some? && FactsKept(t.status.value, t'.status.value, step)
  {}

  /** And the steps that state one take effect: a pause of an open, running SLA, a resume of a paused one, a resolution of an
      open one, a reopening of a concluded one, a response. */
  lemma StepTakesEffect(t: Ticket, step: Step, now: int, policies: Policies)
    requires ShapedTicket(t) && t.status.Some? && !StepFails(t, step, policies)
    ensures var s, t' := t.status.value, Next(t, step, now, policies);
            var s' := t'.status.value;
            && (step.Pause? && s.resolvedAt.None? && s.pausedAt.None? ==>
                  s'.pausedAt == Some(step.at) && s'.pausedType == Some(step.kind))
            && (step.Resume? && s.pausedAt.Some? ==> s'.pausedAt.None? && s'.pausedType.None?)
            && (step.Resolve? && s.resolvedAt.None? ==> s'.resolvedAt == Some(step.at) && s'.pausedAt.None?)
            && (step.Reopen? && s.resolvedAt.Some? ==> s'.resolvedAt.None? && !s'.resolveMet && s'.pausedAt.None?)
            && (step.Respond? ==>
                  s'.responseMet && s'.responseMetAt == if s.responseMetAt.Some? then s.responseMetAt else Some(step.at))
  {}

  /** What the steps do to the jobs: a pause takes those of the clocks it stops and no other, a resolution takes all, a
      response takes its own; firing takes the job that fired. */
  lemma StepTakesJobs(t: Ticket, step: Step, now: int, policies: Policies)
    requires ShapedTicket(t) && t.status.Some? && !StepFails(t, step, policies)
    ensures var s, q, q' := t.status.value, t.timers, Next(t, step, now, policies).timers;
            && (step.Pause? && s.resolvedAt.None? && s.pausedAt.None? ==>
                  && (step.kind != PauseResponse ==> q'.warning.None? && q'.breach.None?)
                  && (step.kind != PauseResolve ==> q'.response.None?)
                  && (step.kind == PauseResponse ==> q'.warning == q.warning && q'.breach == q.breach)
                  && (step.kind == PauseResolve ==> q'.response == q.response))
            && (step.Resolve? && s.resolvedAt.None? ==> q'.warning.None? && q'.breach.None? && q'.response.None?)
            && (step.Respond? ==> q' == q.(response := None))
            && (step.Sweep? ==> q' == q)
  {}

  /** And which steps arm them again: a resume those of the clocks that stood still and of what is still owed, a reopening
      those of the resolve target, another policy all that is owed. */
  lemma StepArmsJobs(t: Ticket, step: Step, now: int, policies: Policies)
    requires ShapedTicket(t) && t.status.Some? && !StepFails(t, step, policies)
    ensures var s, q, q' := t.status.value, t.timers, Next(t, step, now, policies).timers;
            && (step.Resume? && s.pausedAt.Some? ==>
                  && (PauseTypeOf(s) != PauseResponse ==> q'.warning.Some? && q'.breach.Some?)
                  && (PauseTypeOf(s) == PauseResponse ==> q'.warning == q.warning && q'.breach == q.breach)
                  && (if PauseTypeOf(s) != PauseResolve && !s.responseMet && s.responseBreachNotifiedAt.None?
                      then q'.response.Some? else q'.response == q.response))
            && (step.Reopen? && s.resolvedAt.Some? ==>
                  && q'.response == q.response
                  && if s.breached then q' == q else q'.warning.Some? && q'.breach.Some?)
            && (step.Repolicy? && s.resolvedAt.None? && s.policyId.Some?
                && (s.policyId.value != step.policyId || s.tier.severity != step.severity) ==>
                  if s.pausedAt.Some? then q' == q else
                    && (if s.responseMet then q'.response == q.response else q'.response.Some?)
                    && (if s.breached then q'.warning == q.warning && q'.breach == q.breach
                        else q'.warning.Some? && q'.breach.Some?))
  {}

  /** A rule leaves no job on a concluded or paused SLA. */
  lemma RuleLeavesNoJob(t: Ticket, rule: RuleSLA, now: int, policies: Policies)
    requires ShapedTicket(t) && t.status.Some? && ValidRule(rule)
    requires t.status.value.resolvedAt.Some? || t.status.value.pausedAt.Some?
    ensures var q := Next(t, ApplyRule(rule), now, policies).timers;
            q.warning.None? && q.breach.None? && q.response.None?
  {}

  /** A rule's targets run around the clock from the start, later by the pauses so far; a running SLA is watched anew. */
  lemma RuleTargets(t: Ticket, rule: RuleSLA, now: int, policies: Policies)
    requires ShapedTicket(t) && 0 < rule.responseMinutes <= rule.resolveMinutes
    ensures var t' := Next(t, ApplyRule(rule), now, policies);
            && t'.status.Some?
            && var s' := t'.status.value;
               && s'.startedAt == (if t.status.Some? then t.status.value.startedAt else rule.startedAt)
               && s'.pausedTotal == (if t.status.Some? then t.status.value.pausedTotal else 0)
               && s'.responseDeadline == s'.startedAt + rule.responseMinutes + s'.pausedTotal
               && s'.resolveDeadline == s'.startedAt + rule.resolveMinutes + s'.pausedTotal
               && s'.policyId.None? && !s'.tier.businessHours && s'.tier.warningMinutes == rule.warningMinutes
               && s'.responseBreachNotifiedAt.None? && s'.warningSentFor.None?
               && (t.status.None? ==> && s'.resolvedAt.None? && s'.pausedAt.None?
                                      && !s'.responseMet && !s'.resolveMet && !s'.breached)
               && (s'.resolvedAt.None? && s'.pausedAt.None? ==>
                     && (t'.timers.breach.Some? <==> !s'.breached) && (t'.timers.warning.Some? <==> !s'.breached)
                     && (t'.timers.response.Some? <==> !s'.responseMet))
  {}

  /** A timer or a sweep leaves a paused or concluded SLA alone, and of any other sets only the mark of its kind. */
  lemma FiringOnlyMarks(t: Ticket, step: Step, now: int, policies: Policies)
    requires ShapedTicket(t) && t.status.Some? && (step.Fire? || step.Sweep?)
    ensures var s, s' := t.status.value, Next(t, step, now, policies).status.value;
            && (s.pausedAt.Some? || s.resolvedAt.Some? ==> s' == s)
            && s' == s.(breached := s'.breached, breachedAt := s'.breachedAt, warningSentFor := s'.warningSentFor,
                        responseBreachNotifiedAt := s'.responseBreachNotifiedAt)
            && (step.Fire? && step.timer != Breach ==> s'.breached == s.breached && s'.breachedAt == s.breachedAt)
            && (step.Fire? && step.timer != Warning ==> s'.warningSentFor == s.warningSentFor)
            && (step.Fire? && step.timer != Response ==> s'.responseBreachNotifiedAt == s.responseBreachNotifiedAt)
            && (s'.breached && !s.breached && s.breachedAt.None? ==> s'.breachedAt == Some(now))
            && (s.responseMet ==> s'.responseBreachNotifiedAt == s.responseBreachNotifiedAt)
  {}

  /** A due job of an open, running SLA leaves its mark. */
  lemma FiringMarks(t: Ticket, k: Kind, now: int, policies: Policies)
    requires ShapedTicket(t) && t.status.Some? && t.timers.Get(k).Some? && t.timers.Get(k).value.Due() <= now
    requires t.status.value.resolvedAt.None? && t.status.value.pausedAt.None?
    ensures var s, t' := t.status.value, Next(t, Fire(k), now, policies);
            && t'.timers.Get(k).None?
            && (k == Breach ==> t'.status.value.breached)
            && (k == Warning ==> t'.status.value.warningSentFor == Some(s.resolveDeadline))
            && (k == Response && !s.responseMet ==> t'.status.value.responseBreachNotifiedAt.Some?)
  {}

  // ── The stored policy ──────────────────────────────────────────────────────

  /** The policy can be used: it has a zone, and a calendar if it counts service hours. */
  predicate Usable(node: PolicyNode) { node.timezone.Some? && (node.businessHours ==> node.calendar.Some?) }

  /** The clock of a stored policy. */
  function NodeClock(node: PolicyNode): (clock: SLAClock)
    requires Usable(node)
    ensures Complete(clock)
  {
    SLAClock(node.businessHours, node.timezone.value, node.calendar)
  }

  /** The record's tier is its policy's. */
  predicate FromItsPolicy(s: SLAStatus, policies: Policies) {
    s.policyId.Some? ==>
      && s.policyId.value in policies
      && var node := policies[s.policyId.value];
         && Usable(node)
         && s.tier.businessHours == node.businessHours
         && s.tier.responseMinutes == node.responseMinutes
         && s.tier.resolveMinutes == node.resolveMinutes
         && s.tier.warningMinutes == node.warningMinutes
  }

  lemma StepKeepsPolicy(t: Ticket, step: Step, now: int, policies: Policies)
    requires t.status.Some? ==> FromItsPolicy(t.status.value, policies)
    ensures var t' := Next(t, step, now, policies); t'.status.Some? ==> FromItsPolicy(t'.status.value, policies)
  {}

  /** At every reachable record that came from a policy: its hours, targets and warning lead are those of that policy. */
  lemma {:induction false} RunKeepsPolicy(h: seq<Timed>, policies: Policies)
    ensures Run(h, policies).status.Some? ==> FromItsPolicy(Run(h, policies).status.value, policies)
  {
    if h != [] {
      RunKeepsPolicy(h[..|h| - 1], policies);
      StepKeepsPolicy(Run(h[..|h| - 1], policies), h[|h| - 1].step, h[|h| - 1].now, policies);
    }
  }

  /** A start stores the deadlines of the policy's own minutes on the policy's own clock, and arms the three timers. */
  lemma StartStores(q: Timers, policyId: string, severity: string, startedAt: int, now: int, policies: Policies)
    requires policyId in policies && Usable(policies[policyId])
    ensures var node := policies[policyId];
            var t' := Next(Ticket(None, q), Start(policyId, severity, startedAt), now, policies);
            && t'.status.Some?
            && var s := t'.status.value;
               && s.startedAt == startedAt && s.policyId == Some(policyId) && s.tier.severity == severity
               && s.responseDeadline == Deadline(startedAt, node.responseMinutes, NodeClock(node))
               && s.resolveDeadline == Deadline(startedAt, node.resolveMinutes, NodeClock(node))
               && s.resolvedAt.None? && s.pausedAt.None? && s.pausedTotal == 0
               && !s.responseMet && !s.resolveMet && !s.breached
               && t'.timers.breach.Some? && t'.timers.warning.Some? && t'.timers.response.Some?
  {}

  /** A policy that is not there or cannot be used starts nothing. */
  lemma NothingStarts(t: Ticket, policyId: string, severity: string, startedAt: int, now: int, policies: Policies)
    requires policyId !in policies || !Usable(policies[policyId])
    ensures Next(t, Start(policyId, severity, startedAt), now, policies) == t
    ensures StepFails(t, Start(policyId, severity, startedAt), policies)
  {}

  /** Starting on a usable policy fails exactly when one of its two deadlines does not exist. */
  lemma StartFailsIff(t: Ticket, policyId: string, severity: string, startedAt: int, policies: Policies)
    requires policyId in policies && Usable(policies[policyId])
    ensures var node := policies[policyId];
            StepFails(t, Start(policyId, severity, startedAt), policies)
            <==> || DeadlineOn(startedAt, node.responseMinutes, NodeClock(node)).Err?
                 || DeadlineOn(startedAt, node.resolveMinutes, NodeClock(node)).Err?
  {}

  /** A new policy counts from the start on its own clock, later by the pauses so far. */
  lemma RepolicyStores(s: SLAStatus, q: Timers, policyId: string, severity: string, now: int, policies: Policies)
    requires policyId in policies && Usable(policies[policyId])
    requires s.resolvedAt.None? && s.policyId.Some? && (s.policyId.value != policyId || s.tier.severity != severity)
    ensures var node := policies[policyId];
            var t' := Next(Ticket(Some(s), q), Repolicy(policyId, severity), now, policies);
            && t'.status.Some?
            && var s' := t'.status.value;
               var clock := NodeClock(node);
               && s'.policyId == Some(policyId) && s'.tier.severity == severity
               && s'.responseDeadline == Extended(Deadline(s.startedAt, node.responseMinutes, clock), s.pausedTotal, clock)
               && s'.resolveDeadline == Extended(Deadline(s.startedAt, node.resolveMinutes, clock), s.pausedTotal, clock)
               && s' == s.(policyId := s'.policyId, tier := s'.tier, responseDeadline := s'.responseDeadline,
                           resolveDeadline := s'.resolveDeadline)
  {}

  /** An SLA that is closed, came from a rule, or already has the policy and the severity is left alone. */
  lemma RepolicyLeavesAlone(s: SLAStatus, q: Timers, policyId: string, severity: string, now: int, policies: Policies)
    requires s.resolvedAt.Some? || s.policyId.None? || (s.policyId.value == policyId && s.tier.severity == severity)
    ensures Next(Ticket(Some(s), q), Repolicy(policyId, severity), now, policies) == Ticket(Some(s), q)
  {}

  /** Two hours of service, Monday to Friday from 08:00 to 18:00 in UTC. */
  const OFFICE_HOURS: ServiceCalendar := Calendar({1, 2, 3, 4, 5}, 480, 1080, {})

  const TWO_OFFICE_HOURS: PolicyNode := PolicyNode(Some(Zone(t => 0)), Some(OFFICE_HOURS), true, 60, 120, 30)

  /** Opened on Friday 2 January 1970 at 17:30, due on Monday at 09:30. */
  lemma FridayEveningEndsMonday(q: Timers, policyId: string, severity: string, now: int, policies: Policies)
    requires policyId in policies && policies[policyId] == TWO_OFFICE_HOURS
    ensures var s := Next(Ticket(None, q), Start(policyId, severity, 2490), now, policies).status;
            s.Some? && s.value.resolveDeadline == 6330
  {
    StartStores(q, policyId, severity, 2490, now, policies);
    FridayEvening();
  }

  lemma FridayEvening()
    ensures LocalDeadline(OFFICE_HOURS, Zone(t => 0), 2490, 120) == 6330
  {
    var c := OFFICE_HOURS;
    assert IsNextWorkingDay(c, 1, 4);
    NextWorkingDayUnique(c, 1, 4);
    WalkPastDay(c, 1, 1050, 120);
    WalkInsideDay(c, 4, 480, 90);
  }

  // ── The deadlines, from the events alone ───────────────────────────────────

  /** Whether an SLA runs, and since when it does not, as its events tell. */
  datatype Stop = Running | Stopped(since: int, kind: PauseType) | Concluded(since: int)

  function NextStop(stop: Stop, step: Step): Stop {
    match step
    case Pause(kind, at) => if stop.Running? then Stopped(at, kind) else stop
    case Resume(_) => if stop.Stopped? then Running else stop
    case Resolve(at) => if stop.Concluded? then stop else Concluded(at)
    case Reopen(_) => if stop.Concluded? then Running else stop
    case _ => stop
  }

  /** After the first n events. */
  function StopAfter(h: seq<Timed>, n: nat): Stop
    requires n <= |h|
  {
    if n == 0 then Running else NextStop(StopAfter(h, n - 1), h[n - 1].step)
  }

  /** The two targets of an SLA. */
  datatype Target = ResponseTarget | ResolveTarget {
    function Minutes(node: PolicyNode): nat {
      match this case ResponseTarget => node.responseMinutes case ResolveTarget => node.resolveMinutes
    }

    function DeadlineOf(s: SLAStatus): int {
      match this case ResponseTarget => s.responseDeadline case ResolveTarget => s.resolveDeadline
    }

    /** Whether its clock stands still during a pause. */
    predicate StoppedBy(kind: PauseType) {
      match this case ResponseTarget => kind != PauseResolve case ResolveTarget => kind != PauseResponse
    }
  }

  /** The stop a step ends, if it counts for the target: a pause that stopped its clock, at the resume and, for the resolve
      target, at the resolution; for the resolve target also the time between a resolution and a reopening. */
  ghost function Shift(target: Target, stop: Stop, step: Step, clock: SLAClock): nat
    requires Complete(clock)
  {
    match step
    case Resume(at) => if stop.Stopped? && target.StoppedBy(stop.kind) then Counted(stop.since, at, clock) else 0
    case Resolve(at) =>
      if target.ResolveTarget? && stop.Stopped? && target.StoppedBy(stop.kind) then Counted(stop.since, at, clock) else 0
    case Reopen(at) => if target.ResolveTarget? && stop.Concluded? then Counted(stop.since, at, clock) else 0
    case _ => 0
  }

  /** The time the clock of the target stood still during the first n events. */
  ghost function StopTime(target: Target, h: seq<Timed>, n: nat, clock: SLAClock): nat
    requires Complete(clock) && n <= |h|
  {
    if n == 0 then 0 else
      StopTime(target, h, n - 1, clock) + Shift(target, StopAfter(h, n - 1), h[n - 1].step, clock)
  }

  /** A history of one policy: it starts on it, and neither another policy nor a rule follows. */
  predicate OnOnePolicy(h: seq<Timed>, policyId: string, severity: string, start: int, policies: Policies) {
    && h != [] && h[0].step == Start(policyId, severity, start)
    && policyId in policies && Usable(policies[policyId])
    && forall i | 1 <= i < |h| :: !h[i].step.Repolicy? && !h[i].step.ApplyRule?
  }

  /** The deadlines of the target along the history, before its last event, cross no service time. */
  ghost predicate CrossesNothingAlong(target: Target, h: seq<Timed>, start: int, m: nat, clock: SLAClock)
    requires Complete(clock)
  {
    forall i | 1 <= i < |h| :: CrossesNothing(start, m + StopTime(target, h, i, clock), clock)
  }

  predicate StopMatches(s: SLAStatus, stop: Stop) {
    match stop
    case Running => s.pausedAt.None? && s.resolvedAt.None?
    case Stopped(since, kind) => s.pausedAt == Some(since) && s.pausedType == Some(kind) && s.resolvedAt.None?
    case Concluded(since) => s.resolvedAt == Some(since) && s.pausedAt.None?
  }

  /** The record of a history on one policy. */
  predicate RecordOf(t: Ticket, stop: Stop, policyId: string, policies: Policies) {
    && t.status.Some? && t.status.value.policyId == Some(policyId)
    && FromItsPolicy(t.status.value, policies) && Shape(t.status.value)
    && StopMatches(t.status.value, stop)
  }

  /** The clock the record reads is the one of the node, or measures like it. */
  lemma SameClock(s: SLAStatus, policies: Policies)
    requires s.policyId.Some? && FromItsPolicy(s, policies)
    ensures var clock := NodeClock(policies[s.policyId.value]);
            && ClockOf(s, policies).Ok?
            && (forall x, y :: Counted(x, y, ClockOf(s, policies).value) == Counted(x, y, clock))
            && (forall d: int, m: nat :: Extended(d, m, ClockOf(s, policies).value) == Extended(d, m, clock))
  {}

  /** One step of such a history: where the SLA stands. */
  lemma StepStands(t: Ticket, stop: Stop, step: Step, now: int, policyId: string, policies: Policies)
    requires RecordOf(t, stop, policyId, policies) && !step.Repolicy? && !step.ApplyRule?
    ensures RecordOf(Next(t, step, now, policies), NextStop(stop, step), policyId, policies)
  {
    SameClock(t.status.value, policies);
    StepKeepsPolicy(t, step, now, policies);
    StepKeepsShape(t, step, now, policies);
  }

  /** And what its two deadlines are moved by. */
  lemma StepMoves(target: Target, t: Ticket, stop: Stop, step: Step, now: int, policyId: string, policies: Policies)
    requires RecordOf(t, stop, policyId, policies) && !step.Repolicy? && !step.ApplyRule?
    ensures var clock := NodeClock(policies[policyId]);
            var s, s' := t.status.value, Next(t, step, now, policies).status.value;
            target.DeadlineOf(s') == Extended(target.DeadlineOf(s), Shift(target, stop, step, clock), clock)
  {
    SameClock(t.status.value, policies);
  }

  /** THE DEADLINES FROM THE EVENTS. In every history on one policy — pauses of every type, resumes, resolutions,
      reopenings, responses, timers, sweeps, lost jobs, redelivered starts — each of the two deadlines is that of the start,
      the policy's minutes and the time its clock stood still, as long as no deadline on the way crosses service time. */
  lemma {:induction false} DeadlineFromEvents(target: Target, h: seq<Timed>, policyId: string, severity: string, start: int,
                                              policies: Policies)
    requires OnOnePolicy(h, policyId, severity, start, policies)
    requires CrossesNothingAlong(target, h, start, target.Minutes(policies[policyId]), NodeClock(policies[policyId]))
    ensures Run(h, policies).status.Some?
    ensures var node, clock := policies[policyId], NodeClock(policies[policyId]);
            target.DeadlineOf(Run(h, policies).status.value)
            == Deadline(start, target.Minutes(node) + StopTime(target, h, |h|, clock), clock)
  {
    SameAlong(target, h, policyId, severity, start, policies);
    LastDeadline(target, h, policyId, severity, start, policies);
    LastPromised(target, h, start, target.Minutes(policies[policyId]), NodeClock(policies[policyId]));
  }

  ghost function DeadlineAt(target: Target, h: seq<Timed>, n: nat, policies: Policies): int
    requires n <= |h|
  {
    var t := Run(h[..n], policies);
    if t.status.Some? then target.DeadlineOf(t.status.value) else 0
  }

  /** The deadline after each number of events; and the one that is promised. */
  ghost function DeadlinesAlong(target: Target, h: seq<Timed>, policies: Policies): seq<int> {
    seq(|h| + 1, n requires 0 <= n <= |h| => DeadlineAt(target, h, n, policies))
  }

  ghost function PromisedAlong(target: Target, h: seq<Timed>, start: int, m: nat, clock: SLAClock): seq<int>
    requires Complete(clock)
  {
    seq(|h| + 1, n requires 0 <= n <= |h| => Promised(target, h, n, start, m, clock))
  }

  ghost function Promised(target: Target, h: seq<Timed>, n: nat, start: int, m: nat, clock: SLAClock): int
    requires Complete(clock) && n <= |h|
  {
    Deadline(start, m + StopTime(target, h, n, clock), clock)
  }

  /** How the event after the first n moves a deadline. */
  ghost function Extension(target: Target, h: seq<Timed>, clock: SLAClock): (nat, int) -> int
    requires Complete(clock)
  {
    (n: nat, d: int) => if n < |h| then Extended(d, ShiftAt(target, h, n, clock), clock) else d
  }

  predicate Moves(a: seq<int>, moved: (nat, int) -> int) {
    forall n | 1 <= n < |a| - 1 :: a[n + 1] == moved(n, a[n])
  }

  /** Two sequences that start alike and move alike are alike. */
  lemma {:induction false} SameChain(a: seq<int>, b: seq<int>, moved: (nat, int) -> int, n: nat)
    requires 1 <= n < |a| && n < |b| && a[1] == b[1] && Moves(a, moved) && Moves(b, moved)
    ensures a[n] == b[n]
  {
    if n > 1 { SameChain(a, b, moved, n - 1); }
  }

  lemma DeadlinesMove(target: Target, h: seq<Timed>, policyId: string, severity: string, start: int, policies: Policies)
    requires OnOnePolicy(h, policyId, severity, start, policies)
    ensures Moves(DeadlinesAlong(target, h, policies), Extension(target, h, NodeClock(policies[policyId])))
  {
    forall n | 1 <= n < |h|
      ensures DeadlineAt(target, h, n + 1, policies)
           == Extension(target, h, NodeClock(policies[policyId]))(n, DeadlineAt(target, h, n, policies))
    {
      MovesAt(target, h, n, policyId, severity, start, policies);
    }
  }

  lemma PromisedMove(target: Target, h: seq<Timed>, start: int, m: nat, clock: SLAClock)
    requires Complete(clock) && CrossesNothingAlong(target, h, start, m, clock)
    ensures Moves(PromisedAlong(target, h, start, m, clock), Extension(target, h, clock))
  {
    forall n | 1 <= n < |h|
      ensures Promised(target, h, n + 1, start, m, clock)
           == Extension(target, h, clock)(n, Promised(target, h, n, start, m, clock))
    {
      TargetMoves(target, h, n, start, m, clock);
      ExtensionIs(target, h, clock, n, Promised(target, h, n, start, m, clock));
    }
  }

  lemma ExtensionIs(target: Target, h: seq<Timed>, clock: SLAClock, n: nat, d: int)
    requires Complete(clock) && n < |h|
    ensures Extension(target, h, clock)(n, d) == Extended(d, ShiftAt(target, h, n, clock), clock)
  {}

  lemma SameAlong(target: Target, h: seq<Timed>, policyId: string, severity: string, start: int, policies: Policies)
    requires OnOnePolicy(h, policyId, severity, start, policies)
    requires CrossesNothingAlong(target, h, start, target.Minutes(policies[policyId]), NodeClock(policies[policyId]))
    ensures DeadlinesAlong(target, h, policies)[|h|]
         == PromisedAlong(target, h, start, target.Minutes(policies[policyId]), NodeClock(policies[policyId]))[|h|]
  {
    var clock, m := NodeClock(policies[policyId]), target.Minutes(policies[policyId]);
    DeadlinesMove(target, h, policyId, severity, start, policies);
    PromisedMove(target, h, start, m, clock);
    FirstDeadline(target, h, policyId, severity, start, policies);
    SameChain(DeadlinesAlong(target, h, policies), PromisedAlong(target, h, start, m, clock), Extension(target, h, clock), |h|);
  }

  lemma FirstDeadline(target: Target, h: seq<Timed>, policyId: string, severity: string, start: int, policies: Policies)
    requires OnOnePolicy(h, policyId, severity, start, policies)
    ensures DeadlinesAlong(target, h, policies)[1]
         == PromisedAlong(target, h, start, target.Minutes(policies[policyId]), NodeClock(policies[policyId]))[1]
  {
    FirstEvent(target, h, policyId, severity, start, policies);
  }

  lemma LastPromised(target: Target, h: seq<Timed>, start: int, m: nat, clock: SLAClock)
    requires Complete(clock)
    ensures PromisedAlong(target, h, start, m, clock)[|h|] == Deadline(start, m + StopTime(target, h, |h|, clock), clock)
  {}

  lemma LastDeadline(target: Target, h: seq<Timed>, policyId: string, severity: string, start: int, policies: Policies)
    requires OnOnePolicy(h, policyId, severity, start, policies)
    ensures Run(h, policies).status.Some?
    ensures DeadlinesAlong(target, h, policies)[|h|] == target.DeadlineOf(Run(h, policies).status.value)
  {
    StandsThroughout(h, |h|, policyId, severity, start, policies);
    assert h[..|h|] == h;
  }

  /** What the event after the first n adds to the time the clock stood still. */
  ghost function ShiftAt(target: Target, h: seq<Timed>, n: nat, clock: SLAClock): nat
    requires Complete(clock) && n < |h|
  {
    Shift(target, StopAfter(h, n), h[n].step, clock)
  }

  lemma TargetMoves(target: Target, h: seq<Timed>, n: nat, start: int, m: nat, clock: SLAClock)
    requires Complete(clock) && n < |h| && CrossesNothing(start, m + StopTime(target, h, n, clock), clock)
    ensures Extended(Promised(target, h, n, start, m, clock), ShiftAt(target, h, n, clock), clock)
         == Promised(target, h, n + 1, start, m, clock)
  {
    StopTimeGrows(target, h, n, clock);
    LongerTarget(start, m, StopTime(target, h, n, clock), ShiftAt(target, h, n, clock), StopTime(target, h, n + 1, clock),
                 clock);
  }

  lemma StopTimeGrows(target: Target, h: seq<Timed>, n: nat, clock: SLAClock)
    requires Complete(clock) && n < |h|
    ensures StopTime(target, h, n + 1, clock) == StopTime(target, h, n, clock) + ShiftAt(target, h, n, clock)
  {}

  lemma LongerTarget(start: int, m: nat, before: nat, shift: nat, after: nat, clock: SLAClock)
    requires CrossesNothing(start, m + before, clock) && after == before + shift
    ensures Extended(Deadline(start, m + before, clock), shift, clock) == Deadline(start, m + after, clock)
  {
    DeadlineExtends(start, m + before, shift, clock);
  }

  /** Where the SLA stands after the first n events. */
  ghost predicate StandsAt(h: seq<Timed>, n: nat, policyId: string, policies: Policies)
    requires n <= |h|
  {
    RecordOf(Run(h[..n], policies), StopAfter(h, n), policyId, policies)
  }

  lemma StandsNext(h: seq<Timed>, n: nat, policyId: string, policies: Policies)
    requires n < |h| && StandsAt(h, n, policyId, policies) && !h[n].step.Repolicy? && !h[n].step.ApplyRule?
    ensures StandsAt(h, n + 1, policyId, policies)
  {
    assert h[..n + 1][..n] == h[..n];
    StepStands(Run(h[..n], policies), StopAfter(h, n), h[n].step, h[n].now, policyId, policies);
  }

  lemma {:induction false} StandsThroughout(h: seq<Timed>, n: nat, policyId: string, severity: string, start: int,
                                            policies: Policies)
    requires OnOnePolicy(h, policyId, severity, start, policies) && 1 <= n <= |h|
    ensures StandsAt(h, n, policyId, policies)
  {
    var stands := seq(|h| + 1, k requires 0 <= k <= |h| => StandsAt(h, k, policyId, policies));
    FirstStands(h, policyId, severity, start, policies);
    forall k | 1 <= k < |h| ensures stands[k] ==> stands[k + 1] {
      if stands[k] { StandsNext(h, k, policyId, policies); }
    }
    StaysTrue(stands, 1, n);
  }

  lemma MovesAt(target: Target, h: seq<Timed>, n: nat, policyId: string, severity: string, start: int, policies: Policies)
    requires OnOnePolicy(h, policyId, severity, start, policies) && 1 <= n < |h|
    ensures var clock := NodeClock(policies[policyId]);
            DeadlineAt(target, h, n + 1, policies)
            == Extended(DeadlineAt(target, h, n, policies), ShiftAt(target, h, n, clock), clock)
  {
    RunStep(h, n, policies);
    StandsThroughout(h, n, policyId, severity, start, policies);
    StandsThroughout(h, n + 1, policyId, severity, start, policies);
    StepMoves(target, Run(h[..n], policies), StopAfter(h, n), h[n].step, h[n].now, policyId, policies);
  }

  lemma FirstStands(h: seq<Timed>, policyId: string, severity: string, start: int, policies: Policies)
    requires OnOnePolicy(h, policyId, severity, start, policies)
    ensures StandsAt(h, 1, policyId, policies)
  {
    assert h[..0] == [] && h[..1][..0] == [];
    StartStores(NO_TIMERS, policyId, severity, start, h[0].now, policies);
    StepKeepsPolicy(NO_TICKET, h[0].step, h[0].now, policies);
    StepKeepsShape(NO_TICKET, h[0].step, h[0].now, policies);
  }

  lemma FirstEvent(target: Target, h: seq<Timed>, policyId: string, severity: string, start: int, policies: Policies)
    requires OnOnePolicy(h, policyId, severity, start, policies)
    ensures var clock := NodeClock(policies[policyId]);
            && StopTime(target, h, 1, clock) == 0
            && DeadlineAt(target, h, 1, policies) == Deadline(start, target.Minutes(policies[policyId]), clock)
  {
    assert h[..0] == [] && h[..0 + 1] == h[..1];
    RunStep(h, 0, policies);
    assert Run(h[..0], policies) == NO_TICKET;
    assert StopTime(target, h, 0, NodeClock(policies[policyId])) == 0 && StopAfter(h, 0) == Running;
    StartStores(NO_TIMERS, policyId, severity, start, h[0].now, policies);
    match target { case ResponseTarget => case ResolveTarget => }
  }
}
