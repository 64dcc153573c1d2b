/** What an SLA outcome means: over every run under one policy, the recorded outcome compares the target with the
    service time the SLA was actually running (packages/sla/src/status.ts:460-650).
 */
module SLAOutcomes {
  import opened Wrappers
  import opened ServiceTime
  import opened Zones
  import opened Policy
  import opened SLAClocks
  import opened SLAStatuses

  datatype ClockEvent = Pause(at: int, kind: PauseType) | Resume(at: int) | Resolve(at: int) | Reopen(at: int)

  /** One event on the stored record; an event that finds nothing to do leaves it alone. */
  ghost function Apply(s: SLAStatus, e: ClockEvent, clock: SLAClock): SLAStatus
    requires Complete(clock)
  {
    match e
    case Pause(at, kind) => if CanPause(s) then Paused(s, kind, at) else s
    case Resume(at) => if s.pausedAt.Some? then Resumed(s, at, clock) else s
    case Resolve(at) => if s.resolvedAt.None? then Resolved(s, at, clock) else s
    case Reopen(at) => if s.resolvedAt.Some? then Reopened(s, at, clock) else s
  }

  ghost function After(s: SLAStatus, h: seq<ClockEvent>, clock: SLAClock): SLAStatus
    requires Complete(clock)
  {
    if h == [] then s else Apply(After(s, h[..|h| - 1], clock), h[|h| - 1], clock)
  }

  // ── The reference: the running time of a history, from its events alone ──

  datatype Phase = Running | Waiting | Done

  function NextPhase(p: Phase, e: ClockEvent): Phase {
    match (p, e)
    case (Running, Pause(_, _)) => Waiting
    case (Waiting, Resume(_)) => Running
    case (Running, Resolve(_)) => Done
    case (Waiting, Resolve(_)) => Done
    case (Done, Reopen(_)) => Running
    case _ => p
  }

  function PhaseAfter(h: seq<ClockEvent>): Phase {
    if h == [] then Running else NextPhase(PhaseAfter(h[..|h| - 1]), h[|h| - 1])
  }

  function LastInstant(start: int, h: seq<ClockEvent>): int { if h == [] then start else h[|h| - 1].at }

  /** The events come in order of their instants, none before the start. */
  predicate Chronological(start: int, h: seq<ClockEvent>) {
    forall i | 0 <= i < |h| :: LastInstant(start, h[..i]) <= h[i].at
  }

  /** No pause of the history leaves the resolve clock running. */
  predicate PausesStopResolve(h: seq<ClockEvent>) {
    forall e | e in h :: e.Pause? ==> StopsResolve(e.kind)
  }

  /** The time the SLA was running: neither paused nor resolved. */
  ghost function NetTime(start: int, h: seq<ClockEvent>, clock: SLAClock): nat
    requires Complete(clock)
  {
    if h == [] then 0 else
      var before := h[..|h| - 1];
      NetTime(start, before, clock) +
      if PhaseAfter(before) == Running then Counted(LastInstant(start, before), h[|h| - 1].at, clock) else 0
  }

  // ── The invariant of a run ─────────────────────────────────────────────────

  /** The time not yet written into the pause total: since the open pause, or since the resolution. */
  ghost function OpenStop(s: SLAStatus, now: int, clock: SLAClock): nat
    requires Complete(clock)
  {
    if s.resolvedAt.Some? then Counted(s.resolvedAt.value, now, clock)
    else if s.pausedAt.Some? then Counted(s.pausedAt.value, now, clock) else 0
  }

  ghost predicate PhaseMatches(s: SLAStatus, p: Phase, now: int) {
    && (p == Running <==> s.resolvedAt.None? && s.pausedAt.None?)
    && (p == Waiting <==> s.resolvedAt.None? && s.pausedAt.Some?)
    && (s.pausedAt.Some? ==> ResolvePaused(s) && s.pausedAt.value <= now && s.resolvedAt.None?)
    && (s.resolvedAt.Some? ==> s.resolvedAt.value <= now)
    && (s.resolveMet ==> s.resolvedAt.Some?)
  }

  /** Conservation: running time, pause total and open stop add up to the time counted since the start. */
  ghost predicate Conserved(s: SLAStatus, start: int, p: Phase, now: int, net: nat, clock: SLAClock)
    requires Complete(clock)
  {
    && PhaseMatches(s, p, now)
    && start <= now
    && net + s.pausedTotal + OpenStop(s, now, clock) == Counted(start, now, clock)
  }

  /** The deadline is the one of the target and the pause total, and the outcome of a resolved SLA is right. */
  ghost predicate RunInvariant(s: SLAStatus, start: int, target: nat, p: Phase, now: int, net: nat, clock: SLAClock)
    requires Complete(clock)
  {
    && Conserved(s, start, p, now, net, clock)
    && s.resolveDeadline == Deadline(start, target + s.pausedTotal, clock)
    && (s.resolvedAt.Some? ==> OutcomeRight(s, target, net))
  }

  ghost predicate OutcomeRight(s: SLAStatus, target: nat, net: nat) {
    (s.resolveMet ==> net <= target) && (net < target ==> s.resolveMet) && (s.resolveMet || s.breached)
  }

  /** The running time after one more event. */
  ghost function NetAfter(net: nat, p: Phase, now: int, at: int, clock: SLAClock): nat
    requires Complete(clock)
  {
    net + if p == Running then Counted(now, at, clock) else 0
  }

  // ── Conservation ───────────────────────────────────────────────────────────

  lemma {:induction false} RunConserves(s0: SLAStatus, h: seq<ClockEvent>, clock: SLAClock)
    requires NoServiceRepeated(clock) && Chronological(s0.startedAt, h) && PausesStopResolve(h)
    requires s0.resolvedAt.None? && s0.pausedAt.None? && !s0.resolveMet && s0.pausedTotal == 0
    ensures Conserved(After(s0, h, clock), s0.startedAt, PhaseAfter(h), LastInstant(s0.startedAt, h),
                      NetTime(s0.startedAt, h, clock), clock)
  {
    if h != [] {
      var n := |h| - 1;
      var before := h[..n];
      assert forall i | 0 <= i < n :: before[..i] == h[..i];
      RunConserves(s0, before, clock);
      assert h[n] in h;
      StepConserves(After(s0, before, clock), s0.startedAt, PhaseAfter(before), LastInstant(s0.startedAt, before),
                    NetTime(s0.startedAt, before, clock), h[n], clock);
    }
  }

  lemma StepConserves(s: SLAStatus, start: int, p: Phase, now: int, net: nat, e: ClockEvent, clock: SLAClock)
    requires NoServiceRepeated(clock) && Conserved(s, start, p, now, net, clock)
    requires now <= e.at && (e.Pause? ==> StopsResolve(e.kind))
    ensures Conserved(Apply(s, e, clock), start, NextPhase(p, e), e.at, NetAfter(net, p, now, e.at, clock), clock)
  {
    TimePasses(s, start, p, now, net, e.at, clock);
  }

  /** Letting time pass conserves it: only the running time, or the open stop, grows. */
  lemma TimePasses(s: SLAStatus, start: int, p: Phase, now: int, net: nat, at: int, clock: SLAClock)
    requires NoServiceRepeated(clock) && Conserved(s, start, p, now, net, clock) && now <= at
    ensures Conserved(s, start, p, at, NetAfter(net, p, now, at, clock), clock)
  {
    CountedAdds(start, now, at, clock);
    if s.resolvedAt.Some? { CountedAdds(s.resolvedAt.value, now, at, clock); }
    else if s.pausedAt.Some? { CountedAdds(s.pausedAt.value, now, at, clock); }
  }

  /** Conservation, for every run: the running time and the time not counted add up to the time since the start. */
  lemma {:induction false} TimeIsConserved(policyId: string, tier: Tier, clock: SLAClock, start: int, h: seq<ClockEvent>)
    requires NoServiceRepeated(clock) && Chronological(start, h) && PausesStopResolve(h)
    ensures AddsUp(policyId, tier, clock, start, h)
  {
    RunConserves(Created(policyId, tier, clock, start), h, clock);
  }

  ghost predicate AddsUp(policyId: string, tier: Tier, clock: SLAClock, start: int, h: seq<ClockEvent>)
    requires Complete(clock)
  {
    var s, now := After(Created(policyId, tier, clock, start), h, clock), LastInstant(start, h);
    NetTime(start, h, clock) + s.pausedTotal + OpenStop(s, now, clock) == Counted(start, now, clock)
  }

  /** EXACTLY. Time is conserved over all runs exactly on a clock that repeats no service time. */
  lemma {:induction false} ConservedIff(policyId: string, tier: Tier, clock: SLAClock)
    requires Complete(clock) && Bounded(clock.timezone)
    ensures (forall start, h | Chronological(start, h) && PausesStopResolve(h) :: AddsUp(policyId, tier, clock, start, h))
       <==> NoServiceRepeated(clock)
  {
    if NoServiceRepeated(clock) {
      forall start, h | Chronological(start, h) && PausesStopResolve(h) ensures AddsUp(policyId, tier, clock, start, h) {
        TimeIsConserved(policyId, tier, clock, start, h);
      }
    } else {
      var t, u, s :| t <= u && Local(clock.timezone, u) <= s < Local(clock.timezone, t)
                     && IsService(clock.calendar.value, s);
      RepeatedCountsTwice(clock, t, u, s);
      PauseOverRepeat(policyId, tier, clock, t - 4 * MAX_OFFSET, t, u);
    }
  }

  /** A run with one pause adds up exactly if the counts before and during the pause do. */
  lemma PauseOverRepeat(policyId: string, tier: Tier, clock: SLAClock, start: int, t: int, u: int)
    requires Complete(clock) && start <= t <= u
    ensures var h := [Pause(t, PauseBoth), Resume(u)];
            && Chronological(start, h) && PausesStopResolve(h)
            && (AddsUp(policyId, tier, clock, start, h)
                <==> Counted(start, u, clock) == Counted(start, t, clock) + Counted(t, u, clock))
  {
    var h := [Pause(t, PauseBoth), Resume(u)];
    assert h[..0] == [] && h[..1] == [Pause(t, PauseBoth)] && h[..1][..0] == [];
    var s := Created(policyId, tier, clock, start);
    assert After(s, h[..1], clock) == Paused(s, PauseBoth, t);
    assert After(s, h, clock) == Resumed(Paused(s, PauseBoth, t), u, clock);
    assert NetTime(start, h[..1], clock) == Counted(start, t, clock);
    assert PhaseAfter(h[..1]) == Waiting;
    assert NetTime(start, h, clock) == Counted(start, t, clock);
  }

  // ── The outcome ────────────────────────────────────────────────────────────

  /** The deadline of the target `m` crosses no service time, and at most one clock change is near it. */
  ghost predicate SafeTarget(start: int, m: nat, clock: SLAClock) {
    CrossesNothing(start, m, clock) && (clock.businessHours ==>
      OneChangeAt(clock.timezone, LocalDeadline(clock.calendar.value, clock.timezone, start, m)))
  }

  /** The target and the pause total after a history. */
  ghost function Total(s0: SLAStatus, h: seq<ClockEvent>, clock: SLAClock): nat
    requires Complete(clock)
  {
    s0.tier.resolveMinutes + After(s0, h, clock).pausedTotal
  }

  /** The deadlines the run really had are safe; a clock change elsewhere does not matter. */
  ghost predicate SafeRun(s0: SLAStatus, h: seq<ClockEvent>, clock: SLAClock) {
    Complete(clock) && forall i | 0 <= i <= |h| :: SafeTarget(s0.startedAt, Total(s0, h[..i], clock), clock)
  }

  /** What a run needs of each of its deadlines: it can be extended, and it tells right outcomes from wrong ones. */
  ghost predicate TargetHolds(start: int, m: nat, clock: SLAClock)
    requires Complete(clock)
  {
    && (forall a: nat :: Extended(Deadline(start, m, clock), a, clock) == Deadline(start, m + a, clock))
    && (forall t | t >= start :: OutcomeFits(start, m, clock, t))
  }

  lemma SafeTargetHolds(start: int, m: nat, clock: SLAClock)
    requires NoServiceRepeated(clock) && SafeTarget(start, m, clock)
    ensures TargetHolds(start, m, clock)
  {
    forall a: nat ensures Extended(Deadline(start, m, clock), a, clock) == Deadline(start, m + a, clock) {
      DeadlineExtends(start, m, a, clock);
    }
    forall t | t >= start ensures OutcomeFits(start, m, clock, t) { OutcomeBounds(start, m, clock, t); }
  }

  ghost predicate TargetsHold(s0: SLAStatus, h: seq<ClockEvent>, clock: SLAClock)
    requires Complete(clock)
  {
    forall i | 0 <= i <= |h| :: TargetHolds(s0.startedAt, Total(s0, h[..i], clock), clock)
  }

  lemma {:induction false} SafeRunHolds(s0: SLAStatus, h: seq<ClockEvent>, clock: SLAClock)
    requires NoServiceRepeated(clock) && SafeRun(s0, h, clock)
    ensures TargetsHold(s0, h, clock)
  {
    forall i | 0 <= i <= |h| ensures TargetHolds(s0.startedAt, Total(s0, h[..i], clock), clock) {
      var m := Total(s0, h[..i], clock);
      assert SafeTarget(s0.startedAt, m, clock);
      SafeTargetHolds(s0.startedAt, m, clock);
    }
  }

  lemma {:induction false} RunKeepsInvariant(s0: SLAStatus, h: seq<ClockEvent>, clock: SLAClock)
    requires NoServiceRepeated(clock) && TargetsHold(s0, h, clock)
    requires Chronological(s0.startedAt, h) && PausesStopResolve(h)
    requires s0.resolvedAt.None? && s0.pausedAt.None? && !s0.resolveMet && s0.pausedTotal == 0
    requires s0.resolveDeadline == Deadline(s0.startedAt, s0.tier.resolveMinutes, clock)
    ensures RunInvariant(After(s0, h, clock), s0.startedAt, s0.tier.resolveMinutes, PhaseAfter(h),
                         LastInstant(s0.startedAt, h), NetTime(s0.startedAt, h, clock), clock)
  {
    if h != [] {
      var n := |h| - 1;
      var before := h[..n];
      BeforeHolds(s0, h, clock);
      RunKeepsInvariant(s0, before, clock);
      assert h[n] in h;
      StepKeepsInvariant(After(s0, before, clock), s0.startedAt, s0.tier.resolveMinutes, PhaseAfter(before),
                         LastInstant(s0.startedAt, before), NetTime(s0.startedAt, before, clock), h[n],
                         Total(s0, before, clock), Total(s0, h, clock), clock);
    }
  }

  /** What a run needs, its beginning needs too, and its last step. */
  lemma {:induction false} BeforeHolds(s0: SLAStatus, h: seq<ClockEvent>, clock: SLAClock)
    requires Complete(clock) && h != [] && TargetsHold(s0, h, clock) && Chronological(s0.startedAt, h)
    ensures TargetsHold(s0, h[..|h| - 1], clock) && Chronological(s0.startedAt, h[..|h| - 1])
    ensures TargetHolds(s0.startedAt, Total(s0, h[..|h| - 1], clock), clock)
    ensures TargetHolds(s0.startedAt, Total(s0, h, clock), clock)
  {
    var before := h[..|h| - 1];
    assert h[..|h|] == h;
    assert TargetHolds(s0.startedAt, Total(s0, h[..|h|], clock), clock);
    forall i | 0 <= i <= |before| ensures before[..i] == h[..i] {}
    forall i | 0 <= i <= |before| ensures TargetHolds(s0.startedAt, Total(s0, before[..i], clock), clock) {
      assert TargetHolds(s0.startedAt, Total(s0, h[..i], clock), clock);
    }
  }

  lemma StepKeepsInvariant(s: SLAStatus, start: int, target: nat, p: Phase, now: int, net: nat, e: ClockEvent,
                           m: nat, m': nat, clock: SLAClock)
    requires NoServiceRepeated(clock) && RunInvariant(s, start, target, p, now, net, clock)
    requires m == target + s.pausedTotal && m' == target + Apply(s, e, clock).pausedTotal
    requires TargetHolds(start, m, clock) && TargetHolds(start, m', clock)
    requires now <= e.at && (e.Pause? ==> StopsResolve(e.kind))
    ensures RunInvariant(Apply(s, e, clock), start, target, NextPhase(p, e), e.at,
                         NetAfter(net, p, now, e.at, clock), clock)
  {
    StepConserves(s, start, p, now, net, e, clock);
    TimePasses(s, start, p, now, net, e.at, clock);
    DeadlineMoves(s, start, e, m, clock);
    if e.Resolve? && s.resolvedAt.None? {
      ResolutionIsRight(s, start, target, p, NetAfter(net, p, now, e.at, clock), e.at, m', clock);
    }
  }

  /** Every event moves the deadline by what it adds to the pause total. */
  lemma DeadlineMoves(s: SLAStatus, start: int, e: ClockEvent, m: nat, clock: SLAClock)
    requires Complete(clock) && TargetHolds(start, m, clock) && s.resolveDeadline == Deadline(start, m, clock)
    requires s.pausedAt.Some? ==> ResolvePaused(s)
    ensures var s' := Apply(s, e, clock);
            s'.pausedTotal >= s.pausedTotal
            && s'.resolveDeadline == Deadline(start, m + (s'.pausedTotal - s.pausedTotal), clock)
  {
    match e {
      case Pause(at, kind) =>
      case Resume(at) =>
        if s.pausedAt.Some? { ShiftedDeadline(start, m, Counted(s.pausedAt.value, at, clock), clock); }
      case Resolve(at) =>
        if s.resolvedAt.None? { ShiftedDeadline(start, m, OpenPause(s, at, clock), clock); }
      case Reopen(at) =>
        if s.resolvedAt.Some? { ShiftedDeadline(start, m, Counted(s.resolvedAt.value, at, clock), clock); }
    }
  }

  lemma ShiftedDeadline(start: int, m: nat, shift: nat, clock: SLAClock)
    requires Complete(clock) && TargetHolds(start, m, clock)
    ensures Extended(Deadline(start, m, clock), shift, clock) == Deadline(start, m + shift, clock)
  {}

  lemma ResolutionIsRight(s: SLAStatus, start: int, target: nat, p: Phase, net: nat, at: int, m: nat, clock: SLAClock)
    requires Complete(clock) && Conserved(s, start, p, at, net, clock) && s.resolvedAt.None?
    requires m == target + Resolved(s, at, clock).pausedTotal && TargetHolds(start, m, clock)
    requires Resolved(s, at, clock).resolveDeadline == Deadline(start, m, clock)
    ensures OutcomeRight(Resolved(s, at, clock), target, net)
  {
    assert OutcomeFits(start, m, clock, at);
  }

  /** THE MEANING OF AN OUTCOME. Whatever the pauses and reopenings before it, a resolution below the target in running
      time is recorded as met, and one recorded as met is within the target; otherwise the SLA is breached. Service hours
      may be skipped by a clock change, as long as no deadline of the run falls in one. */
  lemma {:induction false} OutcomeIsNetTime(policyId: string, tier: Tier, clock: SLAClock, start: int, h: seq<ClockEvent>)
    requires NoServiceRepeated(clock) && SafeRun(Created(policyId, tier, clock, start), h, clock)
    requires Chronological(start, h) && PausesStopResolve(h)
    requires PhaseAfter(h) == Done
    ensures var s := After(Created(policyId, tier, clock, start), h, clock);
            && (NetTime(start, h, clock) < tier.resolveMinutes ==> s.resolveMet)
            && (s.resolveMet ==> NetTime(start, h, clock) <= tier.resolveMinutes)
            && (s.resolveMet || s.breached)
  {
    SafeRunHolds(Created(policyId, tier, clock, start), h, clock);
    RunKeepsInvariant(Created(policyId, tier, clock, start), h, clock);
  }

  /** The configuration alone makes every run safe: offsets are bounded, clock changes far apart, and no target crosses
      service time. */
  lemma {:induction false} ConfiguredRunIsSafe(policyId: string, tier: Tier, clock: SLAClock, start: int, h: seq<ClockEvent>)
    requires NoTargetCrosses(clock) && (clock.businessHours ==> Regular(clock.timezone))
    ensures SafeRun(Created(policyId, tier, clock, start), h, clock)
  {
    var s0 := Created(policyId, tier, clock, start);
    forall i | 0 <= i <= |h| ensures SafeTarget(s0.startedAt, Total(s0, h[..i], clock), clock) {
      ConfiguredTargetIsSafe(start, Total(s0, h[..i], clock), clock);
    }
  }

  lemma ConfiguredTargetIsSafe(start: int, m: nat, clock: SLAClock)
    requires NoTargetCrosses(clock) && (clock.businessHours ==> Regular(clock.timezone))
    ensures SafeTarget(start, m, clock)
  {
    EveryTargetCrossesNothing(start, m, clock);
    if clock.businessHours {
      assert OneChangeAround(clock.timezone, LocalDeadline(clock.calendar.value, clock.timezone, start, m));
    }
  }

  /** EXACTLY, for a run that is resolved without stops: the recorded outcome is right at every instant of resolution
      exactly if the clock change around the target, if any, makes the deadline neither too early nor too late. */
  lemma {:induction false} PlainOutcomeIff(policyId: string, tier: Tier, clock: SLAClock, start: int, change: int, before: int,
                                           after: int)
    requires Complete(clock) && clock.businessHours && Bounded(clock.timezone)
    requires RealChange(clock.timezone, LocalDeadline(clock.calendar.value, clock.timezone, start, tier.resolveMinutes),
                        change, before, after)
    ensures var wall := LocalDeadline(clock.calendar.value, clock.timezone, start, tier.resolveMinutes);
            (forall at | at >= start ::
               OutcomeRight(Resolved(Created(policyId, tier, clock, start), at, clock), tier.resolveMinutes,
                            Counted(start, at, clock)))
            <==> && NotTooEarly(start, tier.resolveMinutes, wall, change, before, after)
                 && NotTooLate(clock.calendar.value, start, wall, change, before, after)
  {
    var m := tier.resolveMinutes;
    OutcomeFitsIff(start, m, clock, change, before, after);
    forall at | at >= start
      ensures OutcomeRight(Resolved(Created(policyId, tier, clock, start), at, clock), m, Counted(start, at, clock))
         <==> OutcomeFits(start, m, clock, at)
    {
      assert Resolved(Created(policyId, tier, clock, start), at, clock).resolveMet <==> at <= Deadline(start, m, clock);
    }
  }

  /** A run without stops. */
  lemma {:induction false} PlainRun(policyId: string, tier: Tier, clock: SLAClock, start: int, at: int)
    requires Complete(clock) && start <= at
    ensures var h := [Resolve(at)];
            && Chronological(start, h) && PausesStopResolve(h) && PhaseAfter(h) == Done
            && NetTime(start, h, clock) == Counted(start, at, clock)
            && After(Created(policyId, tier, clock, start), h, clock)
               == Resolved(Created(policyId, tier, clock, start), at, clock)
  {
    var h := [Resolve(at)];
    assert h[..0] == [];
    assert PhaseAfter(h[..0]) == Running && NetTime(start, h[..0], clock) == 0;
    assert After(Created(policyId, tier, clock, start), h[..0], clock) == Created(policyId, tier, clock, start);
  }

  lemma SkippedHourCounts()
    ensures Counted(360, 391, SLAClock(true, SpringForwardWest(), Some(AROUND_THE_CLOCK))) == 31
  {
    assert forall x | 60 <= x < 91 :: IsService(AROUND_THE_CLOCK, x);
    CountOfBusy(AROUND_THE_CLOCK, 60, 91);
  }

  /** Where it stops: a target of 90 minutes in a zone behind UTC whose skipped hour is service time. Resolved after 31
      minutes of running time, the SLA is recorded as breached. */
  lemma {:induction false} SkippedHourBreachesEarly(policyId: string, tier: Tier)
    requires tier.resolveMinutes == 90
    ensures var clock := SLAClock(true, SpringForwardWest(), Some(AROUND_THE_CLOCK));
            var h := [Resolve(391)];
            var s := After(Created(policyId, tier, clock, 360), h, clock);
            && Chronological(360, h) && PausesStopResolve(h) && PhaseAfter(h) == Done
            && NetTime(360, h, clock) == 31 && !s.resolveMet && s.breached
  {
    var clock := SLAClock(true, SpringForwardWest(), Some(AROUND_THE_CLOCK));
    PlainRun(policyId, tier, clock, 360, 391);
    GapShortensDeadline();
    SkippedHourCounts();
    LateResolution(Created(policyId, tier, clock, 360), 391, clock);
  }

  lemma LateResolution(s: SLAStatus, at: int, clock: SLAClock)
    requires Complete(clock) && s.pausedAt.None? && at > s.resolveDeadline
    ensures !Resolved(s, at, clock).resolveMet && Resolved(s, at, clock).breached
  {}
}
