/** The event handlers, the timer queue and the sweep (packages/sla/src/engine.ts, packages/sla/src/scheduler.ts,
    packages/sla/src/sweep.ts, packages/sla/src/ruleSla.ts) as they run: on a store of records and a queue of delayed
    jobs. Each handler is proved to take the steps of `SLATimers` on its ticket and to touch no other ticket.

    `now` is the instant at which a handler runs; the instants inside events are separate arguments.
 */
module SLAEngines {
  import opened Wrappers
  import opened SLAStatuses
  import opened SLATimers

  /** The delayed jobs of a tenant, `warning-`, `breach-` and `response-` per ticket. */
  class TimerQueue {
    var timers: map<string, Timers>

    constructor ()
      ensures timers == map[]
    {
      timers := map[];
    }

    function Of(entity: string): Timers
      reads this
    {
      if entity in timers then timers[entity] else NO_TIMERS
    }

    /** Replaces the job of the same id. */
    method ScheduleJob(entity: string, k: Kind, job: Job)
      modifies this
      ensures Of(entity) == old(Of(entity)).Set(k, Some(job))
      ensures timers - {entity} == old(timers) - {entity}
    {
      var q := Of(entity);
      if q.Get(k).Some? { q := q.Set(k, None); }
      timers := timers[entity := q.Set(k, Some(job))];
    }

    method ScheduleResolve(entity: string, s: SLAStatus, now: int)
      modifies this
      ensures Of(entity) == ArmResolve(old(Of(entity)), s, now)
      ensures timers - {entity} == old(timers) - {entity}
    {
      ScheduleJob(entity, Warning, Arm(s.resolveDeadline - s.tier.warningMinutes, s, now));
      ScheduleJob(entity, Breach, Arm(s.resolveDeadline, s, now));
    }

    method ScheduleResponseCheck(entity: string, s: SLAStatus, now: int)
      modifies this
      ensures Of(entity) == ArmResponse(old(Of(entity)), s, now)
      ensures timers - {entity} == old(timers) - {entity}
    {
      ScheduleJob(entity, Response, Arm(s.responseDeadline, s, now));
    }

    static function Removed(q: Timers, ids: seq<Kind>): Timers {
      if ids == [] then q else Removed(q, ids[..|ids| - 1]).Set(ids[|ids| - 1], None)
    }

    static function JobsOf(which: PauseType): seq<Kind> {
      match which
      case PauseResolve => [Warning, Breach]
      case PauseResponse => [Response]
      case PauseBoth => [Warning, Breach, Response]
    }

    static lemma RemovedIsCancelled(q: Timers, which: PauseType)
      ensures Removed(q, JobsOf(which)) == Cancel(q, which)
    {
      var ids := JobsOf(which);
      var n := |ids|;
      assert ids[..n][..n - 1] == ids[..n - 1];
      if n > 1 { assert ids[..n - 1][..n - 2] == ids[..n - 2] == ids[..n - 1][..n - 2]; }
      assert Removed(q, [Warning]) == q.Set(Warning, None);
      assert [Warning, Breach][..1] == [Warning] && [Warning, Breach, Response][..2] == [Warning, Breach];
    }

    method CancelSLAJobs(entity: string, which: PauseType)
      modifies this
      ensures Of(entity) == Cancel(old(Of(entity)), which)
      ensures timers - {entity} == old(timers) - {entity}
    {
      var ids := JobsOf(which);
      for i := 0 to |ids|
        invariant Of(entity) == Removed(old(Of(entity)), ids[..i])
        invariant timers - {entity} == old(timers) - {entity}
      {
        assert ids[..i + 1][..i] == ids[..i];
        if Of(entity).Get(ids[i]).Some? {
          timers := timers[entity := Of(entity).Set(ids[i], None)];
        }
      }
      assert ids[..|ids|] == ids;
      RemovedIsCancelled(old(Of(entity)), which);
    }

    /** A worker takes a due job off the queue. */
    method Take(entity: string, k: Kind, now: int) returns (taken: bool)
      modifies this
      ensures taken <==> old(Of(entity)).Get(k).Some? && old(Of(entity)).Get(k).value.Due() <= now
      ensures Of(entity) == if taken then old(Of(entity)).Set(k, None) else old(Of(entity))
      ensures timers - {entity} == old(timers) - {entity}
    {
      var job := Of(entity).Get(k);
      taken := job.Some? && job.value.Due() <= now;
      if taken { timers := timers[entity := Of(entity).Set(k, None)]; }
    }
  }

  datatype StepCategory = WaitingStep | ResolvedStep | OtherStep

  /** The payload of a workflow step entered; an instant that does not parse is `None`. */
  datatype StepEntered = StepEntered(fromInitial: bool, category: StepCategory, terminal: bool,
                                     enteredAt: Option<int>, eventAt: int)

  predicate Concludes(p: StepEntered) { p.category == ResolvedStep || p.terminal }

  function EntryInstant(p: StepEntered): int { if p.enteredAt.Some? then p.enteredAt.value else p.eventAt }

  /** Leaving the initial step is the first response. */
  function ResponseSteps(s: SLAStatus, p: StepEntered): seq<Step> {
    if p.fromInitial && !s.responseMet then [Respond(EntryInstant(p))] else []
  }

  /** A waiting step pauses an open SLA, another open step resumes it. */
  function ClockSteps(s: SLAStatus, p: StepEntered): seq<Step> {
    if p.enteredAt.None? || s.resolvedAt.Some? then []
    else if p.category == WaitingStep && s.pausedAt.None? then [Pause(PauseBoth, p.enteredAt.value)]
    else if p.category != WaitingStep && !Concludes(p) && s.pausedAt.Some? then [Resume(p.enteredAt.value)]
    else []
  }

  /** A concluding step closes an open SLA, another step reopens a closed one. */
  function OutcomeSteps(s: SLAStatus, p: StepEntered): seq<Step> {
    if p.enteredAt.None? then []
    else if !Concludes(p) && s.resolvedAt.Some? then [Reopen(p.enteredAt.value)]
    else if Concludes(p) && s.resolvedAt.None? then [Resolve(p.enteredAt.value)]
    else []
  }

  /** The steps an entered workflow step takes on an SLA whose record is `s`. */
  function EnteredSteps(s: SLAStatus, p: StepEntered): seq<Step> {
    ResponseSteps(s, p) + ClockSteps(s, p) + OutcomeSteps(s, p)
  }

  ghost function Steps(t: Ticket, steps: seq<Step>, now: int, policies: Policies): Ticket {
    if steps == [] then t
    else Next(Steps(t, steps[..|steps| - 1], now, policies), steps[|steps| - 1], now, policies)
  }

  lemma {:induction false} StepsConcat(t: Ticket, a: seq<Step>, b: seq<Step>, now: int, policies: Policies)
    ensures Steps(t, a + b, now, policies) == Steps(Steps(t, a, now, policies), b, now, policies)
    decreases |b|
  {
    if b == [] {
      assert a + b == a;
    } else {
      assert (a + b)[..|a + b| - 1] == a + b[..|b| - 1];
      StepsConcat(t, a, b[..|b| - 1], now, policies);
    }
  }

  lemma OneStep(t: Ticket, step: Step, now: int, policies: Policies)
    ensures Steps(t, [step], now, policies) == Next(t, step, now, policies)
  {
    assert [step][..0] == [];
    assert Steps(t, [step][..0], now, policies) == t;
  }

  /** Entering would reopen or conclude, at an instant that does not parse. */
  predicate NeedsInstant(s: SLAStatus, p: StepEntered) {
    p.enteredAt.None? && (Concludes(p) <==> s.resolvedAt.None?)
  }

  /** At most one step, which fails. */
  ghost predicate OneFails(t: Ticket, steps: seq<Step>, policies: Policies) {
    |steps| == 1 && StepFails(t, steps[0], policies)
  }

  /** The n-th step is the first that fails. */
  ghost predicate FirstFailure(t: Ticket, steps: seq<Step>, n: nat, now: int, policies: Policies)
    requires n < |steps|
  {
    && StepFails(Steps(t, steps[..n], now, policies), steps[n], policies)
    && forall k | 0 <= k < n :: !StepFails(Steps(t, steps[..k], now, policies), steps[k], policies)
  }

  ghost predicate GoThrough(t: Ticket, steps: seq<Step>, now: int, policies: Policies) {
    forall k | 0 <= k < |steps| :: !StepFails(Steps(t, steps[..k], now, policies), steps[k], policies)
  }

  /** All steps are taken when none fails; else those before the first that fails. */
  ghost predicate EntersBy(t: Ticket, steps: seq<Step>, noInstant: bool, ok: bool, t': Ticket, now: int, policies: Policies) {
    if GoThrough(t, steps, now, policies) then ok == !noInstant && t' == Steps(t, steps, now, policies)
    else !ok && exists n | 0 <= n < |steps| ::
                  FirstFailure(t, steps, n, now, policies) && t' == Steps(t, steps[..n], now, policies)
  }

  /** The response never fails, and each of the other two parts is at most one step. */
  ghost predicate ThreeParts(first: seq<Step>, second: seq<Step>, third: seq<Step>) {
    && |first| <= 1 && |second| <= 1 && |third| <= 1
    && (|first| == 1 ==> first[0].Respond?)
  }

  /** Which part a failing step belongs to. */
  lemma WhereItFails(t: Ticket, first: seq<Step>, second: seq<Step>, third: seq<Step>, k: nat, now: int, policies: Policies)
    requires ThreeParts(first, second, third) && k < |first + second + third|
    ensures var all := first + second + third;
            StepFails(Steps(t, all[..k], now, policies), all[k], policies) <==>
              if k < |first| then false
              else if k < |first| + |second| then OneFails(Steps(t, first, now, policies), second, policies)
              else OneFails(Steps(Steps(t, first, now, policies), second, now, policies), third, policies)
  {
    WhereItIs(t, first, second, third, k, now, policies);
  }

  lemma WhereItIs(t: Ticket, first: seq<Step>, second: seq<Step>, third: seq<Step>, k: nat, now: int, policies: Policies)
    requires ThreeParts(first, second, third) && k < |first + second + third|
    ensures var all := first + second + third;
            if k < |first| then all[k].Respond?
            else if k < |first| + |second| then
              all[k] == second[0] && Steps(t, all[..k], now, policies) == Steps(t, first, now, policies)
            else
              && all[k] == third[0]
              && Steps(t, all[..k], now, policies) == Steps(Steps(t, first, now, policies), second, now, policies)
  {
    var all, two := first + second + third, first + second;
    if k < |first| {
      assert all[k] == first[0];
    } else if k < |two| {
      assert all[..k] == first && all[k] == second[0];
    } else {
      assert all[..k] == two && all[k] == third[0];
      StepsConcat(t, first, second, now, policies);
    }
  }

  lemma FailsSecond(t: Ticket, first: seq<Step>, second: seq<Step>, third: seq<Step>, noInstant: bool, now: int,
                    policies: Policies)
    requires ThreeParts(first, second, third) && OneFails(Steps(t, first, now, policies), second, policies)
    ensures EntersBy(t, first + second + third, noInstant, false, Steps(t, first, now, policies), now, policies)
  {
    var all := first + second + third;
    FailsAt(t, first, second, third, |first|, now, policies);
    assert all[..|first|] == first;
  }

  /** The n-th step, the first of a part that fails, is the first that fails. */
  lemma FailsAt(t: Ticket, first: seq<Step>, second: seq<Step>, third: seq<Step>, n: nat, now: int, policies: Policies)
    requires ThreeParts(first, second, third) && n < |first + second + third|
    requires StepFails(Steps(t, (first + second + third)[..n], now, policies), (first + second + third)[n], policies)
    requires n == |first| || !OneFails(Steps(t, first, now, policies), second, policies)
    ensures n >= |first| && FirstFailure(t, first + second + third, n, now, policies)
  {
    var all := first + second + third;
    WhereItFails(t, first, second, third, n, now, policies);
    forall k | 0 <= k < n ensures !StepFails(Steps(t, all[..k], now, policies), all[k], policies) {
      WhereItFails(t, first, second, third, k, now, policies);
    }
  }

  lemma EntersInThree(t: Ticket, first: seq<Step>, second: seq<Step>, third: seq<Step>, noInstant: bool, ok: bool, t': Ticket,
                      now: int, policies: Policies)
    requires ThreeParts(first, second, third)
    requires !OneFails(Steps(t, first, now, policies), second, policies)
    requires var t2 := Steps(Steps(t, first, now, policies), second, now, policies);
             && (!ok <==> noInstant || OneFails(t2, third, policies))
             && t' == if ok then Steps(t2, third, now, policies) else t2
    requires noInstant ==> third == []
    ensures EntersBy(t, first + second + third, noInstant, ok, t', now, policies)
  {
    var all, two := first + second + third, first + second;
    var t2 := Steps(Steps(t, first, now, policies), second, now, policies);
    StepsConcat(t, first, second, now, policies);
    StepsConcat(t, two, third, now, policies);
    if OneFails(t2, third, policies) {
      WhereItFails(t, first, second, third, |two|, now, policies);
      FailsAt(t, first, second, third, |two|, now, policies);
      assert all[..|two|] == two;
    } else {
      forall k | 0 <= k < |all| ensures !StepFails(Steps(t, all[..k], now, policies), all[k], policies) {
        WhereItFails(t, first, second, third, k, now, policies);
      }
      if noInstant { assert all == two; }
    }
  }

  datatype SweepSummary = SweepSummary(warnings: nat, breaches: nat, responses: nat, failed: nat)

  /** How firing a timer goes: it may throw before it writes, or after it (when the event cannot be published). */
  datatype Firing = Fires | ThrowsUnwritten | ThrowsWritten

  /** The lost timers of a record, in the order the sweep fires them. */
  function LostResolve(s: SLAStatus, now: int): Option<Kind> {
    if BreachLost(s, now) then Some(Breach) else if WarningLost(s, now) then Some(Warning) else None
  }

  function FiredAs(s: SLAStatus, k: Kind, now: int, how: Firing): SLAStatus {
    if how == ThrowsUnwritten then s else Fired(s, k, now)
  }

  /** The record after the first loop of a sweep, and after both. */
  function SweptResolveAs(s: SLAStatus, now: int, e: string, how: (string, Kind) -> Firing): SLAStatus {
    var k := LostResolve(s, now);
    if k.Some? then FiredAs(s, k.value, now, how(e, k.value)) else s
  }

  function SweptAs(s: SLAStatus, now: int, e: string, how: (string, Kind) -> Firing): SLAStatus {
    var s1 := SweptResolveAs(s, now, e, how);
    if ResponseLost(s, now) then FiredAs(s1, Response, now, how(e, Response)) else s1
  }

  /** A sweep none of whose timers throws is the sweep of the ticket's steps. */
  lemma SweptWithoutFailures(s: SLAStatus, now: int, e: string, how: (string, Kind) -> Firing)
    requires forall k :: how(e, k) == Fires
    ensures SweptAs(s, now, e, how) == Swept(s, now)
  {}

  class SLAEngine {
    const store: StatusStore
    const queue: TimerQueue

    constructor (store: StatusStore, queue: TimerQueue)
      ensures this.store == store && this.queue == queue
    {
      this.store := store;
      this.queue := queue;
    }

    ghost function TicketOf(entity: string): Ticket
      reads store, queue
    {
      Ticket(if entity in store.rows then Some(store.rows[entity]) else None, queue.Of(entity))
    }

    /** Starts the SLA of a ticket on the chosen policy, if any; every delivery arms the three timers. */
    method StartSLA(entity: string, severity: string, chosen: Option<string>, startedAt: int, now: int)
      returns (r: Result<(), StatusError>)
      modifies store, queue
      ensures r.Err? <==> severity != "" && chosen.Some?
                          && StepFails(old(TicketOf(entity)), Start(chosen.value, severity, startedAt), store.policies)
      ensures TicketOf(entity) ==
              if r.Err? || severity == "" || chosen.None? then old(TicketOf(entity))
              else Next(old(TicketOf(entity)), Start(chosen.value, severity, startedAt), now, store.policies)
      ensures store.rows - {entity} == old(store.rows) - {entity}
      ensures queue.timers - {entity} == old(queue.timers) - {entity}
    {
      if severity == "" || chosen.None? { return Ok(()); }
      var policy := ResolvePolicy(store.policies, chosen.value, severity);
      if policy.Err? { return Err(policy.error); }
      var status := store.CreateSLAStatus(entity, severity, policy.value, startedAt);
      if status.Err? { return Err(status.error); }
      queue.ScheduleResolve(entity, status.value, now);
      queue.ScheduleResponseCheck(entity, status.value, now);
      return Ok(());
    }

    method HandleSLAPause(entity: string, kind: PauseType, at: int, now: int)
      modifies store, queue
      ensures TicketOf(entity) == Next(old(TicketOf(entity)), Pause(kind, at), now, store.policies)
      ensures store.rows - {entity} == old(store.rows) - {entity}
      ensures queue.timers - {entity} == old(queue.timers) - {entity}
    {
      var paused := store.PauseSLA(entity, kind, at);
      if paused.Some? { queue.CancelSLAJobs(entity, kind); }
    }

    method HandleSLAResume(entity: string, at: int, now: int) returns (r: Result<(), StatusError>)
      modifies store, queue
      ensures r.Err? <==> StepFails(old(TicketOf(entity)), Resume(at), store.policies)
      ensures TicketOf(entity) == if r.Err? then old(TicketOf(entity))
                                  else Next(old(TicketOf(entity)), Resume(at), now, store.policies)
      ensures store.rows - {entity} == old(store.rows) - {entity}
      ensures queue.timers - {entity} == old(queue.timers) - {entity}
    {
      var resumed := store.ResumeSLA(entity, at);
      if resumed.Err? { return Err(resumed.error); }
      if resumed.value.None? { return Ok(()); }
      RearmResumed(entity, resumed.value.value, now);
      return Ok(());
    }

    /** The record says which clock was paused. */
    method RearmResumed(entity: string, s: SLAStatus, now: int)
      modifies queue
      ensures queue.Of(entity) == ResumedTimers(old(queue.Of(entity)), s, PauseTypeOf(s), now)
      ensures queue.timers - {entity} == old(queue.timers) - {entity}
    {
      var kind := PauseTypeOf(s);
      if StopsResponse(kind) && !s.responseMet && s.responseBreachNotifiedAt.None? {
        queue.ScheduleResponseCheck(entity, s, now);
      }
      if StopsResolve(kind) && !s.resolveMet {
        queue.ScheduleResolve(entity, s, now);
      }
    }

    /** The workflow action "start the SLA": resumes a paused one, leaves a running one alone, starts a missing one. */
    method HandleSLAStart(entity: string, severity: string, chosen: Option<string>, at: int, now: int)
      returns (r: Result<(), StatusError>)
      modifies store, queue
      ensures var t := old(TicketOf(entity));
              r.Err? <==>
                if t.status.Some? then StepFails(t, Resume(at), store.policies)
                else severity != "" && chosen.Some? && StepFails(t, Start(chosen.value, severity, at), store.policies)
      ensures var t := old(TicketOf(entity));
              TicketOf(entity) ==
                if r.Err? then t
                else if t.status.Some? && t.status.value.pausedAt.Some? then Next(t, Resume(at), now, store.policies)
                else if t.status.Some? || severity == "" || chosen.None? then t
                else Next(t, Start(chosen.value, severity, at), now, store.policies)
      ensures store.rows - {entity} == old(store.rows) - {entity}
      ensures queue.timers - {entity} == old(queue.timers) - {entity}
    {
      if entity in store.rows && store.rows[entity].pausedAt.Some? {
        r := HandleSLAResume(entity, at, now);
      } else if entity in store.rows {
        r := Ok(());
      } else {
        r := StartSLA(entity, severity, chosen, at, now);
      }
    }

    /** A new team or priority: the policy is chosen again; another policy or tier re-computes the deadlines. */
    method ReselectSLA(entity: string, severity: string, chosen: Option<string>, createdAt: int, now: int)
      returns (r: Result<(), StatusError>)
      modifies store, queue
      ensures var t := old(TicketOf(entity));
              r.Err? <==> severity != "" && chosen.Some?
                          && StepFails(t, if t.status.None? then Start(chosen.value, severity, createdAt)
                                          else Repolicy(chosen.value, severity), store.policies)
      ensures var t := old(TicketOf(entity));
              TicketOf(entity) ==
                if r.Err? || severity == "" || chosen.None? then t
                else if t.status.None? then Next(t, Start(chosen.value, severity, createdAt), now, store.policies)
                else Next(t, Repolicy(chosen.value, severity), now, store.policies)
      ensures store.rows - {entity} == old(store.rows) - {entity}
      ensures queue.timers - {entity} == old(queue.timers) - {entity}
    {
      if severity == "" { return Ok(()); }
      if entity !in store.rows {
        r := StartSLA(entity, severity, chosen, createdAt, now);
        return;
      }
      var s := store.rows[entity];
      if s.resolvedAt.Some? || s.policyId.None? || chosen.None? { return Ok(()); }
      var policy := ResolvePolicy(store.policies, chosen.value, severity);
      if policy.Err? { return Err(policy.error); }
      if policy.value.id == s.policyId.value && s.tier.severity == severity { return Ok(()); }
      var updated := store.RepolicySLA(entity, policy.value, severity);
      if updated.Err? { return Err(updated.error); }
      var s' := updated.value.value;
      if s'.pausedAt.None? {
        if !s'.responseMet { queue.ScheduleResponseCheck(entity, s', now); }
        if !s'.breached { queue.ScheduleResolve(entity, s', now); }
      }
      return Ok(());
    }

    method HandleResponded(entity: string, at: int, now: int)
      modifies store, queue
      ensures TicketOf(entity) == Next(old(TicketOf(entity)), Respond(at), now, store.policies)
      ensures store.rows - {entity} == old(store.rows) - {entity}
      ensures queue.timers - {entity} == old(queue.timers) - {entity}
    {
      store.Mark(entity, s => MarkedResponse(s, at));
      queue.CancelSLAJobs(entity, PauseResponse);
    }

    /** Closes an SLA that is not closed yet; the first conclusion wins. */
    method HandleResolved(entity: string, at: int, now: int) returns (r: Result<(), StatusError>)
      modifies store, queue
      ensures r.Err? <==> StepFails(old(TicketOf(entity)), Resolve(at), store.policies)
      ensures TicketOf(entity) == if r.Err? then old(TicketOf(entity))
                                  else Next(old(TicketOf(entity)), Resolve(at), now, store.policies)
      ensures store.rows - {entity} == old(store.rows) - {entity}
      ensures queue.timers - {entity} == old(queue.timers) - {entity}
    {
      if entity !in store.rows || store.rows[entity].resolvedAt.Some? { return Ok(()); }
      var updated := store.MarkResolveMet(entity, at);
      if updated.Err? { return Err(updated.error); }
      queue.CancelSLAJobs(entity, PauseBoth);
      return Ok(());
    }

    method HandleReopened(entity: string, at: int, now: int) returns (r: Result<(), StatusError>)
      modifies store, queue
      ensures r.Err? <==> StepFails(old(TicketOf(entity)), Reopen(at), store.policies)
      ensures TicketOf(entity) == if r.Err? then old(TicketOf(entity))
                                  else Next(old(TicketOf(entity)), Reopen(at), now, store.policies)
      ensures store.rows - {entity} == old(store.rows) - {entity}
      ensures queue.timers - {entity} == old(queue.timers) - {entity}
    {
      var reopened := store.ReopenSLA(entity, at);
      if reopened.Err? { return Err(reopened.error); }
      if reopened.value.Some? && !reopened.value.value.breached {
        queue.ScheduleResolve(entity, reopened.value.value, now);
      }
      return Ok(());
    }

    /** A workflow step entered: response, pause or resume, reopening or conclusion, in this order. It fails exactly when
        one of its steps fails where the steps before it lead — these then stay done — or when it would reopen or conclude
        at an instant that is not one. */
    method HandleStepEntered(entity: string, p: StepEntered, now: int) returns (r: Result<(), StatusError>)
      modifies store, queue
      ensures var t := old(TicketOf(entity));
              if t.status.None? then r.Ok? && TicketOf(entity) == t
              else EntersBy(t, EnteredSteps(t.status.value, p), NeedsInstant(t.status.value, p), r.Ok?, TicketOf(entity), now,
                            store.policies)
      ensures store.rows - {entity} == old(store.rows) - {entity}
      ensures queue.timers - {entity} == old(queue.timers) - {entity}
    {
      if entity !in store.rows { return Ok(()); }
      var s := store.rows[entity];
      ghost var t, policies := TicketOf(entity), store.policies;
      ghost var first, second, third := ResponseSteps(s, p), ClockSteps(s, p), OutcomeSteps(s, p);
      if p.fromInitial && !s.responseMet {
        RespondOnEntry(entity, s, p, now);
      }
      ghost var t1 := TicketOf(entity);
      r := Ok(());
      if p.enteredAt.Some? && s.resolvedAt.None? {
        r := PauseOrResume(entity, s, p, now);
      }
      ghost var t2 := TicketOf(entity);
      if r.Err? {
        FailsSecond(t, first, second, third, NeedsInstant(s, p), now, policies);
        return;
      }
      assert r.Ok? && t2 == Steps(t1, second, now, policies);
      r := ConcludeOrReopen(entity, s, p, now);
      EntersInThree(t, first, second, third, NeedsInstant(s, p), r.Ok?, TicketOf(entity), now, policies);
    }

    method RespondOnEntry(entity: string, s: SLAStatus, p: StepEntered, now: int)
      requires p.fromInitial && !s.responseMet
      modifies store, queue
      ensures TicketOf(entity) == Steps(old(TicketOf(entity)), ResponseSteps(s, p), now, store.policies)
      ensures store.rows - {entity} == old(store.rows) - {entity}
      ensures queue.timers - {entity} == old(queue.timers) - {entity}
    {
      OneStep(TicketOf(entity), Respond(EntryInstant(p)), now, store.policies);
      HandleResponded(entity, EntryInstant(p), now);
    }

    method PauseOrResume(entity: string, s: SLAStatus, p: StepEntered, now: int) returns (r: Result<(), StatusError>)
      requires p.enteredAt.Some? && s.resolvedAt.None?
      modifies store, queue
      ensures r.Err? <==> OneFails(old(TicketOf(entity)), ClockSteps(s, p), store.policies)
      ensures TicketOf(entity) == if r.Err? then old(TicketOf(entity))
                                  else Steps(old(TicketOf(entity)), ClockSteps(s, p), now, store.policies)
      ensures store.rows - {entity} == old(store.rows) - {entity}
      ensures queue.timers - {entity} == old(queue.timers) - {entity}
    {
      var at := p.enteredAt.value;
      r := Ok(());
      if p.category == WaitingStep && s.pausedAt.None? {
        OneStep(TicketOf(entity), Pause(PauseBoth, at), now, store.policies);
        HandleSLAPause(entity, PauseBoth, at, now);
      } else if p.category != WaitingStep && !Concludes(p) && s.pausedAt.Some? {
        OneStep(TicketOf(entity), Resume(at), now, store.policies);
        r := HandleSLAResume(entity, at, now);
      }
    }

    method ConcludeOrReopen(entity: string, s: SLAStatus, p: StepEntered, now: int)
      returns (r: Result<(), StatusError>)
      modifies store, queue
      ensures r.Err? <==> NeedsInstant(s, p) || OneFails(old(TicketOf(entity)), OutcomeSteps(s, p), store.policies)
      ensures TicketOf(entity) == if r.Err? then old(TicketOf(entity))
                                  else Steps(old(TicketOf(entity)), OutcomeSteps(s, p), now, store.policies)
      ensures store.rows - {entity} == old(store.rows) - {entity}
      ensures queue.timers - {entity} == old(queue.timers) - {entity}
    {
      r := Ok(());
      if !Concludes(p) && s.resolvedAt.Some? {
        if p.enteredAt.None? { return Err(NotATarget); }
        OneStep(TicketOf(entity), Reopen(p.enteredAt.value), now, store.policies);
        r := HandleReopened(entity, p.enteredAt.value, now);
      } else if Concludes(p) && s.resolvedAt.None? {
        if p.enteredAt.None? { return Err(NotATarget); }
        OneStep(TicketOf(entity), Resolve(p.enteredAt.value), now, store.policies);
        r := HandleResolved(entity, p.enteredAt.value, now);
      }
    }

    /** The action of a rule: the SLA is replaced, its old timers are gone, and only a running clock gets new ones. */
    method ApplyRuleSLA(entity: string, rule: RuleSLA, now: int) returns (r: Result<(), StatusError>)
      modifies store, queue
      ensures r.Ok? <==> ValidRule(rule)
      ensures TicketOf(entity) == Next(old(TicketOf(entity)), ApplyRule(rule), now, store.policies)
      ensures store.rows - {entity} == old(store.rows) - {entity}
      ensures queue.timers - {entity} == old(queue.timers) - {entity}
    {
      if !ValidRule(rule) { return Err(NotATarget); }
      queue.CancelSLAJobs(entity, PauseBoth);
      var replaced := store.ReplaceByRule(entity, rule);
      var s := replaced.value;
      if s.resolvedAt.None? && !s.resolveMet && s.pausedAt.None? {
        if !s.responseMet { queue.ScheduleResponseCheck(entity, s, now); }
        if !s.breached { queue.ScheduleResolve(entity, s, now); }
      }
      return Ok(());
    }

    method FireSLATimer(entity: string, k: Kind, now: int)
      modifies store
      ensures store.rows == if entity in old(store.rows)
                            then old(store.rows)[entity := Fired(old(store.rows)[entity], k, now)] else old(store.rows)
    {
      if entity !in store.rows { return; }
      var s := store.rows[entity];
      if k == Response && s.responseMet { assert store.rows == store.rows[entity := s]; return; }
      if s.resolveMet || s.resolvedAt.Some? { assert store.rows == store.rows[entity := s]; return; }
      if s.pausedAt.Some? { assert store.rows == store.rows[entity := s]; return; }
      match k {
        case Warning => store.Mark(entity, (x: SLAStatus) => x.(warningSentFor := Some(s.resolveDeadline)));
        case Breach => store.Mark(entity, x => MarkedBreached(x, now));
        case Response => store.Mark(entity, x => MarkedResponseNotified(x, now));
      }
    }

    /** A worker runs a due job. */
    method ProcessSLAJob(entity: string, k: Kind, now: int)
      modifies store, queue
      ensures TicketOf(entity) == Next(old(TicketOf(entity)), Fire(k), now, store.policies)
      ensures store.rows - {entity} == old(store.rows) - {entity}
      ensures queue.timers - {entity} == old(queue.timers) - {entity}
    {
      var taken := queue.Take(entity, k, now);
      if taken { FireSLATimer(entity, k, now); }
    }

    /** One pass over the tenant, whatever timers throw: it fires what the jobs lost, a timer that throws stops no other,
        and the counters are the rows it fired and those it could not. */
    method RunSLASweep(now: int, how: (string, Kind) -> Firing) returns (summary: SweepSummary)
      modifies store
      ensures store.rows == map e | e in old(store.rows) :: SweptAs(old(store.rows)[e], now, e, how)
      ensures summary.breaches == |RowsFired(old(store.rows), old(store.rows).Keys, Breach, now, how)|
      ensures summary.warnings == |RowsFired(old(store.rows), old(store.rows).Keys, Warning, now, how)|
      ensures summary.responses == |ResponsesFired(old(store.rows), old(store.rows).Keys, now, how)|
      ensures summary.failed == |RowsThrown(old(store.rows), old(store.rows).Keys, now, how)|
                                + |ResponsesThrown(old(store.rows), old(store.rows).Keys, now, how)|
    {
      var snapshot := store.rows;
      var resolveRows := set e | e in snapshot && ResolveRow(snapshot[e]);
      var responseRows := set e | e in snapshot && ResponseLost(snapshot[e], now);
      var warnings, breaches, failed := FireResolveRows(snapshot, resolveRows, now, how);
      var responses, unheard := FireResponseRows(snapshot, responseRows, now, how);
      summary := SweepSummary(warnings, breaches, responses, failed + unheard);
    }

    /** One timer fired by the sweep, which only notes that it threw. */
    method FireOne(e: string, k: Kind, now: int, how: Firing) returns (ok: bool)
      requires e in store.rows
      modifies store
      ensures ok <==> how == Fires
      ensures store.rows == old(store.rows)[e := FiredAs(old(store.rows)[e], k, now, how)]
    {
      if how != ThrowsUnwritten { FireSLATimer(e, k, now); }
      else { assert store.rows == store.rows[e := store.rows[e]]; }
      ok := how == Fires;
    }

    /** Fires what one open, running row has lost: its breach, else its warning. */
    method FireResolveRow(e: string, row: SLAStatus, now: int, how: (string, Kind) -> Firing)
      returns (fired: Option<Kind>, ok: bool)
      requires e in store.rows && store.rows[e] == row && ResolveRow(row)
      modifies store
      ensures store.rows == old(store.rows)[e := SweptResolveAs(row, now, e, how)]
      ensures fired == LostResolve(row, now)
      ensures fired.Some? ==> (ok <==> how(e, fired.value) == Fires)
    {
      fired, ok := None, true;
      if row.resolveDeadline <= now - SLA_SWEEP_GRACE {
        fired := Some(Breach);
      } else if row.resolveDeadline - row.tier.warningMinutes <= now - SLA_SWEEP_GRACE
                && row.warningSentFor != Some(row.resolveDeadline) {
        fired := Some(Warning);
      }
      if fired.Some? { ok := FireOne(e, fired.value, now, how(e, fired.value)); }
      else { assert store.rows == store.rows[e := row]; }
    }

    method FireResolveRows(snapshot: map<string, SLAStatus>, rows: set<string>, now: int, how: (string, Kind) -> Firing)
      returns (warnings: nat, breaches: nat, failed: nat)
      requires store.rows == snapshot && rows == set e | e in snapshot && ResolveRow(snapshot[e])
      modifies store
      ensures store.rows == map e | e in snapshot :: SweptResolveAs(snapshot[e], now, e, how)
      ensures breaches == |RowsFired(snapshot, snapshot.Keys, Breach, now, how)|
      ensures warnings == |RowsFired(snapshot, snapshot.Keys, Warning, now, how)|
      ensures failed == |RowsThrown(snapshot, snapshot.Keys, now, how)|
    {
      var todo := rows;
      warnings, breaches, failed := 0, 0, 0;
      ghost var after := map e | e in snapshot :: SweptResolveAs(snapshot[e], now, e, how);
      while todo != {}
        invariant todo <= rows && Midway(store.rows, snapshot, after, todo)
        invariant breaches == |RowsFired(snapshot, snapshot.Keys - todo, Breach, now, how)|
        invariant warnings == |RowsFired(snapshot, snapshot.Keys - todo, Warning, now, how)|
        invariant failed == |RowsThrown(snapshot, snapshot.Keys - todo, now, how)|
        decreases todo
      {
        assert (forall e :: e !in todo) ==> todo == {};
        var e :| e in todo;
        MidwayStep(store.rows, snapshot, after, todo, e);
        CountRow(snapshot, todo, e, now, how);
        var fired, ok := FireResolveRow(e, snapshot[e], now, how);
        todo := todo - {e};
        if fired.Some? {
          if !ok { failed := failed + 1; }
          else if fired.value == Breach { breaches := breaches + 1; }
          else { warnings := warnings + 1; }
        }
      }
      assert snapshot.Keys - {} == snapshot.Keys;
    }

    method FireResponseRows(snapshot: map<string, SLAStatus>, rows: set<string>, now: int, how: (string, Kind) -> Firing)
      returns (responses: nat, failed: nat)
      requires store.rows == map e | e in snapshot :: SweptResolveAs(snapshot[e], now, e, how)
      requires rows == set e | e in snapshot && ResponseLost(snapshot[e], now)
      modifies store
      ensures store.rows == map e | e in snapshot :: SweptAs(snapshot[e], now, e, how)
      ensures responses == |ResponsesFired(snapshot, snapshot.Keys, now, how)|
      ensures failed == |ResponsesThrown(snapshot, snapshot.Keys, now, how)|
    {
      var todo := rows;
      responses, failed := 0, 0;
      ghost var before, after := store.rows, map e | e in snapshot :: SweptAs(snapshot[e], now, e, how);
      assert forall e | e in snapshot && e !in rows :: before[e] == after[e];
      while todo != {}
        invariant todo <= rows && Midway(store.rows, before, after, todo)
        invariant responses == |ResponsesFired(snapshot, snapshot.Keys - todo, now, how)|
        invariant failed == |ResponsesThrown(snapshot, snapshot.Keys - todo, now, how)|
        decreases todo
      {
        assert (forall e :: e !in todo) ==> todo == {};
        var e :| e in todo;
        MidwayStep(store.rows, before, after, todo, e);
        CountResponse(snapshot, todo, e, now, how);
        var ok := FireOne(e, Response, now, how(e, Response));
        todo := todo - {e};
        if ok { responses := responses + 1; } else { failed := failed + 1; }
      }
      assert snapshot.Keys - {} == snapshot.Keys;
    }
  }

  /** Sweeping twice at the same instant: the second pass finds no row to fire and changes no record. */
  lemma SecondSweepIsSilent(rows: map<string, SLAStatus>, now: int)
    requires forall e | e in rows :: Shape(rows[e])
    ensures var after := map e | e in rows :: Swept(rows[e], now);
            && (forall e | e in after :: LostResolve(after[e], now) == None && !ResponseLost(after[e], now))
            && (map e | e in after :: Swept(after[e], now)) == after
  {
    forall e | e in rows
      ensures var s := Swept(rows[e], now);
              !BreachLost(s, now) && !WarningLost(s, now) && !ResponseLost(s, now) && Swept(s, now) == s
    {
      SweepSettles(rows[e], now);
    }
  }

  /** The rows of `within` whose lost timer `k` fires. */
  ghost function RowsFired(m: map<string, SLAStatus>, within: set<string>, k: Kind, now: int,
                           how: (string, Kind) -> Firing): set<string>
  {
    set e | e in within && e in m && LostResolve(m[e], now) == Some(k) && how(e, k) == Fires
  }

  ghost function RowsThrown(m: map<string, SLAStatus>, within: set<string>, now: int, how: (string, Kind) -> Firing)
    : set<string>
  {
    set e | e in within && e in m && LostResolve(m[e], now).Some? && how(e, LostResolve(m[e], now).value) != Fires
  }

  ghost function ResponsesFired(m: map<string, SLAStatus>, within: set<string>, now: int, how: (string, Kind) -> Firing)
    : set<string>
  {
    set e | e in within && e in m && ResponseLost(m[e], now) && how(e, Response) == Fires
  }

  ghost function ResponsesThrown(m: map<string, SLAStatus>, within: set<string>, now: int, how: (string, Kind) -> Firing)
    : set<string>
  {
    set e | e in within && e in m && ResponseLost(m[e], now) && how(e, Response) != Fires
  }

  lemma CountRow(m: map<string, SLAStatus>, todo: set<string>, e: string, now: int, how: (string, Kind) -> Firing)
    requires e in todo && e in m
    ensures var done, more, lost := m.Keys - todo, m.Keys - (todo - {e}), LostResolve(m[e], now);
            && (forall k | k == Breach || k == Warning ::
                  |RowsFired(m, more, k, now, how)|
                  == |RowsFired(m, done, k, now, how)| + if lost == Some(k) && how(e, k) == Fires then 1 else 0)
            && |RowsThrown(m, more, now, how)|
               == |RowsThrown(m, done, now, how)| + if lost.Some? && how(e, lost.value) != Fires then 1 else 0
  {
    CountFired(m, todo, e, Breach, now, how);
    CountFired(m, todo, e, Warning, now, how);
    CountThrown(m, todo, e, now, how);
  }

  lemma CountFired(m: map<string, SLAStatus>, todo: set<string>, e: string, k: Kind, now: int,
                   how: (string, Kind) -> Firing)
    requires e in todo && e in m
    ensures |RowsFired(m, m.Keys - (todo - {e}), k, now, how)|
         == |RowsFired(m, m.Keys - todo, k, now, how)|
            + if LostResolve(m[e], now) == Some(k) && how(e, k) == Fires then 1 else 0
  {
    var b := RowsFired(m, m.Keys - todo, k, now, how);
    assert RowsFired(m, m.Keys - (todo - {e}), k, now, how)
        == if LostResolve(m[e], now) == Some(k) && how(e, k) == Fires then b + {e} else b;
  }

  lemma CountThrown(m: map<string, SLAStatus>, todo: set<string>, e: string, now: int, how: (string, Kind) -> Firing)
    requires e in todo && e in m
    ensures var lost := LostResolve(m[e], now);
            |RowsThrown(m, m.Keys - (todo - {e}), now, how)|
            == |RowsThrown(m, m.Keys - todo, now, how)| + if lost.Some? && how(e, lost.value) != Fires then 1 else 0
  {
    var f, lost := RowsThrown(m, m.Keys - todo, now, how), LostResolve(m[e], now);
    assert RowsThrown(m, m.Keys - (todo - {e}), now, how)
        == if lost.Some? && how(e, lost.value) != Fires then f + {e} else f;
  }

  lemma CountResponse(m: map<string, SLAStatus>, todo: set<string>, e: string, now: int, how: (string, Kind) -> Firing)
    requires e in todo && e in m && ResponseLost(m[e], now)
    ensures |ResponsesFired(m, m.Keys - (todo - {e}), now, how)|
         == |ResponsesFired(m, m.Keys - todo, now, how)| + if how(e, Response) == Fires then 1 else 0
    ensures |ResponsesThrown(m, m.Keys - (todo - {e}), now, how)|
         == |ResponsesThrown(m, m.Keys - todo, now, how)| + if how(e, Response) == Fires then 0 else 1
  {
    var f, u := ResponsesFired(m, m.Keys - todo, now, how), ResponsesThrown(m, m.Keys - todo, now, how);
    assert ResponsesFired(m, m.Keys - (todo - {e}), now, how) == if how(e, Response) == Fires then f + {e} else f;
    assert ResponsesThrown(m, m.Keys - (todo - {e}), now, how) == if how(e, Response) == Fires then u else u + {e};
  }

  /** A pass over the rows, with `todo` still to do: the others are already as `after` says. */
  ghost predicate Midway(rows: map<string, SLAStatus>, before: map<string, SLAStatus>, after: map<string, SLAStatus>,
                         todo: set<string>)
  {
    && rows.Keys == before.Keys == after.Keys
    && forall e | e in before :: rows[e] == if e in todo then before[e] else after[e]
  }

  lemma MidwayStep(rows: map<string, SLAStatus>, before: map<string, SLAStatus>, after: map<string, SLAStatus>,
                   todo: set<string>, e: string)
    requires Midway(rows, before, after, todo) && e in todo && e in rows
    ensures rows[e] == before[e] && Midway(rows[e := after[e]], before, after, todo - {e})
    ensures after[e] == before[e] ==> rows[e := after[e]] == rows
  {}
}
