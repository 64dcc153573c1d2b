/** What the workflow of a ticket means for its SLA: the steps it enters conclude it, reopen it, pause it or let it run
    (packages/sla/src/engine.ts:438-497), said of the payload's own fields over whole histories.
 */
module SLAEntries {
  import opened Basics
  import opened Wrappers
  import opened SLAStatuses
  import opened SLATimers
  import opened SLAEngines

  /** What happens to a ticket: it enters a workflow step, or one of the other events of its SLA occurs. */
  datatype Happening = Entered(p: StepEntered) | Happened(step: Step)

  datatype Moment = Moment(now: int, what: Happening)

  ghost function Enter(t: Ticket, p: StepEntered, now: int, policies: Policies): Ticket {
    if t.status.None? then t else Steps(t, EnteredSteps(t.status.value, p), now, policies)
  }

  ghost function NextMoment(t: Ticket, x: Moment, policies: Policies): Ticket {
    match x.what
    case Entered(p) => Enter(t, p, x.now, policies)
    case Happened(step) => Next(t, step, x.now, policies)
  }

  ghost function History(h: seq<Moment>, policies: Policies): Ticket {
    if h == [] then NO_TICKET else NextMoment(History(h[..|h| - 1], policies), h[|h| - 1], policies)
  }

  /** An entered step with an instant, whose handler does not throw. */
  ghost predicate EntersWell(t: Ticket, p: StepEntered, now: int, policies: Policies) {
    && p.enteredAt.Some?
    && (t.status.Some? ==> GoThrough(t, EnteredSteps(t.status.value, p), now, policies))
  }

  /** All entered steps go well; the other events may fail, and change nothing when they do. */
  ghost predicate AllEnterWell(h: seq<Moment>, policies: Policies) {
    forall i | 0 <= i < |h| :: h[i].what.Entered? ==> EntersWell(History(h[..i], policies), h[i].what.p, h[i].now, policies)
  }

  // ── One entered step ───────────────────────────────────────────────────────

  /** What an entered step says of the record: concluded, waiting or running, and whether the response was given. */
  predicate EntryTold(s: SLAStatus, p: StepEntered, s': SLAStatus)
    requires p.enteredAt.Some?
  {
    var concluding := p.category == ResolvedStep || p.terminal;
    && (s'.resolvedAt.Some? <==> concluding)
    && (s'.pausedAt.Some? <==> !concluding && p.category == WaitingStep && s.resolvedAt.None?)
    && (s'.responseMet <==> s.responseMet || p.fromInitial)
    && InstantsTold(s, p, s')
  }

  /** The first conclusion, the first pause and the first response keep their instants; a new one has that of the entry. */
  predicate InstantsTold(s: SLAStatus, p: StepEntered, s': SLAStatus)
    requires p.enteredAt.Some?
  {
    && (s'.resolvedAt.Some? ==>
          if s.resolvedAt.Some? then s'.resolvedAt == s.resolvedAt && s'.resolveMet == s.resolveMet
          else s'.resolvedAt == p.enteredAt)
    && (s'.pausedAt.Some? ==>
          if s.pausedAt.Some? then s'.pausedAt == s.pausedAt && s'.pausedType == s.pausedType
          else s'.pausedAt == p.enteredAt && s'.pausedType == Some(PauseBoth))
    && s'.responseMetAt == (if s'.responseMet && !s.responseMet && s.responseMetAt.None? then p.enteredAt else s.responseMetAt)
  }

  /** What becomes of the jobs: none after a conclusion or a pause that begins; those of the resolve target are armed when its
      clock starts again; that of the response is gone when the response is given. */
  predicate EntryJobs(t: Ticket, p: StepEntered, t': Ticket)
    requires t.status.Some? && t'.status.Some?
  {
    var s, s', q' := t.status.value, t'.status.value, t'.timers;
    && (s.resolvedAt.None? && s'.resolvedAt.Some? ==> q' == NO_TIMERS)
    && (s.pausedAt.None? && s'.pausedAt.Some? ==> q' == NO_TIMERS)
    && (s.resolvedAt.Some? && s'.resolvedAt.Some? && s.responseMet ==> q' == t.timers)
    && (s.resolvedAt.Some? && s'.resolvedAt.None? && !s.breached ==> q'.breach.Some? && q'.warning.Some?)
    && (ResolvePaused(s) && s'.pausedAt.None? && s'.resolvedAt.None? ==> q'.breach.Some? && q'.warning.Some?)
    && (s'.responseMet && (!s.responseMet || t.timers.response.None?) ==> q'.response.None?)
  }

  /** The handler's three parts, one after the other. */
  ghost function Part(t: Ticket, part: seq<Step>, now: int, policies: Policies): Ticket {
    if part == [] then t else Next(t, part[0], now, policies)
  }

  lemma PartIsSteps(t: Ticket, part: seq<Step>, now: int, policies: Policies)
    requires |part| <= 1
    ensures Steps(t, part, now, policies) == Part(t, part, now, policies)
  {
    if part != [] {
      assert part == [part[0]];
      OneStep(t, part[0], now, policies);
    }
  }

  lemma StepsInParts(t: Ticket, first: seq<Step>, second: seq<Step>, third: seq<Step>, now: int, policies: Policies)
    requires ThreeParts(first, second, third)
    ensures Steps(t, first + second + third, now, policies)
         == Part(Part(Part(t, first, now, policies), second, now, policies), third, now, policies)
  {
    StepsConcat(t, first + second, third, now, policies);
    StepsConcat(t, first, second, now, policies);
    PartIsSteps(t, first, now, policies);
    PartIsSteps(Part(t, first, now, policies), second, now, policies);
    PartIsSteps(Part(Part(t, first, now, policies), second, now, policies), third, now, policies);
  }

  lemma NoPartFails(t: Ticket, first: seq<Step>, second: seq<Step>, third: seq<Step>, now: int, policies: Policies)
    requires ThreeParts(first, second, third) && GoThrough(t, first + second + third, now, policies)
    ensures var t1 := Part(t, first, now, policies);
            !OneFails(t1, second, policies) && !OneFails(Part(t1, second, now, policies), third, policies)
  {
    PartIsSteps(t, first, now, policies);
    PartIsSteps(Part(t, first, now, policies), second, now, policies);
    if |second| == 1 { WhereItFails(t, first, second, third, |first|, now, policies); }
    if |third| == 1 { WhereItFails(t, first, second, third, |first| + |second|, now, policies); }
  }

  /** The response part: nothing but the response and its job. */
  predicate ResponseTold(t: Ticket, p: StepEntered, t1: Ticket)
    requires t.status.Some? && t1.status.Some? && p.enteredAt.Some?
  {
    var s, s1 := t.status.value, t1.status.value;
    && s1 == s.(responseMet := s1.responseMet, responseMetAt := s1.responseMetAt)
    && (s1.responseMet <==> s.responseMet || p.fromInitial)
    && (if s1.responseMet && !s.responseMet
        then && t1.timers == t.timers.(response := None)
             && s1.responseMetAt == (if s.responseMetAt.Some? then s.responseMetAt else p.enteredAt)
        else t1 == t)
  }

  lemma ResponsePart(t: Ticket, p: StepEntered, now: int, policies: Policies)
    requires ShapedTicket(t) && t.status.Some? && p.enteredAt.Some?
    ensures var t1 := Part(t, ResponseSteps(t.status.value, p), now, policies);
            t1.status.Some? && ShapedTicket(t1) && ResponseTold(t, p, t1)
  {}

  /** The ticket the response part leaves, where neither of the other two parts fails. */
  ghost predicate AfterResponse(s: SLAStatus, t: Ticket, p: StepEntered, now: int, policies: Policies) {
    && ShapedTicket(t) && t.status.Some? && p.enteredAt.Some?
    && s.resolvedAt == t.status.value.resolvedAt && s.pausedAt == t.status.value.pausedAt
    && !OneFails(t, ClockSteps(s, p), policies)
    && !OneFails(Part(t, ClockSteps(s, p), now, policies), OutcomeSteps(s, p), policies)
  }

  /** The clock part and the outcome part. */
  ghost function LaterParts(s: SLAStatus, t: Ticket, p: StepEntered, now: int, policies: Policies): Ticket {
    Part(Part(t, ClockSteps(s, p), now, policies), OutcomeSteps(s, p), now, policies)
  }

  lemma ConcludedParts(s: SLAStatus, t: Ticket, p: StepEntered, now: int, policies: Policies)
    requires AfterResponse(s, t, p, now, policies) && s.resolvedAt.Some?
    ensures var t' := LaterParts(s, t, p, now, policies);
            t'.status.Some? && EntryTold(t.status.value, p.(fromInitial := false), t'.status.value) && EntryJobs(t, p, t')
  {}

  lemma OpenParts(s: SLAStatus, t: Ticket, p: StepEntered, now: int, policies: Policies)
    requires AfterResponse(s, t, p, now, policies) && s.resolvedAt.None?
    ensures var t' := LaterParts(s, t, p, now, policies);
            t'.status.Some? && EntryTold(t.status.value, p.(fromInitial := false), t'.status.value) && EntryJobs(t, p, t')
  {}

  lemma ToldTogether(t: Ticket, p: StepEntered, t1: Ticket, t': Ticket)
    requires t.status.Some? && t1.status.Some? && t'.status.Some? && p.enteredAt.Some?
    requires ResponseTold(t, p, t1)
    requires EntryTold(t1.status.value, p.(fromInitial := false), t'.status.value) && EntryJobs(t1, p, t')
    ensures EntryTold(t.status.value, p, t'.status.value) && EntryJobs(t, p, t')
  {}

  /** ONE STEP of the workflow, at any reachable record. */
  lemma EntryTells(t: Ticket, p: StepEntered, now: int, policies: Policies)
    requires ShapedTicket(t) && t.status.Some? && EntersWell(t, p, now, policies)
    ensures var t' := Enter(t, p, now, policies);
            t'.status.Some? && EntryTold(t.status.value, p, t'.status.value) && EntryJobs(t, p, t')
  {
    var s := t.status.value;
    var first, second, third := ResponseSteps(s, p), ClockSteps(s, p), OutcomeSteps(s, p);
    StepsInParts(t, first, second, third, now, policies);
    NoPartFails(t, first, second, third, now, policies);
    ResponsePart(t, p, now, policies);
    TheRestTells(t, p, Part(t, first, now, policies), now, policies);
  }

  lemma TheRestTells(t: Ticket, p: StepEntered, t1: Ticket, now: int, policies: Policies)
    requires t.status.Some? && t1.status.Some? && p.enteredAt.Some? && ResponseTold(t, p, t1)
    requires AfterResponse(t.status.value, t1, p, now, policies)
    ensures var s := t.status.value;
            var t' := LaterParts(s, t1, p, now, policies);
            t'.status.Some? && EntryTold(s, p, t'.status.value) && EntryJobs(t, p, t')
  {
    var s := t.status.value;
    if s.resolvedAt.Some? { ConcludedParts(s, t1, p, now, policies); } else { OpenParts(s, t1, p, now, policies); }
    ToldTogether(t, p, t1, LaterParts(s, t1, p, now, policies));
  }

  /** What the handler promises of a payload with an instant, when it does not throw. */
  lemma HandledEntryTells(t: Ticket, p: StepEntered, t': Ticket, now: int, policies: Policies)
    requires ShapedTicket(t) && t.status.Some? && p.enteredAt.Some?
    requires EntersBy(t, EnteredSteps(t.status.value, p), NeedsInstant(t.status.value, p), true, t', now, policies)
    ensures t'.status.Some? && EntryTold(t.status.value, p, t'.status.value) && EntryJobs(t, p, t')
  {
    EntryTells(t, p, now, policies);
  }

  /** Without an instant it throws exactly if the step would conclude an open SLA or reopen a concluded one; all it does is
      record the response, at the instant of the event. */
  lemma EntryWithoutInstant(t: Ticket, p: StepEntered, ok: bool, t': Ticket, now: int, policies: Policies)
    requires ShapedTicket(t) && t.status.Some? && p.enteredAt.None?
    requires EntersBy(t, EnteredSteps(t.status.value, p), NeedsInstant(t.status.value, p), ok, t', now, policies)
    ensures var s, concluding := t.status.value, p.category == ResolvedStep || p.terminal;
            && (ok <==> (concluding <==> s.resolvedAt.Some?))
            && t'.status.Some?
            && var s' := t'.status.value;
               && s' == s.(responseMet := s.responseMet || p.fromInitial,
                           responseMetAt := if p.fromInitial && !s.responseMet && s.responseMetAt.None? then Some(p.eventAt)
                                            else s.responseMetAt)
               && t'.timers == if p.fromInitial && !s.responseMet then t.timers.(response := None) else t.timers
  {
    var s := t.status.value;
    var first := ResponseSteps(s, p);
    assert EnteredSteps(s, p) == first;
    PartIsSteps(t, first, now, policies);
    if first != [] { assert first[..0] == [] && Steps(t, first[..0], now, policies) == t; }
  }

  // ── Histories ──────────────────────────────────────────────────────────────

  ghost predicate GoesWell(t: Ticket, x: Moment, policies: Policies) {
    ShapedTicket(t) && (x.what.Entered? ==> EntersWell(t, x.what.p, x.now, policies))
  }

  lemma MomentKeepsShape(t: Ticket, x: Moment, policies: Policies)
    requires GoesWell(t, x, policies)
    ensures ShapedTicket(NextMoment(t, x, policies))
  {
    match x.what
    case Happened(step) => StepKeepsShape(t, step, x.now, policies);
    case Entered(p) =>
      if t.status.Some? { StepsKeepShape(t, EnteredSteps(t.status.value, p), x.now, policies); }
  }

  lemma {:induction false} StepsKeepShape(t: Ticket, steps: seq<Step>, now: int, policies: Policies)
    requires ShapedTicket(t)
    ensures ShapedTicket(Steps(t, steps, now, policies))
  {
    if steps != [] {
      StepsKeepShape(t, steps[..|steps| - 1], now, policies);
      StepKeepsShape(Steps(t, steps[..|steps| - 1], now, policies), steps[|steps| - 1], now, policies);
    }
  }

  lemma HistoryStep(h: seq<Moment>, n: nat, policies: Policies)
    requires n < |h|
    ensures History(h[..n + 1], policies) == NextMoment(History(h[..n], policies), h[n], policies)
  {
    assert h[..n + 1][..n] == h[..n];
  }

  lemma ShapeAt(h: seq<Moment>, n: nat, policies: Policies)
    requires AllEnterWell(h, policies) && n < |h| && ShapedTicket(History(h[..n], policies))
    ensures ShapedTicket(History(h[..n + 1], policies))
  {
    HistoryStep(h, n, policies);
    MomentKeepsShape(History(h[..n], policies), h[n], policies);
  }

  lemma {:induction false} HistoryShape(h: seq<Moment>, n: nat, policies: Policies)
    requires AllEnterWell(h, policies) && n <= |h|
    ensures ShapedTicket(History(h[..n], policies))
  {
    var shaped := seq(|h| + 1, k requires 0 <= k <= |h| => ShapedTicket(History(h[..k], policies)));
    forall k | 0 <= k < n ensures shaped[k] ==> shaped[k + 1] {
      if shaped[k] { ShapeAt(h, k, policies); }
    }
    StaysTrue(shaped, 0, n);
  }

  /** THE WORKFLOW DECIDES. After any history of entered steps and other events, in any order, a step that is entered leaves
      the SLA concluded exactly if it is resolved or terminal; else waiting exactly if it waits and the SLA was open before. A
      concluded SLA that enters any other step — a waiting one too — is reopened and runs. */
  lemma {:induction false} LastEntryTells(h: seq<Moment>, p: StepEntered, now: int, policies: Policies)
    requires AllEnterWell(h, policies) && EntersWell(History(h, policies), p, now, policies)
    requires History(h, policies).status.Some?
    ensures var s, t' := History(h, policies).status.value, History(h + [Moment(now, Entered(p))], policies);
            t'.status.Some? && WorkflowDecides(s, p, t'.status.value)
  {
    var x := Moment(now, Entered(p));
    assert h[..|h|] == h && (h + [x])[..|h|] == h;
    HistoryShape(h, |h|, policies);
    LastEntry(History(h, policies), x, policies);
  }

  predicate WorkflowDecides(s: SLAStatus, p: StepEntered, s': SLAStatus) {
    var concluding := p.category == ResolvedStep || p.terminal;
    && (s'.resolvedAt.Some? <==> concluding)
    && (!concluding && s.resolvedAt.None? ==> (s'.pausedAt.Some? <==> p.category == WaitingStep))
    && (!concluding && s.resolvedAt.Some? ==> s'.pausedAt.None? && !s'.resolveMet)
    && (concluding ==> s'.pausedAt.None?)
  }

  lemma LastEntry(t: Ticket, x: Moment, policies: Policies)
    requires GoesWell(t, x, policies) && x.what.Entered? && t.status.Some?
    ensures var t' := NextMoment(t, x, policies);
            && t'.status.Some? && WorkflowDecides(t.status.value, x.what.p, t'.status.value)
            && (x.what.p.fromInitial ==> Responded(t'))
            && (Responded(t) ==> Responded(t'))
  {
    EntryTells(t, x.what.p, x.now, policies);
    StepsKeepShape(t, EnteredSteps(t.status.value, x.what.p), x.now, policies);
  }

  predicate Responded(t: Ticket) { t.status.Some? && t.status.value.responseMet }

  predicate LeavesInitial(x: Moment) { x.what.Entered? && x.what.p.fromInitial }

  lemma StepKeepsResponse(t: Ticket, step: Step, now: int, policies: Policies)
    requires Responded(t)
    ensures Responded(Next(t, step, now, policies))
  {}

  lemma MomentResponds(t: Ticket, x: Moment, policies: Policies)
    requires GoesWell(t, x, policies) && t.status.Some? && (Responded(t) || LeavesInitial(x))
    ensures Responded(NextMoment(t, x, policies))
  {
    match x.what
    case Happened(step) => StepKeepsResponse(t, step, x.now, policies);
    case Entered(p) => LastEntry(t, x, policies);
  }

  /** A running SLA's ticket leaves the initial step. */
  ghost predicate LeavesInitialAt(h: seq<Moment>, n: nat, policies: Policies)
    requires n < |h|
  {
    LeavesInitial(h[n]) && History(h[..n], policies).status.Some?
  }

  lemma RespondsAt(h: seq<Moment>, n: nat, policies: Policies)
    requires AllEnterWell(h, policies) && n < |h|
    requires Responded(History(h[..n], policies)) || LeavesInitialAt(h, n, policies)
    ensures Responded(History(h[..n + 1], policies))
  {
    HistoryStep(h, n, policies);
    HistoryShape(h, n, policies);
    MomentResponds(History(h[..n], policies), h[n], policies);
  }

  lemma {:induction false} StaysResponded(h: seq<Moment>, since: nat, n: nat, policies: Policies)
    requires AllEnterWell(h, policies) && since <= n <= |h| && Responded(History(h[..since], policies))
    ensures Responded(History(h[..n], policies))
  {
    var responded := seq(|h| + 1, k requires 0 <= k <= |h| => Responded(History(h[..k], policies)));
    forall k | since <= k < n ensures responded[k] ==> responded[k + 1] {
      if responded[k] { RespondsAt(h, k, policies); }
    }
    StaysTrue(responded, since, n);
  }

  /** Once the initial step was left, the response is met for good. */
  lemma LeavingTheInitialStepResponds(h: seq<Moment>, i: nat, n: nat, policies: Policies)
    requires AllEnterWell(h, policies) && i < n <= |h| && LeavesInitialAt(h, i, policies)
    ensures Responded(History(h[..n], policies))
  {
    RespondsAt(h, i, policies);
    StaysResponded(h, i + 1, n, policies);
  }

  /** A concluded SLA has no job. */
  predicate Quiet(t: Ticket) { t.status.Some? && t.status.value.resolvedAt.Some? ==> t.timers == NO_TIMERS }

  /** The one event that gives it some: its start, delivered again. */
  ghost predicate NotStartedAgain(h: seq<Moment>, policies: Policies) {
    forall i | 0 <= i < |h| ::
      h[i].what.Happened? && h[i].what.step.Start? && History(h[..i], policies).status.Some?
      ==> History(h[..i], policies).status.value.resolvedAt.None?
  }

  lemma StepKeepsQuiet(t: Ticket, step: Step, now: int, policies: Policies)
    requires ShapedTicket(t) && Quiet(t)
    requires step.Start? && t.status.Some? ==> t.status.value.resolvedAt.None?
    ensures Quiet(Next(t, step, now, policies))
  {}

  lemma {:induction false} StepsKeepQuiet(t: Ticket, steps: seq<Step>, now: int, policies: Policies)
    requires ShapedTicket(t) && Quiet(t) && forall i | 0 <= i < |steps| :: !steps[i].Start?
    ensures ShapedTicket(Steps(t, steps, now, policies)) && Quiet(Steps(t, steps, now, policies))
  {
    if steps != [] {
      StepsKeepQuiet(t, steps[..|steps| - 1], now, policies);
      StepsKeepShape(t, steps, now, policies);
      StepKeepsQuiet(Steps(t, steps[..|steps| - 1], now, policies), steps[|steps| - 1], now, policies);
    }
  }

  lemma MomentKeepsQuiet(t: Ticket, x: Moment, policies: Policies)
    requires ShapedTicket(t) && Quiet(t)
    requires x.what.Happened? && x.what.step.Start? && t.status.Some? ==> t.status.value.resolvedAt.None?
    ensures Quiet(NextMoment(t, x, policies))
  {
    match x.what
    case Happened(step) => StepKeepsQuiet(t, step, x.now, policies);
    case Entered(p) =>
      if t.status.Some? { StepsKeepQuiet(t, EnteredSteps(t.status.value, p), x.now, policies); }
  }

  lemma QuietAt(h: seq<Moment>, n: nat, policies: Policies)
    requires AllEnterWell(h, policies) && NotStartedAgain(h, policies) && n < |h| && Quiet(History(h[..n], policies))
    ensures Quiet(History(h[..n + 1], policies))
  {
    HistoryStep(h, n, policies);
    HistoryShape(h, n, policies);
    MomentKeepsQuiet(History(h[..n], policies), h[n], policies);
  }

  /** NO JOB AFTER A CONCLUSION, at any point of such a history, unless the start is delivered again to a concluded SLA. */
  lemma {:induction false} ConcludedIsQuiet(h: seq<Moment>, n: nat, policies: Policies)
    requires AllEnterWell(h, policies) && NotStartedAgain(h, policies) && n <= |h|
    ensures Quiet(History(h[..n], policies))
  {
    var quiet := seq(|h| + 1, k requires 0 <= k <= |h| => Quiet(History(h[..k], policies)));
    forall k | 0 <= k < n ensures quiet[k] ==> quiet[k + 1] {
      if quiet[k] { QuietAt(h, k, policies); }
    }
    StaysTrue(quiet, 0, n);
  }
}
