/** The delivery of one domain event: outbox, fan-out, repeater and consumer deduplication
    (packages/events/src/publisher.ts, packages/events/src/consumer.ts, packages/events/src/outbox.ts).

    Any number of sending attempts — the publisher's and the repeater's — run interleaved with the consumers; every
    operation may fail and every attempt may crash between any two operations. What is written stays written: the
    record, the marks and the queued jobs survive a crash. A job is worked by one worker at a time.
 */
module Outbox {
  import opened Basics

  datatype Consumer = Notification | SlaEngine | Escalation | ServiceImpact | Automation

  const ALL: set<Consumer> := {Notification, SlaEngine, Escalation, ServiceImpact, Automation}

  const CONSUMER_QUEUES: seq<Consumer> := [Notification, SlaEngine, Escalation, ServiceImpact, Automation]

  lemma AllConsumers(c: Consumer)
    ensures c in ALL && c in CONSUMER_QUEUES
  {
    match c
    case Notification => assert CONSUMER_QUEUES[0] == c;
    case SlaEngine => assert CONSUMER_QUEUES[1] == c;
    case Escalation => assert CONSUMER_QUEUES[2] == c;
    case ServiceImpact => assert CONSUMER_QUEUES[3] == c;
    case Automation => assert CONSUMER_QUEUES[4] == c;
  }

  // ── The protocol ───────────────────────────────────────────────────────────

  /** Where a sending attempt is. A rejected fan-out does not stop the adds already in flight. */
  datatype Attempt = Sending(sent: set<Consumer>) | Sent | ExtrasDone | Over(sent: set<Consumer>)

  /** A consumer's side: its job, whether it has done the effect of the current delivery but not yet written its
      marker, the marker, and what an observer counts; a job that failed its last attempt is kept for a while. */
  datatype Delivery = Delivery(queued: bool, effected: bool, marker: bool, effects: nat, lostMarkers: nat, exhausted: bool,
                               kept: bool)

  const FRESH: Delivery := Delivery(false, false, false, 0, 0, false, false)

  datatype State = State(recorded: bool, marked: bool, given: set<Consumer>, attempts: map<nat, Attempt>,
                         deliveries: map<Consumer, Delivery>)

  const START: State := State(false, false, {}, map[], map c | c in ALL :: FRESH)

  datatype Step =
    | Record
    | Begin(i: nat)
    | Repeat(i: nat)
    | Add(i: nat, c: Consumer)
    | FanOutDone(i: nat)
    | FanOutRejected(i: nat)
    | Extras(i: nat)
    | MarkSent(i: nat)
    | Crash(i: nat)
    | Skip(c: Consumer)
    | Process(c: Consumer)
    | WriteMarker(c: Consumer)
    | MarkerNotWritten(c: Consumer)
    | CrashBeforeMarker(c: Consumer)
    | Exhaust(c: Consumer)
    | Evict(c: Consumer)

  predicate OfConsumer(step: Step) {
    step.Skip? || step.Process? || step.WriteMarker? || step.MarkerNotWritten? || step.CrashBeforeMarker? || step.Exhaust?
    || step.Evict?
  }

  function On(s: State, c: Consumer): Delivery { if c in s.deliveries then s.deliveries[c] else FRESH }

  function Put(s: State, c: Consumer, d: Delivery): State { s.(deliveries := s.deliveries[c := d]) }

  function Phase(s: State, i: nat, a: Attempt): State { s.(attempts := s.attempts[i := a]) }

  /** One step; a step that is not possible in the state changes nothing. The publisher begins an attempt, the repeater
      repeats what it finds written and unmarked. */
  function Next(s: State, step: Step): State {
    match step
    case Record => s.(recorded := true)
    case Begin(i) => if i in s.attempts then s else Phase(s, i, Sending({}))
    case Repeat(i) => if i in s.attempts || !s.recorded || s.marked then s else Phase(s, i, Sending({}))
    case Add(i, c) =>
      if i !in s.attempts then s else
      (match s.attempts[i]
       case Sending(sent) => Phase(Enqueue(s, c), i, Sending(sent + {c}))
       case Over(sent) => Phase(Enqueue(s, c), i, Over(sent + {c}))
       case _ => s)
    case FanOutDone(i) => if i in s.attempts && s.attempts[i] == Sending(ALL) then Phase(s, i, Sent) else s
    case FanOutRejected(i) =>
      if i in s.attempts && s.attempts[i].Sending? then Phase(s, i, Over(s.attempts[i].sent)) else s
    case Extras(i) => if i in s.attempts && s.attempts[i] == Sent then Phase(s, i, ExtrasDone) else s
    case MarkSent(i) =>
      if i in s.attempts && s.attempts[i] == ExtrasDone then Phase(s, i, Over(ALL)).(marked := true) else s
    case Crash(i) => if i in s.attempts then Phase(s, i, Over({})) else s
    case _ => Put(s, step.c, NextDelivery(On(s, step.c), step))
  }

  /** `queue.add` with the event's id as the job id: while a job with that id is there, waiting or kept after its last
      failure, a second one is refused without an error. */
  function Enqueue(s: State, c: Consumer): State {
    Put(s.(given := s.given + {c}), c, Added(On(s, c)))
  }

  function Added(d: Delivery): Delivery { if d.kept then d else d.(queued := true) }

  /** The consumer's job: skip what is marked; do the effect, then write the marker; a marker that could not be written
      does not repeat the work now, a crash before it does; a job may fail its last attempt. */
  function NextDelivery(d: Delivery, step: Step): Delivery
    requires OfConsumer(step)
  {
    if step.Evict? then d.(kept := false) else
    if !d.queued then d else
    match step
    case Skip(_) => if d.marker && !d.effected then d.(queued := false) else d
    case Process(_) => if !d.marker && !d.effected then d.(effected := true, effects := d.effects + 1) else d
    case WriteMarker(_) => if d.effected then d.(effected := false, marker := true, queued := false) else d
    case MarkerNotWritten(_) =>
      if d.effected then d.(effected := false, lostMarkers := d.lostMarkers + 1, queued := false) else d
    case CrashBeforeMarker(_) =>
      if d.effected then d.(effected := false, lostMarkers := d.lostMarkers + 1) else d
    case Exhaust(_) => if !d.effected then d.(queued := false, exhausted := true, kept := true) else d
    case Evict(_) => d
  }

  function Run(h: seq<Step>): State {
    if h == [] then START else Next(Run(h[..|h| - 1]), h[|h| - 1])
  }

  // ── The invariant ──────────────────────────────────────────────────────────

  /** A delivery's effects are bounded by its lost markers, and a job never vanishes without a trace. */
  predicate DeliveryRight(d: Delivery, given: bool) {
    && d.effects <= d.lostMarkers + (if d.marker || d.effected then 1 else 0)
    && (d.marker || d.effected || d.lostMarkers > 0 ==> d.effects > 0)
    && (d.effected ==> d.queued)
    && (d.kept ==> d.exhausted && !d.queued)
    && (given ==> d.queued || d.effects > 0 || d.exhausted)
  }

  predicate AttemptRight(a: Attempt, given: set<Consumer>) {
    match a
    case Sending(sent) => sent <= given
    case Over(_) => true
    case _ => given == ALL
  }

  predicate Invariant(s: State) {
    && s.given <= ALL
    && (s.marked ==> s.given == ALL)
    && (forall i | i in s.attempts :: AttemptRight(s.attempts[i], s.given))
    && (forall c: Consumer :: DeliveryRight(On(s, c), c in s.given))
  }

  lemma DeliveryStepRight(d: Delivery, step: Step, given: bool)
    requires OfConsumer(step)
    requires DeliveryRight(d, given)
    ensures DeliveryRight(NextDelivery(d, step), given)
  {}

  lemma EnqueueRight(s: State, c: Consumer)
    requires Invariant(s)
    ensures Invariant(Enqueue(s, c))
  {
    AllConsumers(c);
    var s' := Enqueue(s, c);
    forall i | i in s'.attempts ensures AttemptRight(s'.attempts[i], s'.given) {
      assert AttemptRight(s.attempts[i], s.given);
    }
    forall x: Consumer ensures DeliveryRight(On(s', x), x in s'.given) {
      assert DeliveryRight(On(s, x), x in s.given);
    }
  }

  lemma PhaseRight(s: State, i: nat, a: Attempt)
    requires Invariant(s) && AttemptRight(a, s.given)
    ensures Invariant(Phase(s, i, a))
  {
    forall x: Consumer ensures DeliveryRight(On(Phase(s, i, a), x), x in s.given) {
      assert DeliveryRight(On(s, x), x in s.given);
    }
  }

  lemma StepKeepsInvariant(s: State, step: Step)
    requires Invariant(s)
    ensures Invariant(Next(s, step))
  {
    match step {
      case Record => SameDeliveries(s, Next(s, step));
      case Begin(i) => PhaseRight(s, i, Sending({}));
      case Repeat(i) => PhaseRight(s, i, Sending({}));
      case Add(i, c) =>
        if i in s.attempts { AddRight(s, i, c); }
      case FanOutDone(i) => if i in s.attempts && s.attempts[i] == Sending(ALL) { SentRight(s, i); }
      case FanOutRejected(i) =>
        if i in s.attempts && s.attempts[i].Sending? { PhaseRight(s, i, Over(s.attempts[i].sent)); }
      case Extras(i) => if i in s.attempts && s.attempts[i] == Sent { ExtrasRight(s, i); }
      case MarkSent(i) =>
        if i in s.attempts && s.attempts[i] == ExtrasDone { MarkRight(s, i); }
      case Crash(i) => PhaseRight(s, i, Over({}));
      case _ => ConsumerRight(s, step);
    }
  }

  lemma ExtrasRight(s: State, i: nat)
    requires Invariant(s) && i in s.attempts && s.attempts[i] == Sent
    ensures Invariant(Phase(s, i, ExtrasDone))
  {
    assert AttemptRight(s.attempts[i], s.given);
    PhaseRight(s, i, ExtrasDone);
  }

  lemma ConsumerRight(s: State, step: Step)
    requires OfConsumer(step)
    requires Invariant(s)
    ensures Invariant(Put(s, step.c, NextDelivery(On(s, step.c), step)))
  {
    DeliveryStepRight(On(s, step.c), step, step.c in s.given);
    PutRight(s, step.c, NextDelivery(On(s, step.c), step));
  }

  lemma AddRight(s: State, i: nat, c: Consumer)
    requires Invariant(s) && i in s.attempts
    ensures Invariant(Next(s, Add(i, c)))
  {
    EnqueueRight(s, c);
    assert AttemptRight(s.attempts[i], s.given);
    match s.attempts[i] {
      case Sending(sent) => PhaseRight(Enqueue(s, c), i, Sending(sent + {c}));
      case Over(sent) => PhaseRight(Enqueue(s, c), i, Over(sent + {c}));
      case Sent =>
      case ExtrasDone =>
    }
  }

  lemma MarkRight(s: State, i: nat)
    requires Invariant(s) && i in s.attempts && s.attempts[i] == ExtrasDone
    ensures Invariant(Next(s, MarkSent(i)))
  {
    assert AttemptRight(s.attempts[i], s.given);
    PhaseRight(s, i, Over(ALL));
    SameDeliveries(Phase(s, i, Over(ALL)), Next(s, MarkSent(i)));
  }

  lemma SentRight(s: State, i: nat)
    requires Invariant(s) && i in s.attempts && s.attempts[i] == Sending(ALL)
    ensures Invariant(Phase(s, i, Sent))
  {
    assert AttemptRight(s.attempts[i], s.given);
    PhaseRight(s, i, Sent);
  }

  lemma PutRight(s: State, c: Consumer, d: Delivery)
    requires Invariant(s) && DeliveryRight(d, c in s.given)
    ensures Invariant(Put(s, c, d))
  {
    forall x: Consumer ensures DeliveryRight(On(Put(s, c, d), x), x in s.given) {
      assert DeliveryRight(On(s, x), x in s.given);
    }
  }

  lemma SameDeliveries(s: State, s': State)
    requires Invariant(s) && s' == s.(recorded := s'.recorded, marked := s'.marked)
    requires s'.marked ==> s.given == ALL
    ensures Invariant(s')
  {
    forall x: Consumer ensures DeliveryRight(On(s', x), x in s'.given) {
      assert DeliveryRight(On(s, x), x in s.given);
    }
  }

  lemma {:induction false} RunKeepsInvariant(h: seq<Step>)
    ensures Invariant(Run(h))
  {
    if h != [] {
      RunKeepsInvariant(h[..|h| - 1]);
      StepKeepsInvariant(Run(h[..|h| - 1]), h[|h| - 1]);
    }
  }

  /** NO LOSS. At every state of every run, an event marked as sent was given to all five queues; at each of them it is
      still queued, done, or counted as exhausted. */
  lemma {:induction false} MarkedEventReachedEveryone(h: seq<Step>, c: Consumer)
    requires Run(h).marked
    ensures Run(h).given == ALL
    ensures var d := On(Run(h), c); d.queued || d.effects > 0 || d.exhausted
  {
    RunKeepsInvariant(h);
    AllConsumers(c);
  }

  /** EFFECT BOUND. Whatever is re-sent, a consumer completes its effect at most once plus once per marker that was not
      written; with every marker written, at most once. */
  lemma {:induction false} EffectsBounded(h: seq<Step>, c: Consumer)
    ensures On(Run(h), c).effects <= 1 + On(Run(h), c).lostMarkers
  {
    RunKeepsInvariant(h);
  }

  function LostMarkerSteps(h: seq<Step>, c: Consumer): nat {
    if h == [] then 0 else
      LostMarkerSteps(h[..|h| - 1], c)
      + if h[|h| - 1] == MarkerNotWritten(c) || h[|h| - 1] == CrashBeforeMarker(c) then 1 else 0
  }

  lemma {:induction false} LostMarkersAreSteps(h: seq<Step>, c: Consumer)
    ensures On(Run(h), c).lostMarkers <= LostMarkerSteps(h, c)
  {
    if h != [] {
      var before := h[..|h| - 1];
      LostMarkersAreSteps(before, c);
      LostByStep(Run(before), h[|h| - 1], c);
    }
  }

  lemma LostByStep(s: State, step: Step, c: Consumer)
    ensures On(Next(s, step), c).lostMarkers
         <= On(s, c).lostMarkers + if step == MarkerNotWritten(c) || step == CrashBeforeMarker(c) then 1 else 0
  {
    if OfConsumer(step) {
      assert Next(s, step) == Put(s, step.c, NextDelivery(On(s, step.c), step));
      LostByConsumer(On(s, step.c), step);
      assert c != step.c ==> On(Next(s, step), c) == On(s, c);
    } else if step.Add? {
      assert On(Enqueue(s, step.c), c).lostMarkers == On(s, c).lostMarkers;
    } else {
      assert Next(s, step).deliveries == s.deliveries;
    }
  }

  lemma LostByConsumer(d: Delivery, step: Step)
    requires OfConsumer(step)
    ensures NextDelivery(d, step).lostMarkers
         <= d.lostMarkers + if step.MarkerNotWritten? || step.CrashBeforeMarker? then 1 else 0
  {}

  /** The bound in terms of what went wrong: the failures and crashes between an effect and its marker. */
  lemma {:induction false} EffectsAtMostOncePlusFailures(h: seq<Step>, c: Consumer)
    ensures On(Run(h), c).effects <= 1 + LostMarkerSteps(h, c)
  {
    EffectsBounded(h, c);
    LostMarkersAreSteps(h, c);
  }

  function Adds(i: nat, cs: seq<Consumer>): seq<Step> {
    if cs == [] then [] else Adds(i, cs[..|cs| - 1]) + [Add(i, cs[|cs| - 1])]
  }

  /** The steps of one failure-free attempt. */
  function CleanAttempt(i: nat): seq<Step> {
    [Repeat(i)] + Adds(i, CONSUMER_QUEUES) + [FanOutDone(i), Extras(i), MarkSent(i)]
  }

  lemma RunStep(h: seq<Step>, step: Step)
    ensures Run(h + [step]) == Next(Run(h), step)
  {
    assert (h + [step])[..|h|] == h;
  }

  lemma {:induction false} AddsAdvance(h: seq<Step>, i: nat, cs: seq<Consumer>)
    requires i in Run(h).attempts && Run(h).attempts[i] == Sending({})
    ensures HasGiven(Run(h), Run(h + Adds(i, cs)), i, ToSet(cs))
    decreases |cs|
  {
    if cs == [] {
      assert h + Adds(i, cs) == h;
      NothingGiven(Run(h), i);
    } else {
      var n := |cs| - 1;
      AddsAdvance(h, i, cs[..n]);
      OneMoreAdd(h, i, cs);
      AddAdvances(Run(h), Run(h + Adds(i, cs[..n])), i, ToSet(cs[..n]), cs[n]);
      assert cs == cs[..n] + [cs[n]];
      ToSetOfOneMore(cs[..n], cs[n]);
    }
  }

  lemma NothingGiven(s: State, i: nat)
    requires i in s.attempts && s.attempts[i] == Sending({})
    ensures HasGiven(s, s, i, {})
  {
    assert s.given + {} == s.given;
  }

  lemma {:induction false} OneMoreAdd(h: seq<Step>, i: nat, cs: seq<Consumer>)
    requires cs != []
    ensures Run(h + Adds(i, cs)) == Next(Run(h + Adds(i, cs[..|cs| - 1])), Add(i, cs[|cs| - 1]))
  {
    var n := |cs| - 1;
    RunStep(h + Adds(i, cs[..n]), Add(i, cs[n]));
    assert h + Adds(i, cs) == h + Adds(i, cs[..n]) + [Add(i, cs[n])];
  }

  /** From `s`, attempt `i` has added the event to the queues `sent`, and nothing else happened. */
  ghost predicate HasGiven(s: State, s': State, i: nat, sent: set<Consumer>) {
    && s'.recorded == s.recorded && s'.marked == s.marked && s'.given == s.given + sent
    && i in s'.attempts && s'.attempts[i] == Sending(sent)
    && forall c: Consumer :: On(s', c) == if c in sent then Added(On(s, c)) else On(s, c)
  }

  lemma AddAdvances(s: State, s': State, i: nat, sent: set<Consumer>, c: Consumer)
    requires HasGiven(s, s', i, sent)
    ensures HasGiven(s, Next(s', Add(i, c)), i, sent + {c})
  {
    var next := Phase(Enqueue(s', c), i, Sending(sent + {c}));
    assert next == Next(s', Add(i, c));
    assert s.given + sent + {c} == s.given + (sent + {c});
    forall x: Consumer ensures On(next, x) == if x in sent + {c} then Added(On(s, x)) else On(s, x) {
      assert On(s', x) == if x in sent then Added(On(s, x)) else On(s, x);
    }
  }

  lemma AttemptFinishes(h: seq<Step>, i: nat)
    requires i in Run(h).attempts && Run(h).attempts[i] == Sending(ALL)
    ensures Run(h + [FanOutDone(i), Extras(i), MarkSent(i)]).marked
  {
    var h1, h2 := h + [FanOutDone(i)], h + [FanOutDone(i), Extras(i)];
    RunStep(h, FanOutDone(i));
    assert h2 == h1 + [Extras(i)];
    RunStep(h1, Extras(i));
    assert Run(h2).attempts[i] == ExtrasDone;
    assert h + [FanOutDone(i), Extras(i), MarkSent(i)] == h2 + [MarkSent(i)];
    RunStep(h2, MarkSent(i));
  }

  /** RECOVERY. From every reachable state in which the event is written down and unmarked, one failure-free pass of the
      repeater gives it to all five queues and marks it. */
  lemma {:induction false} RepeaterRecovers(h: seq<Step>, i: nat)
    requires Run(h).recorded && !Run(h).marked && i !in Run(h).attempts
    ensures Run(h + CleanAttempt(i)).marked && Run(h + CleanAttempt(i)).given == ALL
  {
    RunStep(h, Repeat(i));
    FanOutCompletes(h + [Repeat(i)], i);
    AttemptFinishes(h + [Repeat(i)] + Adds(i, CONSUMER_QUEUES), i);
    CleanAttemptSplits(h, i);
    RunKeepsInvariant(h + CleanAttempt(i));
  }

  /** Steps after the publisher is gone: consumers, and attempts of the repeater begun from now on. */
  ghost predicate WithoutPublisher(s: State, steps: seq<Step>) {
    forall k | 0 <= k < |steps| ::
      OfConsumer(steps[k]) || (!steps[k].Record? && !steps[k].Begin? && steps[k].i !in s.attempts)
  }

  /** EXACTLY when an event is lost. After the publisher is gone, the event can still reach all five queues exactly if it
      was written down or had reached them already. */
  lemma {:induction false} LostIff(h: seq<Step>)
    ensures (exists steps :: WithoutPublisher(Run(h), steps) && Run(h + steps).given == ALL)
       <==> Run(h).recorded || Run(h).given == ALL
  {
    RunKeepsInvariant(h);
    var s := Run(h);
    if s.given == ALL {
      assert h + [] == h && WithoutPublisher(s, []);
    } else if s.recorded {
      var i := Above(s.attempts.Keys);
      RepeaterRecovers(h, i);
      CleanAttemptIsRepeater(s, i);
    } else {
      forall steps | WithoutPublisher(s, steps) ensures Run(h + steps).given != ALL {
        UnwrittenStays(h, steps);
      }
    }
  }

  lemma {:induction false} UnwrittenStays(h: seq<Step>, steps: seq<Step>)
    requires !Run(h).recorded && WithoutPublisher(Run(h), steps)
    ensures var s, s' := Run(h), Run(h + steps);
            !s'.recorded && s'.given == s.given && s'.attempts == s.attempts
    decreases |steps|
  {
    if steps == [] {
      assert h + steps == h;
    } else {
      var n := |steps| - 1;
      WithoutPublisherBefore(Run(h), steps);
      UnwrittenStays(h, steps[..n]);
      RunStep(h + steps[..n], steps[n]);
      UnwrittenStep(Run(h + steps[..n]), steps[n]);
      assert h + steps == h + steps[..n] + [steps[n]];
    }
  }

  lemma WithoutPublisherBefore(s: State, steps: seq<Step>)
    requires steps != [] && WithoutPublisher(s, steps)
    ensures WithoutPublisher(s, steps[..|steps| - 1])
    ensures var last := steps[|steps| - 1];
            OfConsumer(last) || (!last.Record? && !last.Begin? && last.i !in s.attempts)
  {
    var n := |steps| - 1;
    assert forall k | 0 <= k < n :: steps[..n][k] == steps[k];
  }

  lemma UnwrittenStep(s: State, step: Step)
    requires !s.recorded && (OfConsumer(step) || (!step.Record? && !step.Begin? && step.i !in s.attempts))
    ensures !Next(s, step).recorded && Next(s, step).given == s.given && Next(s, step).attempts == s.attempts
  {}

  lemma {:induction false} AddsAreOf(i: nat, cs: seq<Consumer>)
    ensures forall k | 0 <= k < |Adds(i, cs)| :: Adds(i, cs)[k].Add? && Adds(i, cs)[k].i == i
  {
    if cs != [] {
      var n := |cs| - 1;
      AddsAreOf(i, cs[..n]);
      var before := Adds(i, cs[..n]);
      forall k | 0 <= k < |Adds(i, cs)| ensures Adds(i, cs)[k].Add? && Adds(i, cs)[k].i == i {
        assert Adds(i, cs)[k] == if k < |before| then before[k] else Add(i, cs[n]);
      }
    }
  }

  lemma CleanAttemptIsRepeater(s: State, i: nat)
    requires i !in s.attempts
    ensures WithoutPublisher(s, CleanAttempt(i))
  {
    var all, adds := CleanAttempt(i), Adds(i, CONSUMER_QUEUES);
    AddsAreOf(i, CONSUMER_QUEUES);
    forall k | 0 <= k < |all| ensures OfConsumer(all[k]) || (!all[k].Record? && !all[k].Begin? && all[k].i !in s.attempts) {
      if 1 <= k < 1 + |adds| { assert all[k] == adds[k - 1]; }
    }
  }

  lemma FanOutCompletes(h: seq<Step>, i: nat)
    requires i in Run(h).attempts && Run(h).attempts[i] == Sending({})
    ensures var s := Run(h + Adds(i, CONSUMER_QUEUES)); i in s.attempts && s.attempts[i] == Sending(ALL)
  {
    AddsAdvance(h, i, CONSUMER_QUEUES);
    QueuesAreAll();
  }

  lemma QueuesAreAll()
    ensures ToSet(CONSUMER_QUEUES) == ALL
  {
    forall c: Consumer ensures c in ALL && c in CONSUMER_QUEUES { AllConsumers(c); }
  }

  lemma CleanAttemptSplits(h: seq<Step>, i: nat)
    ensures h + CleanAttempt(i)
         == h + [Repeat(i)] + Adds(i, CONSUMER_QUEUES) + [FanOutDone(i), Extras(i), MarkSent(i)]
  {}

  // ── The publisher ──────────────────────────────────────────────────────────

  /** What the environment does to one call: which operations succeed. */
  datatype Weather = Weather(record: bool, adds: set<Consumer>, extras: bool, mark: bool)

  datatype Published = Returned(throughOutbox: bool) | Thrown

  function Among(cs: seq<Consumer>, ok: set<Consumer>): seq<Consumer> {
    if cs == [] then [] else
      Among(cs[..|cs| - 1], ok) + if cs[|cs| - 1] in ok then [cs[|cs| - 1]] else []
  }

  lemma {:induction false} AmongRight(cs: seq<Consumer>, ok: set<Consumer>)
    ensures forall c :: c in Among(cs, ok) <==> c in cs && c in ok
  {
    if cs != [] {
      var before, last := cs[..|cs| - 1], cs[|cs| - 1];
      AmongRight(before, ok);
      assert cs == before + [last];
    }
  }

  /** The end of a call whose adds did not all succeed, or did. */
  function Ending(i: nat, w: Weather): seq<Step> {
    if w.adds != ALL then [FanOutRejected(i)]
    else if !w.extras then [FanOutDone(i), Crash(i)]
    else if !w.mark then [FanOutDone(i), Extras(i), Crash(i)]
    else [FanOutDone(i), Extras(i), MarkSent(i)]
  }

  /** The steps of the protocol one call of the publisher takes through the outbox. */
  function CallSteps(i: nat, w: Weather): seq<Step> {
    (if w.record then [Record] else []) + [Begin(i)] + Adds(i, Among(CONSUMER_QUEUES, w.adds)) + Ending(i, w)
  }

  lemma {:induction false} EndingRight(h: seq<Step>, i: nat, w: Weather)
    requires i in Run(h).attempts && Run(h).attempts[i] == Sending(w.adds)
    ensures Run(h + Ending(i, w)) == Run(h).(attempts := Run(h + Ending(i, w)).attempts,
                                             marked := Run(h).marked || (w.adds == ALL && w.extras && w.mark))
  {
    if w.adds != ALL {
      RunStep(h, FanOutRejected(i));
    } else {
      SentEndingRight(h, i, w);
    }
  }

  lemma {:induction false} SentEndingRight(h: seq<Step>, i: nat, w: Weather)
    requires i in Run(h).attempts && Run(h).attempts[i] == Sending(ALL) && w.adds == ALL
    ensures Run(h + Ending(i, w)) == Run(h).(attempts := Run(h + Ending(i, w)).attempts,
                                             marked := Run(h).marked || (w.extras && w.mark))
  {
    if !w.extras {
      RunStep(h, FanOutDone(i));
      RunStep(h + [FanOutDone(i)], Crash(i));
      assert h + Ending(i, w) == h + [FanOutDone(i)] + [Crash(i)];
    } else {
      var last := if w.mark then MarkSent(i) else Crash(i);
      RunStep(h, FanOutDone(i));
      RunStep(h + [FanOutDone(i)], Extras(i));
      RunStep(h + [FanOutDone(i)] + [Extras(i)], last);
      assert h + Ending(i, w) == h + [FanOutDone(i)] + [Extras(i)] + [last];
    }
  }

  /** A call of the publisher is a run of the protocol, with the effect `Publish` promises: written if the record
      succeeds, in the queues whose add succeeds, marked only after all five and the extras. */
  lemma {:induction false} CallFollowsProtocol(h: seq<Step>, i: nat, w: Weather)
    requires i !in Run(h).attempts
    ensures var s, s' := Run(h), Run(h + CallSteps(i, w));
            && s'.recorded == (s.recorded || w.record)
            && s'.given == s.given + w.adds
            && s'.marked == (s.marked || (w.adds == ALL && w.extras && w.mark))
            && forall c: Consumer :: On(s', c) == if c in w.adds then Added(On(s, c)) else On(s, c)
  {
    var first := if w.record then [Record] else [];
    var cs := Among(CONSUMER_QUEUES, w.adds);
    var h1 := h + first + [Begin(i)];
    BeginningRight(h, i, w);
    AddsAdvance(h1, i, cs);
    AmongQueues(w.adds);
    EndingRight(h1 + Adds(i, cs), i, w);
    Regroup(h, first, [Begin(i)], Adds(i, cs), Ending(i, w));
    CallEffect(Run(h), Run(h1), Run(h1 + Adds(i, cs)), Run(h + CallSteps(i, w)), i, w);
  }

  lemma Regroup(h: seq<Step>, a: seq<Step>, b: seq<Step>, c: seq<Step>, d: seq<Step>)
    ensures h + (a + b + c + d) == h + a + b + c + d
  {}

  lemma CallEffect(s: State, begun: State, given: State, s': State, i: nat, w: Weather)
    requires begun == Phase(s, i, Sending({})).(recorded := s.recorded || w.record)
    requires HasGiven(begun, given, i, w.adds)
    requires s' == given.(attempts := s'.attempts, marked := given.marked || (w.adds == ALL && w.extras && w.mark))
    ensures s'.recorded == (s.recorded || w.record) && s'.given == s.given + w.adds
    ensures s'.marked == (s.marked || (w.adds == ALL && w.extras && w.mark))
    ensures forall c: Consumer :: On(s', c) == if c in w.adds then Added(On(s, c)) else On(s, c)
  {
    forall c: Consumer ensures On(s', c) == if c in w.adds then Added(On(s, c)) else On(s, c) {
      assert On(given, c) == if c in w.adds then Added(On(begun, c)) else On(begun, c);
      assert On(begun, c) == On(s, c);
    }
  }

  lemma BeginningRight(h: seq<Step>, i: nat, w: Weather)
    requires i !in Run(h).attempts
    ensures var h1 := h + (if w.record then [Record] else []) + [Begin(i)];
            Run(h1) == Phase(Run(h), i, Sending({})).(recorded := Run(h).recorded || w.record)
  {
    if w.record {
      RunStep(h, Record);
      RunStep(h + [Record], Begin(i));
    } else {
      assert h + [] == h;
      RunStep(h, Begin(i));
    }
  }

  lemma AmongQueues(ok: set<Consumer>)
    ensures ToSet(Among(CONSUMER_QUEUES, ok)) == ok
  {
    AmongRight(CONSUMER_QUEUES, ok);
    forall c: Consumer ensures c in CONSUMER_QUEUES { AllConsumers(c); }
  }

  class Publisher {
    var recorded: bool
    var marked: bool
    var given: set<Consumer>
    var extrasDelivered: bool

    method SendToConsumers(w: Weather) returns (ok: bool)
      modifies this`given
      ensures given == old(given) + w.adds
      ensures ok <==> w.adds == ALL
    {
      ok := true;
      for k := 0 to |CONSUMER_QUEUES|
        invariant given == old(given) + set c | c in CONSUMER_QUEUES[..k] && c in w.adds
        invariant ok <==> forall c | c in CONSUMER_QUEUES[..k] :: c in w.adds
      {
        assert CONSUMER_QUEUES[..k + 1] == CONSUMER_QUEUES[..k] + [CONSUMER_QUEUES[k]];
        if CONSUMER_QUEUES[k] in w.adds { given := given + {CONSUMER_QUEUES[k]}; } else { ok := false; }
      }
      assert CONSUMER_QUEUES[..|CONSUMER_QUEUES|] == CONSUMER_QUEUES;
      forall c: Consumer ensures c in ALL && c in CONSUMER_QUEUES { AllConsumers(c); }
    }

    /** `publish`. Once the event is written a failed send is the repeater's; an event neither written nor sent is
        thrown; and no call marks an event that some queue did not get. */
    method Publish(hasOutbox: bool, w: Weather) returns (r: Published)
      modifies this
      ensures given == old(given) + w.adds
      ensures r.Thrown? <==> if hasOutbox then !w.record && !(w.adds == ALL && w.extras) else w.adds != ALL
      ensures r.Returned? ==> r.throughOutbox == hasOutbox
      ensures recorded == (old(recorded) || (hasOutbox && w.record))
      ensures marked == (old(marked) || (hasOutbox && w.adds == ALL && w.extras && w.mark))
      ensures r.Returned? ==> recorded || ALL <= given
      ensures marked && !old(marked) ==> ALL <= given && extrasDelivered
    {
      if !hasOutbox {
        var ok := SendToConsumers(w);
        return if ok then Returned(false) else Thrown;
      }
      if w.record { recorded := true; }
      var sent := SendToConsumers(w);
      if sent && w.extras { extrasDelivered := true; }
      if !(sent && w.extras) {
        return if w.record then Returned(true) else Thrown;
      }
      if w.mark { marked := true; }
      return Returned(true);
    }
  }

  /** The steps of the protocol one attempt of a consumer's job takes, for an event it handles. */
  function JobSteps(c: Consumer, marker: bool, effectOk: bool, markerOk: bool): seq<Step> {
    if marker then [Skip(c)]
    else if !effectOk then []
    else [Process(c), if markerOk then WriteMarker(c) else MarkerNotWritten(c)]
  }

  lemma ConsumerStep(h: seq<Step>, step: Step)
    requires step.Skip? || step.Process? || step.WriteMarker? || step.MarkerNotWritten?
    ensures On(Run(h + [step]), step.c) == NextDelivery(On(Run(h), step.c), step)
  {
    RunStep(h, step);
  }

  /** A job's attempt is a run of the protocol, with the effect `HandleJob` promises. */
  lemma {:induction false} JobFollowsProtocol(h: seq<Step>, c: Consumer, effectOk: bool, markerOk: bool)
    requires On(Run(h), c).queued && !On(Run(h), c).effected
    ensures var d, d' := On(Run(h), c), On(Run(h + JobSteps(c, On(Run(h), c).marker, effectOk, markerOk)), c);
            && d'.effects == d.effects + (if !d.marker && effectOk then 1 else 0)
            && d'.marker == (d.marker || (effectOk && markerOk))
            && d'.queued == (!d.marker && !effectOk)
  {
    var d := On(Run(h), c);
    if d.marker {
      ConsumerStep(h, Skip(c));
    } else if effectOk {
      var last := if markerOk then WriteMarker(c) else MarkerNotWritten(c);
      ConsumerStep(h, Process(c));
      ConsumerStep(h + [Process(c)], last);
      assert h + JobSteps(c, false, true, markerOk) == h + [Process(c)] + [last];
    } else {
      assert h + [] == h;
    }
  }

  /** One consumer's view of one event, as `handleJob` sees it. */
  class BaseConsumer {
    var marker: bool
    var effects: nat

    /** Returns whether the attempt throws: an event without an id and a failed effect are retried, an unwritten marker
        is not. Without Redis nothing is deduplicated. */
    method HandleJob(handles: bool, identified: bool, hasRedis: bool, effectOk: bool, markerOk: bool)
      returns (thrown: bool)
      modifies this
      ensures var works := handles && identified && !(hasRedis && old(marker));
              && (thrown <==> (handles && !identified) || (works && !effectOk))
              && effects == old(effects) + (if works && effectOk then 1 else 0)
              && marker == (old(marker) || (works && effectOk && hasRedis && markerOk))
    {
      if !handles { return false; }
      if !identified { return true; }
      if hasRedis && marker { return false; }
      if !effectOk { return true; }
      effects := effects + 1;
      if hasRedis && markerOk { marker := true; }
      return false;
    }
  }
}
