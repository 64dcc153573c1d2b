# A verified model of the service desk's clocks, queues and names

The repository is a multi-tenant IT service desk. This project models, in Dafny, the parts of it whose
correctness spans many operations, and proves what they promise:

- **The SLA clock** (`ServiceTime`, `Zones`, `Policy`, `SLAClock`, `SLAStatus`, `SLAOutcome`, `SLATimers`, `SLANotices`,
  `SLALaws`, `SLAEngine`, `SLAEntries`). Service time is added to and counted between instants in a tenant's calendar and time zone; an SLA
  record is created, paused, resumed, resolved, reopened, moved to another policy or replaced by a rule; handlers arm
  and cancel delayed jobs whose firing never compares a deadline with the clock; a sweep repairs what the queue lost.
  The reference is a walk of one minute at a time. Instants are whole minutes, a wall-clock minute is
  `day * 1440 + minute of day`, a zone is an arbitrary function from instants to offsets.
- **Event delivery and tenant queues** (`Outbox`, `ChannelDelivery`, `Turns`, `TenantQueueNames`, `Reconciliation`,
  `ReconcileOutcome`). The outbox protocol under crashes and failed sends at any step, deduplication by consumer and by channel, first-come
  first-served turns, and the pass that makes worker pools match the tenants.
- **Data migrations** (`Migrations`). Any number of runners interleaved under an expiring lock, and one runner's pass.
- **Names and text** (`MetamodelNames`, `SchemaNames`, `FreshNames`, `Blanking`, `ScriptTokens`). Collision-free emission of
  schema names, fresh names despite truncation, and the scanner that blanks comments and strings.

Code that changes state is modelled by classes and methods, each proved against a function of its old state; what
the program promises is then proved of those functions, over every input, every run or every reachable state. `SLALaws`,
`SLANotices`, `SLAEntries`, `ReconcileOutcome` and `ScriptTokens` say it without those functions, of the fields of records,
policies and payloads, of the events, or of a grammar alone.

`dafny verify dfyconfig.toml` checks the whole project.

## What the proofs found

Some promises hold only under a condition. The code is modelled as it is; the theorems give the condition, exact where it
says exactly, and concrete runs that fail.

1. **A deadline at a clock change.** A target that falls in a skipped hour is moved by the length of the gap: later in a
   zone ahead of UTC, *earlier* in one behind it (`Zones.GapMovesByItsLength`); one that falls in a repeated hour gets the
   second showing ahead of UTC, the first behind it (`Zones.OverlapTakesOneSide`). By target, change and start alone:
   deadline and count are adjoint exactly as `SLAClocks.AdjointIffChangeHarmless` says, counting up to the deadline gives
   its minutes exactly as `SLAClocks.CountToDeadlineIff` says, and the deadline is not before its own start exactly as
   `SLAClocks.NotBeforeStartIff` says. A 90-minute target can end after 30 counted minutes
   (`SLAClocks.GapShortensDeadline`), a ten-minute one fifty minutes before it starts
   (`SLAClocks.RepeatedHourEndsBeforeStart`).
2. **The ledger.** In any zone with bounded offsets a deadline can be extended by every amount exactly if no service time
   lies between its local target and the wall time shown at it (`SLAClocks.LedgerLawIff`, `SLAStatuses.LedgerSurvivesIff`);
   that can only happen in a skipped hour (`SLAClocks.CrossesNothingIff`).
3. **The outcome.** Without stops, the recorded outcome is right at every instant of resolution exactly as
   `SLAOutcomes.PlainOutcomeIff` says; a resolution after 31 minutes of a 90-minute target can be recorded as a breach
   (`SLAOutcomes.SkippedHourBreachesEarly`). With stops it is right when no service time is repeated, no deadline of the run
   crosses any, offsets are bounded and at most one clock change is near each deadline (`SLAOutcomes.OutcomeIsNetTime`; from
   the configuration alone, `SLAOutcomes.ConfiguredRunIsSafe`). Time itself is conserved over all runs exactly on a clock
   that repeats no service time, skipped hours or not (`SLAOutcomes.ConservedIff`).
4. **A response-only pause.** Resuming it adds to the pause total without moving the resolve deadline; where neither the
   deadline nor the one it should have moved to crosses service time, the ledger survives exactly if the pause counted
   nothing (`SLAStatuses.ResumeAndLedger`). A change of policy during it leaves the old breach job queued; a timer can then
   mark a breach early exactly if that job is due before the new deadline (`SLATimers.UndisciplinedStep`), so a longer target
   breaks the promise (`SLATimers.ResponsePauseBreachesEarly`) and a shorter one does not. In every other run no breach is
   early. A breach job that comes due during it is skipped, and a rule applied during it arms nothing: these, and the loss
   of the job, are exactly the steps that leave an awaiting SLA without its job (`SLATimers.StepKeepsJobIff`); after the
   resume it is overdue with no job until the sweep (`SLATimers.ResponsePauseMissesBreach`).
5. **The search for a working day** cannot give up with 522 holidays and can with 523 (`Policy.GuardUnreachable`,
   `Policy.GuardBoundIsTight`).
6. **An event that is neither written down nor in all five queues** is lost when its publisher is gone; otherwise the repeater
   can still deliver it (`Outbox.LostIff`).
7. **A migration runner that is about to commit** can be followed by a second commit of the same migration, with no more time
   passing, exactly if it has been inside longer than the lock's expiry (`Migrations.SecondCommitIff`; a concrete run is
   `Migrations.PastTtlCommitsTwice`).
8. **A queue whose pause was changed behind the reconciler's back**, to the opposite of what the process remembers and the
   tenant needs, is skipped (`Reconciliation.RealPauseIff`).
9. **A notification of an event without an id** reaches a channel once for every attempt in which the channel works
   (`ChannelDelivery.UnidentifiedEventRepeats`), at most once exactly as `ChannelDelivery.UnidentifiedOnceIff` says.
10. **The fields of a stored type** are checked one by one, so a type with the same custom field twice is accepted
    (`MetamodelNames.TwinFieldsAccepted`); that they differ takes exactly distinct custom names ignoring case
    (`MetamodelNames.FieldsAddableIff`).
11. **A resolve-only pause.** A change of policy during it leaves the old response job queued; a timer can then tell too
    early that the response is late exactly if that job is due before the new response deadline
    (`SLANotices.UndisciplinedResponse`, `SLANotices.ResolvePauseNotifiesEarly`). In every other run no notice is early.
12. **A reopening arms the resolve timers only**, so a response still owed has no job any more; this, the loss of the job, and
    what a resolve-only pause does to it are exactly the ways to miss the notice (`SLANotices.StepKeepsResponseJobIff`,
    `SLANotices.ReopeningForgetsResponse`). The sweep makes up for it (`SLANotices.SweepTells`).
13. **An SLA that is concluded has no job** at any point of a history of workflow steps and other events, unless its start is
    delivered again after the conclusion (`SLAEntries.ConcludedIsQuiet`).

## Model

| member | source | states |
|---|---|---|
| `ServiceTime.WorkingDaySoon` | packages/sla/src/policy.ts:149-165 | pigeonhole: `h` holidays cannot cover one week day of `7 * (h + 1)` consecutive days, so a working day follows within them |
| `ServiceTime.WeekdaysFollow` | packages/sla/src/policy.ts:149-151 | day 0 is a Thursday and the days of the week follow each other |
| `ServiceTime.AdvanceIsFirstService` | packages/sla/src/policy.ts:167-175 | the advanced instant is a service minute and no service minute lies before it |
| `ServiceTime.WalkCounts` | packages/sla/src/policy.ts:187-226 | consuming `m` minutes one at a time leaves exactly `m` service minutes behind and ends right after one |
| `ServiceTime.WalkCountAdjoint` | packages/sla/src/policy.ts:187-262 | local time: the count reaches `m >= 1` exactly from the walk's end on |
| `ServiceTime.WalkComposes` | packages/sla/src/policy.ts:206-226 | consuming `a` minutes and then `b` is consuming `a + b` |
| `ServiceTime.CountAdditive` | packages/sla/src/policy.ts:247-261 | the count is additive over adjacent intervals |
| `ServiceTime.DeadlineInBand` | packages/sla/src/policy.ts:206-226 | every deadline lies on a working day inside its closed service band, also for zero minutes |
| `Zones.WallClockRightInverse` | packages/sla/src/policy.ts:91-118 | with one clock change around it, the conversion of a wall time gives an instant that shows it exactly if some instant does |
| `Zones.GapMovesByItsLength` | packages/sla/src/policy.ts:104-118 | a skipped wall time is moved by the gap, later if the change lies before it read as UTC, else earlier |
| `Zones.OverlapTakesOneSide` | packages/sla/src/policy.ts:104-118 | of two instants that show a wall time the second is taken ahead of UTC, the first behind it |
| `Zones.UnambiguousKeepsOrder` | packages/sla/src/policy.ts:91-135 | around a wall time shown once, later instants show later times |
| `Policy.NextBusinessDayStart` | packages/sla/src/policy.ts:154-165 | returns the start of the first working day after the given one; refuses exactly when 3662 days in a row are idle |
| `Policy.AdvanceToBusinessStart` | packages/sla/src/policy.ts:167-175 | returns the first service minute at or after the given one; refuses exactly when it must search and the search gives up |
| `Policy.CalculateDeadline` | packages/sla/src/policy.ts:187-226 | the loop that skips whole days gives the deadline of the minute-by-minute walk, converted once, with every error case |
| `Policy.BusinessMinutesBetween` | packages/sla/src/policy.ts:235-262 | the loop that skips whole days counts exactly the service minutes of the interval, and refuses exactly when a search gives up on the way or more than 36601 working days are touched |
| `Policy.WalkPastDay` | packages/sla/src/policy.ts:206-226 | skipping the rest of a working day in one go is walking through it |
| `Policy.WalkInsideDay` | packages/sla/src/policy.ts:206-226 | a remainder that fits the day ends that many minutes later in it |
| `Policy.CountRestOfDay` | packages/sla/src/policy.ts:247-261 | the minutes added for one day are the service minutes left in it, and the next working day continues the count |
| `Policy.GuardUnreachable` | packages/sla/src/policy.ts:154-165 | with at most 522 holidays no search for a working day gives up |
| `Policy.DeadlineAlwaysFound` | packages/sla/src/policy.ts:187-226 | such a calendar gives every start and every number of minutes a deadline, on a working day and inside its band |
| `Policy.CountAlwaysFound` | packages/sla/src/policy.ts:235-262 | a calendar with at most 522 holidays counts every interval of up to 36600 days |
| `Policy.GuardBoundIsTight` | packages/sla/src/policy.ts:154-165 | from any day some calendar with 523 holidays makes the search give up |
| `SLAClocks.CountedTime` | packages/sla/src/status.ts:460-465 | the time the clock counts between two instants, or exactly the error for which there is none |
| `SLAClocks.ExtendDeadline` | packages/sla/src/status.ts:467-472 | the deadline moved by time of the clock, or exactly the error for which there is none; nothing to add leaves it where it is |
| `SLAClocks.SearchableCounts` | packages/sla/src/status.ts:460-465 | around the clock or with at most 522 holidays, every interval of up to 36600 days is counted |
| `SLAClocks.SearchableExtends` | packages/sla/src/status.ts:467-472 | around the clock or with at most 522 holidays, every deadline exists and can be moved |
| `SLAClocks.DeadlineExtends` | packages/sla/src/status.ts:467-472 | extending a fresh deadline that crosses no service time gives the deadline of the longer target |
| `SLAClocks.ExtensionsAdd` | packages/sla/src/status.ts:467-472 | extending by `a` and then by `b` is extending by `a + b`, zero included, if the first landing crosses no service time |
| `SLAClocks.LedgerLawIff` | packages/sla/src/status.ts:467-472 | in any zone with bounded offsets a deadline can be extended by every amount exactly if it crosses no service time |
| `SLAClocks.CrossesNothingIff` | packages/sla/src/policy.ts:104-118 | only a target in a skipped hour can cross service time, and it crosses the stretch of the gap it is moved over |
| `SLAClocks.AdjointIffClockAgrees` | packages/sla/src/policy.ts:187-262 | for any zone and calendar, adjointness is the agreement of the zone's clock with the order of instants around the target |
| `SLAClocks.AdjointIffChangeHarmless` | packages/sla/src/policy.ts:187-262 | the deadline is the least instant with count `m` exactly if the clock change around the target is harmless: stated by the target, the change and, in a repeated hour, the start |
| `SLAClocks.DeadlineCountAdjoint` | packages/sla/src/policy.ts:187-262 | where the change is harmless: count `>= m` exactly from the deadline on, and up to it exactly `m` if it crosses no service time |
| `SLAClocks.NotBeforeStartIff` | packages/sla/src/policy.ts:187-226 | a deadline is not before its start exactly if its target is not in a skipped hour it is moved back over further than it came, nor in a repeated hour of which the start is in the second showing |
| `SLAClocks.CountToDeadlineIff` | packages/sla/src/policy.ts:187-262 | counting up to the deadline gives its minutes exactly if a target in a skipped hour is moved later, over no service time, and a start in the second showing of a repeated hour behind UTC is not given the first: by target, change and start |
| `SLAClocks.CountUncrossedIff` | packages/sla/src/policy.ts:187-262 | in any zone at all, it does exactly if the deadline is after the start and crosses no service time |
| `SLAClocks.OutcomeFitsIff` | packages/sla/src/status.ts:460-472 | in time means at most the target and below the target means in time, at every instant, exactly if the clock change makes the deadline neither too early nor too late, zero targets included |
| `SLAClocks.OutcomeBounds` | packages/sla/src/status.ts:460-472 | both directions hold if the target crosses no service time and none is repeated |
| `SLAClocks.CountedAdds` | packages/sla/src/policy.ts:235-262 | counted time adds up over adjacent intervals, skipped service hours or not, if no service time is repeated |
| `SLAClocks.CountsAddIff` | packages/sla/src/policy.ts:235-262 | it adds up over all adjacent intervals exactly if no service time is repeated |
| `SLAClocks.FixedOffsetUnambiguous` | packages/sla/src/policy.ts:91-118 | a zone without clock changes meets the conditions of these laws with every calendar |
| `SLAClocks.UnambiguousMeetsAll` | packages/sla/src/policy.ts:91-118 | a clock whose service time is shown exactly once repeats no service time and has no target that crosses any |
| `SLAClocks.GapShortensDeadline` | packages/sla/src/policy.ts:104-118 | west of UTC, with service hours over the skipped hour, a target of 90 minutes ends after 30 and two extensions are not one |
| `SLAClocks.RepeatedHourEndsBeforeStart` | packages/sla/src/policy.ts:104-118 | west of UTC, from the second showing of a repeated service hour, a target of ten minutes ends fifty minutes before its start |
| `SLAStatuses.StatusStore.CreateSLAStatus` | packages/sla/src/status.ts:238-312 | creates the record once, with both deadlines; a second call returns the stored one; fails exactly when the tier or one of its deadlines is missing |
| `SLAStatuses.StatusStore.PauseSLA` | packages/sla/src/status.ts:547-576 | pauses exactly a record that is neither paused nor concluded |
| `SLAStatuses.StatusStore.ResumeSLA` | packages/sla/src/status.ts:578-637 | moves the paused targets by the counted pause, on the SLA's own clock, and returns which clock was paused; fails exactly when the clock, the count or a moved deadline is missing |
| `SLAStatuses.StatusStore.MarkResolveMet` | packages/sla/src/status.ts:484-545 | closes an open pause into the deadline, then compares; a late resolution is a breach; fails exactly when a clock it needs, the count or the deadline is missing |
| `SLAStatuses.StatusStore.ReopenSLA` | packages/sla/src/status.ts:639-672 | moves the deadline by the time spent resolved and forgets the outcome, not the breach; fails exactly when the clock, the count or the deadline is missing |
| `SLAStatuses.StatusStore.RepolicySLA` | packages/sla/src/status.ts:674-738 | recomputes both deadlines on the new policy and re-applies the pause total; leaves closed, rule and unchanged SLAs alone; fails exactly when the tier or a deadline is missing |
| `SLAStatuses.StatusStore.ReplaceByRule` | packages/sla/src/ruleSla.ts:33-156 | replaces the record by the rule's, keeping start, pauses, breach and outcome; refuses exactly the invalid targets |
| `SLAStatuses.FindTier` | packages/sla/src/status.ts:238-312 | the first tier of the severity, none exactly if there is none |
| `SLAStatuses.StatusStore.Mark` | packages/sla/src/status.ts:369-412 | a mark changes the record of its ticket and nothing else |
| `SLAStatuses.CreateSucceeds` | packages/sla/src/status.ts:238-312 | with the clock there, at most 522 holidays and a stop of at most 36600 days, no creation fails |
| `SLAStatuses.ResumeSucceeds` | packages/sla/src/status.ts:578-637 | with the clock there, at most 522 holidays and a stop of at most 36600 days, no resume fails |
| `SLAStatuses.ResolveSucceeds` | packages/sla/src/status.ts:484-545 | with the clock there, at most 522 holidays and a stop of at most 36600 days, no resolution fails |
| `SLAStatuses.ReopenSucceeds` | packages/sla/src/status.ts:639-672 | with the clock there, at most 522 holidays and a stop of at most 36600 days, no reopening fails |
| `SLAStatuses.RepolicySucceeds` | packages/sla/src/status.ts:674-738 | with the clock there, at most 522 holidays and a stop of at most 36600 days, no change of policy fails |
| `SLAStatuses.LedgerSurvivesIff` | packages/sla/src/status.ts:467-472 | whatever shift comes next, the ledger survives it exactly if the record's deadline crosses no service time |
| `SLAStatuses.ResumeKeepsLedger` | packages/sla/src/status.ts:578-637 | a resume of a pause of the resolve clock keeps the ledger |
| `SLAStatuses.ResumeAndLedger` | packages/sla/src/status.ts:578-637 | where neither the deadline nor the one it should move to crosses service time, a resume keeps the ledger exactly if the pause stopped the resolve clock or counted nothing |
| `SLAStatuses.MoreIsElsewhere` | packages/sla/src/status.ts:467-472 | different extensions that cross no service time end at different instants |
| `SLAStatuses.ResolveKeepsLedger` | packages/sla/src/status.ts:484-545 | a resolution, with or without an open pause, keeps the ledger |
| `SLAStatuses.ReopenKeepsLedger` | packages/sla/src/status.ts:639-672 | a reopening keeps the ledger |
| `SLAStatuses.LongerIsLater` | packages/sla/src/policy.ts:187-226 | on a clock that repeats no service time a longer target has a strictly later deadline, when neither crosses any |
| `SLAOutcomes.OutcomeIsNetTime` | packages/sla/src/status.ts:484-672 | over every run under one policy that repeats no service time and none of whose deadlines crosses any: running time below the target is recorded as met, met means at most the target, anything else is a breach |
| `SLAOutcomes.PlainOutcomeIff` | packages/sla/src/status.ts:484-545 | without stops, the outcome is right at every instant of resolution exactly if the clock change makes the deadline neither too early nor too late |
| `SLAOutcomes.SkippedHourBreachesEarly` | packages/sla/src/status.ts:484-545 | the concrete run: 90 minutes, resolved after 31 of running time, recorded as a breach |
| `SLAOutcomes.ConfiguredRunIsSafe` | packages/sla/src/status.ts:484-672 | bounded offsets, clock changes far apart and calendars whose targets cross no service time make every run safe |
| `SLAOutcomes.TimeIsConserved` | packages/sla/src/status.ts:484-672 | on a clock that repeats no service time, running time, pause total and the stop still open add up to the service time since the start, at every state of every run |
| `SLAOutcomes.ConservedIff` | packages/sla/src/status.ts:484-672 | they add up in all runs exactly on a clock that repeats no service time |
| `SLAOutcomes.RunKeepsInvariant` | packages/sla/src/status.ts:484-672 | the invariant behind both, kept by pauses, resumes, resolutions and reopenings in any order |
| `SLATimers.RunShape` | packages/sla/src/status.ts:515-563 | at every reachable record a concluded SLA has an outcome and is not paused, and a met one is concluded |
| `SLATimers.ServedStepGoesThrough` | packages/sla/src/engine.ts:104-526 | no handler fails when the policies are there, their calendars have at most 522 holidays and no stop is longer than 36600 days |
| `SLATimers.SweepFlagsExact` | packages/sla/src/sweep.ts:54-70 | the index flags the sweep reads say exactly "open and not breached" |
| `SLATimers.BreachIsForever` | packages/sla/src/status.ts:740-751 | no step clears a breach, moves its instant or removes the record |
| `SLATimers.RunSound` | packages/sla/src/scheduler.ts:204-315 | over every disciplined run, a queued breach job of an open, running, unbreached SLA is due at its current deadline, or at once when that has passed |
| `SLATimers.NoEarlyBreach` | packages/sla/src/scheduler.ts:48-143 | in every disciplined run a timer or a sweep marks a breach only at or after the current deadline, the sweep only after the grace |
| `SLATimers.MarkIsLate` | packages/sla/src/scheduler.ts:86-143 | in a sound state the step that marks a breach comes at or after the deadline |
| `SLATimers.UndisciplinedStep` | packages/sla/src/engine.ts:344-362 | after a change of policy during a response-only pause, some disciplined continuation from a given instant on marks a breach early exactly if the job that stayed queued is due, from then on, before the new deadline |
| `SLATimers.ResponsePauseBreachesEarly` | packages/sla/src/engine.ts:344-395 | the concrete run: response pause, longer policy, resume, and the old job breaches at minute 60 an SLA due at minute 600 |
| `SLATimers.StepKeepsJobIff` | packages/sla/src/scheduler.ts:48-74 | the breach job of an open, unbreached SLA whose resolve clock runs stays queued exactly unless the queue loses it, or during a response-only pause it comes due or a rule is applied |
| `SLATimers.NoMissedBreach` | packages/sla/src/scheduler.ts:204-315 | in every disciplined run without such a step, an open, running, unbreached SLA has its breach job queued, due at its deadline or at once when that has passed, and firing it marks the breach |
| `SLATimers.WholeClockRunDropsNothing` | packages/sla/src/engine.ts:364-395 | runs whose pauses stop the resolve clock and whose breach jobs are not lost are disciplined and have no such step |
| `SLATimers.ResponsePauseMissesBreach` | packages/sla/src/scheduler.ts:68-71 | the concrete run: the job comes due during a response-only pause, and after the resume the SLA is overdue, unbreached and without a job |
| `SLATimers.RunBalanced` | packages/sla/src/status.ts:467-729 | the ledger at every reachable record: the resolve deadline is the fresh one of the current tier on the current clock, moved by the pause total, as long as no deadline of the run crosses service time |
| `SLATimers.PoliciesBalance` | packages/sla/src/status.ts:467-729 | the same for every run, from a check of the calendars against the zones |
| `SLATimers.StepKeepsBalance` | packages/sla/src/status.ts:467-729 | each single step keeps the ledger of a record whose deadline crosses no service time |
| `SLATimers.SweepSettles` | packages/sla/src/sweep.ts:72-121 | after a sweep no open running SLA is overdue beyond the grace and unbreached; an immediate second one changes nothing |
| `SLATimers.SweepRecoversLostBreaches` | packages/sla/src/sweep.ts:72-121 | at every reachable record, whatever jobs were lost, the sweep breaches exactly the overdue open running SLAs |
| `SLALaws.StepKeepsFacts` | packages/sla/src/status.ts:484-738 | no step removes the record or changes a fact it does not state: only a reopening clears a conclusion, only a resume or a resolution ends a pause, the outcome stays while concluded, the start never moves, the pause total never falls, the response and the breach are never cleared, deadlines move by the steps that move them only |
| `SLALaws.StepTakesEffect` | packages/sla/src/status.ts:484-672 | a step that does not fail takes effect on the record: the pause, the resume, the resolution, the reopening, the response, each with its instant |
| `SLALaws.StepTakesJobs` | packages/sla/src/engine.ts:364-372 | a pause takes the jobs of the clocks it stops and no other, a resolution all, a response its own, a sweep none |
| `SLALaws.StepArmsJobs` | packages/sla/src/engine.ts:344-395 | a resume arms the jobs of what stood still and is owed, a reopening those of an unbreached resolve target, another policy all that is owed when the SLA runs |
| `SLALaws.RuleLeavesNoJob` | packages/sla/src/ruleSla.ts:136-156 | a rule leaves no job on a concluded or paused SLA |
| `SLALaws.RuleTargets` | packages/sla/src/ruleSla.ts:59-156 | a rule's two deadlines are start, minutes and pause total added up around the clock; a running SLA is watched anew for what it owes |
| `SLALaws.FiringOnlyMarks` | packages/sla/src/scheduler.ts:48-143 | a timer or a sweep leaves a paused or concluded SLA alone and otherwise sets only the mark of its kind |
| `SLALaws.FiringMarks` | packages/sla/src/scheduler.ts:86-143 | a due job of an open, running SLA leaves its mark and is gone |
| `SLALaws.RunKeepsPolicy` | packages/sla/src/engine.ts:42-83 | at every reachable record that names a policy, its hours, both targets and the warning lead are those of that policy |
| `SLALaws.StartStores` | packages/sla/src/engine.ts:236-278 | a start on a usable policy stores the deadlines of the policy's own minutes on its own hours, zone and calendar, and arms the three timers |
| `SLALaws.NothingStarts` | packages/sla/src/engine.ts:42-83 | a policy that is missing or cannot be used starts nothing, and the step fails |
| `SLALaws.StartFailsIff` | packages/sla/src/engine.ts:236-278 | on a usable policy a start fails exactly when one of its two deadlines does not exist |
| `SLALaws.RepolicyStores` | packages/sla/src/status.ts:674-738 | another policy counts both targets from the start on its own clock, moved by the pauses so far, and changes nothing else |
| `SLALaws.RepolicyLeavesAlone` | packages/sla/src/status.ts:686-690 | a closed SLA, one from a rule, and one that already has the policy and the severity are left alone |
| `SLALaws.FridayEveningEndsMonday` | packages/sla/src/engine.ts:65-71 | two office hours from Friday 17:30 end on Monday 09:30 |
| `SLALaws.DeadlineFromEvents` | packages/sla/src/status.ts:578-672 | in every history on one policy, each of the two deadlines is that of the start, the policy's minutes and the time its clock stood still, computed from the events alone, as long as no deadline on the way crosses service time |
| `SLANotices.RunResponseRight` | packages/sla/src/scheduler.ts:270-283 | in every disciplined run the queued job of a response still owed is due at its current deadline, or at once when that had passed |
| `SLANotices.NoEarlyNotice` | packages/sla/src/scheduler.ts:48-143 | in every disciplined run a timer or a sweep tells that the response is late only while it is owed, at or after its current deadline, the sweep only after the grace |
| `SLANotices.UndisciplinedResponse` | packages/sla/src/engine.ts:344-395 | after a change of policy during a resolve-only pause, some disciplined continuation tells it early exactly if the job that stayed queued is due before the new response deadline |
| `SLANotices.ResolvePauseNotifiesEarly` | packages/sla/src/engine.ts:344-395 | the concrete run: the old job tells at minute 10 that a response due at minute 100 is late |
| `SLANotices.StepKeepsResponseJobIff` | packages/sla/src/engine.ts:364-395 | the job of a response still owed stays queued exactly unless it is lost, comes due or meets a rule during a resolve-only pause, or the SLA is reopened without it |
| `SLANotices.NoMissedNotice` | packages/sla/src/scheduler.ts:270-283 | in every disciplined run without such a step an open, running SLA that owes its response has the job queued, due at the deadline or at once, and firing it tells |
| `SLANotices.ReopeningForgetsResponse` | packages/sla/src/engine.ts:473-486 | resolved and reopened, an SLA that still owes its response has no job for it |
| `SLANotices.RunWarningRight` | packages/sla/src/scheduler.ts:243-257 | in every disciplined run the queued warning of an open, unbreached SLA whose resolve clock runs is due the lead of its tier before the current deadline, or at once when that had passed |
| `SLANotices.NoEarlyWarning` | packages/sla/src/scheduler.ts:48-143 | in every disciplined run a warning is of the current deadline and, before a breach, not earlier than the lead; the sweep keeps the grace |
| `SLANotices.SweepTells` | packages/sla/src/sweep.ts:72-121 | a sweep gives exactly the notices that are overdue by the grace and the warnings that are due but not yet overdue by it |
| `SLAEngines.TimerQueue.ScheduleJob` | packages/sla/src/scheduler.ts:204-241 | arming replaces the job of the same id and touches no other ticket |
| `SLAEngines.TimerQueue.ScheduleResolve` | packages/sla/src/scheduler.ts:243-268 | warning and breach are armed for the record's deadline, the response timer is left alone |
| `SLAEngines.TimerQueue.ScheduleResponseCheck` | packages/sla/src/scheduler.ts:270-283 | only the response timer is armed, for the response deadline |
| `SLAEngines.TimerQueue.CancelSLAJobs` | packages/sla/src/scheduler.ts:301-315 | removes exactly the jobs of the named clock |
| `SLAEngines.SLAEngine.StartSLA` | packages/sla/src/engine.ts:236-278 | takes the start step on its ticket; without a severity or a policy changes nothing; fails exactly when the step does |
| `SLAEngines.SLAEngine.HandleSLAStart` | packages/sla/src/engine.ts:295-321 | resumes a paused SLA, leaves a running one alone, starts a missing one; fails exactly when that step does |
| `SLAEngines.SLAEngine.ReselectSLA` | packages/sla/src/engine.ts:344-362 | starts a missing SLA or takes the re-policy step; re-arms only a running one; fails exactly when that step does |
| `SLAEngines.SLAEngine.HandleSLAPause` | packages/sla/src/engine.ts:364-372 | takes the pause step: the paused clock's jobs are cancelled only if the pause happened |
| `SLAEngines.SLAEngine.HandleSLAResume` | packages/sla/src/engine.ts:374-395 | takes the resume step: re-arms the targets that were paused and are still owed; fails exactly when the step does |
| `SLAEngines.SLAEngine.HandleResponded` | packages/sla/src/engine.ts:397-406 | marks the response once and cancels its timer |
| `SLAEngines.SLAEngine.HandleResolved` | packages/sla/src/engine.ts:499-526 | the first conclusion wins; it cancels every job; fails exactly when the step does |
| `SLAEngines.SLAEngine.HandleReopened` | packages/sla/src/engine.ts:473-486 | reopens and re-arms unless the breach is history; fails exactly when the step does |
| `SLAEngines.SLAEngine.HandleStepEntered` | packages/sla/src/engine.ts:438-497 | an entered workflow step takes exactly its steps in order: response, pause or resume, reopening or conclusion; fails exactly when one of them does, those before it done, or for want of an instant |
| `SLAEngines.SLAEngine.ApplyRuleSLA` | packages/sla/src/ruleSla.ts:59-156 | takes the rule step: old jobs are gone, only a running clock gets new ones, only the targets still owed |
| `SLAEngines.SLAEngine.FireSLATimer` | packages/sla/src/scheduler.ts:48-181 | fires on a relevant record only, and changes that record only |
| `SLAEngines.SLAEngine.ProcessSLAJob` | packages/sla/src/scheduler.ts:76-84 | a due job is taken off the queue and fired, a job that is not due is left |
| `SLAEngines.SLAEngine.RunSLASweep` | packages/sla/src/sweep.ts:72-121 | one pass over all records, whatever timers throw: each lost timer is fired, a failing one stops no other, and the four counters are the numbers fired and failed |
| `SLAEngines.SLAEngine.FireOne` | packages/sla/src/sweep.ts:86-95 | a firing that throws is noted, with or without the record written |
| `SLAEngines.SweptWithoutFailures` | packages/sla/src/sweep.ts:72-121 | a pass in which nothing throws is the sweep of the run theorems |
| `SLAEngines.SecondSweepIsSilent` | packages/sla/src/sweep.ts:72-121 | an immediate second pass over the whole store finds no row to fire and changes no record |
| `SLAEntries.EntryTells` | packages/sla/src/engine.ts:438-497 | at any reachable record, an entered step leaves the SLA concluded exactly if it is resolved or terminal, paused exactly if it waits and the SLA was open, answered exactly if it was or the initial step was left, with the instants of the first time, and with the jobs that follow |
| `SLAEntries.HandledEntryTells` | packages/sla/src/engine.ts:438-497 | the same of what the handler leaves when it does not throw |
| `SLAEntries.EntryWithoutInstant` | packages/sla/src/engine.ts:445-488 | without an instant the handler throws exactly if the step would conclude an open SLA or reopen a concluded one, and only the response is recorded |
| `SLAEntries.LastEntryTells` | packages/sla/src/engine.ts:438-497 | after any history of entered steps and other events: concluded exactly if the last step is resolved or terminal, else waiting exactly if it waits and the SLA was open before; a concluded SLA that enters any other step, a waiting one too, is reopened and runs |
| `SLAEntries.LeavingTheInitialStepResponds` | packages/sla/src/engine.ts:445-450 | once the initial step was left, the response is met at every later point of the history |
| `SLAEntries.ConcludedIsQuiet` | packages/sla/src/engine.ts:486-496 | at every point of such a history a concluded SLA has no job, unless its start is delivered again after the conclusion |
| `Outbox.RunKeepsInvariant` | packages/events/src/publisher.ts:41-85 | the protocol's invariant, under crashes and failures of any step of any number of attempts |
| `Outbox.MarkedEventReachedEveryone` | packages/events/src/publisher.ts:62-85 | no loss: a marked event was given to all five queues, and at each it is queued, done or counted as exhausted |
| `Outbox.EffectsBounded` | packages/events/src/consumer.ts:116-154 | a consumer completes its effect at most once plus once per marker that was not written |
| `Outbox.EffectsAtMostOncePlusFailures` | packages/events/src/consumer.ts:116-154 | the same bound in terms of the failures and crashes between an effect and its marker |
| `Outbox.RepeaterRecovers` | packages/events/src/outbox.ts:11-45 | from every reachable state in which the event is written down and unmarked, one failure-free pass gives it to all five queues and marks it |
| `Outbox.LostIff` | packages/events/src/outbox.ts:11-45 | after the publisher is gone the event can still reach all five queues exactly if it was written down or had reached them |
| `Outbox.Publisher.SendToConsumers` | packages/events/src/publisher.ts:41-47 | every queue is tried; success means all five |
| `Outbox.Publisher.Publish` | packages/events/src/publisher.ts:62-85 | throws exactly for an event neither written nor sent; marks only after all five queues and the extras |
| `Outbox.CallFollowsProtocol` | packages/events/src/publisher.ts:62-85 | one call of the publisher is a run of the protocol with the effect `Publish` promises; an add beside a kept failed job changes nothing |
| `Outbox.BaseConsumer.HandleJob` | packages/events/src/consumer.ts:116-154 | one effect unless marked, the marker after it; only a failed effect or a missing id is retried |
| `Outbox.JobFollowsProtocol` | packages/events/src/consumer.ts:116-154 | one attempt of a job is a run of the protocol with the effect `HandleJob` promises |
| `ChannelDelivery.AttemptRight` | packages/notifications/src/consumer.ts:99-113 | in one attempt every working channel is delivered wherever it stands, and the failures are exactly the broken channels not delivered before |
| `ChannelDelivery.EachChannelOnce` | packages/notifications/src/deliveryDedup.ts:51-91 | over any retries each channel receives at most one message, and none exactly if it is among the final failures |
| `ChannelDelivery.UnidentifiedEventRepeats` | packages/notifications/src/deliveryDedup.ts:51-91 | without an id, from any state and over any retries, a channel gains one message for every attempt made in which it is not broken |
| `ChannelDelivery.UnidentifiedAttempt` | packages/notifications/src/consumer.ts:99-113 | one attempt without an id: every working channel receives one more, every broken one fails |
| `ChannelDelivery.UnidentifiedOnceIff` | packages/notifications/src/deliveryDedup.ts:51-91 | without an id every channel receives at most one message exactly if none works in two of the attempts made |
| `ChannelDelivery.DeliveryDedup.DeliverChannelOnce` | packages/notifications/src/deliveryDedup.ts:84-91 | a marked channel is skipped, the marker is written only after a delivery |
| `ChannelDelivery.DeliveryDedup.SendToChannels` | packages/notifications/src/consumer.ts:99-113 | the loop tries every channel and collects the failures in order |
| `Turns.TurnsAreFair` | packages/events/src/tenantQueues.ts:186-204 | at every state: turns in use as many as the unfinished work needs up to the limit, waiting only when all are taken, grants in the order of arrival |
| `Turns.TurnTaker.Request` | packages/events/src/tenantQueues.ts:186-204 | a free turn is granted at once, else the work queues behind the others |
| `Turns.TurnTaker.Release` | packages/events/src/tenantQueues.ts:186-204 | the turn passes to the first that waits, or becomes free |
| `TenantQueueNames.SplitInvertsName` | packages/events/src/tenantQueues.ts:34-58 | a name splits into an owner exactly if it is that owner's name |
| `Reconciliation.ReconcileSettles` | packages/events/src/tenantQueues.ts:329-361 | whatever queues fail: every pool has exactly the tenants' workers, every working queue its schedule and remembered pause, no producer of a removed tenant stays |
| `Reconciliation.ReconcileConverges` | packages/events/src/tenantQueues.ts:329-361 | without failures one pass from any state makes workers, schedules, remembered pauses and producers match |
| `Reconciliation.RealPauseIff` | packages/events/src/tenantQueues.ts:329-361 | from any state, a pass makes the pause Redis keeps for a working queue right exactly unless it was remembered right while Redis kept the opposite |
| `Reconciliation.AllRealPausesIff` | packages/events/src/tenantQueues.ts:329-361 | without failures all real pauses are right after a pass exactly if no queue was remembered right wrongly |
| `Reconciliation.SecondPassIsQuiet` | packages/events/src/tenantQueues.ts:329-361 | an immediate second pass changes nothing and reports nothing |
| `Reconciliation.RecreatedTenantForgotten` | packages/events/src/tenantQueues.ts:144-149 | a removed tenant leaves no remembered pause, so a re-created one is paused again |
| `ReconcileOutcome.WantedQueueTold` | packages/events/src/tenantQueues.ts:329-361 | of the queue of a wanted tenant a pass reports: added exactly if a pool had no worker for it and nothing it needed was broken; paused or resumed exactly if it works and the pause last applied was another; failed exactly if it is broken and needed its schedule or its pause |
| `ReconcileOutcome.GoneQueueTold` | packages/events/src/tenantQueues.ts:329-361 | of the queue of a tenant that is gone: removed exactly if a pool had a worker and it works; failed exactly if it is broken and had a worker or a producer |
| `Reconciliation.NamesDiffer` | packages/events/src/tenantQueues.ts:41-58 | two owners never share a queue |
| `Reconciliation.TenantQueues.RemoveWorkers` | packages/events/src/tenantQueues.ts:251-257 | the workers of removed tenants are gone even when closing them fails |
| `Reconciliation.TenantQueues.ReconcileTenant` | packages/events/src/tenantQueues.ts:241-249 | one tenant in one pool: worker, schedule, pause, in this order; a failure stops at it |
| `Reconciliation.TenantQueues.ReconcilePool` | packages/events/src/tenantQueues.ts:329-361 | one pool: the removed tenants first, then every wanted one |
| `Reconciliation.TenantQueues.DropProducers` | packages/events/src/tenantQueues.ts:144-149 | a producer and its remembered pause go together, even when the close fails |
| `Reconciliation.TenantQueues.ReconcileOnce` | packages/events/src/tenantQueues.ts:329-361 | the loops of the pass compute the reconciliation the theorems are about, with its outcome |
| `Migrations.CommittedWithMarker` | packages/neo4j/src/migrations.ts:181-305 | while no runner outstays the expiry, a transactional migration has committed exactly once if its marker is new and never otherwise |
| `Migrations.AppliedIsPrefix` | packages/neo4j/src/migrations.ts:270-305 | what was pending is, in id order, every known migration without a marker at the re-read inside the lock; what a runner applied is a prefix of it, and the store held what was found and that prefix while it was inside and when it was over |
| `Migrations.MutualExclusion` | packages/neo4j/src/migrations.ts:181-209 | at most one runner is inside |
| `Migrations.LockChangesTwoWays` | packages/neo4j/src/migrations.ts:175-207 | at any state, however late a runner is, the lock changes only when a runner takes it free or expired or its own owner gives it back |
| `Migrations.OthersLeaveTheLock` | packages/neo4j/src/migrations.ts:175-207 | until it expires a lock survives every run of steps of the other runners, late releases included |
| `Migrations.SecondCommitIff` | packages/neo4j/src/migrations.ts:181-305 | while a runner is about to commit a transactional migration, some steps without the clock moving commit it a second time exactly if the runner has outstayed the expiry |
| `Migrations.PastTtlCommitsTwice` | packages/neo4j/src/migrations.ts:181-209 | a concrete instance: two runners of an empty store commit its one migration twice |
| `Migrations.RunKeepsInvariant` | packages/neo4j/src/migrations.ts:181-305 | the invariant behind them, over every interleaving with crashes and stolen locks |
| `Migrations.MigrationStore.ValidateMigrations` | packages/neo4j/src/migrations.ts:112-124 | accepts exactly lists of well-formed distinct ids, each with its `up`, and returns them sorted; otherwise the first problem |
| `Migrations.SortRight` | packages/neo4j/src/migrations.ts:112-124 | the sorted list is strictly increasing and has the same ids |
| `Migrations.MigrationStore.Plan` | packages/neo4j/src/migrations.ts:230-244 | to run and to skip are exactly the known ids in range without and with a marker, in order |
| `Migrations.MigrationStore.ApplyPending` | packages/neo4j/src/migrations.ts:270-305 | applies exactly the pending ones before the first that fails |
| `Migrations.MigrationStore.RunMigrations` | packages/neo4j/src/migrations.ts:215-268 | goes through, is refused or fails exactly when stated; on success exactly the known ids in range are in, on a failure the pending ones before it; the lock is given back |
| `MetamodelNames.OneTypeDistinct` | packages/schema-generator/src/nameValidation.ts:218-229 | within one type the emitted names of each kind differ ignoring case, for every type name |
| `SchemaNames.GenerateSDL` | packages/schema-generator/src/generator.ts:480-628 | a schema is generated exactly for the lists without a collision; it declares exactly the names the check looked at, and no two of one kind are the same ignoring case |
| `SchemaNames.PascalByWords` | packages/schema-generator/src/stringUtils.ts:6-8 | word by word, each with a capital and otherwise as it was |
| `SchemaNames.Plurals` | packages/schema-generator/src/stringUtils.ts:21-25 | the plural of a name by its last letter |
| `MetamodelNames.AssertGeneratableNames` | packages/schema-generator/src/nameValidation.ts:511-565 | accepts a list exactly if all emitted names of a kind differ ignoring case, from each other and from the reserved ones, and its fields are right |
| `MetamodelNames.OneMoreType` | packages/schema-generator/src/nameValidation.ts:324-392 | a collision-free list stays so with one more type exactly if the check accepts it |
| `MetamodelNames.CheckFields` | packages/schema-generator/src/nameValidation.ts:558-563 | accepts exactly the fields whose custom names are identifiers that write no property of the product |
| `MetamodelNames.CheckFieldName` | packages/schema-generator/src/nameValidation.ts:412-500 | accepts exactly an identifier that writes no property of the product, is no base field and differs from the existing names ignoring case |
| `MetamodelNames.AcceptedFieldIsNew` | packages/schema-generator/src/nameValidation.ts:412-500 | an accepted field writes a property that no existing well-formed field writes |
| `MetamodelNames.FieldsAddableIff` | packages/schema-generator/src/nameValidation.ts:412-500 | the custom fields of a type could have been added in turn exactly if each is right and their names differ ignoring case |
| `MetamodelNames.AddableWriteDistinct` | packages/schema-generator/src/nameValidation.ts:412-500 | fields that could have been added in turn write different properties |
| `MetamodelNames.SingleTypeAccepted` | packages/schema-generator/src/nameValidation.ts:511-565 | a well-named type alone is collision-free whatever its fields, each right by itself |
| `MetamodelNames.TwinFieldsAccepted` | packages/schema-generator/src/nameValidation.ts:558-563 | so a type with the same custom field twice is accepted |
| `MetamodelNames.CheckTypeName` | packages/schema-generator/src/nameValidation.ts:324-392 | accepts exactly a well-formed name none of whose emitted names is taken |
| `MetamodelNames.PascalIsStripped` | packages/schema-generator/src/stringUtils.ts:6-8 | ignoring case, the Pascal name is the slug without its underscores |
| `MetamodelNames.SnakeCaseInjective` | packages/schema-generator/src/stringUtils.ts:17-19 | two accepted field names write the same property exactly if they are equal |
| `MetamodelNames.CamelInvertsSnake` | packages/schema-generator/src/stringUtils.ts:17-19 | reading the property name back gives the field name |
| `FreshNames.FieldNameForLabel` | packages/types/src/catalogForm.ts:251-265 | the base if it is free, else the first free alternative; with at most 996 names taken it is well formed and not taken |
| `FreshNames.BaseNameIsTidy` | packages/types/src/catalogForm.ts:251-257 | every label gives a name of the field rule, without double or trailing underscores |
| `FreshNames.SlugIsWordsJoined` | packages/types/src/catalogForm.ts:251-257 | whatever stands between and around them, the words of a label are kept in lower case and joined by single underscores |
| `FreshNames.FittingLabelIsKept` | packages/types/src/catalogForm.ts:251-257 | a label whose joined words fit the rule is named by them |
| `FreshNames.EveryTextIsALabel` | packages/types/src/catalogForm.ts:251-257 | every text is such a label |
| `FreshNames.TidyIffOwnBase` | packages/types/src/catalogForm.ts:251-257 | a label is kept as it is exactly if it is already such a name; proposing twice is proposing once |
| `FreshNames.AlternativesDiffer` | packages/types/src/catalogForm.ts:259-263 | different numbers give different alternatives, whatever truncation does to the base |
| `FreshNames.FewTakenLeaveOne` | packages/types/src/catalogForm.ts:259-263 | pigeonhole: with at most 996 names taken one of the 997 alternatives is free |
| `FreshNames.BoundIsTight` | packages/types/src/catalogForm.ts:251-265 | some label and 997 taken names leave neither the base nor an alternative free |
| `FreshNames.FreeSectionId` | packages/types/src/catalogForm.ts:689-695 | the first free `section_N`, not taken while fewer than 998 ids are |
| `FreshNames.SectionIds` | packages/types/src/catalogForm.ts:665-671 | a section keeps its id unless it is taken; with at most 998 ids in all they are pairwise distinct and none was in use |
| `Blanking.CodeWithoutCommentsAndStrings` | packages/scripting/src/validate.ts:69-104 | the scanner that jumps gives what the automaton that reads one character at a time gives, on every text |
| `Blanking.EndOfLiteral` | packages/scripting/src/validate.ts:89-98 | a literal ends after the first quote of its kind with an even number of backslashes directly before it, or at the end of the text |
| `Blanking.BlankedKeepsLines` | packages/scripting/src/validate.ts:69-104 | a newline exactly where the source has one, code unchanged, everything else a space |
| `Blanking.BlankedIsClean` | packages/scripting/src/validate.ts:69-104 | no quote and no comment opener is left |
| `Blanking.UnchangedIffClean` | packages/scripting/src/validate.ts:69-104 | a text is unchanged exactly if it has no quote and no comment opener |
| `Blanking.BlankingIsIdempotent` | packages/scripting/src/validate.ts:69-104 | blanking twice is blanking once |
| `ScriptTokens.BlankingKeepsMeaning` | packages/scripting/src/validate.ts:69-104 | of every list of code characters, comments and literals that reads as it is written, blanking keeps the code, the newlines, and spaces for all else |
| `ScriptTokens.EveryTextIsTokens` | packages/scripting/src/validate.ts:69-104 | every text is such a list, unclosed comments and literals included |

## Left out

- Fractions of a minute: instants, pauses and targets are whole minutes; a pause total carried from one clock to another is the approximation the code declares (packages/sla/src/status.ts:698-701).
- Neo4j, Redis, BullMQ and Intl themselves: a write is atomic, a queue maps a ticket to its due jobs, a deduplication store is a set that keeps its markers, a zone is an offset function.
- Handlers that crash between the record and the queue, and the job id `:re<timestamp>` for a job that is running (packages/sla/src/scheduler.ts:217-237): a handler is atomic with respect to the timers of its ticket; what a lost arming costs is the lost-job step.
- SLATimers.NoEarlyBreach: not for runs with a change of policy during a response-only pause, where it is false; `SLATimers.UndisciplinedStep` says exactly when.
- SLATimers.NoMissedBreach: not for runs that drop a job, where it is false; `SLATimers.StepKeepsJobIff` says exactly which steps do.
- SLATimers.RunBalanced: for pauses that stop the resolve clock, by `SLAStatuses.ResumeAndLedger`.
- SLAOutcomes.OutcomeIsNetTime: under one policy, and for pauses that stop the resolve clock.
- SLANotices.NoEarlyNotice: not for runs with a change of policy during a resolve-only pause, where it is false; `SLANotices.UndisciplinedResponse` says exactly when.
- SLANotices.NoEarlyWarning: not for runs with a change of policy during a response-only pause, whose stale warning job is the twin of the stale breach job.
- SLALaws.DeadlineFromEvents: under one policy and without a rule, and where no deadline on the way crosses service time.
- The choice of the policy for a ticket by priority, category and team (packages/sla/src/selector.ts): the chosen id is a parameter.
- A policy that is edited while an SLA runs on it, a deleted ticket, a row of the sweep without a readable deadline, the events timers publish, and a warning lead that is not positive.
- The parsing of calendars: times are minutes of the day, holidays are day numbers, as packages/sla/src/calendar.ts:44-85 guarantees.
- The expiry of deduplication markers, and one job worked by two workers at once.
- The repeater itself: only the contract of packages/events/src/outbox.ts:11-45.
- Tenant ids that the queue rules refuse, in the convergence theorems: `Reconciliation.TenantQueues.ReconcileTenant` models the refusal.
- Turns.TurnTaker.Request: a turn starts when it is granted; the delay until the waiting work notices is not modelled.
- Migrations: checksums and drift, the form of ids beyond well-formed or not (they are numbers in order), `force` in interleaved runs, and two processes with the same owner name.
- MetamodelNames.AssertGeneratableNames: the texts of errors, the suggestions, and the names of the base schema, which are a parameter.
- FreshNames.FieldNameForLabel: Unicode; a label is a string without accents in which only ASCII letters have a case. The name taken from the time, when everything else is in use, is a parameter.
- The conditions of catalogue forms, the checks that run on a blanked script, notification texts, the web interface, identity and encryption: data, formatting or foreign libraries.
