/** The clock an SLA counts on (packages/sla/src/status.ts:413-472): around the clock, or the service hours of a
    calendar in a time zone. Counting and extending on one clock are two halves of one Galois connection, which
    is what every deadline of an SLA rests on.
 */
module SLAClocks {
  import opened Basics
  import opened Wrappers
  import opened ServiceTime
  import opened Zones
  import opened Policy

  datatype SLAClock = SLAClock(businessHours: bool, timezone: Zone, calendar: Option<ServiceCalendar>)

  const TWENTY_FOUR_SEVEN: SLAClock := SLAClock(false, Zone(t => 0), None)

  /** A service-hours clock has its calendar. */
  predicate Complete(clock: SLAClock) { clock.businessHours ==> clock.calendar.Some? }

  /** `calculateDeadline` on the clock. */
  ghost function Deadline(from: int, minutes: nat, clock: SLAClock): int
    requires Complete(clock)
  {
    if !clock.businessHours then from + minutes
    else ZonedTimeToUtc(clock.timezone, LocalDeadline(clock.calendar.value, clock.timezone, from, minutes))
  }

  /** The time between two instants that the clock counts. */
  ghost function Counted(from: int, to: int, clock: SLAClock): nat
    requires Complete(clock)
  {
    if to <= from then 0
    else if !clock.businessHours then to - from
    else ServiceCount(clock.calendar.value, Local(clock.timezone, from), Local(clock.timezone, to))
  }

  /** A deadline moved forward by time of the clock. The guard keeps a zero extension where it is. */
  ghost function Extended(deadline: int, minutes: nat, clock: SLAClock): int
    requires Complete(clock)
  {
    if minutes == 0 then deadline else Deadline(deadline, minutes, clock)
  }

  /** The time between two instants that the clock counts, or why it cannot be counted. */
  ghost function CountedOn(from: int, to: int, clock: SLAClock): (r: Result<nat, PolicyError>)
    ensures r.Ok? && Complete(clock) ==> r.value == Counted(from, to, clock)
  {
    CountResult(from, to, clock.businessHours, clock.timezone, clock.calendar)
  }

  /** A deadline of the clock, or why there is none. */
  ghost function DeadlineOn(from: int, minutes: nat, clock: SLAClock): (r: Result<int, PolicyError>)
    ensures r.Ok? ==> Complete(clock) && r.value == Deadline(from, minutes, clock)
  {
    DeadlineResult(from, minutes, clock.businessHours, clock.timezone, clock.calendar)
  }

  /** A deadline moved by time of the clock, or why it cannot be moved. */
  ghost function ExtendedOn(deadline: int, minutes: nat, clock: SLAClock): (r: Result<int, PolicyError>)
    ensures r.Ok? && Complete(clock) ==> r.value == Extended(deadline, minutes, clock)
  {
    if minutes == 0 then Ok(deadline) else DeadlineOn(deadline, minutes, clock)
  }

  method CountedTime(from: int, to: int, clock: SLAClock) returns (r: Result<nat, PolicyError>)
    ensures r == CountedOn(from, to, clock)
  {
    if to <= from { return Ok(0); }
    if !clock.businessHours { return Ok(to - from); }
    r := BusinessMinutesBetween(from, to, true, clock.timezone, clock.calendar);
  }

  method ExtendDeadline(deadline: int, minutes: nat, clock: SLAClock) returns (r: Result<int, PolicyError>)
    ensures r == ExtendedOn(deadline, minutes, clock)
  {
    if minutes <= 0 { return Ok(deadline); }
    if !clock.businessHours { return Ok(deadline + minutes); }
    r := CalculateDeadline(deadline, minutes, true, clock.timezone, clock.calendar);
  }

  /** A clock whose searches never give up: around the clock, or a calendar with at most 522 holidays. */
  predicate Searchable(clock: SLAClock) {
    clock.businessHours ==> clock.calendar.Some? && |clock.calendar.value.holidays| <= 522
  }

  /** Not more than 36600 days of the clock's zone. */
  predicate WithinCentury(from: int, to: int, clock: SLAClock) {
    clock.businessHours ==> Day(Local(clock.timezone, to)) - Day(Local(clock.timezone, from)) <= 36600
  }

  lemma SearchableCounts(from: int, to: int, clock: SLAClock)
    requires Searchable(clock) && WithinCentury(from, to, clock)
    ensures CountedOn(from, to, clock) == Ok(Counted(from, to, clock))
  {
    if clock.businessHours { CountAlwaysFound(clock.calendar.value, clock.timezone, from, to); }
  }

  lemma SearchableExtends(from: int, minutes: nat, clock: SLAClock)
    requires Searchable(clock)
    ensures DeadlineOn(from, minutes, clock) == Ok(Deadline(from, minutes, clock))
    ensures ExtendedOn(from, minutes, clock) == Ok(Extended(from, minutes, clock))
  {
    if clock.businessHours { DeadlineAlwaysFound(clock.calendar.value, clock.timezone, from, minutes); }
  }

  // ── The deadline ledger ────────────────────────────────────────────────────

  predicate NoServiceBetween(c: Calendar, x: int, y: int) {
    forall s | Min(x, y) <= s < Max(x, y) :: !IsService(c, s)
  }

  /** The wall time the zone's clock really shows at a deadline whose local target is `wall`. */
  function ShownAtTarget(z: Zone, wall: int): int { Local(z, ZonedTimeToUtc(z, wall)) }

  /** Between the local target of a deadline and the wall time shown at it there is no service time. */
  ghost predicate CrossesNothing(from: int, m: nat, clock: SLAClock) {
    Complete(clock) && (clock.businessHours ==>
      var wall := LocalDeadline(clock.calendar.value, clock.timezone, from, m);
      NoServiceBetween(clock.calendar.value, wall, ShownAtTarget(clock.timezone, wall)))
  }

  /** With one clock change around the target: only a target in a skipped hour can cross anything, and it crosses the
      stretch of the gap's length that the conversion moves it over. */
  lemma CrossesNothingIff(from: int, m: nat, clock: SLAClock, change: int, before: int, after: int)
    requires Complete(clock) && clock.businessHours && Bounded(clock.timezone)
    requires OneChange(clock.timezone, LocalDeadline(clock.calendar.value, clock.timezone, from, m), change, before, after)
    ensures var wall := LocalDeadline(clock.calendar.value, clock.timezone, from, m);
            CrossesNothing(from, m, clock) <==>
              (InGap(wall, change, before, after) ==>
                 NoServiceBetween(clock.calendar.value, wall,
                                  if change <= wall then wall + (after - before) else wall - (after - before)))
  {
    var z := clock.timezone;
    var wall := LocalDeadline(clock.calendar.value, z, from, m);
    assert OneChangeAround(z, wall);
    WallClockRightInverse(z, wall);
    if Shown(z, wall) {
      var t :| Local(z, t) == wall;
      assert wall - MAX_OFFSET <= t <= wall + MAX_OFFSET;
    } else {
      GapMovesByItsLength(z, wall, change, before, after);
    }
  }

  /** Extending from where the first deadline landed: the second continues the same walk. */
  lemma ExtensionContinues(from: int, a: nat, b: nat, clock: SLAClock)
    requires clock.businessHours && b > 0 && CrossesNothing(from, a, clock)
    ensures Extended(Deadline(from, a, clock), b, clock) == Deadline(from, a + b, clock)
  {
    var c, z := clock.calendar.value, clock.timezone;
    var wall := LocalDeadline(c, z, from, a);
    var shown := ShownAtTarget(z, wall);
    DeadlineIsWalk(c, shown, b);
    WalkComposes(c, AdvanceToService(c, Local(z, from)), a, b);
    if wall <= shown { WalkSkipsIdle(c, wall, shown, b); } else { WalkSkipsIdle(c, shown, wall, b); }
  }

  /** Extending a fresh deadline gives the deadline of the longer target. */
  lemma DeadlineExtends(from: int, m: nat, a: nat, clock: SLAClock)
    requires Complete(clock) && (a > 0 ==> CrossesNothing(from, m, clock))
    ensures Extended(Deadline(from, m, clock), a, clock) == Deadline(from, m + a, clock)
  {
    if clock.businessHours && a > 0 { ExtensionContinues(from, m, a, clock); }
  }

  /** The ledger law: two extensions are one, zero included. */
  lemma ExtensionsAdd(deadline: int, a: nat, b: nat, clock: SLAClock)
    requires Complete(clock) && (a > 0 && b > 0 ==> CrossesNothing(deadline, a, clock))
    ensures Extended(Extended(deadline, a, clock), b, clock) == Extended(deadline, a + b, clock)
  {
    if a > 0 { DeadlineExtends(deadline, a, b, clock); }
  }

  /** EXACTLY. In a zone with bounded offsets, whatever its clock changes, a deadline can be extended by every amount
      exactly if it crosses no service time. */
  lemma LedgerLawIff(from: int, a: nat, clock: SLAClock)
    requires Complete(clock) && Bounded(clock.timezone)
    ensures (forall b: nat | b > 0 :: Extended(Deadline(from, a, clock), b, clock) == Deadline(from, a + b, clock))
       <==> CrossesNothing(from, a, clock)
  {
    if clock.businessHours {
      if CrossesNothing(from, a, clock) {
        forall b: nat | b > 0 ensures Extended(Deadline(from, a, clock), b, clock) == Deadline(from, a + b, clock) {
          ExtensionContinues(from, a, b, clock);
        }
      } else if forall b: nat | b > 0 :: Extended(Deadline(from, a, clock), b, clock) == Deadline(from, a + b, clock) {
        var c, z := clock.calendar.value, clock.timezone;
        var wall := LocalDeadline(c, z, from, a);
        var shown := ShownAtTarget(z, wall);
        forall b: nat | b > 0 ensures TargetUtc(c, z, wall, b) == TargetUtc(c, z, shown, b) {
          assert Extended(Deadline(from, a, clock), b, clock) == Deadline(from, a + b, clock);
          DeadlineIsWalk(c, shown, b);
          WalkComposes(c, AdvanceToService(c, Local(z, from)), a, b);
        }
        SameTargetsCrossNothing(c, z, Min(wall, shown), Max(wall, shown));
      }
    }
  }

  /** A deadline that crosses service time, and an extension that misses. */
  lemma BrokenExtension(from: int, a: nat, clock: SLAClock) returns (b: nat)
    requires Complete(clock) && Bounded(clock.timezone) && !CrossesNothing(from, a, clock)
    ensures b > 0 && Extended(Deadline(from, a, clock), b, clock) != Deadline(from, a + b, clock)
  {
    LedgerLawIff(from, a, clock);
    b :| b > 0 && Extended(Deadline(from, a, clock), b, clock) != Deadline(from, a + b, clock);
  }

  /** The instant `b` service minutes after the wall time `wall`. */
  ghost function TargetUtc(c: ServiceCalendar, z: Zone, wall: int, b: nat): int { ZonedTimeToUtc(z, Walk(c, wall, b)) }

  /** Two wall times from which every walk ends at the same instant have no service time between them: with `k` minutes
      between, the instants would repeat every `k` steps for ever. */
  lemma SameTargetsCrossNothing(c: ServiceCalendar, z: Zone, x: int, y: int)
    requires Bounded(z) && x <= y
    requires forall b: nat | b > 0 :: TargetUtc(c, z, x, b) == TargetUtc(c, z, y, b)
    ensures forall s | x <= s < y :: !IsService(c, s)
  {
    var k := ServiceCount(c, x, y);
    if k > 0 {
      forall b: nat | b > 0 ensures TargetUtc(c, z, x, b + k) == TargetUtc(c, z, x, b) {
        WalkJumps(c, x, y, b);
      }
      var far := RepeatsFar(c, z, x, k, Walk(c, x, 1) - x + 4 * MAX_OFFSET);
      WalkAdvances(c, x, far);
      UtcIsNear(z, Walk(c, x, far));
      UtcIsNear(z, Walk(c, x, 1));
    } else {
      CountZeroIsIdle(c, x, y);
    }
  }

  lemma UtcIsNear(z: Zone, wall: int)
    requires Bounded(z)
    ensures wall - MAX_OFFSET <= ZonedTimeToUtc(z, wall) <= wall + MAX_OFFSET
  {
    assert -MAX_OFFSET <= z.offset(wall) <= MAX_OFFSET;
    assert -MAX_OFFSET <= z.offset(wall - z.offset(wall)) <= MAX_OFFSET;
  }

  lemma {:induction false} RepeatsFar(c: ServiceCalendar, z: Zone, x: int, k: nat, n: nat) returns (far: nat)
    requires k > 0 && forall b: nat | b > 0 :: TargetUtc(c, z, x, b + k) == TargetUtc(c, z, x, b)
    ensures far > n && TargetUtc(c, z, x, far) == TargetUtc(c, z, x, 1)
  {
    if n == 0 {
      far := 1;
    } else {
      var near := RepeatsFar(c, z, x, k, n - 1);
      assert TargetUtc(c, z, x, near + k) == TargetUtc(c, z, x, near);
      far := near + k;
    }
  }

  /** No target of the clock crosses service time: a check of the calendar against the zone. */
  ghost predicate NoTargetCrosses(clock: SLAClock) {
    Complete(clock) && (clock.businessHours ==>
      forall wall :: InClosedBand(clock.calendar.value, wall) ==>
        NoServiceBetween(clock.calendar.value, wall, ShownAtTarget(clock.timezone, wall)))
  }

  lemma EveryTargetCrossesNothing(from: int, m: nat, clock: SLAClock)
    requires NoTargetCrosses(clock)
    ensures CrossesNothing(from, m, clock)
  {
    if clock.businessHours { DeadlineInBand(clock.calendar.value, Local(clock.timezone, from), m); }
  }

  // ── Clocks that no change touches ──────────────────────────────────────────

  /** No clock change removes service time: every wall time of the closed service band is shown. */
  ghost predicate NoServiceTimeLost(clock: SLAClock) {
    Complete(clock) && (clock.businessHours ==>
      Regular(clock.timezone) &&
      forall wall :: InClosedBand(clock.calendar.value, wall) ==> Shown(clock.timezone, wall))
  }

  lemma LosingNothingCrossesNothing(clock: SLAClock)
    requires NoServiceTimeLost(clock)
    ensures NoTargetCrosses(clock)
  {
    if clock.businessHours {
      forall wall | InClosedBand(clock.calendar.value, wall) ensures ShownAtTarget(clock.timezone, wall) == wall {
        assert OneChangeAround(clock.timezone, wall);
        WallClockRightInverse(clock.timezone, wall);
      }
    }
  }

  ghost predicate ShownOnce(z: Zone, wall: int) { exists at :: ShownOnlyAt(z, wall, at) }

  /** No clock change touches service time: every wall time of the closed service band is shown exactly once. */
  ghost predicate ServiceTimeUnambiguous(clock: SLAClock) {
    Complete(clock) && (clock.businessHours ==>
      Regular(clock.timezone) &&
      forall wall :: InClosedBand(clock.calendar.value, wall) ==> ShownOnce(clock.timezone, wall))
  }

  lemma UnambiguousLosesNothing(clock: SLAClock)
    requires ServiceTimeUnambiguous(clock)
    ensures NoServiceTimeLost(clock)
  {
    if clock.businessHours {
      forall wall | InClosedBand(clock.calendar.value, wall) ensures Shown(clock.timezone, wall) {
        assert ShownOnce(clock.timezone, wall);
      }
    }
  }

  /** A zone that never changes its clock suits every calendar. */
  lemma FixedOffsetUnambiguous(c: ServiceCalendar, offset: int)
    requires -MAX_OFFSET <= offset <= MAX_OFFSET
    ensures ServiceTimeUnambiguous(SLAClock(true, Zone(t => offset), Some(c)))
  {
    var z := Zone(t => offset);
    forall center ensures OneChangeAround(z, center) { assert OneChange(z, center, center, offset, offset); }
    forall wall ensures ShownOnce(z, wall) { assert ShownOnlyAt(z, wall, wall - offset); }
  }

  // ── Deadline and count are adjoint ─────────────────────────────────────────

  /** At any zone, for any calendar: the deadline is the least instant at which the count reaches `m >= 1`
      exactly when the zone's clock, after `from`, shows the target or later precisely from the deadline on. */
  lemma AdjointIffClockAgrees(from: int, m: nat, clock: SLAClock)
    requires Complete(clock) && clock.businessHours && m > 0
    ensures (forall t :: Counted(from, t, clock) >= m <==> t >= Deadline(from, m, clock))
       <==> (forall t :: t > from && Local(clock.timezone, t)
                         >= LocalDeadline(clock.calendar.value, clock.timezone, from, m)
                     <==> t >= Deadline(from, m, clock))
  {
    var c, z := clock.calendar.value, clock.timezone;
    var wall := LocalDeadline(c, z, from, m);
    DeadlineIsWalk(c, Local(z, from), m);
    forall t ensures Counted(from, t, clock) >= m <==> t > from && Local(z, t) >= wall {
      WalkCountAdjoint(c, Local(z, from), m, Local(z, t));
    }
  }

  /** What a clock change around the target does to the adjunction: nothing outside the skipped and the repeated hour. In
      the skipped hour only its first minute is harmless, and only if the conversion moves it later; in the repeated one
      the deadline must be the first showing that stays passed. */
  predicate ChangeHarmless(from: int, wall: int, change: int, before: int, after: int) {
    && (InGap(wall, change, before, after) ==> change <= wall && wall == change + before)
    && (InOverlap(wall, change, before, after) ==>
          if from < change then change > wall && wall == change + after else change <= wall)
  }

  /** EXACTLY. The deadline is the least instant at which the count reaches `m >= 1` exactly if the clock change around
      its target, if any, is harmless. */
  lemma AdjointIffChangeHarmless(from: int, m: nat, clock: SLAClock, change: int, before: int, after: int)
    requires Complete(clock) && clock.businessHours && m > 0 && Bounded(clock.timezone)
    requires RealChange(clock.timezone, LocalDeadline(clock.calendar.value, clock.timezone, from, m), change, before, after)
    ensures (forall t :: Counted(from, t, clock) >= m <==> t >= Deadline(from, m, clock))
       <==> ChangeHarmless(from, LocalDeadline(clock.calendar.value, clock.timezone, from, m), change, before, after)
  {
    var c, z := clock.calendar.value, clock.timezone;
    AdjointIffClockAgrees(from, m, clock);
    DeadlineIsWalk(c, Local(z, from), m);
    WalkCounts(c, Local(z, from), m);
    ClockAgreesIff(z, from, LocalDeadline(c, z, from, m), change, before, after);
  }

  lemma ClockAgreesIff(z: Zone, from: int, wall: int, change: int, before: int, after: int)
    requires Bounded(z) && RealChange(z, wall, change, before, after) && Local(z, from) < wall
    ensures (forall t :: t > from && Local(z, t) >= wall <==> t >= ZonedTimeToUtc(z, wall))
       <==> ChangeHarmless(from, wall, change, before, after)
  {
    var utc := ZonedTimeToUtc(z, wall);
    if ChangeHarmless(from, wall, change, before, after) {
      forall t ensures t > from && Local(z, t) >= wall <==> t >= utc {
        ClockNear(z, wall, t);
        ClockNear(z, wall, from);
      }
    } else {
      ClockNear(z, wall, from);
      ClockDisagrees(z, from, wall, change, before, after);
    }
  }

  lemma ClockDisagrees(z: Zone, from: int, wall: int, change: int, before: int, after: int)
    requires Bounded(z) && RealChange(z, wall, change, before, after) && Local(z, from) < wall
    requires !ChangeHarmless(from, wall, change, before, after)
    ensures exists t :: !(t > from && Local(z, t) >= wall <==> t >= ZonedTimeToUtc(z, wall))
  {
    var utc := ZonedTimeToUtc(z, wall);
    ClockNear(z, wall, from);
    var t := if InGap(wall, change, before, after) then (if change > wall then utc else change)
             else if from >= change then utc
             else if change <= wall then wall - before else change;
    assert !(t > from && Local(z, t) >= wall <==> t >= utc);
  }

  /** Far from the target the zone's clock is on the right side of it. */
  lemma ClockNear(z: Zone, wall: int, t: int)
    requires Bounded(z)
    ensures t > wall + MAX_OFFSET ==> Local(z, t) > wall
    ensures t < wall - MAX_OFFSET ==> Local(z, t) < wall
  {
    assert -MAX_OFFSET <= z.offset(t) <= MAX_OFFSET;
  }

  /** When a deadline lies before its start: in a skipped hour behind UTC, if the target is nearer than the gap is long,
      and in a repeated hour behind UTC, if the start is in its second showing. */
  predicate NotBeforeStart(from: int, wall: int, change: int, before: int, after: int) {
    && (InGap(wall, change, before, after) && change > wall ==> wall - (from + before) >= after - before)
    && (InOverlap(wall, change, before, after) && change > wall ==> from < change)
  }

  lemma NotBeforeStartIff(from: int, m: nat, clock: SLAClock, change: int, before: int, after: int)
    requires Complete(clock) && clock.businessHours && Bounded(clock.timezone)
    requires RealChange(clock.timezone, LocalDeadline(clock.calendar.value, clock.timezone, from, m), change, before, after)
    ensures Deadline(from, m, clock) >= from
       <==> NotBeforeStart(from, LocalDeadline(clock.calendar.value, clock.timezone, from, m), change, before, after)
  {
    var wall := LocalDeadline(clock.calendar.value, clock.timezone, from, m);
    assert Local(clock.timezone, from) <= wall;
    ClockNear(clock.timezone, wall, from);
    UtcIsNear(clock.timezone, wall);
  }

  /** Counting up to the deadline returns its `m >= 1` minutes exactly if the deadline is after the start and crosses no
      service time. */
  lemma CountUncrossedIff(from: int, m: nat, clock: SLAClock)
    requires Complete(clock) && m > 0
    ensures Counted(from, Deadline(from, m, clock), clock) == m
       <==> Deadline(from, m, clock) > from && CrossesNothing(from, m, clock)
  {
    if clock.businessHours && Deadline(from, m, clock) > from {
      var c, z := clock.calendar.value, clock.timezone;
      var local, wall := Local(z, from), LocalDeadline(c, z, from, m);
      var shown := ShownAtTarget(z, wall);
      DeadlineIsWalk(c, local, m);
      WalkCounts(c, local, m);
      WalkCountAdjoint(c, local, m, shown);
      if wall <= shown {
        CountAdditive(c, local, wall, shown);
        if ServiceCount(c, wall, shown) == 0 { CountZeroIsIdle(c, wall, shown); }
        if NoServiceBetween(c, wall, shown) { CountOfIdle(c, wall, shown); }
      } else {
        assert IsService(c, wall - 1);
      }
    }
  }

  /** What a clock change around the target does to counting up to it: in a skipped hour the target must be moved later, over
      no service time; in a repeated one behind UTC the start must be before the change. */
  predicate CountsBack(c: Calendar, from: int, wall: int, change: int, before: int, after: int) {
    && (InGap(wall, change, before, after) ==> change <= wall && NoServiceBetween(c, wall, wall + (after - before)))
    && (InOverlap(wall, change, before, after) && change > wall ==> from < change)
  }

  /** EXACTLY. Counting up to the deadline returns its `m >= 1` minutes exactly if the clock change around its target, if
      any, lets it. */
  lemma CountToDeadlineIff(from: int, m: nat, clock: SLAClock, change: int, before: int, after: int)
    requires Complete(clock) && clock.businessHours && m > 0 && Bounded(clock.timezone)
    requires RealChange(clock.timezone, LocalDeadline(clock.calendar.value, clock.timezone, from, m), change, before, after)
    ensures Counted(from, Deadline(from, m, clock), clock) == m
       <==> CountsBack(clock.calendar.value, from, LocalDeadline(clock.calendar.value, clock.timezone, from, m),
                       change, before, after)
  {
    var c, z := clock.calendar.value, clock.timezone;
    var wall := LocalDeadline(c, z, from, m);
    TargetAfterStart(c, Local(z, from), m);
    CountUncrossedIff(from, m, clock);
    CrossesNothingIff(from, m, clock, change, before, after);
    NotBeforeStartIff(from, m, clock, change, before, after);
    ClockNear(z, wall, from);
    UtcIsNear(z, wall);
    assert InGap(wall, change, before, after) && change > wall && NoServiceBetween(c, wall, wall - (after - before)) ==>
        !IsService(c, wall - 1);
  }

  /** The adjunction at one instant, where the change is harmless; around the clock it always holds. */
  lemma DeadlineCountAdjoint(from: int, m: nat, clock: SLAClock, t: int, change: int, before: int, after: int)
    requires Complete(clock) && m > 0
    requires clock.businessHours ==>
               var wall := LocalDeadline(clock.calendar.value, clock.timezone, from, m);
               Bounded(clock.timezone) && RealChange(clock.timezone, wall, change, before, after)
               && ChangeHarmless(from, wall, change, before, after)
    ensures Counted(from, t, clock) >= m <==> t >= Deadline(from, m, clock)
    ensures CrossesNothing(from, m, clock) ==> Counted(from, Deadline(from, m, clock), clock) == m
  {
    if clock.businessHours { AdjointIffChangeHarmless(from, m, clock, change, before, after); }
    CountUncrossedIff(from, m, clock);
    assert Counted(from, Deadline(from, m, clock), clock) >= m;
  }

  // ── The outcome of a resolution ────────────────────────────────────────────

  /** The recorded outcome of a resolution at `t` is right: counting less than the target is in time, and what is in time
      counts at most the target. */
  ghost predicate OutcomeFits(from: int, m: nat, clock: SLAClock, t: int)
    requires Complete(clock)
  {
    && (Counted(from, t, clock) < m ==> t <= Deadline(from, m, clock))
    && (t <= Deadline(from, m, clock) ==> Counted(from, t, clock) <= m)
  }

  /** The deadline is not so early that a resolution within the target misses it. */
  predicate NotTooEarly(from: int, m: nat, wall: int, change: int, before: int, after: int) {
    m > 0 && change > wall ==>
      && (InGap(wall, change, before, after) ==> wall == change + after - 1)
      && (InOverlap(wall, change, before, after) ==> from < change && wall == change + after)
  }

  /** The deadline is not so late that a resolution beyond the target meets it. */
  predicate NotTooLate(c: Calendar, from: int, wall: int, change: int, before: int, after: int) {
    change <= wall ==>
      && (InGap(wall, change, before, after) ==> NoServiceBetween(c, wall, wall + (after - before)))
      && (InOverlap(wall, change, before, after) && from < change ==> NoServiceBetween(c, wall, change + before - 1))
  }

  /** EXACTLY, without stops: the outcome is right at every instant of resolution exactly if the clock change around the
      target makes the deadline neither too early nor too late. */
  lemma OutcomeFitsIff(from: int, m: nat, clock: SLAClock, change: int, before: int, after: int)
    requires Complete(clock) && clock.businessHours && Bounded(clock.timezone)
    requires RealChange(clock.timezone, LocalDeadline(clock.calendar.value, clock.timezone, from, m), change, before, after)
    ensures var c, wall := clock.calendar.value, LocalDeadline(clock.calendar.value, clock.timezone, from, m);
            (forall t | t >= from :: OutcomeFits(from, m, clock, t))
            <==> NotTooEarly(from, m, wall, change, before, after) && NotTooLate(c, from, wall, change, before, after)
  {
    var c, z := clock.calendar.value, clock.timezone;
    var wall := LocalDeadline(c, z, from, m);
    forall t | t >= from
      ensures OutcomeFits(from, m, clock, t) <==> LocallyFits(c, z, from, m, wall, t)
    {
      OutcomeIsLocal(from, m, clock, t);
    }
    TargetAfterStart(c, Local(z, from), m);
    if NotTooEarly(from, m, wall, change, before, after) && NotTooLate(c, from, wall, change, before, after) {
      forall t | t >= from ensures LocallyFits(c, z, from, m, wall, t) {
        LocallyFitsWhenHarmless(c, z, from, m, wall, t, change, before, after);
      }
    } else {
      var t := Misfit(c, z, from, m, wall, change, before, after);
      assert !LocallyFits(c, z, from, m, wall, t);
    }
  }

  lemma TargetAfterStart(c: ServiceCalendar, local: int, m: nat)
    ensures local <= DeadlineAt(c, local, m)
    ensures m > 0 ==> local < DeadlineAt(c, local, m) && IsService(c, DeadlineAt(c, local, m) - 1)
    ensures m == 0 ==> IsService(c, DeadlineAt(c, local, m))
  {
    if m > 0 {
      DeadlineIsWalk(c, local, m);
      WalkCounts(c, local, m);
    } else {
      AdvanceIsFirstService(c, local);
    }
  }

  /** The outcome, read off the zone's clock. */
  ghost predicate LocallyFits(c: Calendar, z: Zone, from: int, m: nat, wall: int, t: int) {
    && (m > 0 && (t <= from || Local(z, t) < wall) ==> t <= ZonedTimeToUtc(z, wall))
    && (from < t <= ZonedTimeToUtc(z, wall) && wall < Local(z, t) ==> NoServiceBetween(c, wall, Local(z, t)))
  }

  lemma OutcomeIsLocal(from: int, m: nat, clock: SLAClock, t: int)
    requires Complete(clock) && clock.businessHours
    ensures var c, z := clock.calendar.value, clock.timezone;
            OutcomeFits(from, m, clock, t) <==> LocallyFits(c, z, from, m, LocalDeadline(c, z, from, m), t)
  {
    var c, z := clock.calendar.value, clock.timezone;
    var local, wall, shown := Local(z, from), LocalDeadline(c, z, from, m), Local(z, t);
    TargetAfterStart(c, local, m);
    CountToTarget(c, local, m);
    if m > 0 {
      DeadlineIsWalk(c, local, m);
      WalkCountAdjoint(c, local, m, shown);
    }
    if wall < shown {
      CountAdditive(c, local, wall, shown);
      if ServiceCount(c, wall, shown) == 0 { CountZeroIsIdle(c, wall, shown); }
      if NoServiceBetween(c, wall, shown) { CountOfIdle(c, wall, shown); }
    } else if local <= shown {
      CountAdditive(c, local, shown, wall);
    }
  }

  lemma CountToTarget(c: ServiceCalendar, local: int, m: nat)
    ensures ServiceCount(c, local, DeadlineAt(c, local, m)) == m
  {
    if m > 0 {
      DeadlineIsWalk(c, local, m);
      WalkCounts(c, local, m);
    } else {
      AdvanceIsFirstService(c, local);
      CountOfIdle(c, local, AdvanceToService(c, local));
    }
  }

  lemma LocallyFitsWhenHarmless(c: Calendar, z: Zone, from: int, m: nat, wall: int, t: int, change: int, before: int,
                                after: int)
    requires Bounded(z) && RealChange(z, wall, change, before, after) && t >= from
    requires Local(z, from) <= wall && (m > 0 ==> Local(z, from) < wall)
    requires NotTooEarly(from, m, wall, change, before, after) && NotTooLate(c, from, wall, change, before, after)
    ensures LocallyFits(c, z, from, m, wall, t)
  {
    ClockNear(z, wall, t);
    ClockNear(z, wall, from);
  }

  /** A resolution with the wrong outcome, when the change is not harmless to it. */
  lemma Misfit(c: Calendar, z: Zone, from: int, m: nat, wall: int, change: int, before: int, after: int) returns (t: int)
    requires Bounded(z) && RealChange(z, wall, change, before, after)
    requires Local(z, from) <= wall && (m > 0 ==> Local(z, from) < wall)
    requires !NotTooEarly(from, m, wall, change, before, after) || !NotTooLate(c, from, wall, change, before, after)
    ensures t >= from && !LocallyFits(c, z, from, m, wall, t)
  {
    var utc := ZonedTimeToUtc(z, wall);
    ClockNear(z, wall, from);
    if !NotTooEarly(from, m, wall, change, before, after) {
      t := if InGap(wall, change, before, after) then change - 1 else if from < change then change else from;
    } else {
      t := if InGap(wall, change, before, after) then utc else change - 1;
    }
  }

  // ── Conservation ───────────────────────────────────────────────────────────

  /** When the zone's clock goes back between two instants, no service time lies in the repeated stretch. */
  ghost predicate NoServiceRepeated(clock: SLAClock) {
    Complete(clock) && (clock.businessHours ==>
      forall t, u, s :: t <= u && Local(clock.timezone, u) <= s < Local(clock.timezone, t) ==>
        !IsService(clock.calendar.value, s))
  }

  /** Time counted over adjacent intervals adds up, skipped service hours or not. */
  lemma CountedAdds(x: int, y: int, w: int, clock: SLAClock)
    requires NoServiceRepeated(clock) && x <= y <= w
    ensures Counted(x, w, clock) == Counted(x, y, clock) + Counted(y, w, clock)
  {
    if clock.businessHours {
      var c, z := clock.calendar.value, clock.timezone;
      var a, b, d := Local(z, x), Local(z, y), Local(z, w);
      assert forall s | b <= s < a :: !IsService(c, s);
      assert forall s | d <= s < b :: !IsService(c, s);
      CountSplit(c, a, b, d);
    }
  }

  /** EXACTLY. Counted time adds up over all adjacent intervals exactly if no service time is repeated. */
  lemma CountsAddIff(clock: SLAClock)
    requires Complete(clock) && Bounded(clock.timezone)
    ensures (forall x, y, w | x <= y <= w :: Counted(x, w, clock) == Counted(x, y, clock) + Counted(y, w, clock))
       <==> NoServiceRepeated(clock)
  {
    if NoServiceRepeated(clock) {
      forall x, y, w | x <= y <= w ensures Counted(x, w, clock) == Counted(x, y, clock) + Counted(y, w, clock) {
        CountedAdds(x, y, w, clock);
      }
    } else if forall x, y, w | x <= y <= w :: Counted(x, w, clock) == Counted(x, y, clock) + Counted(y, w, clock) {
      var t, u, s :| t <= u && Local(clock.timezone, u) <= s < Local(clock.timezone, t)
                     && IsService(clock.calendar.value, s);
      RepeatedCountsTwice(clock, t, u, s);
    }
  }

  /** A repeated service minute breaks the sum, from every start long before it. */
  lemma RepeatedCountsTwice(clock: SLAClock, t: int, u: int, s: int)
    requires Complete(clock) && clock.businessHours && Bounded(clock.timezone) && t <= u
    requires Local(clock.timezone, u) <= s < Local(clock.timezone, t) && IsService(clock.calendar.value, s)
    ensures var x := t - 4 * MAX_OFFSET; x <= t && Counted(x, u, clock) < Counted(x, t, clock) + Counted(t, u, clock)
  {
    var c, z := clock.calendar.value, clock.timezone;
    var x := t - 4 * MAX_OFFSET;
    assert -MAX_OFFSET <= z.offset(x) <= MAX_OFFSET && -MAX_OFFSET <= z.offset(t) <= MAX_OFFSET
        && -MAX_OFFSET <= z.offset(u) <= MAX_OFFSET;
    CountAdditive(c, Local(z, x), Local(z, u), Local(z, t));
    CountAdditive(c, Local(z, u), s, Local(z, t));
    CountAdditive(c, s, s + 1, Local(z, t));
    assert ServiceCount(c, s, s + 1) == 1;
  }

  lemma UnambiguousRepeatsNothing(clock: SLAClock)
    requires ServiceTimeUnambiguous(clock)
    ensures NoServiceRepeated(clock)
  {
    if clock.businessHours {
      var c, z := clock.calendar.value, clock.timezone;
      forall t, u, s | t <= u && Local(z, u) <= s < Local(z, t) ensures !IsService(c, s) {
        BackwardsIsIdle(clock, t, u, s);
      }
    }
  }

  /** A clock whose service time is shown exactly once meets every condition of these theorems. */
  lemma UnambiguousMeetsAll(clock: SLAClock)
    requires ServiceTimeUnambiguous(clock)
    ensures NoServiceRepeated(clock) && NoTargetCrosses(clock)
  {
    UnambiguousRepeatsNothing(clock);
    UnambiguousLosesNothing(clock);
    LosingNothingCrossesNothing(clock);
  }

  ghost predicate OneChangeAt(z: Zone, wall: int) { Bounded(z) && OneChangeAround(z, wall) }

  /** The two directions an outcome needs, for every target including zero: it is enough that the target crosses nothing
      and that no service time is repeated. */
  lemma OutcomeBounds(from: int, m: nat, clock: SLAClock, t: int)
    requires CrossesNothing(from, m, clock) && NoServiceRepeated(clock) && t >= from
    requires clock.businessHours ==> OneChangeAt(clock.timezone, LocalDeadline(clock.calendar.value, clock.timezone, from, m))
    ensures OutcomeFits(from, m, clock, t)
  {
    if clock.businessHours {
      var c, z := clock.calendar.value, clock.timezone;
      var wall := LocalDeadline(c, z, from, m);
      var change, before, after := RealChangeAround(z, wall);
      CrossesNothingIff(from, m, clock, change, before, after);
      TargetAfterStart(c, Local(z, from), m);
      ClockNear(z, wall, from);
      if InOverlap(wall, change, before, after) {
        assert Local(z, change) == change + after && Local(z, change - 1) == change - 1 + before;
        assert forall s | change + after <= s < change - 1 + before :: !IsService(c, s);
      }
      assert NotTooEarly(from, m, wall, change, before, after);
      assert NotTooLate(c, from, wall, change, before, after);
      OutcomeFitsIff(from, m, clock, change, before, after);
    }
  }

  /** Where service time is shown once, none of it lies in a stretch the zone's clock goes back over. */
  lemma BackwardsIsIdle(clock: SLAClock, t: int, u: int, s: int)
    requires ServiceTimeUnambiguous(clock) && clock.businessHours && t <= u
    requires Local(clock.timezone, u) <= s < Local(clock.timezone, t)
    ensures !IsService(clock.calendar.value, s)
  {
    var c, z := clock.calendar.value, clock.timezone;
    if IsService(c, s) {
      assert InClosedBand(c, s);
      assert ShownOnce(z, s);
      var at :| ShownOnlyAt(z, s, at);
      UnambiguousKeepsOrder(z, s, at, t);
      UnambiguousKeepsOrder(z, s, at, u);
    }
  }

  lemma CountSplit(c: Calendar, a: int, b: int, d: int)
    requires forall s | b <= s < a :: !IsService(c, s)
    requires forall s | d <= s < b :: !IsService(c, s)
    ensures ServiceCount(c, a, d) == ServiceCount(c, a, b) + ServiceCount(c, b, d)
  {
    if a <= b <= d {
      CountAdditive(c, a, b, d);
    } else if a <= d < b {
      CountAdditive(c, a, d, b);
      CountOfIdle(c, d, b);
    } else if d < a <= b {
      CountOfIdle(c, a, b);
    } else if b < a <= d {
      CountAdditive(c, b, a, d);
      CountOfIdle(c, b, a);
    } else if b <= d < a {
      CountOfIdle(c, b, d);
    }
  }

  // ── Where the laws stop ────────────────────────────────────────────────────

  /** A zone behind UTC that springs forward from 02:00 to 03:00 local (instant 420). */
  function SpringForwardWest(): Zone { Zone(t => if t < 420 then -300 else -240) }

  const AROUND_THE_CLOCK: ServiceCalendar := Calendar({0, 1, 2, 3, 4, 5, 6}, 0, 1439, {})

  /** Service hours that cover the skipped hour: a target of 90 minutes from 01:00 gets a deadline at 01:30, after
      30 counted minutes. */
  lemma GapShortensDeadline()
    ensures var clock := SLAClock(true, SpringForwardWest(), Some(AROUND_THE_CLOCK));
            && Deadline(360, 90, clock) == 390
            && Counted(360, Deadline(360, 90, clock), clock) == 30
            && Extended(Extended(360, 90, clock), 60, clock) != Extended(360, 150, clock)
  {
    var c, z := AROUND_THE_CLOCK, SpringForwardWest();
    var clock := SLAClock(true, z, Some(c));
    WalkInsideDay(c, 0, 60, 90);
    WalkInsideDay(c, 0, 60, 150);
    WalkInsideDay(c, 0, 90, 60);
    assert forall x | 60 <= x < 300 :: IsService(c, x);
    CountOfBusy(c, 60, 90);
    assert LocalDeadline(c, z, 360, 90) == 150;
    assert LocalDeadline(c, z, 390, 60) == 150;
    assert LocalDeadline(c, z, 360, 150) == 210;
  }

  /** A zone behind UTC that falls back from 03:00 to 02:00 local (instant 420). */
  function FallBackWest(): Zone { Zone(t => if t < 420 then -240 else -300) }

  /** Service hours that cover the repeated hour: from its second showing, a target of ten minutes gets a deadline fifty
      minutes BEFORE its start, and counting up to it returns nothing. */
  lemma RepeatedHourEndsBeforeStart()
    ensures var clock := SLAClock(true, FallBackWest(), Some(AROUND_THE_CLOCK));
            && Deadline(440, 10, clock) == 390
            && Counted(440, Deadline(440, 10, clock), clock) == 0
  {
    WalkInsideDay(AROUND_THE_CLOCK, 0, 140, 10);
    assert LocalDeadline(AROUND_THE_CLOCK, FallBackWest(), 440, 10) == 150;
  }
}
