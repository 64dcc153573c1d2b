/** Adding and counting service time (packages/sla/src/policy.ts): the loops of the program, which skip whole
    days, proved against the one-minute-at-a-time definitions of `ServiceTime`.

    Instants are whole minutes since 1 January 1970 UTC.
 */
module Policy {
  import opened Basics
  import opened Wrappers
  import opened ServiceTime
  import opened Zones

  datatype PolicyError = InvalidMinutes | NoCalendar | NoWorkingDay | IntervalTooLong

  /** A wall-clock time in the policy's zone. */
  datatype LocalDateTime = LocalDateTime(day: int, minuteOfDay: int) {
    function Minute(): int { At(day, minuteOfDay) }
  }

  /** The search gives up after this many non-working days in a row (the guard of `nextBusinessDayStart`). */
  const MAX_IDLE_DAYS: int := 3662

  function ToLocal(t: int, zone: Zone): (l: LocalDateTime)
    ensures 0 <= l.minuteOfDay < MINUTES_PER_DAY && l.Minute() == Local(zone, t)
  {
    LocalDateTime(Day(Local(zone, t)), MinuteOfDay(Local(zone, t)))
  }

  function FromLocal(l: LocalDateTime, zone: Zone): int { ZonedTimeToUtc(zone, l.Minute()) }

  /** None of the `MAX_IDLE_DAYS` days after `day` is a working day. */
  ghost predicate IdleDaysAfter(c: Calendar, day: int) {
    forall x | day < x <= day + MAX_IDLE_DAYS :: !IsWorkingDay(c, x)
  }

  /** Somewhere in `[from, to)` the calendar has no working day for the next `MAX_IDLE_DAYS` days. */
  ghost predicate IdleStretch(c: Calendar, from: int, to: int) {
    exists day | from <= day < to :: IdleDaysAfter(c, day)
  }

  lemma IdleIffFarAway(c: ServiceCalendar, day: int)
    ensures IdleDaysAfter(c, day) <==> NextWorkingDay(c, day) > day + MAX_IDLE_DAYS
  {}

  // ── The loops ──────────────────────────────────────────────────────────────

  method NextBusinessDayStart(day: int, rule: ServiceCalendar) returns (r: Result<LocalDateTime, PolicyError>)
    ensures r == if IdleDaysAfter(rule, day) then Err(NoWorkingDay)
                 else Ok(LocalDateTime(NextWorkingDay(rule, day), rule.start))
  {
    var next, guard := day + 1, 0;
    while !IsWorkingDay(rule, next)
      invariant next == day + 1 + guard && 0 <= guard <= MAX_IDLE_DAYS - 1
      invariant forall x | day < x < next :: !IsWorkingDay(rule, x)
      decreases MAX_IDLE_DAYS - guard
    {
      if guard > 3660 {
        assert IdleDaysAfter(rule, day);
        return Err(NoWorkingDay);
      }
      next, guard := next + 1, guard + 1;
    }
    NextWorkingDayUnique(rule, day, next);
    return Ok(LocalDateTime(next, rule.start));
  }

  /** The days the advance to the service start looks past: none when `t` is before the end of a working day. */
  ghost predicate AdvanceBlocked(c: ServiceCalendar, t: int) {
    (!IsWorkingDay(c, Day(t)) || MinuteOfDay(t) >= c.end) && IdleDaysAfter(c, Day(t))
  }

  method AdvanceToBusinessStart(local: LocalDateTime, rule: ServiceCalendar)
    returns (r: Result<LocalDateTime, PolicyError>)
    requires 0 <= local.minuteOfDay < MINUTES_PER_DAY
    ensures r.Err? <==> AdvanceBlocked(rule, local.Minute())
    ensures r.Err? ==> r.error == NoWorkingDay
    ensures r.Ok? ==> r.value.Minute() == AdvanceToService(rule, local.Minute())
    ensures r.Ok? ==> IsWorkingDay(rule, r.value.day) && rule.start <= r.value.minuteOfDay < rule.end
  {
    AtSplits(local.day, local.minuteOfDay);
    if !IsWorkingDay(rule, local.day) || local.minuteOfDay >= rule.end {
      r := NextBusinessDayStart(local.day, rule);
    } else if local.minuteOfDay < rule.start {
      r := Ok(LocalDateTime(local.day, rule.start));
    } else {
      r := Ok(local);
    }
  }

  /** Every day hop from `from` up to `day` was short enough for the guard. */
  ghost predicate HopsShort(c: ServiceCalendar, from: int, day: int) {
    forall d | from <= d < day :: !IdleDaysAfter(c, d)
  }

  lemma HopExtends(c: ServiceCalendar, from: int, day: int)
    requires HopsShort(c, from, day) && !IdleDaysAfter(c, day)
    ensures HopsShort(c, from, NextWorkingDay(c, day))
  {
    var w := NextWorkingDay(c, day);
    forall d | from <= d < w ensures !IdleDaysAfter(c, d) {
      IdleIffFarAway(c, day);
      if d > day {
        assert d < w <= d + MAX_IDLE_DAYS;
      }
    }
  }

  /** Walking past the end of a working day continues at the start of the next one. */
  lemma WalkPastDay(c: ServiceCalendar, day: int, minute: int, m: nat)
    requires IsWorkingDay(c, day) && c.start <= minute <= c.end && m > c.end - minute
    ensures Walk(c, At(day, minute), m)
         == Walk(c, At(NextWorkingDay(c, day), c.start), m - (c.end - minute))
  {
    var t, e := At(day, minute), At(day, c.end);
    forall x | t <= x < e ensures IsService(c, x) { AtSplits(day, x - At(day, 0)); }
    WalkWithin(c, t, c.end - minute, m);
    AtSplits(day, c.end);
    assert AdvanceToService(c, e) == At(NextWorkingDay(c, day), c.start);
    AdvanceIsFirstService(c, e);
    WalkSkipsIdle(c, e, AdvanceToService(c, e), m - (c.end - minute));
  }

  lemma WalkInsideDay(c: ServiceCalendar, day: int, minute: int, m: nat)
    requires IsWorkingDay(c, day) && c.start <= minute && minute + m <= c.end
    ensures Walk(c, At(day, minute), m) == At(day, minute + m)
  {
    var t := At(day, minute);
    forall x | t <= x < t + m ensures IsService(c, x) { AtSplits(day, x - At(day, 0)); }
    WalkWithin(c, t, m, m);
  }

  /** The local target of a deadline computed at `startedAt`. */
  ghost function LocalDeadline(c: ServiceCalendar, zone: Zone, startedAt: int, minutes: nat): int {
    DeadlineAt(c, Local(zone, startedAt), minutes)
  }

  /** A service-hours deadline has no result exactly when a stretch of idle days lies before its target. */
  ghost predicate DeadlineBlocked(c: ServiceCalendar, zone: Zone, startedAt: int, minutes: nat) {
    IdleStretch(c, Day(Local(zone, startedAt)), Day(LocalDeadline(c, zone, startedAt, minutes)))
  }

  ghost function DeadlineResult(startedAt: int, minutes: int, businessHours: bool, zone: Zone,
    calendar: Option<ServiceCalendar>): Result<int, PolicyError>
  {
    if minutes < 0 then Err(InvalidMinutes)
    else if !businessHours then Ok(startedAt + minutes)
    else if calendar.None? then Err(NoCalendar)
    else if DeadlineBlocked(calendar.value, zone, startedAt, minutes) then Err(NoWorkingDay)
    else Ok(ZonedTimeToUtc(zone, LocalDeadline(calendar.value, zone, startedAt, minutes)))
  }

  /** `calculateDeadline`, with its fast-forward over full days, equals the minute-by-minute walk; it fails
      exactly on the inputs of the error cases. */
  method CalculateDeadline(startedAt: int, minutes: int, businessHours: bool, zone: Zone,
    calendar: Option<ServiceCalendar>)
    returns (r: Result<int, PolicyError>)
    ensures r == DeadlineResult(startedAt, minutes, businessHours, zone, calendar)
  {
    if minutes < 0 { return Err(InvalidMinutes); }
    if !businessHours { return Ok(startedAt + minutes); }
    if calendar.None? { return Err(NoCalendar); }
    var rule := calendar.value;
    var minutesPerDay := rule.end - rule.start;
    var advanced := AdvanceToBusinessStart(ToLocal(startedAt, zone), rule);
    ghost var from, target := Day(Local(zone, startedAt)), LocalDeadline(rule, zone, startedAt, minutes);
    TargetDay(rule, Local(zone, startedAt), minutes);
    if advanced.Err? {
      assert IdleDaysAfter(rule, from);
      return Err(NoWorkingDay);
    }
    var current, remaining := advanced.value, minutes;
    StartsOnTheWay(rule, Local(zone, startedAt), minutes, current);

    while remaining > 0
      invariant OnTheWay(rule, from, current, remaining, target)
      invariant remaining > 0 ==> current.minuteOfDay < rule.end
      decreases remaining
    {
      var minsLeftToday := rule.end - current.minuteOfDay;
      if remaining <= minsLeftToday {
        LastDay(rule, from, current, remaining, target);
        current := LocalDateTime(current.day, current.minuteOfDay + remaining);
        remaining := 0;
      } else {
        HopsOn(rule, from, current, remaining, target);
        remaining := remaining - minsLeftToday;
        ghost var left := remaining;
        var next := NextBusinessDayStart(current.day, rule);
        if next.Err? { return Err(NoWorkingDay); }
        current := next.value;
        while remaining > minutesPerDay
          invariant 0 < remaining <= left && current.minuteOfDay == rule.start
          invariant OnTheWay(rule, from, current, remaining, target)
          decreases remaining
        {
          HopsOn(rule, from, current, remaining, target);
          remaining := remaining - minutesPerDay;
          next := NextBusinessDayStart(current.day, rule);
          if next.Err? { return Err(NoWorkingDay); }
          current := next.value;
        }
      }
    }
    LastDay(rule, from, current, 0, target);
    return Ok(FromLocal(current, zone));
  }

  /** The state of the loops: `remaining` minutes from `current` still lead to `target`, and no hop so far was blocked. */
  ghost predicate OnTheWay(c: ServiceCalendar, from: int, current: LocalDateTime, remaining: int, target: int) {
    && remaining >= 0
    && InBand(c, current)
    && Walk(c, current.Minute(), remaining) == target
    && from <= current.day && HopsShort(c, from, current.day)
  }

  predicate InBand(c: Calendar, l: LocalDateTime) {
    IsWorkingDay(c, l.day) && c.start <= l.minuteOfDay <= c.end
  }

  lemma StartsOnTheWay(c: ServiceCalendar, t: int, m: nat, first: LocalDateTime)
    requires !AdvanceBlocked(c, t) && InBand(c, first) && first.Minute() == AdvanceToService(c, t)
    ensures OnTheWay(c, Day(t), first, m, DeadlineAt(c, t, m))
  {
    AtSplits(first.day, first.minuteOfDay);
    if first.day > Day(t) { HopExtends(c, Day(t), Day(t)); }
  }

  /** More minutes are left than the day has: the walk goes on at the next working day, if the search finds it. */
  lemma HopsOn(c: ServiceCalendar, from: int, current: LocalDateTime, remaining: int, target: int)
    requires OnTheWay(c, from, current, remaining, target) && remaining > c.end - current.minuteOfDay
    ensures IdleDaysAfter(c, current.day) ==> IdleStretch(c, from, Day(target))
    ensures !IdleDaysAfter(c, current.day) ==>
              OnTheWay(c, from, LocalDateTime(NextWorkingDay(c, current.day), c.start),
                       remaining - (c.end - current.minuteOfDay), target)
  {
    WalkPastDay(c, current.day, current.minuteOfDay, remaining);
    BlockedHop(c, current.day, target);
    if !IdleDaysAfter(c, current.day) { HopExtends(c, from, current.day); }
  }

  /** The day has the minutes left: the target is on it, and the search was never blocked. */
  lemma LastDay(c: ServiceCalendar, from: int, current: LocalDateTime, remaining: int, target: int)
    requires OnTheWay(c, from, current, remaining, target) && current.minuteOfDay + remaining <= c.end
    ensures target == At(current.day, current.minuteOfDay + remaining)
    ensures !IdleStretch(c, from, Day(target))
    ensures OnTheWay(c, from, LocalDateTime(current.day, current.minuteOfDay + remaining), 0, target)
  {
    WalkInsideDay(c, current.day, current.minuteOfDay, remaining);
    AtSplits(current.day, current.minuteOfDay + remaining);
  }

  /** The target of a deadline lies after the day of a start the advance cannot leave. */
  lemma TargetDay(c: ServiceCalendar, t: int, m: nat)
    ensures AdvanceBlocked(c, t) ==> Day(t) < Day(DeadlineAt(c, t, m))
  {
    AdvanceIsFirstService(c, t);
  }

  /** A target reached from the next working day on is on a later day. */
  lemma BlockedHop(c: ServiceCalendar, day: int, target: int)
    requires target >= At(NextWorkingDay(c, day), c.start)
    ensures Day(target) > day
  {}

  // ── Counting ───────────────────────────────────────────────────────────────

  /** One day of the count: the minutes left in the band of a working day. */
  lemma CountRestOfDay(c: ServiceCalendar, day: int, minute: int, b: int)
    requires IsWorkingDay(c, day) && c.start <= minute < c.end && At(day, minute) <= b
    ensures Day(b) == day ==>
              ServiceCount(c, At(day, minute), b) == Max(0, Min(MinuteOfDay(b), c.end) - minute)
    ensures Day(b) > day ==>
              ServiceCount(c, At(day, minute), b)
              == c.end - minute + ServiceCount(c, At(NextWorkingDay(c, day), c.start), b)
  {
    var t, e := At(day, minute), At(day, c.end);
    AtSplits(day, minute);
    AtSplits(day, c.end);
    forall x | t <= x < e ensures IsService(c, x) { AtSplits(day, x - At(day, 0)); }
    var n := AdvanceToService(c, e);
    AdvanceIsFirstService(c, e);
    var k := if b < e then b else e;
    CountAdditive(c, t, k, b);
    CountOfBusy(c, t, k);
    if e <= b {
      var j := if b < n then b else n;
      CountAdditive(c, e, j, b);
      CountOfIdle(c, e, j);
    }
  }

  /** The count gives up after this many working days (the guard of `businessMinutesBetween`). */
  const MAX_COUNTED_DAYS: int := 36601

  /** The working days in `[from, until)`. */
  ghost function WorkingDays(c: Calendar, from: int, until: int): nat
    decreases until - from
  {
    if until <= from then 0 else WorkingDays(c, from, until - 1) + (if IsWorkingDay(c, until - 1) then 1 else 0)
  }

  lemma {:induction false} WorkingDaysAdd(c: Calendar, from: int, mid: int, until: int)
    requires from <= mid <= until
    ensures WorkingDays(c, from, until) == WorkingDays(c, from, mid) + WorkingDays(c, mid, until)
    decreases until - mid
  {
    if mid < until {
      WorkingDaysAdd(c, from, mid, until - 1);
    }
  }

  lemma {:induction false} WorkingDaysAtMost(c: Calendar, from: int, until: int)
    requires from <= until
    ensures WorkingDays(c, from, until) <= until - from
    ensures (forall d | from <= d < until :: !IsWorkingDay(c, d)) ==> WorkingDays(c, from, until) == 0
    decreases until - from
  {
    if from < until {
      WorkingDaysAtMost(c, from, until - 1);
    }
  }

  /** From one working day to the next is one working day. */
  lemma WorkingDaysHop(c: ServiceCalendar, first: int, day: int)
    requires first <= day && IsWorkingDay(c, day)
    ensures WorkingDays(c, first, day + 1) == WorkingDays(c, first, day) + 1
    ensures WorkingDays(c, first, NextWorkingDay(c, day)) == WorkingDays(c, first, day) + 1
  {
    var next := NextWorkingDay(c, day);
    WorkingDaysAdd(c, first, day + 1, next);
    WorkingDaysAtMost(c, day + 1, next);
  }

  ghost function FirstDay(c: ServiceCalendar, a: int): int { Day(AdvanceToService(c, a)) }

  /** The day after the last one with a service start before `b`. */
  function AfterLastDay(c: Calendar, b: int): int { if MinuteOfDay(b) > c.start then Day(b) + 1 else Day(b) }

  /** The count from `a` to `b`, local times, comes to a working day after which the search for the next one gives up. */
  ghost predicate SearchGivesUp(c: ServiceCalendar, a: int, b: int) {
    || AdvanceBlocked(c, a)
    || exists day | FirstDay(c, a) <= day < Day(b) :: BlockedAt(c, FirstDay(c, a), day)
  }

  ghost predicate BlockedAt(c: ServiceCalendar, first: int, day: int) {
    IsWorkingDay(c, day) && IdleDaysAfter(c, day) && WorkingDays(c, first, day) < MAX_COUNTED_DAYS
  }

  /** More working days than the count goes through. */
  ghost predicate TooManyDays(c: ServiceCalendar, a: int, b: int) {
    WorkingDays(c, FirstDay(c, a), AfterLastDay(c, b)) > MAX_COUNTED_DAYS
  }

  ghost function CountResult(from: int, to: int, businessHours: bool, zone: Zone,
    calendar: Option<ServiceCalendar>): Result<nat, PolicyError>
  {
    if to <= from then Ok(0)
    else if !businessHours then Ok(to - from)
    else if calendar.None? then Err(NoCalendar)
    else
      var c, a, b := calendar.value, Local(zone, from), Local(zone, to);
      if SearchGivesUp(c, a, b) then Err(NoWorkingDay)
      else if TooManyDays(c, a, b) then Err(IntervalTooLong)
      else Ok(ServiceCount(c, a, b))
  }

  /** `businessMinutesBetween`, which adds up whole days, counts the service minutes of the interval; it fails exactly on
      the inputs of the error cases. */
  method BusinessMinutesBetween(from: int, to: int, businessHours: bool, zone: Zone,
    calendar: Option<ServiceCalendar>)
    returns (r: Result<nat, PolicyError>)
    ensures r == CountResult(from, to, businessHours, zone, calendar)
  {
    if to <= from { return Ok(0); }
    if !businessHours { return Ok(to - from); }
    if calendar.None? { return Err(NoCalendar); }
    var rule := calendar.value;
    var end := ToLocal(to, zone);
    var advanced := AdvanceToBusinessStart(ToLocal(from, zone), rule);
    if advanced.Err? { return Err(NoWorkingDay); }
    ghost var a := Local(zone, from);
    CountStarts(rule, a, end.Minute(), advanced.value);
    r := CountDays(advanced.value, end, rule, a);
  }

  /** The loop: a day at a time from `first`, the first service minute at or after the local time `a`. */
  method CountDays(first: LocalDateTime, end: LocalDateTime, rule: ServiceCalendar, ghost a: int)
    returns (r: Result<nat, PolicyError>)
    requires 0 <= end.minuteOfDay < MINUTES_PER_DAY
    requires CountOnTheWay(rule, a, first, 0)
    ensures r == if SearchGivesUp(rule, a, end.Minute()) then Err(NoWorkingDay)
                 else if TooManyDays(rule, a, end.Minute()) then Err(IntervalTooLong)
                 else Ok(ServiceCount(rule, first.Minute(), end.Minute()))
  {
    ghost var b := end.Minute();
    AtSplits(end.day, end.minuteOfDay);
    var current := first;
    var minutes: nat := 0;
    var guard := 0;
    var counting := true;
    while counting && (current.day < end.day || (current.day == end.day && current.minuteOfDay < end.minuteOfDay))
      invariant 0 <= guard <= MAX_COUNTED_DAYS
      invariant CountOnTheWay(rule, a, current, guard)
      invariant counting ==> minutes + ServiceCount(rule, current.Minute(), b) == ServiceCount(rule, first.Minute(), b)
      invariant !counting ==> minutes == ServiceCount(rule, first.Minute(), b)
      invariant !counting ==> current.day == end.day && guard < MAX_COUNTED_DAYS
      decreases counting, MAX_COUNTED_DAYS + 1 - guard
    {
      CountsDay(rule, a, b, current, guard);
      if guard > 36600 { return Err(IntervalTooLong); }
      CountRestOfDay(rule, current.day, current.minuteOfDay, b);
      if current.day == end.day {
        if IsWorkingDay(rule, current.day) {
          minutes := minutes + Max(0, Min(end.minuteOfDay, rule.end) - current.minuteOfDay);
        }
        counting := false;
      } else {
        if IsWorkingDay(rule, current.day) {
          minutes := minutes + Max(0, rule.end - current.minuteOfDay);
        }
        var next := NextBusinessDayStart(current.day, rule);
        if next.Err? {
          assert BlockedAt(rule, FirstDay(rule, a), current.day);
          return Err(NoWorkingDay);
        }
        CountHops(rule, a, current, guard);
        current := next.value;
        guard := guard + 1;
      }
    }
    CountEnds(rule, a, b, current, guard);
    return Ok(minutes);
  }

  /** The state of the count: `current` is in service hours, `guard` working days after the first, and no hop was blocked. */
  ghost predicate CountOnTheWay(c: ServiceCalendar, a: int, current: LocalDateTime, guard: int) {
    && !AdvanceBlocked(c, a)
    && IsWorkingDay(c, current.day) && c.start <= current.minuteOfDay < c.end
    && FirstDay(c, a) <= current.day && WorkingDays(c, FirstDay(c, a), current.day) == guard
    && (current.minuteOfDay == c.start || current.Minute() == AdvanceToService(c, a))
    && HopsShort(c, FirstDay(c, a), current.day)
  }

  lemma CountStarts(c: ServiceCalendar, a: int, b: int, first: LocalDateTime)
    requires !AdvanceBlocked(c, a) && first.Minute() == AdvanceToService(c, a)
    requires IsWorkingDay(c, first.day) && c.start <= first.minuteOfDay < c.end
    ensures CountOnTheWay(c, a, first, 0)
    ensures ServiceCount(c, first.Minute(), b) == ServiceCount(c, a, b)
  {
    AtSplits(first.day, first.minuteOfDay);
    AdvanceIsFirstService(c, a);
    if b <= first.Minute() {
      CountOfIdle(c, a, b);
    } else {
      CountAdditive(c, a, first.Minute(), b);
      CountOfIdle(c, a, first.Minute());
    }
  }

  /** The day the count stands on is one of those it has to go through. */
  lemma CountsDay(c: ServiceCalendar, a: int, b: int, current: LocalDateTime, guard: int)
    requires CountOnTheWay(c, a, current, guard) && current.Minute() < b
    ensures current.day < AfterLastDay(c, b)
    ensures WorkingDays(c, FirstDay(c, a), AfterLastDay(c, b)) > guard
    ensures guard == MAX_COUNTED_DAYS ==> !SearchGivesUp(c, a, b) && TooManyDays(c, a, b)
  {
    var first, after := FirstDay(c, a), AfterLastDay(c, b);
    AtSplits(current.day, current.minuteOfDay);
    WorkingDaysHop(c, first, current.day);
    WorkingDaysAdd(c, first, current.day + 1, after);
    if guard == MAX_COUNTED_DAYS {
      forall day | first <= day < Day(b) ensures !BlockedAt(c, first, day) {
        if day >= current.day { WorkingDaysAdd(c, first, current.day, day); }
      }
    }
  }

  lemma CountHops(c: ServiceCalendar, a: int, current: LocalDateTime, guard: int)
    requires CountOnTheWay(c, a, current, guard) && !IdleDaysAfter(c, current.day)
    ensures CountOnTheWay(c, a, LocalDateTime(NextWorkingDay(c, current.day), c.start), guard + 1)
  {
    HopExtends(c, FirstDay(c, a), current.day);
    WorkingDaysHop(c, FirstDay(c, a), current.day);
  }

  lemma CountEnds(c: ServiceCalendar, a: int, b: int, current: LocalDateTime, guard: int)
    requires CountOnTheWay(c, a, current, guard) && guard <= MAX_COUNTED_DAYS
    requires b <= current.Minute() || (current.day == Day(b) && guard < MAX_COUNTED_DAYS)
    ensures !SearchGivesUp(c, a, b) && !TooManyDays(c, a, b)
  {
    var first, after := FirstDay(c, a), AfterLastDay(c, b);
    AtSplits(current.day, current.minuteOfDay);
    WorkingDaysHop(c, first, current.day);
    if after <= current.day {
      if first <= after { WorkingDaysAdd(c, first, after, current.day); }
    } else {
      assert after == current.day + 1;
      if b <= current.Minute() { assert current.day == first; }
    }
  }

  /** A calendar with at most 522 holidays counts every interval of up to 36600 days. */
  lemma CountAlwaysFound(c: ServiceCalendar, zone: Zone, from: int, to: int)
    requires |c.holidays| <= 522 && Day(Local(zone, to)) - Day(Local(zone, from)) <= 36600
    ensures CountResult(from, to, true, zone, Some(c))
         == Ok(if to <= from then 0 else ServiceCount(c, Local(zone, from), Local(zone, to)))
  {
    forall day ensures !IdleDaysAfter(c, day) { GuardUnreachable(c, day); }
    var first, after := FirstDay(c, Local(zone, from)), AfterLastDay(c, Local(zone, to));
    assert first >= Day(Local(zone, from));
    if first <= after { WorkingDaysAtMost(c, first, after); }
  }

  // ── The ten-year guard ─────────────────────────────────────────────────────

  /** With at most 522 holidays the search for a working day never gives up. */
  lemma GuardUnreachable(c: ServiceCalendar, day: int)
    requires |c.holidays| <= 522
    ensures !IdleDaysAfter(c, day)
  {
    var w := NextWorkingDay(c, day);
    assert day < w <= day + 7 * (|c.holidays| + 1) <= day + MAX_IDLE_DAYS;
  }

  /** Such a calendar has a deadline for every start and every number of minutes, on a working day and in its band. */
  lemma DeadlineAlwaysFound(c: ServiceCalendar, zone: Zone, startedAt: int, minutes: nat)
    requires |c.holidays| <= 522
    ensures var wall := LocalDeadline(c, zone, startedAt, minutes);
            && DeadlineResult(startedAt, minutes, true, zone, Some(c)) == Ok(ZonedTimeToUtc(zone, wall))
            && InClosedBand(c, wall)
  {
    forall day ensures !IdleDaysAfter(c, day) { GuardUnreachable(c, day); }
    DeadlineInBand(c, Local(zone, startedAt), minutes);
  }

  /** 522 is the largest safe number: from any day, some calendar with 523 holidays makes the search give up. */
  lemma GuardBoundIsTight(day: int) returns (c: ServiceCalendar)
    ensures |c.holidays| == 523 && IdleDaysAfter(c, day)
  {
    var first := day + 2;
    c := Calendar({Weekday(first)}, 480, 1080, WeeklyDays(first, 523));
    forall x | day < x <= day + MAX_IDLE_DAYS ensures !IsWorkingDay(c, x) {
      if Weekday(x) == Weekday(first) { SameWeekdayApart(first, x); }
    }
  }

  lemma SameWeekdayApart(first: int, x: int)
    requires Weekday(x) == Weekday(first)
    ensures x == first + 7 * ((x - first) / 7)
  {}
}
