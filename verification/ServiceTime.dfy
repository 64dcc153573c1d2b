/** Service time: which local minutes a service calendar counts (packages/sla/src/calendar.ts,
    packages/sla/src/policy.ts).

    A local wall-clock minute is one integer, `day * 1440 + minute of day`; day 0 is 1 January 1970, a
    Thursday. This module holds the reference definitions, one minute at a time; `Policy` proves the
    day-skipping loops of the program against them.
 */
module ServiceTime {
  import opened Basics

  const MINUTES_PER_DAY: int := 1440

  /** The decoded service calendar: week days (0 = Sunday), the daily band in minutes, the holidays as day numbers. */
  datatype Calendar = Calendar(days: set<int>, start: int, end: int, holidays: set<int>)

  /** What `parseServiceCalendar` guarantees: some week day, and a band HH:MM .. HH:MM that ends after it starts. */
  predicate ValidCalendar(c: Calendar) {
    && c.days != {}
    && (forall d | d in c.days :: 0 <= d <= 6)
    && 0 <= c.start < c.end < MINUTES_PER_DAY
  }

  type ServiceCalendar = c: Calendar | ValidCalendar(c) witness Calendar({1, 2, 3, 4, 5}, 480, 1080, {})

  function Day(t: int): int { t / MINUTES_PER_DAY }

  function MinuteOfDay(t: int): int { t % MINUTES_PER_DAY }

  function At(day: int, minute: int): int { day * MINUTES_PER_DAY + minute }

  lemma AtSplits(day: int, minute: int)
    requires 0 <= minute < MINUTES_PER_DAY
    ensures Day(At(day, minute)) == day && MinuteOfDay(At(day, minute)) == minute
  {}

  function Weekday(day: int): int { (day + 4) % 7 }

  /** The days of the week follow each other, Sunday after Saturday; day 0, the first of January 1970, is a Thursday. */
  lemma WeekdaysFollow(day: int)
    ensures Weekday(0) == 4
    ensures Weekday(day + 1) == if Weekday(day) == 6 then 0 else Weekday(day) + 1
    ensures Weekday(day + 7) == Weekday(day) && Weekday(11016) == 2 && Weekday(20089) == 3
  {}

  predicate IsWorkingDay(c: Calendar, day: int) { Weekday(day) in c.days && day !in c.holidays }

  /** The local minute `[t, t + 1)` is inside the service hours. */
  predicate IsService(c: Calendar, t: int) {
    IsWorkingDay(c, Day(t)) && c.start <= MinuteOfDay(t) < c.end
  }

  // ── The next working day ───────────────────────────────────────────────────

  function WeeklyDays(first: int, n: nat): (s: set<int>)
    ensures |s| == n
    ensures forall x :: x in s <==> exists i :: 0 <= i < n && x == first + 7 * i
  {
    if n == 0 then {} else
      var rest := WeeklyDays(first, n - 1);
      assert first + 7 * (n - 1) !in rest;
      rest + {first + 7 * (n - 1)}
  }

  /** The first day after `day` that falls on week day `d`. */
  function FirstOnWeekday(day: int, d: int): (r: int)
    requires 0 <= d <= 6
    ensures day < r <= day + 7 && Weekday(r) == d
  {
    day + 1 + (d - Weekday(day + 1)) % 7
  }

  /** Pigeonhole: among `7 * (h + 1)` consecutive days, `h` holidays cannot cover one week day. */
  lemma WorkingDaySoon(c: ServiceCalendar, day: int) returns (w: int)
    ensures day < w <= day + 7 * (|c.holidays| + 1) && IsWorkingDay(c, w)
  {
    assert (forall x :: x !in c.days) ==> c.days == {};
    var d :| d in c.days;
    var first := FirstOnWeekday(day, d);
    var s := WeeklyDays(first, |c.holidays| + 1);
    if s <= c.holidays {
      SubsetIsNoLarger(s, c.holidays);
    }
    w :| w in s && w !in c.holidays;
    var i :| 0 <= i < |c.holidays| + 1 && w == first + 7 * i;
    SameWeekday(first, i);
  }

  lemma SameWeekday(first: int, i: nat)
    ensures Weekday(first + 7 * i) == Weekday(first)
  {}

  lemma FirstWorkingDay(c: ServiceCalendar, day: int, bound: int) returns (w: int)
    requires day < bound && IsWorkingDay(c, bound)
    ensures day < w <= bound && IsWorkingDay(c, w)
    ensures forall x | day < x < w :: !IsWorkingDay(c, x)
    decreases bound - day
  {
    if IsWorkingDay(c, day + 1) {
      w := day + 1;
    } else {
      w := FirstWorkingDay(c, day + 1, bound);
    }
  }

  /** `w` is the first working day strictly after `day`. */
  ghost predicate IsNextWorkingDay(c: Calendar, day: int, w: int) {
    day < w && IsWorkingDay(c, w) && forall x | day < x < w :: !IsWorkingDay(c, x)
  }

  /** The first working day after `day`: it exists for every calendar, because the holidays are finitely many. */
  ghost function NextWorkingDay(c: ServiceCalendar, day: int): (w: int)
    ensures IsNextWorkingDay(c, day, w)
    ensures w <= day + 7 * (|c.holidays| + 1)
  {
    assert exists w :: IsNextWorkingDay(c, day, w) && w <= day + 7 * (|c.holidays| + 1) by {
      var b := WorkingDaySoon(c, day);
      var w := FirstWorkingDay(c, day, b);
      assert IsNextWorkingDay(c, day, w);
    }
    var w :| IsNextWorkingDay(c, day, w) && w <= day + 7 * (|c.holidays| + 1);
    w
  }

  lemma NextWorkingDayUnique(c: ServiceCalendar, day: int, w: int)
    requires IsNextWorkingDay(c, day, w)
    ensures w == NextWorkingDay(c, day)
  {}

  // ── The next service minute ────────────────────────────────────────────────

  /** `advanceToBusinessStart` on the local time `t`. */
  ghost function AdvanceToService(c: ServiceCalendar, t: int): (r: int)
    ensures r >= t
  {
    if !IsWorkingDay(c, Day(t)) || MinuteOfDay(t) >= c.end then At(NextWorkingDay(c, Day(t)), c.start)
    else if MinuteOfDay(t) < c.start then At(Day(t), c.start)
    else t
  }

  /** The first service minute at or after `t`: nothing between the two is service time. */
  lemma AdvanceIsFirstService(c: ServiceCalendar, t: int)
    ensures IsService(c, AdvanceToService(c, t))
    ensures forall x | t <= x < AdvanceToService(c, t) :: !IsService(c, x)
  {
    var r := AdvanceToService(c, t);
    AtSplits(Day(r), MinuteOfDay(r));
    forall x | t <= x < r ensures !IsService(c, x) {
      assert Day(t) <= Day(x) <= Day(r);
    }
  }

  // ── The reference: one minute at a time ────────────────────────────────────

  /** The service minutes in `[a, b)`, counted one by one. */
  function ServiceCount(c: Calendar, a: int, b: int): nat
    decreases b - a
  {
    if b <= a then 0 else ServiceCount(c, a, b - 1) + (if IsService(c, b - 1) then 1 else 0)
  }

  /** Walks forward one minute at a time from `t`, consuming only service minutes, until `m` are consumed. */
  ghost function Walk(c: ServiceCalendar, t: int, m: nat): (r: int)
    ensures r >= t
    decreases m, AdvanceToService(c, t) - t
  {
    if m == 0 then t
    else if IsService(c, t) then Walk(c, t + 1, m - 1)
    else
      AdvanceStep(c, t);
      Walk(c, t + 1, m)
  }

  lemma AdvanceStep(c: ServiceCalendar, t: int)
    requires !IsService(c, t)
    ensures AdvanceToService(c, t + 1) == AdvanceToService(c, t) > t
  {
    AdvanceIsFirstService(c, t);
    AdvanceIsFirstService(c, t + 1);
  }

  /** The local deadline `m` service minutes after `t`; with no minutes, the next service start. */
  ghost function DeadlineAt(c: ServiceCalendar, t: int, m: nat): (r: int)
    ensures r >= t
  {
    Walk(c, AdvanceToService(c, t), m)
  }

  lemma {:induction false} CountAdditive(c: Calendar, x: int, y: int, z: int)
    requires x <= y <= z
    ensures ServiceCount(c, x, z) == ServiceCount(c, x, y) + ServiceCount(c, y, z)
    decreases z - y
  {
    if y < z {
      CountAdditive(c, x, y, z - 1);
    }
  }

  lemma {:induction false} CountOfIdle(c: Calendar, a: int, b: int)
    requires forall x | a <= x < b :: !IsService(c, x)
    ensures ServiceCount(c, a, b) == 0
    decreases b - a
  {
    if a < b {
      CountOfIdle(c, a, b - 1);
    }
  }

  lemma {:induction false} CountOfBusy(c: Calendar, a: int, b: int)
    requires a <= b
    requires forall x | a <= x < b :: IsService(c, x)
    ensures ServiceCount(c, a, b) == b - a
    decreases b - a
  {
    if a < b {
      CountOfBusy(c, a, b - 1);
    }
  }

  lemma CountZeroIsIdle(c: Calendar, a: int, b: int)
    requires ServiceCount(c, a, b) == 0
    ensures forall x | a <= x < b :: !IsService(c, x)
  {
    forall x | a <= x < b ensures !IsService(c, x) {
      CountAdditive(c, a, x, b);
      CountAdditive(c, x, x + 1, b);
      assert ServiceCount(c, x, x + 1) == if IsService(c, x) then 1 else 0;
    }
  }

  /** Walking `m >= 1` minutes ends right after a service minute, with exactly `m` of them behind. */
  lemma {:induction false} WalkCounts(c: ServiceCalendar, t: int, m: nat)
    ensures ServiceCount(c, t, Walk(c, t, m)) == m
    ensures m > 0 ==> Walk(c, t, m) > t && IsService(c, Walk(c, t, m) - 1)
    decreases m, AdvanceToService(c, t) - t
  {
    if m > 0 {
      if IsService(c, t) {
        WalkCounts(c, t + 1, m - 1);
        assert ServiceCount(c, t, t + 1) == 1;
      } else {
        AdvanceStep(c, t);
        WalkCounts(c, t + 1, m);
        assert ServiceCount(c, t, t + 1) == 0;
      }
      CountAdditive(c, t, t + 1, Walk(c, t, m));
    }
  }

  /** The Galois connection of the two operations: `Walk` is the least instant the count reaches `m`. */
  lemma WalkCountAdjoint(c: ServiceCalendar, t: int, m: nat, b: int)
    requires m > 0
    ensures ServiceCount(c, t, b) >= m <==> b >= Walk(c, t, m)
  {
    var r := Walk(c, t, m);
    WalkCounts(c, t, m);
    if b >= r {
      CountAdditive(c, t, r, b);
    } else if t <= b {
      CountAdditive(c, t, b, r);
      CountAdditive(c, b, r - 1, r);
      assert ServiceCount(c, r - 1, r) == 1;
    }
  }

  lemma {:induction false} WalkSkipsIdle(c: ServiceCalendar, t: int, u: int, m: nat)
    requires t <= u && m > 0
    requires forall x | t <= x < u :: !IsService(c, x)
    ensures Walk(c, t, m) == Walk(c, u, m)
    decreases u - t
  {
    if t < u {
      WalkSkipsIdle(c, t + 1, u, m);
    }
  }

  lemma {:induction false} WalkWithin(c: ServiceCalendar, t: int, k: nat, m: nat)
    requires k <= m
    requires forall x | t <= x < t + k :: IsService(c, x)
    ensures Walk(c, t, m) == Walk(c, t + k, m - k)
    decreases k
  {
    if k > 0 {
      assert IsService(c, t);
      WalkWithin(c, t + 1, k - 1, m - 1);
    }
  }

  lemma {:induction false} WalkAdvances(c: ServiceCalendar, t: int, m: nat)
    ensures Walk(c, t, m) >= t + m
    decreases m, AdvanceToService(c, t) - t
  {
    if m > 0 {
      if IsService(c, t) {
        WalkAdvances(c, t + 1, m - 1);
      } else {
        AdvanceStep(c, t);
        WalkAdvances(c, t + 1, m);
      }
    }
  }

  /** Walking from `x` through the service minutes up to `y` and further is walking from `y`. */
  lemma WalkJumps(c: ServiceCalendar, x: int, y: int, b: nat)
    requires x <= y && b > 0
    ensures Walk(c, x, b + ServiceCount(c, x, y)) == Walk(c, y, b)
  {
    var k := ServiceCount(c, x, y);
    var r := Walk(c, x, k);
    WalkCounts(c, x, k);
    if k > 0 { WalkCountAdjoint(c, x, k, y); }
    CountAdditive(c, x, r, y);
    CountZeroIsIdle(c, r, y);
    WalkSkipsIdle(c, r, y, b);
    WalkComposes(c, x, k, b);
  }

  lemma DeadlineIsWalk(c: ServiceCalendar, t: int, m: nat)
    requires m > 0
    ensures DeadlineAt(c, t, m) == Walk(c, t, m)
  {
    AdvanceIsFirstService(c, t);
    WalkSkipsIdle(c, t, AdvanceToService(c, t), m);
  }

  /** Consuming `a` minutes and then `b` more is consuming `a + b`. */
  lemma {:induction false} WalkComposes(c: ServiceCalendar, t: int, a: nat, b: nat)
    ensures Walk(c, Walk(c, t, a), b) == Walk(c, t, a + b)
    decreases a, AdvanceToService(c, t) - t
  {
    if a > 0 {
      if IsService(c, t) {
        WalkComposes(c, t + 1, a - 1, b);
      } else {
        AdvanceStep(c, t);
        WalkComposes(c, t + 1, a, b);
      }
    }
  }

  /** A deadline is always inside the closed service band of a working day. */
  predicate InClosedBand(c: Calendar, t: int) {
    IsWorkingDay(c, Day(t)) && c.start <= MinuteOfDay(t) <= c.end
  }

  lemma DeadlineInBand(c: ServiceCalendar, t: int, m: nat)
    ensures InClosedBand(c, DeadlineAt(c, t, m))
  {
    AdvanceIsFirstService(c, t);
    if m > 0 {
      WalkCounts(c, AdvanceToService(c, t), m);
      var r := DeadlineAt(c, t, m);
      assert Day(r) == Day(r - 1) && MinuteOfDay(r) == MinuteOfDay(r - 1) + 1;
    }
  }
}
