/** Wall-clock time in a time zone (packages/sla/src/policy.ts:91-135).

    A zone is any function from instants (whole minutes) to its offset from UTC. Nothing is assumed of it
    unless a lemma says so: `OneChange` for one clock change in a window, `Regular` for the real zones.
 */
module Zones {

  datatype Zone = Zone(offset: int -> int)

  /** The local wall-clock minute shown at the instant `t` (`toLocal`). */
  function Local(z: Zone, t: int): int { t + z.offset(t) }

  /** `zonedTimeToUtc`: the two-pass resolution of a wall-clock minute. */
  function ZonedTimeToUtc(z: Zone, wall: int): int {
    var offset1 := z.offset(wall);
    var utc := wall - offset1;
    var offset2 := z.offset(utc);
    if offset2 != offset1 then wall - offset2 else utc
  }

  /** The wall-clock minute is shown at some instant: it is not inside a spring-forward gap. */
  ghost predicate Shown(z: Zone, wall: int) { exists t :: Local(z, t) == wall }

  ghost predicate ShownOnlyAt(z: Zone, wall: int, t: int) {
    Local(z, t) == wall && forall u :: Local(z, u) == wall ==> u == t
  }

  /** For 32 hours on both sides of `center` the offset is `before` up to the instant `change`, `after` from it on. */
  ghost predicate OneChange(z: Zone, center: int, change: int, before: int, after: int) {
    forall t | center - 2 * MAX_OFFSET <= t <= center + 2 * MAX_OFFSET ::
      z.offset(t) == if t < change then before else after
  }

  /** No zone is further than 16 hours from UTC. */
  const MAX_OFFSET: int := 960

  ghost predicate Bounded(z: Zone) { forall t :: -MAX_OFFSET <= z.offset(t) <= MAX_OFFSET }

  /** One change around `center` between two offsets a zone can have. */
  ghost predicate RealChange(z: Zone, center: int, change: int, before: int, after: int) {
    && OneChange(z, center, change, before, after)
    && -MAX_OFFSET <= before <= MAX_OFFSET && -MAX_OFFSET <= after <= MAX_OFFSET
  }

  /** The wall time is skipped by the change: it springs forward over it. */
  predicate InGap(wall: int, change: int, before: int, after: int) { change + before <= wall < change + after }

  /** The wall time is shown on both sides of the change: it falls back over it. */
  predicate InOverlap(wall: int, change: int, before: int, after: int) { change + after <= wall < change + before }

  /** Around every wall time of a bounded zone with one change there, the change is a real one. */
  lemma RealChangeAround(z: Zone, center: int) returns (change: int, before: int, after: int)
    requires Bounded(z) && OneChangeAround(z, center)
    ensures RealChange(z, center, change, before, after)
  {
    change, before, after :| OneChange(z, center, change, before, after);
    var first, last := z.offset(center - 2 * MAX_OFFSET), z.offset(center + 2 * MAX_OFFSET);
    assert -MAX_OFFSET <= first <= MAX_OFFSET && -MAX_OFFSET <= last <= MAX_OFFSET;
    if change <= center - 2 * MAX_OFFSET { before := after; }
    if change > center + 2 * MAX_OFFSET { after := before; }
  }

  ghost predicate OneChangeAround(z: Zone, center: int) {
    exists change, before, after :: OneChange(z, center, change, before, after)
  }

  /** A real zone: bounded offsets, and clock changes more than 64 hours apart. */
  ghost predicate Regular(z: Zone) {
    Bounded(z) && forall center :: OneChangeAround(z, center)
  }

  /** The conversion is a right inverse exactly on the wall times that exist, on both kinds of clock change. */
  lemma WallClockRightInverse(z: Zone, wall: int)
    requires Bounded(z) && OneChangeAround(z, wall)
    ensures Local(z, ZonedTimeToUtc(z, wall)) == wall <==> Shown(z, wall)
  {
    var change, before, after :| OneChange(z, wall, change, before, after);
    var utc := ZonedTimeToUtc(z, wall);
    if Shown(z, wall) {
      var t :| Local(z, t) == wall;
      assert wall - MAX_OFFSET <= t <= wall + MAX_OFFSET;
    }
  }

  /** A wall time skipped by a spring-forward: it is moved by the length of the gap, later when the zone's
      clock is ahead of UTC at the change (`change <= wall`), EARLIER when it is behind. */
  lemma GapMovesByItsLength(z: Zone, wall: int, change: int, before: int, after: int)
    requires Bounded(z)
    requires OneChange(z, wall, change, before, after)
    requires !Shown(z, wall)
    ensures before < after && change + before <= wall < change + after
    ensures Local(z, ZonedTimeToUtc(z, wall)) ==
            if change <= wall then wall + (after - before) else wall - (after - before)
  {
    assert Local(z, wall - before) != wall;
    assert Local(z, wall - after) != wall;
    assert z.offset(wall - before) != before;
    assert z.offset(wall - after) != after;
    assert -MAX_OFFSET <= z.offset(wall - 2 * MAX_OFFSET) <= MAX_OFFSET;
    assert -MAX_OFFSET <= z.offset(wall + 2 * MAX_OFFSET) <= MAX_OFFSET;
  }

  /** A wall time shown twice by a fall-back: ahead of UTC the second instant is taken, behind it the first. */
  lemma OverlapTakesOneSide(z: Zone, wall: int, first: int, second: int, change: int, before: int, after: int)
    requires Bounded(z)
    requires OneChange(z, wall, change, before, after)
    requires first < second && Local(z, first) == wall == Local(z, second)
    ensures ZonedTimeToUtc(z, wall) == if change <= wall then second else first
  {
    assert -MAX_OFFSET <= z.offset(first) <= MAX_OFFSET;
    assert -MAX_OFFSET <= z.offset(second) <= MAX_OFFSET;
  }

  /** Around an unambiguous wall time the zone's clock keeps the order of instants. */
  lemma UnambiguousKeepsOrder(z: Zone, wall: int, at: int, t: int)
    requires Regular(z) && ShownOnlyAt(z, wall, at)
    ensures t >= at <==> Local(z, t) >= wall
  {
    assert -MAX_OFFSET <= z.offset(at) <= MAX_OFFSET;
    assert -MAX_OFFSET <= z.offset(t) <= MAX_OFFSET;
    assert OneChangeAround(z, at);
    var change, before, after :| OneChange(z, at, change, before, after);
    assert Local(z, wall - before) == wall ==> wall - before == at;
    assert Local(z, wall - after) == wall ==> wall - after == at;
  }

  /** On an unambiguous wall time the conversion gives its one instant. */
  lemma UnambiguousConverts(z: Zone, wall: int, at: int)
    requires Regular(z) && ShownOnlyAt(z, wall, at)
    ensures ZonedTimeToUtc(z, wall) == at
  {
    assert OneChangeAround(z, wall);
    WallClockRightInverse(z, wall);
  }
}
