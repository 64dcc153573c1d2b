/** The data-migration runner (packages/neo4j/src/migrations.ts): several runners interleaved under an expiring lock,
    and one runner's pass over its list. Ids are numbers in the order of the program's string ids.
 */
module Migrations {
  import opened Basics
  import opened Wrappers

  function Pick(ids: seq<int>, without: set<int>): seq<int> {
    if ids == [] then [] else
      var rest := Pick(ids[..|ids| - 1], without);
      if ids[|ids| - 1] in without then rest else rest + [ids[|ids| - 1]]
  }

  predicate Increasing(ids: seq<int>) { forall i, j | 0 <= i < j < |ids| :: ids[i] < ids[j] }

  lemma {:induction false} PickRight(ids: seq<int>, without: set<int>)
    ensures forall x :: x in Pick(ids, without) <==> x in ids && x !in without
    ensures Increasing(ids) ==> Increasing(Pick(ids, without))
  {
    if ids != [] {
      var before, last := ids[..|ids| - 1], ids[|ids| - 1];
      PickRight(before, without);
      assert ids == before + [last];
      var rest := Pick(before, without);
      assert forall x | x in before :: Increasing(ids) ==> x < last;
      assert forall i | 0 <= i < |rest| :: rest[i] in rest;
    }
  }

  /** Filtering by more markers after fewer is filtering by the more. */
  lemma {:induction false} PickTwice(ids: seq<int>, fewer: set<int>, more: set<int>)
    requires fewer <= more
    ensures Pick(Pick(ids, fewer), more) == Pick(ids, more)
  {
    if ids != [] {
      PickTwice(ids[..|ids| - 1], fewer, more);
      var rest := Pick(ids[..|ids| - 1], fewer);
      assert (rest + [ids[|ids| - 1]])[..|rest|] == rest;
    }
  }

  // ── Interleaved runners ────────────────────────────────────────────────────

  /** Where a runner is: it loaded its list from the markers it saw, it holds the lock since an instant, it is applying what
      was still pending when it found the markers `found` inside the lock, it is over and left the markers `left` behind,
      or it stayed out. */
  datatype Phase =
    | Idle
    | Waiting(toRun: seq<int>, loaded: set<int>)
    | Holding(since: int, toRun: seq<int>, loaded: set<int>)
    | Applying(since: int, pending: seq<int>, done: nat, upRan: bool, found: set<int>)
    | Failed(since: int, pending: seq<int>, done: nat, found: set<int>)
    | Over(pending: seq<int>, done: nat, found: set<int>, left: set<int>)
    | StayedOut

  datatype Lock = Lock(owner: nat, lockedAt: int)

  /** The store, the clock, the runners; `commits` counts the transactions that committed a migration. */
  datatype State = State(markers: set<int>, lock: Option<Lock>, now: int, runners: map<nat, Phase>, commits: map<int, nat>)

  datatype Step =
    | Tick(now: int)
    | Load(r: nat)
    | Acquire(r: nat)
    | Reload(r: nat)
    | Commit(r: nat)
    | AutoUp(r: nat)
    | AutoMark(r: nat)
    | Fail(r: nat)
    | Release(r: nat)
    | Crash(r: nat)

  /** The code of a deployment: its migration ids in order, those that run outside a transaction, the lock expiry. */
  datatype Code = Code(ids: seq<int>, autocommit: set<int>, ttl: int)

  function PhaseOf(s: State, r: nat): Phase { if r in s.runners then s.runners[r] else Idle }

  function Move(s: State, r: nat, p: Phase): State { s.(runners := s.runners[r := p]) }

  function Commits(s: State, id: int): nat { if id in s.commits then s.commits[id] else 0 }

  predicate LockFree(s: State, ttl: int) { s.lock.None? || s.lock.value.lockedAt < s.now - ttl }

  /** The lock goes back only if it is still this runner's. */
  function Unlock(s: State, r: nat): State {
    if s.lock.Some? && s.lock.value.owner == r then s.(lock := None) else s
  }

  function Next(s: State, step: Step, code: Code): State {
    if step.Tick? then s.(now := if step.now > s.now then step.now else s.now) else
    var r, p := step.r, PhaseOf(s, step.r);
    if step.Load? then if p.Idle? then Move(s, r, Waiting(Pick(code.ids, s.markers), s.markers)) else s
    else if step.Acquire? then
      if !p.Waiting? || p.toRun == [] then s
      else if LockFree(s, code.ttl) then Move(s.(lock := Some(Lock(r, s.now))), r, Holding(s.now, p.toRun, p.loaded))
      else Move(s, r, StayedOut)
    else if step.Reload? then
      if p.Holding? then Move(s, r, Applying(p.since, Pick(p.toRun, s.markers), 0, false, s.markers)) else s
    else if step.Crash? then
      if p.Applying? || p.Failed? then Move(s, r, Over(p.pending, p.done, p.found, s.markers))
      else if p.Over? then s else Move(s, r, StayedOut)
    else if step.Release? then
      // `finally`: the re-read of the store failed, a migration failed, or all are applied.
      if p.Holding? then Move(Unlock(s, r), r, StayedOut)
      else if p.Failed? || (p.Applying? && p.done >= |p.pending|)
      then Move(Unlock(s, r), r, Over(p.pending, p.done, p.found, s.markers)) else s
    else if p.Applying? && p.done < |p.pending| then ApplyStep(s, r, p, p.pending[p.done], step, code)
    else s
  }

  /** The next migration of a runner: its transaction commits the change and the marker together; outside a
      transaction the marker is a second write; or it fails. */
  function ApplyStep(s: State, r: nat, p: Phase, id: int, step: Step, code: Code): State
    requires p.Applying?
  {
    match step
    case Commit(_) =>
      if id in code.autocommit then s
      else Move(s.(markers := s.markers + {id}, commits := s.commits[id := Commits(s, id) + 1]),
                r, p.(done := p.done + 1, upRan := false))
    case AutoUp(_) => if id in code.autocommit && !p.upRan then Move(s, r, p.(upRan := true)) else s
    case AutoMark(_) =>
      if id in code.autocommit && p.upRan
      then Move(s.(markers := s.markers + {id}), r, p.(done := p.done + 1, upRan := false)) else s
    case Fail(_) => Move(s, r, Failed(p.since, p.pending, p.done, p.found))
    case _ => s
  }

  /** THE LOCK changes hands in two ways only, at any state and however late a runner is: it is taken by a runner that finds it
      free or expired, or given back by the runner that owns it. */
  lemma LockChangesTwoWays(s: State, step: Step, code: Code)
    ensures var s' := Next(s, step, code);
            || s'.lock == s.lock
            || (&& step.Acquire? && (s.lock.None? || s.now - s.lock.value.lockedAt > code.ttl)
                && s'.lock == Some(Lock(step.r, s.now)) && PhaseOf(s', step.r).Holding?)
            || (&& step.Release? && s.lock.Some? && s.lock.value.owner == step.r && s'.lock.None?
                && !Inside(PhaseOf(s', step.r)))
  {}

  /** And a runner that is done gives its own lock back. */
  lemma ReleaseUnlocks(s: State, r: nat, code: Code)
    requires s.lock.Some? && s.lock.value.owner == r
    requires var p := PhaseOf(s, r); p.Holding? || p.Failed? || (p.Applying? && p.done >= |p.pending|)
    ensures Next(s, Release(r), code).lock.None?
  {}

  ghost function Run(h: seq<Step>, s0: State, code: Code): State {
    if h == [] then s0 else Next(Run(h[..|h| - 1], s0, code), h[|h| - 1], code)
  }

  /** A lock outlives whatever the other runners do until it expires: a release of theirs, late or not, leaves it alone. */
  lemma {:induction false} OthersLeaveTheLock(h: seq<Step>, s0: State, code: Code)
    requires s0.lock.Some?
    requires forall step | step in h :: step.Tick? || step.r != s0.lock.value.owner
    requires forall i | 0 <= i < |h| :: Run(h[..i], s0, code).now - s0.lock.value.lockedAt <= code.ttl
    ensures Run(h, s0, code).lock == s0.lock
  {
    if h != [] {
      var before := h[..|h| - 1];
      assert forall i | 0 <= i < |before| :: before[..i] == h[..i];
      assert forall step | step in before :: step in h;
      OthersLeaveTheLock(before, s0, code);
      assert h[|h| - 1] in h;
      LockChangesTwoWays(Run(before, s0, code), h[|h| - 1], code);
    }
  }

  predicate Inside(p: Phase) { p.Holding? || p.Applying? || p.Failed? }

  /** No runner that is inside has held the lock past its expiry. */
  predicate WithinTtl(s: State, ttl: int) {
    forall r | r in s.runners && Inside(s.runners[r]) :: s.now <= s.runners[r].since + ttl
  }

  /** What a runner knows of the store: what it found, and that only its own migrations came after while it is inside. */
  predicate RunnerRight(s: State, r: nat, p: Phase, code: Code) {
    && (Inside(p) ==> s.lock == Some(Lock(r, p.since)))
    && (p.Waiting? || p.Holding? ==> p.toRun == Pick(code.ids, p.loaded) && p.loaded <= s.markers)
    && (p.Applying? || p.Failed? || p.Over? ==> p.done <= |p.pending| && p.pending == Pick(code.ids, p.found))
    && (p.Applying? || p.Failed? ==> s.markers == p.found + ToSet(p.pending[..p.done]))
    && (p.Over? ==> p.left == p.found + ToSet(p.pending[..p.done]) && p.left <= s.markers)
  }

  /** A migration that was not there at the start was committed exactly once if it is marked now, and not at all if it
      is not; one that was there was not run again. */
  ghost predicate CommitsRight(s: State, start: set<int>, code: Code) {
    && start <= s.markers
    && forall id: int :: Commits(s, id) ==
         if id in s.markers && id !in start && id !in code.autocommit then 1 else 0
  }

  ghost predicate Invariant(s: State, start: set<int>, code: Code) {
    && Increasing(code.ids)
    && CommitsRight(s, start, code)
    && forall r | r in s.runners :: RunnerRight(s, r, s.runners[r], code)
  }

  lemma InsideIsAlone(s: State, start: set<int>, code: Code, r: nat, r': nat)
    requires Invariant(s, start, code) && r in s.runners && r' in s.runners
    requires Inside(s.runners[r]) && Inside(s.runners[r'])
    ensures r == r'
  {
    assert RunnerRight(s, r, s.runners[r], code) && RunnerRight(s, r', s.runners[r'], code);
  }

  lemma MoveRight(s: State, r: nat, p: Phase, start: set<int>, code: Code)
    requires Invariant(s, start, code) && RunnerRight(s, r, p, code)
    ensures Invariant(Move(s, r, p), start, code)
  {
    var s' := Move(s, r, p);
    forall x: int ensures Commits(s', x) == Commits(s, x) {}
    forall x | x in s'.runners ensures RunnerRight(s', x, s'.runners[x], code) {
      if x != r { assert RunnerRight(s, x, s.runners[x], code); }
    }
  }

  lemma AcquireRight(s: State, r: nat, start: set<int>, code: Code)
    requires Invariant(s, start, code) && WithinTtl(s, code.ttl) && LockFree(s, code.ttl)
    requires PhaseOf(s, r).Waiting?
    ensures Invariant(Next(s, Acquire(r), code), start, code)
  {
    var s' := Next(s, Acquire(r), code);
    forall x: int ensures Commits(s', x) == Commits(s, x) {}
    forall x | x in s'.runners ensures RunnerRight(s', x, s'.runners[x], code) {
      if x in s.runners { assert RunnerRight(s, x, s.runners[x], code); }
    }
  }

  /** The migration at the front of a runner inside is marked. */
  lemma MarkRight(s: State, r: nat, p: Phase, s': State, start: set<int>, code: Code)
    requires Invariant(s, start, code) && r in s.runners && s.runners[r] == p && p.Applying? && p.done < |p.pending|
    requires var id := p.pending[p.done];
             && s'.markers == s.markers + {id} && s'.lock == s.lock && s'.now == s.now
             && s'.runners == s.runners[r := p.(done := p.done + 1, upRan := false)]
             && s'.commits == if id in code.autocommit then s.commits else s.commits[id := Commits(s, id) + 1]
    ensures Invariant(s', start, code)
  {
    var id := p.pending[p.done];
    assert RunnerRight(s, r, p, code);
    FrontIsPending(s, r, p, code);
    forall x: int
      ensures Commits(s', x) == if x in s'.markers && x !in start && x !in code.autocommit then 1 else 0
    {
      assert Commits(s, x) == if x in s.markers && x !in start && x !in code.autocommit then 1 else 0;
    }
    forall x | x in s'.runners ensures RunnerRight(s', x, s'.runners[x], code) {
      if x != r {
        assert RunnerRight(s, x, s.runners[x], code);
        if Inside(s.runners[x]) { InsideIsAlone(s, start, code, r, x); }
      }
    }
  }

  /** The front has no marker yet, and with it the prefix is one longer. */
  lemma FrontIsPending(s: State, r: nat, p: Phase, code: Code)
    requires Increasing(code.ids) && RunnerRight(s, r, p, code) && p.Applying? && p.done < |p.pending|
    ensures p.pending[p.done] !in s.markers
    ensures s.markers + {p.pending[p.done]} == p.found + ToSet(p.pending[..p.done + 1])
  {
    var id, prefix := p.pending[p.done], p.pending[..p.done];
    PickRight(code.ids, p.found);
    assert id in p.pending;
    assert id !in prefix by { assert forall i | 0 <= i < p.done :: p.pending[i] < id; }
    assert p.pending[..p.done + 1] == prefix + [id];
    ToSetOfOneMore(prefix, id);
    assert s.markers + {id} == p.found + (ToSet(prefix) + {id});
  }

  lemma ReleaseRight(s: State, r: nat, p: Phase, start: set<int>, code: Code)
    requires Invariant(s, start, code) && r in s.runners && s.runners[r] == p
    requires p.Holding? || p.Failed? || (p.Applying? && p.done >= |p.pending|)
    ensures Invariant(Next(s, Release(r), code), start, code)
  {
    var s' := Next(s, Release(r), code);
    assert RunnerRight(s, r, p, code);
    forall x: int ensures Commits(s', x) == Commits(s, x) {}
    forall x | x in s'.runners ensures RunnerRight(s', x, s'.runners[x], code) {
      if x != r {
        assert RunnerRight(s, x, s.runners[x], code);
        if Inside(s.runners[x]) { InsideIsAlone(s, start, code, r, x); }
      }
    }
  }

  lemma StepKeepsInvariant(s: State, step: Step, start: set<int>, code: Code)
    requires Invariant(s, start, code) && WithinTtl(s, code.ttl)
    ensures Invariant(Next(s, step, code), start, code)
  {
    if step.Tick? {
      TickRight(s, step, start, code);
    } else {
      var r, p := step.r, PhaseOf(s, step.r);
      assert RunnerRight(s, r, p, code) by { if r in s.runners { assert RunnerRight(s, r, s.runners[r], code); } }
      if step.Load? {
        PickRight(code.ids, s.markers);
        if p.Idle? { MoveRight(s, r, Waiting(Pick(code.ids, s.markers), s.markers), start, code); }
      } else if step.Acquire? {
        if p.Waiting? && p.toRun != [] {
          if LockFree(s, code.ttl) { AcquireRight(s, r, start, code); }
          else { MoveRight(s, r, StayedOut, start, code); }
        }
      } else if step.Reload? {
        if p.Holding? {
          PickTwice(code.ids, p.loaded, s.markers);
          MoveRight(s, r, Applying(p.since, Pick(p.toRun, s.markers), 0, false, s.markers), start, code);
        }
      } else if step.Crash? {
        if p.Applying? || p.Failed? { MoveRight(s, r, Over(p.pending, p.done, p.found, s.markers), start, code); }
        else if !p.Over? { MoveRight(s, r, StayedOut, start, code); }
      } else if step.Release? {
        if p.Holding? || p.Failed? || (p.Applying? && p.done >= |p.pending|) { ReleaseRight(s, r, p, start, code); }
      } else if p.Applying? && p.done < |p.pending| {
        ApplyRight(s, step, start, code);
      }
    }
  }

  lemma TickRight(s: State, step: Step, start: set<int>, code: Code)
    requires step.Tick? && Invariant(s, start, code)
    ensures Invariant(Next(s, step, code), start, code)
  {
    var s' := Next(s, step, code);
    forall x: int ensures Commits(s', x) == Commits(s, x) {}
    forall x | x in s'.runners ensures RunnerRight(s', x, s'.runners[x], code) { assert RunnerRight(s, x, s.runners[x], code); }
  }

  lemma ApplyRight(s: State, step: Step, start: set<int>, code: Code)
    requires Invariant(s, start, code)
    requires step.Commit? || step.AutoUp? || step.AutoMark? || step.Fail?
    requires PhaseOf(s, step.r).Applying? && PhaseOf(s, step.r).done < |PhaseOf(s, step.r).pending|
    ensures Invariant(Next(s, step, code), start, code)
  {
    var r, p := step.r, PhaseOf(s, step.r);
    assert RunnerRight(s, r, p, code);
    var id := p.pending[p.done];
    match step {
      case Commit(_) =>
        if id !in code.autocommit { MarkRight(s, r, p, Next(s, step, code), start, code); }
      case AutoUp(_) => if id in code.autocommit && !p.upRan { MoveRight(s, r, p.(upRan := true), start, code); }
      case AutoMark(_) => if id in code.autocommit && p.upRan { MarkRight(s, r, p, Next(s, step, code), start, code); }
      case Fail(_) => MoveRight(s, r, Failed(p.since, p.pending, p.done, p.found), start, code);
    }
  }

  ghost predicate NeverPastTtl(h: seq<Step>, s0: State, code: Code) {
    forall i | 0 <= i < |h| :: WithinTtl(Run(h[..i], s0, code), code.ttl)
  }

  /** Runners at rest: nobody inside, nothing counted yet. */
  predicate AtRest(s: State, code: Code) { Increasing(code.ids) && s.runners == map[] && s.commits == map[] }

  lemma {:induction false} RunKeepsInvariant(h: seq<Step>, s0: State, code: Code)
    requires AtRest(s0, code) && NeverPastTtl(h, s0, code)
    ensures Invariant(Run(h, s0, code), s0.markers, code)
  {
    if h != [] {
      var before := h[..|h| - 1];
      assert forall i | 0 <= i < |before| :: before[..i] == h[..i];
      RunKeepsInvariant(before, s0, code);
      assert WithinTtl(Run(before, s0, code), code.ttl) by { assert h[..|h| - 1] == before; }
      StepKeepsInvariant(Run(before, s0, code), h[|h| - 1], s0.markers, code);
    }
  }

  /** EXACTLY ONCE, WITH ITS MARKER. However runners interleave, crash and steal abandoned locks: while nobody stays inside
      past the expiry, a transactional migration has committed exactly once if its marker is new, and never otherwise. */
  lemma {:induction false} CommittedWithMarker(h: seq<Step>, s0: State, code: Code, id: int)
    requires AtRest(s0, code) && NeverPastTtl(h, s0, code) && id !in code.autocommit
    ensures var s := Run(h, s0, code);
            Commits(s, id) == if id in s.markers && id !in s0.markers then 1 else 0
  {
    RunKeepsInvariant(h, s0, code);
  }

  /** A PREFIX, IN ORDER. What was pending is, in id order, every known migration without a marker at the re-read inside the
      lock; what the runner has applied, when it fails, crashes or finishes, is a prefix of it. While it is inside the store
      holds what it found and that prefix, nothing else; and so it did when the runner was over. */
  lemma {:induction false} AppliedIsPrefix(h: seq<Step>, s0: State, code: Code, r: nat)
    requires AtRest(s0, code) && NeverPastTtl(h, s0, code)
    requires var p := PhaseOf(Run(h, s0, code), r); p.Applying? || p.Failed? || p.Over?
    ensures var s := Run(h, s0, code);
            var p := PhaseOf(s, r);
            && p.pending == Pick(code.ids, p.found) && Increasing(p.pending) && p.done <= |p.pending|
            && (!p.Over? ==> s.markers == p.found + ToSet(p.pending[..p.done]))
            && (p.Over? ==> p.left == p.found + ToSet(p.pending[..p.done]) && p.left <= s.markers)
  {
    RunKeepsInvariant(h, s0, code);
    assert RunnerRight(Run(h, s0, code), r, PhaseOf(Run(h, s0, code), r), code);
    PickRight(code.ids, PhaseOf(Run(h, s0, code), r).found);
  }

  /** At most one runner is inside at any state. */
  lemma {:induction false} MutualExclusion(h: seq<Step>, s0: State, code: Code, r: nat, r': nat)
    requires AtRest(s0, code) && NeverPastTtl(h, s0, code)
    requires Inside(PhaseOf(Run(h, s0, code), r)) && Inside(PhaseOf(Run(h, s0, code), r'))
    ensures r == r'
  {
    RunKeepsInvariant(h, s0, code);
    InsideIsAlone(Run(h, s0, code), s0.markers, code, r, r');
  }

  // ── Where the guarantee stops ──────────────────────────────────────────────

  function NextAll(s: State, steps: seq<Step>, code: Code): State
    decreases |steps|
  {
    if steps == [] then s else NextAll(Next(s, steps[0], code), steps[1..], code)
  }

  lemma RunIsNextAll(h: seq<Step>, rest: seq<Step>, s0: State, code: Code)
    ensures Run(h + rest, s0, code) == NextAll(Run(h, s0, code), rest, code)
    decreases |rest|
  {
    if rest == [] {
      assert h + rest == h;
    } else {
      assert h + rest == h + [rest[0]] + rest[1..];
      assert (h + [rest[0]])[..|h|] == h;
      RunIsNextAll(h + [rest[0]], rest[1..], s0, code);
    }
  }

  const ONE_MIGRATION: Code := Code([7], {}, 600)

  const EMPTY_STORE: State := State({}, None, 0, map[], map[])

  const FIRST_HALF: seq<Step> := [Load(1), Acquire(1), Reload(1), Tick(601)]

  const SECOND_HALF: seq<Step> := [Load(2), Acquire(2), Reload(2), Commit(2), Commit(1)]

  /** The first runner is inside, with its list, one tick past the expiry. */
  predicate Overstayed(s: State) {
    && s.runners == map[1 := Applying(0, [7], 0, false, {})] && s.now == 601
    && s.lock == Some(Lock(1, 0)) && s.markers == {} && s.commits == map[]
  }

  lemma Front(s: State, step: Step, rest: seq<Step>, code: Code)
    ensures NextAll(s, [step] + rest, code) == NextAll(Next(s, step, code), rest, code)
  {
    assert ([step] + rest)[1..] == rest;
  }

  lemma {:induction false} FirstHalf()
    ensures Overstayed(NextAll(EMPTY_STORE, FIRST_HALF, ONE_MIGRATION))
  {
    assert Pick([7], {}) == [7];
    Front(EMPTY_STORE, Load(1), [Acquire(1), Reload(1), Tick(601)], ONE_MIGRATION);
    var s1 := Next(EMPTY_STORE, Load(1), ONE_MIGRATION);
    Front(s1, Acquire(1), [Reload(1), Tick(601)], ONE_MIGRATION);
    var s2 := Next(s1, Acquire(1), ONE_MIGRATION);
    assert PhaseOf(s2, 1) == Holding(0, [7], {});
    Front(s2, Reload(1), [Tick(601)], ONE_MIGRATION);
    Front(Next(s2, Reload(1), ONE_MIGRATION), Tick(601), [], ONE_MIGRATION);
  }

  /** Both runners are where one step each remains: the second has the lock it took over, the first still acts. */
  predicate BothInside(s: State, second: Phase) {
    PhaseOf(s, 2) == second && PhaseOf(s, 1) == Applying(0, [7], 0, false, {}) && s.markers == {} && s.commits == map[]
  }

  lemma TakesOver(s: State)
    requires Overstayed(s)
    ensures BothInside(Next(Next(s, Load(2), ONE_MIGRATION), Acquire(2), ONE_MIGRATION), Holding(601, [7], {}))
  {
    assert Pick([7], {}) == [7];
    var s1 := Next(s, Load(2), ONE_MIGRATION);
    assert PhaseOf(s1, 2) == Waiting([7], {}) && LockFree(s1, 600);
  }

  lemma BothCommit(s: State)
    requires BothInside(s, Holding(601, [7], {}))
    ensures Commits(Next(Next(Next(s, Reload(2), ONE_MIGRATION), Commit(2), ONE_MIGRATION), Commit(1), ONE_MIGRATION), 7) == 2
  {
    assert Pick([7], {}) == [7];
    var s1 := Next(s, Reload(2), ONE_MIGRATION);
    assert BothInside(s1, Applying(601, [7], 0, false, {}));
    var s2 := Next(s1, Commit(2), ONE_MIGRATION);
    assert Commits(s2, 7) == 1 && PhaseOf(s2, 1) == Applying(0, [7], 0, false, {});
  }

  lemma {:induction false} SecondHalf(s: State)
    requires Overstayed(s)
    ensures Commits(NextAll(s, SECOND_HALF, ONE_MIGRATION), 7) == 2
  {
    TakesOver(s);
    var s1 := Next(s, Load(2), ONE_MIGRATION);
    var s2 := Next(s1, Acquire(2), ONE_MIGRATION);
    Front(s, Load(2), [Acquire(2), Reload(2), Commit(2), Commit(1)], ONE_MIGRATION);
    Front(s1, Acquire(2), [Reload(2), Commit(2), Commit(1)], ONE_MIGRATION);
    BothCommit(s2);
    LastThree(s2);
  }

  lemma {:induction false} LastThree(s: State)
    ensures NextAll(s, [Reload(2), Commit(2), Commit(1)], ONE_MIGRATION)
         == Next(Next(Next(s, Reload(2), ONE_MIGRATION), Commit(2), ONE_MIGRATION), Commit(1), ONE_MIGRATION)
  {
    var s1 := Next(s, Reload(2), ONE_MIGRATION);
    var s2 := Next(s1, Commit(2), ONE_MIGRATION);
    Front(s, Reload(2), [Commit(2), Commit(1)], ONE_MIGRATION);
    Front(s1, Commit(2), [Commit(1)], ONE_MIGRATION);
    Front(s2, Commit(1), [], ONE_MIGRATION);
  }

  /** Past the expiry it is lost: a second runner takes the abandoned-looking lock, and the first one, still inside,
      commits the same migration again. */
  lemma PastTtlCommitsTwice()
    ensures AtRest(EMPTY_STORE, ONE_MIGRATION)
    ensures Commits(Run(FIRST_HALF + SECOND_HALF, EMPTY_STORE, ONE_MIGRATION), 7) == 2
  {
    RunIsNextAll([], FIRST_HALF, EMPTY_STORE, ONE_MIGRATION);
    assert [] + FIRST_HALF == FIRST_HALF;
    RunIsNextAll(FIRST_HALF, SECOND_HALF, EMPTY_STORE, ONE_MIGRATION);
    FirstHalf();
    SecondHalf(NextAll(EMPTY_STORE, FIRST_HALF, ONE_MIGRATION));
  }

  // ── Exactly when at-most-once fails ────────────────────────────────────────

  /** Steps that take no time. */
  predicate AtOnce(steps: seq<Step>) { forall k | 0 <= k < |steps| :: !steps[k].Tick? }

  /** The runner is inside with a transactional migration to commit next. */
  predicate AboutToCommit(p: Phase, code: Code) {
    p.Applying? && p.done < |p.pending| && p.pending[p.done] !in code.autocommit
  }

  /** EXACTLY. While a runner is about to commit, some steps from there on — of any runners, without the clock moving —
      commit that migration a second time exactly if the runner has outstayed the expiry. */
  lemma {:induction false} SecondCommitIff(h: seq<Step>, s0: State, code: Code, r: nat)
    requires AtRest(s0, code) && NeverPastTtl(h, s0, code) && code.ttl >= 0
    requires AboutToCommit(PhaseOf(Run(h, s0, code), r), code)
    ensures var p := PhaseOf(Run(h, s0, code), r);
            (exists steps :: AtOnce(steps) && Commits(Run(h + steps, s0, code), p.pending[p.done]) > 1)
            <==> Run(h, s0, code).now > p.since + code.ttl
  {
    var s := Run(h, s0, code);
    var p := PhaseOf(s, r);
    RunKeepsInvariant(h, s0, code);
    if s.now > p.since + code.ttl {
      var f := Above(s.runners.Keys);
      var steps := [Load(f), Acquire(f), Reload(f), Commit(f), Commit(r)];
      RunIsNextAll(h, steps, s0, code);
      OvertakenCommitsTwice(s, s0.markers, code, r, f);
    } else {
      OnlyInside(s, s0.markers, code, r);
      forall steps | AtOnce(steps) ensures Commits(Run(h + steps, s0, code), p.pending[p.done]) <= 1 {
        AtOnceStaysWithin(h, steps, s0, code);
        RunKeepsInvariant(h + steps, s0, code);
      }
    }
  }

  /** Whoever is inside within the expiry is alone, so everyone inside is. */
  lemma OnlyInside(s: State, start: set<int>, code: Code, r: nat)
    requires Invariant(s, start, code) && r in s.runners && Inside(s.runners[r])
    requires s.now <= s.runners[r].since + code.ttl
    ensures WithinTtl(s, code.ttl)
  {
    forall x | x in s.runners && Inside(s.runners[x]) ensures x == r { InsideIsAlone(s, start, code, r, x); }
  }

  lemma StepStaysWithin(s: State, step: Step, code: Code)
    requires !step.Tick? && code.ttl >= 0 && WithinTtl(s, code.ttl)
    ensures WithinTtl(Next(s, step, code), code.ttl)
  {}

  lemma {:induction false} AtOnceStaysWithin(h: seq<Step>, steps: seq<Step>, s0: State, code: Code)
    requires NeverPastTtl(h, s0, code) && WithinTtl(Run(h, s0, code), code.ttl) && code.ttl >= 0 && AtOnce(steps)
    ensures NeverPastTtl(h + steps, s0, code) && WithinTtl(Run(h + steps, s0, code), code.ttl)
    decreases |steps|
  {
    if steps == [] {
      assert h + steps == h;
    } else {
      var n := |steps| - 1;
      var before := h + steps[..n];
      AtOnceStaysWithin(h, steps[..n], s0, code);
      assert h + steps == before + [steps[n]];
      OneMoreWithin(before, steps[n], s0, code);
    }
  }

  lemma {:induction false} OneMoreWithin(h: seq<Step>, step: Step, s0: State, code: Code)
    requires NeverPastTtl(h, s0, code) && WithinTtl(Run(h, s0, code), code.ttl) && code.ttl >= 0 && !step.Tick?
    ensures NeverPastTtl(h + [step], s0, code) && WithinTtl(Run(h + [step], s0, code), code.ttl)
  {
    var longer := h + [step];
    assert longer[..|h|] == h;
    StepStaysWithin(Run(h, s0, code), step, code);
    forall i | 0 <= i < |longer| ensures WithinTtl(Run(longer[..i], s0, code), code.ttl) {
      if i < |h| { assert longer[..i] == h[..i]; }
    }
  }

  /** What a fresh runner finds pending begins with what the one inside is about to commit. */
  lemma FrontIsFirst(s: State, r: nat, p: Phase, code: Code)
    requires Increasing(code.ids) && RunnerRight(s, r, p, code) && p.Applying? && p.done < |p.pending|
    ensures var found := Pick(code.ids, s.markers); found != [] && found[0] == p.pending[p.done]
  {
    var found, id := Pick(code.ids, s.markers), p.pending[p.done];
    PickRight(code.ids, s.markers);
    PickRight(code.ids, p.found);
    FrontIsPending(s, r, p, code);
    assert id in p.pending && id in found;
    var j :| 0 <= j < |found| && found[j] == id;
    var prefix, rest := p.pending[..p.done], p.pending[p.done..];
    assert found[0] in found && p.pending == prefix + rest;
    assert forall x | x in prefix :: x in s.markers;
    assert found[0] in rest;
    var k :| 0 <= k < |rest| && rest[k] == found[0];
    assert rest[k] == p.pending[p.done + k] >= id;
  }

  /** The second runner takes the lock over, commits, and the first, which does not look again, commits too. */
  lemma {:induction false} OvertakenCommitsTwice(s: State, start: set<int>, code: Code, r: nat, f: nat)
    requires Invariant(s, start, code) && AboutToCommit(PhaseOf(s, r), code)
    requires s.now > PhaseOf(s, r).since + code.ttl && f !in s.runners
    ensures Commits(NextAll(s, [Load(f), Acquire(f), Reload(f), Commit(f), Commit(r)], code),
                    PhaseOf(s, r).pending[PhaseOf(s, r).done]) > 1
  {
    var p := PhaseOf(s, r);
    assert RunnerRight(s, r, p, code);
    FrontIsFirst(s, r, p, code);
    var toRun := Pick(code.ids, s.markers);
    var s1 := Next(s, Load(f), code);
    var s2 := Next(s1, Acquire(f), code);
    var s3 := Next(s2, Reload(f), code);
    Front(s, Load(f), [Acquire(f), Reload(f), Commit(f), Commit(r)], code);
    assert s1 == Move(s, f, Waiting(toRun, s.markers));
    Front(s1, Acquire(f), [Reload(f), Commit(f), Commit(r)], code);
    assert PhaseOf(s2, f) == Holding(s.now, toRun, s.markers) && PhaseOf(s2, r) == p;
    Front(s2, Reload(f), [Commit(f), Commit(r)], code);
    PickTwice(code.ids, s.markers, s.markers);
    assert PhaseOf(s3, f) == Applying(s.now, toRun, 0, false, s.markers) && PhaseOf(s3, r) == p;
    BothCommitFront(s3, code, r, f);
  }

  lemma {:induction false} BothCommitFront(s: State, code: Code, r: nat, f: nat)
    requires r != f && AboutToCommit(PhaseOf(s, r), code) && AboutToCommit(PhaseOf(s, f), code)
    requires PhaseOf(s, f).pending[PhaseOf(s, f).done] == PhaseOf(s, r).pending[PhaseOf(s, r).done]
    ensures var id := PhaseOf(s, r).pending[PhaseOf(s, r).done];
            Commits(NextAll(s, [Commit(f), Commit(r)], code), id) == Commits(s, id) + 2
  {
    var id := PhaseOf(s, r).pending[PhaseOf(s, r).done];
    Front(s, Commit(f), [Commit(r)], code);
    var s1 := Next(s, Commit(f), code);
    assert Commits(s1, id) == Commits(s, id) + 1 && PhaseOf(s1, r) == PhaseOf(s, r);
    Front(s1, Commit(r), [], code);
    assert [Commit(r)] + [] == [Commit(r)];
  }

  // ── One runner's pass ──────────────────────────────────────────────────────

  datatype RunResult = RunResult(applied: seq<int>, skipped: seq<int>, pending: seq<int>)

  /** A migration as it is listed: its id as a number, whether its name has the form of an id, whether it has an `up`. */
  datatype Listed = Listed(id: int, wellNamed: bool, hasUp: bool)

  function IdsOf(list: seq<Listed>): (ids: seq<int>)
    ensures |ids| == |list| && forall i | 0 <= i < |list| :: ids[i] == list[i].id
  {
    seq(|list|, i requires 0 <= i < |list| => list[i].id)
  }

  /** What is wrong with the n-th of a list, looked at in the order of the checks. */
  function Problem(list: seq<Listed>, n: nat): Option<RunError>
    requires n < |list|
  {
    if !list[n].wellNamed then Some(MalformedId(n))
    else if list[n].id in IdsOf(list[..n]) then Some(DuplicateId(list[n].id))
    else if !list[n].hasUp then Some(NoUp(list[n].id))
    else None
  }

  predicate Valid(list: seq<Listed>) {
    Distinct(IdsOf(list)) && forall m | m in list :: m.wellNamed && m.hasUp
  }

  datatype RunError = MalformedId(position: nat) | DuplicateId(id: int) | NoUp(id: int) | UnknownTarget(id: int) | Locked | MigrationFailed(id: int)

  function Insert(ids: seq<int>, x: int): seq<int> {
    if ids == [] || ids[|ids| - 1] <= x then ids + [x] else Insert(ids[..|ids| - 1], x) + [ids[|ids| - 1]]
  }

  function Sort(ids: seq<int>): seq<int> {
    if ids == [] then [] else Insert(Sort(ids[..|ids| - 1]), ids[|ids| - 1])
  }

  lemma {:induction false} InsertRight(ids: seq<int>, x: int)
    requires Increasing(ids) && x !in ids
    ensures Increasing(Insert(ids, x)) && forall y :: y in Insert(ids, x) <==> y in ids || y == x
  {
    if ids != [] && ids[|ids| - 1] > x {
      var last := ids[|ids| - 1];
      InsertRight(ids[..|ids| - 1], x);
      assert ids == ids[..|ids| - 1] + [last];
      var r := Insert(ids[..|ids| - 1], x);
      assert forall y | y in r :: y < last;
      assert forall i | 0 <= i < |r| :: r[i] in r;
    } else if ids != [] {
      assert ids[|ids| - 1] in ids;
    }
  }

  lemma {:induction false} SortRight(ids: seq<int>)
    requires Distinct(ids)
    ensures Increasing(Sort(ids)) && forall y :: y in Sort(ids) <==> y in ids
  {
    if ids != [] {
      var before := ids[..|ids| - 1];
      SortRight(before);
      assert ids == before + [ids[|ids| - 1]];
      InsertRight(Sort(before), ids[|ids| - 1]);
    }
  }

  /** The migrations applied before the first failing one. */
  function Prefix(ids: seq<int>, failing: set<int>): (p: seq<int>)
    ensures p <= ids
    decreases |ids|
  {
    if ids == [] || ids[0] in failing then [] else
      assert ids == [ids[0]] + ids[1..];
      [ids[0]] + Prefix(ids[1..], failing)
  }

  lemma {:induction false} PrefixStops(ids: seq<int>, k: nat, failing: set<int>)
    requires k <= |ids| && (forall i | 0 <= i < k :: ids[i] !in failing) && (k < |ids| ==> ids[k] in failing)
    ensures Prefix(ids, failing) == ids[..k]
    decreases k
  {
    if k > 0 {
      PrefixStops(ids[1..], k - 1, failing);
      assert [ids[0]] + ids[1..][..k - 1] == ids[..k];
    }
  }

  predicate InRange(x: int, to: Option<int>) { to.None? || x <= to.value }

  function OutOf(ids: seq<int>, to: Option<int>): set<int> { set x | x in ids && !InRange(x, to) }

  function Selected(ids: seq<int>, to: Option<int>): seq<int> {
    Pick(ids, OutOf(ids, to))
  }

  function Known(ids: seq<int>, to: Option<int>): set<int> { set x | x in ids && InRange(x, to) }

  /** What a run has to apply: everything in range when forced, else what has no marker. */
  function ToRun(sorted: seq<int>, to: Option<int>, force: bool, markers: set<int>): seq<int> {
    if force then Selected(sorted, to) else Pick(Selected(sorted, to), markers)
  }

  /** A run that is not a dry one goes through when it has nothing to apply, or has the lock and no failing migration. */
  predicate GoesThrough(toRun: seq<int>, locked: bool, failing: set<int>) {
    toRun == [] || (!locked && forall id | id in toRun :: id !in failing)
  }

  /** A dry run reports what it would leave out and what it would apply. */
  ghost predicate Reported(r: RunResult, sorted: seq<int>, to: Option<int>, force: bool, markers: set<int>) {
    && r.applied == []
    && ToSet(r.skipped) == (if force then {} else Known(sorted, to) * markers)
    && forall x :: x in r.pending <==> x in ToRun(sorted, to, force, markers) || Unreached(x, sorted, to, markers)
  }

  /** Out of range and without a marker. */
  predicate Unreached(x: int, ids: seq<int>, to: Option<int>, markers: set<int>) {
    x in ids && !InRange(x, to) && x !in markers
  }

  /** Every known migration in range was applied, in order, or skipped because it was there; nothing else changed. */
  ghost predicate Completed(r: RunResult, known: set<int>, force: bool, before: set<int>, after: set<int>) {
    && ToSet(r.applied) == (if force then known else known - before)
    && ToSet(r.skipped) == (if force then {} else known * before)
    && Increasing(r.applied)
    && after == before + ToSet(r.applied)
  }

  /** A migration still pending failed, the first that does: exactly the pending ones before it are in. */
  ghost predicate Aborted(id: int, selected: seq<int>, force: bool, failing: set<int>, before: set<int>, after: set<int>) {
    var pending := if force then selected else Pick(selected, before);
    var applied := Prefix(pending, failing);
    |applied| < |pending| && pending[|applied|] == id && id in failing && after == before + ToSet(applied)
  }

  lemma OneMoreSelected(ids: seq<int>, k: nat, markers: set<int>)
    requires k < |ids|
    ensures ids[..k + 1] == ids[..k] + [ids[k]]
    ensures Pick(ids[..k + 1], markers) == Pick(ids[..k], markers) + if ids[k] in markers then [] else [ids[k]]
    ensures ToSet(ids[..k + 1]) * markers == ToSet(ids[..k]) * markers + if ids[k] in markers then {ids[k]} else {}
  {
    assert ids[..k + 1] == ids[..k] + [ids[k]] && ids[..k + 1][..k] == ids[..k];
    ToSetOfOneMore(ids[..k], ids[k]);
  }

  /** One more listed migration keeps the list valid exactly if it has no problem; an invalid one stays invalid. */
  lemma OneMoreListed(list: seq<Listed>, k: nat)
    requires k < |list| && Valid(list[..k])
    ensures Problem(list, k).None? <==> Valid(list[..k + 1])
    ensures Problem(list, k).Some? ==> !Valid(list)
    ensures ToSet(IdsOf(list[..k + 1])) == ToSet(IdsOf(list[..k])) + {list[k].id}
  {
    var before, after := list[..k], list[..k + 1];
    assert after == before + [list[k]];
    assert IdsOf(after) == IdsOf(before) + [list[k].id];
    ToSetOfOneMore(IdsOf(before), list[k].id);
    assert list[k] in after && list[k] in list;
    assert forall m | m in before :: m in after;
    if list[k].id in IdsOf(before) {
      var i :| 0 <= i < k && IdsOf(before)[i] == list[k].id;
      assert IdsOf(after)[i] == IdsOf(after)[k] && IdsOf(list)[i] == IdsOf(list)[k];
    }
  }

  class MigrationStore {
    var markers: set<int>
    var locked: bool

    /** Applies, inside the lock, what is still pending there; `failing` are the migrations whose transaction fails. */
    method ApplyPending(toRun: seq<int>, force: bool, failing: set<int>)
      returns (applied: seq<int>, skipped: seq<int>, failed: Option<int>)
      modifies this`markers
      ensures var pending := if force then toRun else Pick(toRun, old(markers));
              && applied == Prefix(pending, failing)
              && markers == old(markers) + ToSet(applied)
              && failed == (if |applied| < |pending| then Some(pending[|applied|]) else None)
              && (failed.None? ==> forall id | id in pending :: id !in failing)
              && skipped == Pick(toRun, ToSet(pending))
      ensures failed.Some? ==> failed.value in failing
    {
      var stillPending := if force then toRun else Pick(toRun, markers);
      skipped := Pick(toRun, ToSet(stillPending));
      applied := [];
      for k := 0 to |stillPending|
        invariant applied == stillPending[..k] && forall i | 0 <= i < k :: stillPending[i] !in failing
        invariant markers == old(markers) + ToSet(stillPending[..k])
      {
        if stillPending[k] in failing {
          PrefixStops(stillPending, k, failing);
          return applied, skipped, Some(stillPending[k]);
        }
        markers := markers + {stillPending[k]};
        applied := applied + [stillPending[k]];
        assert stillPending[..k + 1] == stillPending[..k] + [stillPending[k]];
      }
      PrefixStops(stillPending, |stillPending|, failing);
      assert stillPending[..|stillPending|] == stillPending;
      failed := None;
    }

    /** The list in the order of its ids, or the first problem. */
    method ValidateMigrations(list: seq<Listed>) returns (r: Result<seq<int>, RunError>)
      ensures r.Ok? <==> Valid(list)
      ensures r.Ok? ==> r.value == Sort(IdsOf(list))
      ensures r.Err? ==> exists n | 0 <= n < |list| ::
                Valid(list[..n]) && Problem(list, n) == Some(r.error)
    {
      var seen := {};
      for k := 0 to |list|
        invariant seen == ToSet(IdsOf(list[..k])) && Valid(list[..k])
      {
        OneMoreListed(list, k);
        if !list[k].wellNamed { return Err(MalformedId(k)); }
        if list[k].id in seen { return Err(DuplicateId(list[k].id)); }
        seen := seen + {list[k].id};
        if !list[k].hasUp { return Err(NoUp(list[k].id)); }
      }
      assert list[..|list|] == list;
      return Ok(Sort(IdsOf(list)));
    }

    /** What to run, and what is already there. */
    method Plan(sorted: seq<int>, to: Option<int>, force: bool) returns (toRun: seq<int>, skipped: seq<int>)
      ensures toRun == ToRun(sorted, to, force, markers)
      ensures Increasing(sorted) ==> Increasing(toRun)
      ensures ToSet(toRun) == if force then Known(sorted, to) else Known(sorted, to) - markers
      ensures ToSet(skipped) == if force then {} else Known(sorted, to) * markers
    {
      toRun, skipped := [], [];
      var selected := Selected(sorted, to);
      for k := 0 to |selected|
        invariant toRun == if force then selected[..k] else Pick(selected[..k], markers)
        invariant ToSet(skipped) == if force then {} else ToSet(selected[..k]) * markers
      {
        OneMoreSelected(selected, k, markers);
        ToSetOfOneMore(skipped, selected[k]);
        assert Pick(selected[..k], markers) + [] == Pick(selected[..k], markers);
        if selected[k] in markers && !force { skipped := skipped + [selected[k]]; }
        else { toRun := toRun + [selected[k]]; }
      }
      assert selected[..|selected|] == selected;
      PlanRight(sorted, to, markers);
    }

    /** What stays out of range, unapplied. */
    method OutOfRange(sorted: seq<int>, to: Option<int>) returns (pending: seq<int>)
      ensures forall x :: x in pending <==> Unreached(x, sorted, to, markers)
    {
      pending := [];
      for k := 0 to |sorted|
        invariant forall x :: x in pending <==> x in sorted[..k] && !InRange(x, to) && x !in markers
      {
        if !InRange(sorted[k], to) && sorted[k] !in markers { pending := pending + [sorted[k]]; }
      }
    }

    /** `runMigrations` of one process that nobody overtakes. On success every known id in range was applied now or
        skipped, and the store gained exactly the applied ones; on a failure exactly the pending ones before the failing
        one are in; a dry run and a refusal change nothing; a lock that was taken is given back. */
    method RunMigrations(list: seq<Listed>, to: Option<int>, dryRun: bool, force: bool, failing: set<int>)
      returns (r: Result<RunResult, RunError>)
      modifies this
      ensures locked == old(locked)
      ensures !Valid(list) ==> r.Err? && !r.error.MigrationFailed? && r != Err(Locked)
      ensures Valid(list) && to.Some? && to.value !in IdsOf(list) ==> r == Err(UnknownTarget(to.value))
      ensures Valid(list) && (to.Some? ==> to.value in IdsOf(list)) ==>
                && (r.Ok? <==> dryRun || GoesThrough(ToRun(Sort(IdsOf(list)), to, force, old(markers)), old(locked), failing))
                && (r == Err(Locked) <==> !dryRun && old(locked) && ToRun(Sort(IdsOf(list)), to, force, old(markers)) != [])
      ensures r.Ok? && !dryRun ==> Completed(r.value, Known(IdsOf(list), to), force, old(markers), markers)
      ensures r.Ok? && !dryRun ==> forall x :: x in r.value.pending <==> Unreached(x, IdsOf(list), to, old(markers))
      ensures r.Ok? && dryRun ==> markers == old(markers) && Reported(r.value, Sort(IdsOf(list)), to, force, markers)
      ensures r.Err? && r.error.MigrationFailed? ==>
                Aborted(r.error.id, Selected(Sort(IdsOf(list)), to), force, failing, old(markers), markers)
      ensures r.Err? && !r.error.MigrationFailed? ==> markers == old(markers)
    {
      var valid := ValidateMigrations(list);
      if valid.Err? { return Err(valid.error); }
      SortRight(IdsOf(list));
      if to.Some? && to.value !in valid.value { return Err(UnknownTarget(to.value)); }
      assert Known(valid.value, to) == Known(IdsOf(list), to);
      assert forall x :: Unreached(x, valid.value, to, markers) <==> Unreached(x, IdsOf(list), to, markers);
      r := RunSorted(valid.value, to, dryRun, force, failing);
    }

    method RunSorted(sorted: seq<int>, to: Option<int>, dryRun: bool, force: bool, failing: set<int>)
      returns (r: Result<RunResult, RunError>)
      requires Increasing(sorted)
      modifies this
      ensures locked == old(locked)
      ensures r.Ok? <==> dryRun || GoesThrough(ToRun(sorted, to, force, old(markers)), old(locked), failing)
      ensures r == Err(Locked) <==> !dryRun && old(locked) && ToRun(sorted, to, force, old(markers)) != []
      ensures r.Ok? && !dryRun ==> Completed(r.value, Known(sorted, to), force, old(markers), markers)
      ensures r.Ok? && !dryRun ==> forall x :: x in r.value.pending <==> Unreached(x, sorted, to, old(markers))
      ensures r.Ok? && dryRun ==> markers == old(markers) && Reported(r.value, sorted, to, force, markers)
      ensures r.Err? ==> r == Err(Locked) || r.error.MigrationFailed?
      ensures r.Err? && r.error.MigrationFailed? ==>
                Aborted(r.error.id, Selected(sorted, to), force, failing, old(markers), markers)
      ensures r.Err? && !r.error.MigrationFailed? ==> markers == old(markers)
    {
      var toRun, skipped := Plan(sorted, to, force);
      var pending := OutOfRange(sorted, to);
      if dryRun { return Ok(RunResult([], skipped, toRun + pending)); }
      if toRun == [] {
        assert markers + ToSet(toRun) == markers;
        return Ok(RunResult(toRun, skipped, pending));
      }
      if locked { return Err(Locked); }
      var applied, late, failed := MigrateLocked(toRun, Selected(sorted, to), force, failing);
      if failed.Some? { return Err(MigrationFailed(failed.value)); }
      return Ok(RunResult(applied, skipped + late, pending));
    }

    /** The part of a run inside the lock. */
    method MigrateLocked(toRun: seq<int>, ghost selected: seq<int>, force: bool, failing: set<int>)
      returns (applied: seq<int>, skipped: seq<int>, failed: Option<int>)
      requires !locked && toRun == if force then selected else Pick(selected, markers)
      modifies this
      ensures !locked && skipped == []
      ensures markers == old(markers) + ToSet(applied)
      ensures failed.None? ==> applied == toRun && forall id | id in toRun :: id !in failing
      ensures failed.Some? ==> failed.value in failing && applied == Prefix(toRun, failing)
                                && |applied| < |toRun| && failed.value == toRun[|applied|]
    {
      locked := true;
      PickTwice(selected, markers, markers);
      PickRight(toRun, ToSet(toRun));
      applied, skipped, failed := ApplyPending(toRun, force, failing);
      locked := false;
      assert (forall x :: x !in skipped) ==> skipped == [] by { if skipped != [] { assert skipped[0] in skipped; } }
    }
  }

  lemma PlanRight(sorted: seq<int>, to: Option<int>, markers: set<int>)
    ensures var selected, unapplied := Selected(sorted, to), Pick(Selected(sorted, to), markers);
            && ToSet(selected) == Known(sorted, to) && ToSet(unapplied) == Known(sorted, to) - markers
            && (Increasing(sorted) ==> Increasing(selected) && Increasing(unapplied))
  {
    PickRight(sorted, OutOf(sorted, to));
    PickRight(Selected(sorted, to), markers);
    var unapplied := Pick(Selected(sorted, to), markers);
    assert ToSet(Selected(sorted, to)) == Known(sorted, to) by {
      forall x ensures x in ToSet(Selected(sorted, to)) <==> x in Known(sorted, to) {
        assert x in Selected(sorted, to) <==> x in sorted && x !in OutOf(sorted, to);
      }
    }
    assert ToSet(unapplied) == Known(sorted, to) - markers by {
      forall x ensures x in ToSet(unapplied) <==> x in Known(sorted, to) - markers {
        assert x in unapplied <==> x in Selected(sorted, to) && x !in markers;
      }
    }
  }
}
