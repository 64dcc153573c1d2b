/** Turn-taking among the jobs of a process (packages/events/src/tenantQueues.ts:186-204): at most `limit` holders,
    the others wait, first come first served. A turn starts when it is granted to a piece of work.
 */
module Turns {
  import opened Basics

  datatype TurnState = TurnState(running: nat, waiting: seq<int>)

  /** A piece of work asks for a turn, or one that holds a turn ends — normally or by throwing. */
  datatype TurnEvent = Arrive(work: int) | End

  // ── The reference: what an observer of the events knows ────────────────────

  function Arrivals(h: seq<TurnEvent>): seq<int> {
    if h == [] then [] else
      var before := Arrivals(h[..|h| - 1]);
      match h[|h| - 1] case Arrive(w) => before + [w] case End => before
  }

  function Ended(h: seq<TurnEvent>): nat {
    if h == [] then 0 else Ended(h[..|h| - 1]) + if h[|h| - 1].End? then 1 else 0
  }

  /** Only work that was granted a turn can end, and work ends once: an end needs someone who arrived and has not
      ended. With a limit of at least one, that someone holds a turn. */
  predicate Legal(h: seq<TurnEvent>) {
    h == [] || (Legal(h[..|h| - 1]) && (h[|h| - 1].End? ==> Ended(h[..|h| - 1]) < |Arrivals(h[..|h| - 1])|))
  }

  // ── The program ────────────────────────────────────────────────────────────

  function Next(s: TurnState, limit: nat, e: TurnEvent): TurnState
    requires e.End? ==> s.running > 0 || s.waiting != []
  {
    match e
    case Arrive(w) => if s.running < limit then s.(running := s.running + 1) else s.(waiting := s.waiting + [w])
    case End => if s.waiting != [] then s.(waiting := s.waiting[1..]) else s.(running := s.running - 1)
  }

  /** The works that were granted a turn, in the order of the grants. */
  function Granted(s: TurnState, limit: nat, e: TurnEvent): seq<int>
  {
    match e
    case Arrive(w) => if s.running < limit then [w] else []
    case End => if s.waiting != [] then [s.waiting[0]] else []
  }

  ghost function After(h: seq<TurnEvent>, limit: nat): (s: TurnState)
    requires limit > 0 && Legal(h)
    ensures s.running == Min(limit, |Arrivals(h)| - Ended(h))
    ensures |s.waiting| == |Arrivals(h)| - Ended(h) - s.running
  {
    if h == [] then TurnState(0, []) else Next(After(h[..|h| - 1], limit), limit, h[|h| - 1])
  }

  ghost function Grants(h: seq<TurnEvent>, limit: nat): seq<int>
    requires limit > 0 && Legal(h)
  {
    if h == [] then [] else
      Grants(h[..|h| - 1], limit) + Granted(After(h[..|h| - 1], limit), limit, h[|h| - 1])
  }

  /** In every interleaving of arrivals and ends: the turns in use are as many as the unfinished work needs, up to the
      limit — none lost, none over — and turns are granted in exactly the order of arrival, the rest waiting in that
      order too. */
  lemma {:induction false} TurnsAreFair(h: seq<TurnEvent>, limit: nat)
    requires limit > 0 && Legal(h)
    ensures var s := After(h, limit);
            && s.running == Min(limit, |Arrivals(h)| - Ended(h))
            && (s.waiting != [] ==> s.running == limit)
            && Arrivals(h) == Grants(h, limit) + s.waiting
            && |Grants(h, limit)| == Ended(h) + s.running
  {
    if h != [] {
      var before, e := h[..|h| - 1], h[|h| - 1];
      TurnsAreFair(before, limit);
      var s := After(before, limit);
      match e {
        case Arrive(w) =>
          if s.running < limit {
            assert s.waiting == [];
            assert Grants(before, limit) + [w] + [] == Grants(before, limit) + [] + [w];
          } else {
            assert Grants(before, limit) + [] == Grants(before, limit);
            assert Grants(before, limit) + s.waiting + [w] == Grants(before, limit) + (s.waiting + [w]);
          }
        case End =>
          if s.waiting != [] {
            assert Grants(before, limit) + s.waiting == Grants(before, limit) + [s.waiting[0]] + s.waiting[1..];
          } else {
            assert Grants(before, limit) + [] + [] == Grants(before, limit);
          }
      }
    }
  }

  /** The object: `Request` is the entry of `run`, `Release` its `finally`. */
  class TurnTaker {
    var running: nat
    var waiting: seq<int>
    const limit: nat

    constructor (limit: nat)
      ensures this.limit == limit && State() == TurnState(0, [])
    {
      this.limit := limit;
      running, waiting := 0, [];
    }

    function State(): TurnState
      reads this
    {
      TurnState(running, waiting)
    }

    method Request(work: int) returns (granted: bool)
      modifies this
      ensures State() == Next(old(State()), limit, Arrive(work))
      ensures granted <==> Granted(old(State()), limit, Arrive(work)) == [work]
    {
      if running < limit {
        running := running + 1;
        granted := true;
      } else {
        waiting := waiting + [work];
        granted := false;
      }
    }

    method Release() returns (next: seq<int>)
      requires running > 0 || waiting != []
      modifies this
      ensures State() == Next(old(State()), limit, End)
      ensures next == Granted(old(State()), limit, End)
    {
      if waiting != [] {
        next := [waiting[0]];
        waiting := waiting[1..];
      } else {
        next := [];
        running := running - 1;
      }
    }
  }
}
