/** Making the worker pools of a process match the tenants (packages/events/src/tenantQueues.ts:144-149, 241-266,
    329-361). Pools, open producers and remembered pauses are values here; `TenantQueues` is the process's own state,
    changed in place by the loops of `reconcileOnce`.

    A queue in `broken` fails every operation that can fail on it: registering its schedule, pausing, resuming, closing.
 */
module Reconciliation {
  import opened TenantQueueNames

  /** One pool: a worker per tenant, and the tenants whose recurring jobs are registered. */
  datatype Pool = Pool(base: string, workers: set<string>, scheduled: set<string>, schedules: bool)

  /** Open producers, the pause last applied to each queue by this process, and the queues paused in Redis. */
  datatype Queues = Queues(producers: set<string>, remembered: map<string, bool>, stopped: set<string>)

  datatype TenantState = TenantState(id: string, suspended: bool)

  datatype Outcome = Outcome(added: set<string>, removed: set<string>, paused: set<string>, resumed: set<string>,
                             failures: set<string>)

  const NOTHING: Outcome := Outcome({}, {}, {}, {}, {})

  function Both(a: Outcome, b: Outcome): Outcome {
    Outcome(a.added + b.added, a.removed + b.removed, a.paused + b.paused, a.resumed + b.resumed, a.failures + b.failures)
  }

  function Name(base: string, tenantId: string): string { base + "@" + tenantId }

  function Ids(tenants: seq<TenantState>): set<string> { set t | t in tenants :: t.id }

  // ── The steps ──────────────────────────────────────────────────────────────

  datatype Removed = Removed(pool: Pool, out: Outcome)

  datatype Worked = Worked(queues: Queues, pool: Pool, out: Outcome)

  /** `pool.remove` for every tenant that is gone; a worker that fails to close is gone from the pool all the same. */
  function RemoveGone(p: Pool, wanted: set<string>, broken: set<string>): Removed {
    var gone := p.workers - wanted;
    var names := set id | id in gone :: Name(p.base, id);
    Removed(p.(workers := p.workers * wanted, scheduled := p.scheduled - gone),
            Outcome({}, names - broken, {}, {}, names * broken))
  }

  /** `pool.add`: a worker once, its schedule until it is registered. */
  function AddWorker(q: Queues, p: Pool, t: TenantState, broken: set<string>): Worked {
    var name := Name(p.base, t.id);
    if TenantQueueName(p.base, t.id).None? then Worked(q, p, NOTHING.(failures := {name}))
    else
      var p1 := p.(workers := p.workers + {t.id});
      if !p.schedules || t.id in p.scheduled
      then Worked(q, p1, NOTHING.(added := if t.id in p.workers then {} else {name}))
      else
        var q1 := q.(producers := q.producers + {name});
        if name in broken then Worked(q1, p1, NOTHING.(failures := {name}))
        else Worked(q1, p1.(scheduled := p1.scheduled + {t.id}),
                    NOTHING.(added := if t.id in p.workers then {} else {name}))
  }

  /** The pause of one queue, applied when it differs from the one remembered. */
  function ApplyPause(q: Queues, p: Pool, t: TenantState, broken: set<string>): Worked {
    var name := Name(p.base, t.id);
    if name in q.remembered && q.remembered[name] == t.suspended then Worked(q, p, NOTHING)
    else
      var q1 := q.(producers := q.producers + {name});
      if name in broken then Worked(q1, p, NOTHING.(failures := {name}))
      else Worked(q1.(remembered := q.remembered[name := t.suspended],
                      stopped := if t.suspended then q.stopped + {name} else q.stopped - {name}),
                  p, if t.suspended then NOTHING.(paused := {name})
                     else if name in q.remembered then NOTHING.(resumed := {name}) else NOTHING)
  }

  function TenantStep(q: Queues, p: Pool, t: TenantState, broken: set<string>): Worked {
    var w := AddWorker(q, p, t, broken);
    if w.out.failures != {} then w
    else
      var v := ApplyPause(w.queues, w.pool, t, broken);
      Worked(v.queues, v.pool, Both(w.out, v.out))
  }

  function OverTenants(q: Queues, p: Pool, tenants: seq<TenantState>, broken: set<string>): Worked {
    if tenants == [] then Worked(q, p, NOTHING) else
      var before := OverTenants(q, p, tenants[..|tenants| - 1], broken);
      var w := TenantStep(before.queues, before.pool, tenants[|tenants| - 1], broken);
      Worked(w.queues, w.pool, Both(before.out, w.out))
  }

  function PoolStep(q: Queues, p: Pool, tenants: seq<TenantState>, broken: set<string>): Worked {
    var removed := RemoveGone(p, Ids(tenants), broken);
    var w := OverTenants(q, removed.pool, tenants, broken);
    Worked(w.queues, w.pool, Both(removed.out, w.out))
  }

  datatype Reconciled = Reconciled(queues: Queues, pools: seq<Pool>, out: Outcome)

  function OverPools(q: Queues, pools: seq<Pool>, tenants: seq<TenantState>, broken: set<string>): Reconciled {
    if pools == [] then Reconciled(q, [], NOTHING) else
      var before := OverPools(q, pools[..|pools| - 1], tenants, broken);
      var w := PoolStep(before.queues, pools[|pools| - 1], tenants, broken);
      Reconciled(w.queues, before.pools + [w.pool], Both(before.out, w.out))
  }

  /** The open producers whose tenant is gone. */
  function GoneProducers(q: Queues, wanted: set<string>): set<string> {
    set n | n in q.producers && SplitTenantQueueName(n).Some? && SplitTenantQueueName(n).value.tenantId !in wanted
  }

  /** `dropProducer`: the producer and the remembered pause go together, even when the close fails. */
  function DropGone(q: Queues, wanted: set<string>): Queues {
    var gone := GoneProducers(q, wanted);
    q.(producers := q.producers - gone, remembered := q.remembered - gone)
  }

  function Reconcile(q: Queues, pools: seq<Pool>, tenants: seq<TenantState>, broken: set<string>): Reconciled {
    var r := OverPools(q, pools, tenants, broken);
    r.(queues := DropGone(r.queues, Ids(tenants)),
       out := Both(r.out, NOTHING.(failures := GoneProducers(r.queues, Ids(tenants)) * broken)))
  }

  // ── What holds of a process ────────────────────────────────────────────────

  /** A pause is remembered only while its producer is open. What Redis keeps may differ from what is remembered. */
  predicate ValidQueues(q: Queues) { q.remembered.Keys <= q.producers }

  predicate ValidPool(p: Pool) { IsBase(p.base) && p.scheduled <= p.workers }

  /** A tenant appears once, with the id of a tenant. */
  predicate ValidTenants(tenants: seq<TenantState>) {
    && (forall t | t in tenants :: IsTenantId(t.id))
    && (forall t, u | t in tenants && u in tenants && t.id == u.id :: t == u)
  }

  predicate PauseRight(q: Queues, base: string, t: TenantState) {
    Name(base, t.id) in q.remembered && q.remembered[Name(base, t.id)] == t.suspended
  }

  /** The queue of the tenant is paused in Redis exactly if the tenant is suspended. */
  predicate PauseReal(q: Queues, base: string, t: TenantState) {
    Name(base, t.id) in q.stopped <==> t.suspended
  }

  /** What is remembered to be right is right. */
  predicate Truthful(q: Queues, base: string, t: TenantState) {
    PauseRight(q, base, t) ==> PauseReal(q, base, t)
  }

  /** Everything matches: workers, schedules, pauses, and no producer of a tenant that is gone. */
  predicate Converged(q: Queues, pools: seq<Pool>, tenants: seq<TenantState>) {
    && (forall p | p in pools :: p.workers == Ids(tenants) && (p.schedules ==> p.scheduled == Ids(tenants)))
    && (forall p, t | p in pools && t in tenants :: PauseRight(q, p.base, t))
    && GoneProducers(q, Ids(tenants)) == {}
  }

  lemma NamesDiffer(base: string, id: string, base': string, id': string)
    requires IsBase(base) && IsTenantId(id) && IsBase(base') && IsTenantId(id')
    requires Name(base, id) == Name(base', id')
    ensures base == base' && id == id'
  {
    SplitInvertsName(Name(base, id), base, id);
    SplitInvertsName(Name(base, id), base', id');
  }

  // ── Convergence ────────────────────────────────────────────────────────────

  lemma StepKeepsQueues(q: Queues, p: Pool, t: TenantState, broken: set<string>)
    requires ValidQueues(q)
    ensures ValidQueues(TenantStep(q, p, t, broken).queues)
  {}

  /** One tenant: its worker is there whatever fails, and unless its queue is broken its schedule and pause are right. */
  lemma StepSettlesTenant(q: Queues, p: Pool, t: TenantState, broken: set<string>)
    requires ValidPool(p) && IsTenantId(t.id)
    ensures var w := TenantStep(q, p, t, broken);
            && Grown(p, w.pool, {t.id}) && ValidPool(w.pool)
            && (Name(p.base, t.id) in broken || Settled(w.queues, w.pool, t))
  {}

  /** The schedule of the tenant is registered and its pause is the tenant's. */
  predicate Settled(q: Queues, p: Pool, t: TenantState) {
    PauseRight(q, p.base, t) && (p.schedules ==> t.id in p.scheduled)
  }

  lemma StepKeepsPause(q: Queues, p: Pool, t: TenantState, broken: set<string>, base: string, u: TenantState)
    requires IsBase(p.base) && IsTenantId(t.id) && IsBase(base) && IsTenantId(u.id) && (t.id == u.id ==> t == u)
    requires PauseRight(q, base, u)
    ensures PauseRight(TenantStep(q, p, t, broken).queues, base, u)
  {
    if Name(base, u.id) == Name(p.base, t.id) { NamesDiffer(base, u.id, p.base, t.id); }
  }

  predicate PoolSettled(q: Queues, p: Pool, tenants: seq<TenantState>, broken: set<string>) {
    forall t | t in tenants && Name(p.base, t.id) !in broken :: Settled(q, p, t)
  }

  /** The pool got the workers `ids`, and at most their schedules. */
  predicate Grown(p: Pool, p': Pool, ids: set<string>) {
    && p' == p.(workers := p.workers + ids, scheduled := p'.scheduled)
    && p.scheduled <= p'.scheduled <= p.scheduled + ids
  }

  lemma GrownTwice(p: Pool, p1: Pool, p2: Pool, a: set<string>, b: set<string>)
    requires Grown(p, p1, a) && Grown(p1, p2, b)
    ensures Grown(p, p2, a + b)
  {
    assert p.workers + a + b == p.workers + (a + b);
  }

  lemma IdsOfOneMore(before: seq<TenantState>, t: TenantState)
    ensures Ids(before + [t]) == Ids(before) + {t.id}
  {
    forall x ensures x in Ids(before + [t]) <==> x in Ids(before) + {t.id} {
      if x == t.id { assert (before + [t])[|before|] == t; }
    }
  }

  lemma {:induction false} TenantsSettle(q: Queues, p: Pool, tenants: seq<TenantState>, broken: set<string>)
    requires ValidQueues(q) && ValidPool(p) && ValidTenants(tenants)
    ensures var w := OverTenants(q, p, tenants, broken);
            && ValidQueues(w.queues) && ValidPool(w.pool) && Grown(p, w.pool, Ids(tenants))
            && PoolSettled(w.queues, w.pool, tenants, broken)
  {
    if tenants != [] {
      var n := |tenants| - 1;
      var before, t := tenants[..n], tenants[n];
      assert t in tenants;
      TenantsSettle(q, p, before, broken);
      var w := OverTenants(q, p, before, broken);
      assert tenants == before + [t];
      IdsOfOneMore(before, t);
      TenantAfter(q, p, before, t, broken, w);
    }
  }

  lemma TenantAfter(q: Queues, p: Pool, before: seq<TenantState>, t: TenantState, broken: set<string>, w: Worked)
    requires ValidTenants(before + [t]) && ValidQueues(w.queues) && ValidPool(w.pool)
    requires Grown(p, w.pool, Ids(before)) && PoolSettled(w.queues, w.pool, before, broken)
    ensures var v := TenantStep(w.queues, w.pool, t, broken);
            && ValidQueues(v.queues) && ValidPool(v.pool) && Grown(p, v.pool, Ids(before) + {t.id})
            && PoolSettled(v.queues, v.pool, before + [t], broken)
  {
    assert t in before + [t];
    StepSettlesTenant(w.queues, w.pool, t, broken);
    StepKeepsQueues(w.queues, w.pool, t, broken);
    GrownTwice(p, w.pool, TenantStep(w.queues, w.pool, t, broken).pool, Ids(before), {t.id});
    StepKeepsSettled(w.queues, w.pool, before, t, broken);
  }

  lemma StepKeepsSettled(q: Queues, p: Pool, before: seq<TenantState>, t: TenantState, broken: set<string>)
    requires ValidPool(p) && ValidTenants(before + [t]) && PoolSettled(q, p, before, broken)
    ensures var w := TenantStep(q, p, t, broken); PoolSettled(w.queues, w.pool, before + [t], broken)
  {
    var w := TenantStep(q, p, t, broken);
    assert t in before + [t];
    StepSettlesTenant(q, p, t, broken);
    forall v | v in before && Name(p.base, v.id) !in broken ensures Settled(w.queues, w.pool, v) {
      assert v in before + [t] && Settled(q, p, v);
      StepKeepsPause(q, p, t, broken, p.base, v);
    }
  }

  lemma {:induction false} TenantsKeepPause(q: Queues, p: Pool, tenants: seq<TenantState>, broken: set<string>,
                                            base: string, u: TenantState)
    requires ValidQueues(q) && ValidPool(p) && ValidTenants(tenants) && IsBase(base) && IsTenantId(u.id)
    requires (forall t | t in tenants && t.id == u.id :: t == u) && PauseRight(q, base, u)
    ensures PauseRight(OverTenants(q, p, tenants, broken).queues, base, u)
  {
    if tenants != [] {
      var n := |tenants| - 1;
      assert tenants[n] in tenants;
      TenantsKeepPause(q, p, tenants[..n], broken, base, u);
      TenantsSettle(q, p, tenants[..n], broken);
      var w := OverTenants(q, p, tenants[..n], broken);
      StepKeepsPause(w.queues, w.pool, tenants[n], broken, base, u);
    }
  }

  /** What one pool is left as: the wanted workers whatever is broken, and every queue that is not broken settled. */
  predicate PoolRight(q: Queues, was: Pool, p: Pool, tenants: seq<TenantState>, broken: set<string>) {
    && ValidPool(p) && p.base == was.base && p.schedules == was.schedules
    && p.workers == Ids(tenants) && p.scheduled <= Ids(tenants)
    && PoolSettled(q, p, tenants, broken)
  }

  lemma PoolStepSettles(q: Queues, p: Pool, tenants: seq<TenantState>, broken: set<string>)
    requires ValidQueues(q) && ValidPool(p) && ValidTenants(tenants)
    ensures var w := PoolStep(q, p, tenants, broken);
            ValidQueues(w.queues) && PoolRight(w.queues, p, w.pool, tenants, broken)
  {
    var removed := RemoveGone(p, Ids(tenants), broken).pool;
    TenantsSettle(q, removed, tenants, broken);
    assert removed.workers + Ids(tenants) == Ids(tenants);
  }

  lemma PoolStepKeeps(q: Queues, p: Pool, tenants: seq<TenantState>, broken: set<string>, was: Pool, done: Pool)
    requires ValidQueues(q) && ValidPool(p) && ValidTenants(tenants)
    requires PoolRight(q, was, done, tenants, broken)
    ensures PoolRight(PoolStep(q, p, tenants, broken).queues, was, done, tenants, broken)
  {
    var removed := RemoveGone(p, Ids(tenants), broken).pool;
    forall t | t in tenants && Name(done.base, t.id) !in broken
      ensures Settled(PoolStep(q, p, tenants, broken).queues, done, t)
    {
      assert Settled(q, done, t);
      TenantsKeepPause(q, removed, tenants, broken, done.base, t);
    }
  }

  lemma {:induction false} PoolsSettle(q: Queues, pools: seq<Pool>, tenants: seq<TenantState>, broken: set<string>)
    requires ValidQueues(q) && ValidTenants(tenants) && forall p | p in pools :: ValidPool(p)
    ensures var r := OverPools(q, pools, tenants, broken);
            && ValidQueues(r.queues) && |r.pools| == |pools|
            && forall i | 0 <= i < |pools| :: PoolRight(r.queues, pools[i], r.pools[i], tenants, broken)
  {
    if pools != [] {
      var n := |pools| - 1;
      assert pools[n] in pools;
      PoolsSettle(q, pools[..n], tenants, broken);
      var r := OverPools(q, pools[..n], tenants, broken);
      PoolStepSettles(r.queues, pools[n], tenants, broken);
      forall i | 0 <= i < n
        ensures PoolRight(PoolStep(r.queues, pools[n], tenants, broken).queues, pools[i], r.pools[i], tenants, broken)
      {
        PoolStepKeeps(r.queues, pools[n], tenants, broken, pools[i], r.pools[i]);
      }
    }
  }

  lemma DropKeepsWanted(q: Queues, tenants: seq<TenantState>, base: string, t: TenantState)
    requires t in tenants && IsTenantId(t.id) && IsBase(base) && PauseRight(q, base, t)
    ensures PauseRight(DropGone(q, Ids(tenants)), base, t)
  {
    SplitInvertsName(Name(base, t.id), base, t.id);
  }

  /** CONVERGENCE. From any state, whatever queues are broken, every pool ends with exactly the tenants' workers, every
      queue that works ends with its schedule and the tenant's pause, and no producer of a tenant that is gone stays. */
  lemma ReconcileSettles(q: Queues, pools: seq<Pool>, tenants: seq<TenantState>, broken: set<string>)
    requires ValidQueues(q) && ValidTenants(tenants) && forall p | p in pools :: ValidPool(p)
    ensures var r := Reconcile(q, pools, tenants, broken);
            && ValidQueues(r.queues) && |r.pools| == |pools|
            && (forall i | 0 <= i < |pools| :: PoolRight(r.queues, pools[i], r.pools[i], tenants, broken))
            && GoneProducers(r.queues, Ids(tenants)) == {}
  {
    PoolsSettle(q, pools, tenants, broken);
    var r := OverPools(q, pools, tenants, broken);
    var final := DropGone(r.queues, Ids(tenants));
    forall i, t | 0 <= i < |pools| && t in tenants && Name(pools[i].base, t.id) !in broken
      ensures Settled(final, r.pools[i], t)
    {
      assert PoolRight(r.queues, pools[i], r.pools[i], tenants, broken);
      assert Settled(r.queues, r.pools[i], t);
      DropKeepsWanted(r.queues, tenants, pools[i].base, t);
    }
  }

  /** Without a broken queue one pass is enough. */
  lemma ReconcileConverges(q: Queues, pools: seq<Pool>, tenants: seq<TenantState>)
    requires ValidQueues(q) && ValidTenants(tenants) && forall p | p in pools :: ValidPool(p)
    ensures var r := Reconcile(q, pools, tenants, {}); Converged(r.queues, r.pools, tenants)
  {
    ReconcileSettles(q, pools, tenants, {});
    var r := Reconcile(q, pools, tenants, {});
    forall p | p in r.pools
      ensures p.workers == Ids(tenants) && (p.schedules ==> p.scheduled == Ids(tenants))
      ensures forall t | t in tenants :: PauseRight(r.queues, p.base, t)
    {
      var i :| 0 <= i < |r.pools| && r.pools[i] == p;
      assert PoolRight(r.queues, pools[i], p, tenants, {});
      forall t | t in tenants ensures Settled(r.queues, p, t) {}
    }
  }

  // ── The real pauses ────────────────────────────────────────────────────────

  lemma StepKeepsTruth(q: Queues, p: Pool, t: TenantState, broken: set<string>, base: string, u: TenantState)
    requires IsBase(p.base) && IsTenantId(t.id) && IsBase(base) && IsTenantId(u.id) && (t.id == u.id ==> t == u)
    requires Name(base, u.id) !in broken
    ensures Truthful(TenantStep(q, p, t, broken).queues, base, u) <==> Truthful(q, base, u)
  {
    if Name(base, u.id) == Name(p.base, t.id) { NamesDiffer(base, u.id, p.base, t.id); }
  }

  lemma {:induction false} TenantsKeepTruth(q: Queues, p: Pool, tenants: seq<TenantState>, broken: set<string>,
                                            base: string, u: TenantState)
    requires ValidQueues(q) && ValidPool(p) && ValidTenants(tenants) && IsBase(base) && IsTenantId(u.id)
    requires (forall t | t in tenants && t.id == u.id :: t == u) && Name(base, u.id) !in broken
    ensures Truthful(OverTenants(q, p, tenants, broken).queues, base, u) <==> Truthful(q, base, u)
  {
    if tenants != [] {
      var n := |tenants| - 1;
      assert tenants[n] in tenants;
      TenantsKeepTruth(q, p, tenants[..n], broken, base, u);
      TenantsSettle(q, p, tenants[..n], broken);
      var w := OverTenants(q, p, tenants[..n], broken);
      StepKeepsTruth(w.queues, w.pool, tenants[n], broken, base, u);
    }
  }

  lemma {:induction false} PoolsKeepTruth(q: Queues, pools: seq<Pool>, tenants: seq<TenantState>, broken: set<string>,
                                          base: string, u: TenantState)
    requires ValidQueues(q) && ValidTenants(tenants) && forall p | p in pools :: ValidPool(p)
    requires u in tenants && IsBase(base) && Name(base, u.id) !in broken
    ensures Truthful(OverPools(q, pools, tenants, broken).queues, base, u) <==> Truthful(q, base, u)
  {
    if pools != [] {
      var n := |pools| - 1;
      assert pools[n] in pools;
      PoolsKeepTruth(q, pools[..n], tenants, broken, base, u);
      PoolsSettle(q, pools[..n], tenants, broken);
      var r := OverPools(q, pools[..n], tenants, broken);
      TenantsKeepTruth(r.queues, RemoveGone(pools[n], Ids(tenants), broken).pool, tenants, broken, base, u);
    }
  }

  /** EXACTLY. From any state, a pass makes the real pause of a queue that works right exactly if that queue was not
      remembered right while Redis kept the opposite: such a queue is skipped. */
  lemma RealPauseIff(q: Queues, pools: seq<Pool>, tenants: seq<TenantState>, broken: set<string>, i: nat, u: TenantState)
    requires ValidQueues(q) && ValidTenants(tenants) && forall p | p in pools :: ValidPool(p)
    requires i < |pools| && u in tenants && Name(pools[i].base, u.id) !in broken
    ensures PauseReal(Reconcile(q, pools, tenants, broken).queues, pools[i].base, u) <==> Truthful(q, pools[i].base, u)
  {
    var base := pools[i].base;
    assert pools[i] in pools;
    PoolsKeepTruth(q, pools, tenants, broken, base, u);
    ReconcileSettles(q, pools, tenants, broken);
    var r := Reconcile(q, pools, tenants, broken);
    assert PoolRight(r.queues, pools[i], r.pools[i], tenants, broken);
    assert Settled(r.queues, r.pools[i], u);
  }

  /** Without a broken queue: every real pause is right after a pass exactly if what was remembered right was right. */
  lemma AllRealPausesIff(q: Queues, pools: seq<Pool>, tenants: seq<TenantState>)
    requires ValidQueues(q) && ValidTenants(tenants) && forall p | p in pools :: ValidPool(p)
    ensures (forall i, u | 0 <= i < |pools| && u in tenants ::
               PauseReal(Reconcile(q, pools, tenants, {}).queues, pools[i].base, u))
            <==> (forall i, u | 0 <= i < |pools| && u in tenants :: Truthful(q, pools[i].base, u))
  {
    forall i, u | 0 <= i < |pools| && u in tenants
      ensures PauseReal(Reconcile(q, pools, tenants, {}).queues, pools[i].base, u) <==> Truthful(q, pools[i].base, u)
    {
      RealPauseIff(q, pools, tenants, {}, i, u);
    }
  }

  // ── The second pass ────────────────────────────────────────────────────────

  lemma {:induction false} QuietTenants(q: Queues, p: Pool, all: seq<TenantState>, tenants: seq<TenantState>)
    requires p.workers == Ids(all) && (p.schedules ==> p.scheduled == Ids(all)) && IsBase(p.base)
    requires forall t | t in tenants :: t in all && IsTenantId(t.id) && PauseRight(q, p.base, t)
    ensures OverTenants(q, p, tenants, {}) == Worked(q, p, NOTHING)
  {
    if tenants != [] {
      var n := |tenants| - 1;
      var t := tenants[n];
      assert t in tenants;
      QuietTenants(q, p, all, tenants[..n]);
      assert t.id in Ids(all);
      assert p.workers + {t.id} == p.workers;
      assert AddWorker(q, p, t, {}) == Worked(q, p, NOTHING);
      assert ApplyPause(q, p, t, {}) == Worked(q, p, NOTHING);
    }
  }

  lemma QuietPool(q: Queues, p: Pool, tenants: seq<TenantState>)
    requires p.workers == Ids(tenants) && (p.schedules ==> p.scheduled == Ids(tenants)) && ValidPool(p)
    requires ValidTenants(tenants) && forall t | t in tenants :: PauseRight(q, p.base, t)
    ensures PoolStep(q, p, tenants, {}) == Worked(q, p, NOTHING)
  {
    var removed := RemoveGone(p, Ids(tenants), {});
    assert p.workers - Ids(tenants) == {} && p.workers * Ids(tenants) == p.workers && p.scheduled - {} == p.scheduled;
    assert removed.pool == p && removed.out == NOTHING;
    QuietTenants(q, p, tenants, tenants);
    BothNothing(NOTHING);
  }

  lemma OneMorePool(q: Queues, pools: seq<Pool>, tenants: seq<TenantState>, i: nat, broken: set<string>)
    requires i < |pools|
    ensures var before := OverPools(q, pools[..i], tenants, broken);
            var w := PoolStep(before.queues, pools[i], tenants, broken);
            OverPools(q, pools[..i + 1], tenants, broken)
            == Reconciled(w.queues, before.pools + [w.pool], Both(before.out, w.out))
  {
    assert pools[..i + 1][..i] == pools[..i];
  }

  lemma {:induction false} QuietPools(q: Queues, pools: seq<Pool>, tenants: seq<TenantState>)
    requires forall p | p in pools :: PoolStep(q, p, tenants, {}) == Worked(q, p, NOTHING)
    ensures OverPools(q, pools, tenants, {}) == Reconciled(q, pools, NOTHING)
  {
    if pools != [] {
      var n := |pools| - 1;
      assert pools[n] in pools;
      QuietPools(q, pools[..n], tenants);
      OneMoreQuiet(q, pools, tenants);
    }
  }

  lemma OneMoreQuiet(q: Queues, pools: seq<Pool>, tenants: seq<TenantState>)
    requires pools != [] && PoolStep(q, pools[|pools| - 1], tenants, {}) == Worked(q, pools[|pools| - 1], NOTHING)
    requires OverPools(q, pools[..|pools| - 1], tenants, {}) == Reconciled(q, pools[..|pools| - 1], NOTHING)
    ensures OverPools(q, pools, tenants, {}) == Reconciled(q, pools, NOTHING)
  {
    var n := |pools| - 1;
    OneMorePool(q, pools, tenants, n, {});
    BothNothing(NOTHING);
    assert pools[..n] + [pools[n]] == pools == pools[..n + 1];
  }

  lemma ConvergedPassIsQuiet(q: Queues, pools: seq<Pool>, tenants: seq<TenantState>)
    requires ValidTenants(tenants) && Converged(q, pools, tenants) && forall p | p in pools :: ValidPool(p)
    ensures Reconcile(q, pools, tenants, {}) == Reconciled(q, pools, NOTHING)
  {
    forall p | p in pools ensures PoolStep(q, p, tenants, {}) == Worked(q, p, NOTHING) {
      QuietPool(q, p, tenants);
    }
    QuietPools(q, pools, tenants);
    BothNothing(NOTHING);
    assert q.remembered - {} == q.remembered && q.producers - {} == q.producers;
  }

  lemma PoolsStayValid(q: Queues, pools: seq<Pool>, tenants: seq<TenantState>)
    requires ValidQueues(q) && ValidTenants(tenants) && forall p | p in pools :: ValidPool(p)
    ensures forall p | p in Reconcile(q, pools, tenants, {}).pools :: ValidPool(p)
  {
    ReconcileSettles(q, pools, tenants, {});
    var r := Reconcile(q, pools, tenants, {});
    forall p | p in r.pools ensures ValidPool(p) {
      var i :| 0 <= i < |r.pools| && r.pools[i] == p;
      assert PoolRight(r.queues, pools[i], p, tenants, {});
    }
  }

  /** IDEMPOTENCE. An immediate second pass changes nothing and reports nothing. */
  lemma SecondPassIsQuiet(q: Queues, pools: seq<Pool>, tenants: seq<TenantState>)
    requires ValidQueues(q) && ValidTenants(tenants) && forall p | p in pools :: ValidPool(p)
    ensures var r := Reconcile(q, pools, tenants, {});
            Reconcile(r.queues, r.pools, tenants, {}) == Reconciled(r.queues, r.pools, NOTHING)
  {
    ReconcileSettles(q, pools, tenants, {});
    ReconcileConverges(q, pools, tenants);
    PoolsStayValid(q, pools, tenants);
    var r := Reconcile(q, pools, tenants, {});
    ConvergedPassIsQuiet(r.queues, r.pools, tenants);
  }

  /** A tenant that was removed leaves no remembered pause behind: re-created, its pause is applied anew, whatever
      other queues fail. */
  lemma RecreatedTenantForgotten(q: Queues, pools: seq<Pool>, tenants: seq<TenantState>, broken: set<string>,
                                 base: string, id: string)
    requires ValidQueues(q) && ValidTenants(tenants) && forall p | p in pools :: ValidPool(p)
    requires IsBase(base) && IsTenantId(id) && id !in Ids(tenants)
    ensures var r := Reconcile(q, pools, tenants, broken);
            Name(base, id) !in r.queues.remembered
  {
    ReconcileSettles(q, pools, tenants, broken);
    var r := Reconcile(q, pools, tenants, broken);
    SplitInvertsName(Name(base, id), base, id);
    assert Name(base, id) in r.queues.producers ==> Name(base, id) in GoneProducers(r.queues, Ids(tenants));
  }

  lemma BothAssociates(a: Outcome, b: Outcome, c: Outcome)
    ensures Both(Both(a, b), c) == Both(a, Both(b, c))
  {
    assert a.added + b.added + c.added == a.added + (b.added + c.added);
    assert a.removed + b.removed + c.removed == a.removed + (b.removed + c.removed);
    assert a.paused + b.paused + c.paused == a.paused + (b.paused + c.paused);
    assert a.resumed + b.resumed + c.resumed == a.resumed + (b.resumed + c.resumed);
    assert a.failures + b.failures + c.failures == a.failures + (b.failures + c.failures);
  }

  lemma BothNothing(a: Outcome)
    ensures Both(a, NOTHING) == a
  {
    assert a.added + {} == a.added && a.removed + {} == a.removed && a.paused + {} == a.paused;
    assert a.resumed + {} == a.resumed && a.failures + {} == a.failures;
  }

  lemma OneMoreTenant(q: Queues, p: Pool, tenants: seq<TenantState>, j: nat, broken: set<string>)
    requires j < |tenants|
    ensures var before := OverTenants(q, p, tenants[..j], broken);
            var w := TenantStep(before.queues, before.pool, tenants[j], broken);
            OverTenants(q, p, tenants[..j + 1], broken) == Worked(w.queues, w.pool, Both(before.out, w.out))
  {
    assert tenants[..j + 1][..j] == tenants[..j];
  }

  // ── The process ────────────────────────────────────────────────────────────

  /** The module state of a process and its `reconcileOnce`. */
  class TenantQueues {
    var queues: Queues
    var pools: seq<Pool>

    constructor (pools: seq<Pool>)
      ensures queues == Queues({}, map[], {}) && this.pools == pools
    {
      queues := Queues({}, map[], {});
      this.pools := pools;
    }

    method RemoveWorkers(i: nat, wanted: set<string>, broken: set<string>) returns (out: Outcome)
      requires i < |pools|
      modifies this`pools
      ensures pools == old(pools)[i := RemoveGone(old(pools)[i], wanted, broken).pool]
      ensures out == RemoveGone(old(pools)[i], wanted, broken).out
    {
      var p := pools[i];
      var todo := p.workers - wanted;
      var workers, scheduled, removed, failures := p.workers, p.scheduled, {}, {};
      ghost var gone := todo;
      while todo != {}
        invariant todo <= gone && workers == p.workers - (gone - todo) && scheduled == p.scheduled - (gone - todo)
        invariant removed == (set id | id in gone - todo :: Name(p.base, id)) - broken
        invariant failures == (set id | id in gone - todo :: Name(p.base, id)) * broken
        decreases todo
      {
        assert (forall id :: id !in todo) ==> todo == {};
        var id :| id in todo;
        assert gone - (todo - {id}) == (gone - todo) + {id};
        todo := todo - {id};
        workers, scheduled := workers - {id}, scheduled - {id};
        var name := Name(p.base, id);
        if name in broken { failures := failures + {name}; } else { removed := removed + {name}; }
      }
      assert gone - {} == gone && p.workers - gone == p.workers * wanted;
      pools := pools[i := p.(workers := workers, scheduled := scheduled)];
      out := Outcome({}, removed, {}, {}, failures);
    }

    method ReconcileTenant(i: nat, t: TenantState, broken: set<string>) returns (out: Outcome)
      requires i < |pools|
      modifies this
      ensures var w := TenantStep(old(queues), old(pools)[i], t, broken);
              queues == w.queues && pools == old(pools)[i := w.pool] && out == w.out
    {
      var p := pools[i];
      var name := Name(p.base, t.id);
      out := NOTHING;
      if TenantQueueName(p.base, t.id).None? { return NOTHING.(failures := {name}); }
      var had := t.id in p.workers;
      if !had { pools := pools[i := p.(workers := p.workers + {t.id})]; }
      assert had ==> p.workers + {t.id} == p.workers;
      if p.schedules && t.id !in p.scheduled {
        queues := queues.(producers := queues.producers + {name});
        if name in broken { return NOTHING.(failures := {name}); }
        pools := pools[i := pools[i].(scheduled := p.scheduled + {t.id})];
      }
      if !had { out := out.(added := {name}); }
      if name in queues.remembered && queues.remembered[name] == t.suspended { return; }
      queues := queues.(producers := queues.producers + {name});
      if name in broken { return out.(failures := {name}); }
      if t.suspended {
        queues := queues.(stopped := queues.stopped + {name});
        out := out.(paused := {name});
      } else {
        queues := queues.(stopped := queues.stopped - {name});
        if name in queues.remembered { out := out.(resumed := {name}); }
      }
      queues := queues.(remembered := queues.remembered[name := t.suspended]);
    }

    method ReconcilePool(i: nat, tenants: seq<TenantState>, broken: set<string>) returns (out: Outcome)
      requires i < |pools|
      modifies this
      ensures var w := PoolStep(old(queues), old(pools)[i], tenants, broken);
              queues == w.queues && pools == old(pools)[i := w.pool] && out == w.out
    {
      ghost var removed := RemoveGone(pools[i], Ids(tenants), broken);
      ghost var pools0, w := pools, Worked(queues, removed.pool, NOTHING);
      out := RemoveWorkers(i, Ids(tenants), broken);
      BothNothing(out);
      for j := 0 to |tenants|
        invariant i < |pools0| && pools == pools0[i := w.pool]
        invariant w == OverTenants(old(queues), removed.pool, tenants[..j], broken)
        invariant queues == w.queues && out == Both(removed.out, w.out)
      {
        OneMoreTenant(old(queues), removed.pool, tenants, j, broken);
        var o := ReconcileTenant(i, tenants[j], broken);
        BothAssociates(removed.out, w.out, o);
        out := Both(out, o);
        w := OverTenants(old(queues), removed.pool, tenants[..j + 1], broken);
      }
      assert tenants[..|tenants|] == tenants;
    }

    method DropProducers(wanted: set<string>, broken: set<string>) returns (failures: set<string>)
      modifies this`queues
      ensures queues == DropGone(old(queues), wanted)
      ensures failures == GoneProducers(old(queues), wanted) * broken
    {
      var todo := GoneProducers(queues, wanted);
      ghost var gone := todo;
      failures := {};
      while todo != {}
        invariant todo <= gone && failures == (gone - todo) * broken
        invariant queues == old(queues).(producers := old(queues).producers - (gone - todo),
                                         remembered := old(queues).remembered - (gone - todo))
        decreases todo
      {
        assert (forall n :: n !in todo) ==> todo == {};
        var n :| n in todo;
        assert gone - (todo - {n}) == (gone - todo) + {n};
        todo := todo - {n};
        queues := queues.(producers := queues.producers - {n}, remembered := queues.remembered - {n});
        if n in broken { failures := failures + {n}; }
      }
      assert gone - {} == gone;
    }

    method ReconcileOnce(tenants: seq<TenantState>, broken: set<string>) returns (out: Outcome)
      modifies this
      ensures var r := Reconcile(old(queues), old(pools), tenants, broken);
              queues == r.queues && pools == r.pools && out == r.out
    {
      out := NOTHING;
      ghost var before, r := pools, Reconciled(queues, [], NOTHING);
      for i := 0 to |pools|
        invariant |pools| == |before| && forall k | i <= k < |pools| :: pools[k] == before[k]
        invariant r == OverPools(old(queues), before[..i], tenants, broken)
        invariant queues == r.queues && pools[..i] == r.pools && out == r.out
      {
        assert pools[i] == before[i];
        OneMorePool(old(queues), before, tenants, i, broken);
        var o := ReconcilePool(i, tenants, broken);
        out := Both(out, o);
        assert pools[..i + 1] == pools[..i] + [pools[i]];
        r := OverPools(old(queues), before[..i + 1], tenants, broken);
      }
      assert before[..|before|] == before && pools[..|pools|] == pools;
      var failures := DropProducers(Ids(tenants), broken);
      out := Both(out, NOTHING.(failures := failures));
    }
  }
}
