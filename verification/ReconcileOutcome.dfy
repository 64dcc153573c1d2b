/** What a pass of `reconcileOnce` reports (packages/events/src/tenantQueues.ts:329-361), queue by queue: said of the state
    before it, of the tenants and of the queues that are broken.
 */
module ReconcileOutcome {
  import opened Wrappers
  import opened TenantQueueNames
  import opened Reconciliation

  /** The pause this process last applied to a queue. */
  function Memory(q: Queues, name: string): Option<bool> {
    if name in q.remembered then Some(q.remembered[name]) else None
  }

  // ── One tenant of one pool ─────────────────────────────────────────────────

  lemma StepTells(q: Queues, p: Pool, t: TenantState, broken: set<string>)
    requires ValidPool(p) && IsTenantId(t.id)
    ensures var w, n := TenantStep(q, p, t, broken), Name(p.base, t.id);
            var right := Memory(q, n) == Some(t.suspended);
            && w.out.added == (if t.id !in p.workers && (!p.schedules || n !in broken) then {n} else {})
            && w.out.paused == (if t.suspended && n !in broken && !right then {n} else {})
            && w.out.resumed == (if !t.suspended && n !in broken && Memory(q, n) == Some(true) then {n} else {})
            && w.out.failures == (if n in broken && ((p.schedules && t.id !in p.scheduled) || !right) then {n} else {})
            && w.out.removed == {}
  {}

  lemma StepRemembers(q: Queues, p: Pool, t: TenantState, broken: set<string>, name: string)
    requires ValidPool(p) && IsTenantId(t.id)
    ensures var w, n := TenantStep(q, p, t, broken), Name(p.base, t.id);
            Memory(w.queues, name) == if name == n && n !in broken then Some(t.suspended) else Memory(q, name)
  {}

  lemma StepWorks(q: Queues, p: Pool, t: TenantState, broken: set<string>, id: string)
    requires ValidPool(p) && IsTenantId(t.id)
    ensures var w, n := TenantStep(q, p, t, broken), Name(p.base, t.id);
            && ValidPool(w.pool) && w.pool.base == p.base && w.pool.schedules == p.schedules
            && (id in w.pool.workers <==> id in p.workers || id == t.id)
            && (id in w.pool.scheduled <==> id in p.scheduled || (id == t.id && p.schedules && n !in broken))
  {}

  // ── All tenants of one pool ────────────────────────────────────────────────

  /** What is reported of the queue of `u` in a pool, whose turn has come or not. */
  predicate Told(q: Queues, p: Pool, come: bool, u: TenantState, broken: set<string>, out: Outcome) {
    var n := Name(p.base, u.id);
    && (n in out.added <==> come && u.id !in p.workers && (!p.schedules || n !in broken))
    && (n in out.paused <==> come && n !in broken && u.suspended && Memory(q, n) != Some(true))
    && (n in out.resumed <==> come && n !in broken && !u.suspended && Memory(q, n) == Some(true))
    && (n in out.failures <==>
          come && n in broken && ((p.schedules && u.id !in p.scheduled) || Memory(q, n) != Some(u.suspended)))
    && n !in out.removed
  }

  /** How far the pool and the memory are with the queue of `u`. */
  predicate Moved(q: Queues, p: Pool, come: bool, u: TenantState, broken: set<string>, w: Worked) {
    var n := Name(p.base, u.id);
    && ValidPool(w.pool) && w.pool.base == p.base && w.pool.schedules == p.schedules
    && Memory(w.queues, n) == (if come && n !in broken then Some(u.suspended) else Memory(q, n))
    && (u.id in w.pool.workers <==> u.id in p.workers || come)
    && (u.id in w.pool.scheduled <==> u.id in p.scheduled || (come && p.schedules && n !in broken))
  }

  lemma {:induction false} TenantsTell(q: Queues, p: Pool, tenants: seq<TenantState>, broken: set<string>, u: TenantState)
    requires ValidPool(p) && IsTenantId(u.id) && ValidTenants(tenants) && forall t | t in tenants && t.id == u.id :: t == u
    ensures var w := OverTenants(q, p, tenants, broken);
            Told(q, p, u in tenants, u, broken, w.out) && Moved(q, p, u in tenants, u, broken, w)
  {
    if tenants != [] {
      var n := |tenants| - 1;
      var before, t := tenants[..n], tenants[n];
      assert t in tenants && forall x | x in before :: x in tenants;
      TenantsTell(q, p, before, broken, u);
      assert tenants == before + [t];
      TellsOneMore(q, p, u in before, t, u, broken, OverTenants(q, p, before, broken));
      assert u in tenants <==> u in before || u == t;
    }
  }

  lemma TellsOneMore(q: Queues, p: Pool, come: bool, t: TenantState, u: TenantState, broken: set<string>, w: Worked)
    requires ValidPool(p) && IsTenantId(t.id) && IsTenantId(u.id) && (t.id == u.id ==> t == u)
    requires Told(q, p, come, u, broken, w.out) && Moved(q, p, come, u, broken, w)
    ensures var v := TenantStep(w.queues, w.pool, t, broken);
            var now := come || u == t;
            && Told(q, p, now, u, broken, Both(w.out, v.out))
            && Moved(q, p, now, u, broken, Worked(v.queues, v.pool, Both(w.out, v.out)))
  {
    StepTells(w.queues, w.pool, t, broken);
    StepRemembers(w.queues, w.pool, t, broken, Name(p.base, u.id));
    StepWorks(w.queues, w.pool, t, broken, u.id);
    if Name(p.base, t.id) == Name(p.base, u.id) { NamesDiffer(p.base, t.id, p.base, u.id); }
  }

  // ── All pools ──────────────────────────────────────────────────────────────

  /** A pool works for tenants. */
  predicate TenantPool(p: Pool) { ValidPool(p) && forall id | id in p.workers :: IsTenantId(id) }

  /** What is reported of the queue of a wanted tenant. */
  predicate WantedTold(q: Queues, pools: seq<Pool>, base: string, u: TenantState, broken: set<string>, out: Outcome) {
    var n := Name(base, u.id);
    var polled := exists p | p in pools :: p.base == base;
    && (n in out.added <==> exists p | p in pools :: p.base == base && u.id !in p.workers && (!p.schedules || n !in broken))
    && (n in out.paused <==> polled && n !in broken && u.suspended && Memory(q, n) != Some(true))
    && (n in out.resumed <==> polled && n !in broken && !u.suspended && Memory(q, n) == Some(true))
    && (n in out.failures <==>
          && n in broken
          && exists p | p in pools ::
               p.base == base && ((p.schedules && u.id !in p.scheduled) || Memory(q, n) != Some(u.suspended)))
    && n !in out.removed
  }

  predicate Remembered(q: Queues, pools: seq<Pool>, base: string, u: TenantState, broken: set<string>, q': Queues) {
    var n := Name(base, u.id);
    Memory(q', n)
    == if (exists p | p in pools :: p.base == base) && n !in broken then Some(u.suspended) else Memory(q, n)
  }

  /** One pool, and a queue of one of its tenants. */
  lemma PoolTells(q: Queues, p: Pool, tenants: seq<TenantState>, broken: set<string>, u: TenantState)
    requires TenantPool(p) && ValidTenants(tenants) && u in tenants
    ensures var w, n := PoolStep(q, p, tenants, broken), Name(p.base, u.id);
            Told(q, p, true, u, broken, w.out) && Memory(w.queues, n) == if n !in broken then Some(u.suspended) else Memory(q, n)
  {
    var removed := RemoveGone(p, Ids(tenants), broken);
    assert u.id in Ids(tenants);
    TenantsTell(q, removed.pool, tenants, broken, u);
    forall id | id in p.workers - Ids(tenants) ensures Name(p.base, id) != Name(p.base, u.id) {
      if Name(p.base, id) == Name(p.base, u.id) { NamesDiffer(p.base, id, p.base, u.id); }
    }
  }

  /** One tenant's turn in the pool of another base leaves a queue alone. */
  lemma OtherStep(q: Queues, p: Pool, t: TenantState, broken: set<string>, base: string, id: string)
    requires ValidPool(p) && IsTenantId(t.id) && IsBase(base) && IsTenantId(id) && (p.base != base || t.id != id)
    ensures var w, n := TenantStep(q, p, t, broken), Name(base, id);
            Silent(w.out, n) && Untouched(q, w.queues, n) && ValidPool(w.pool) && w.pool.base == p.base
  {
    StepTells(q, p, t, broken);
    StepRemembers(q, p, t, broken, Name(base, id));
    StepWorks(q, p, t, broken, id);
    if Name(p.base, t.id) == Name(base, id) { NamesDiffer(p.base, t.id, base, id); }
  }

  /** Nothing is reported of the queue. */
  predicate Silent(out: Outcome, n: string) {
    n !in out.added && n !in out.removed && n !in out.paused && n !in out.resumed && n !in out.failures
  }

  predicate Untouched(q: Queues, q': Queues, n: string) {
    Memory(q', n) == Memory(q, n) && (n in q'.producers <==> n in q.producers)
  }

  lemma {:induction false} OtherTenants(q: Queues, p: Pool, tenants: seq<TenantState>, broken: set<string>, base: string,
                                        id: string)
    requires ValidPool(p) && ValidTenants(tenants) && IsBase(base) && IsTenantId(id)
    requires p.base != base || id !in Ids(tenants)
    ensures var w, n := OverTenants(q, p, tenants, broken), Name(base, id);
            Silent(w.out, n) && Untouched(q, w.queues, n) && ValidPool(w.pool) && w.pool.base == p.base
  {
    if tenants != [] {
      var n := |tenants| - 1;
      assert tenants[n] in tenants && forall x | x in tenants[..n] :: x in tenants;
      OtherTenants(q, p, tenants[..n], broken, base, id);
      var w := OverTenants(q, p, tenants[..n], broken);
      OtherStep(w.queues, w.pool, tenants[n], broken, base, id);
    }
  }

  lemma OtherPool(q: Queues, p: Pool, tenants: seq<TenantState>, broken: set<string>, base: string, id: string)
    requires TenantPool(p) && ValidTenants(tenants) && IsBase(base) && IsTenantId(id) && p.base != base
    ensures var w, n := PoolStep(q, p, tenants, broken), Name(base, id);
            Silent(w.out, n) && Untouched(q, w.queues, n)
  {
    OtherTenants(q, RemoveGone(p, Ids(tenants), broken).pool, tenants, broken, base, id);
    forall x | x in p.workers - Ids(tenants) ensures Name(p.base, x) != Name(base, id) {
      if Name(p.base, x) == Name(base, id) { NamesDiffer(p.base, x, base, id); }
    }
  }

  /** One pool, of the same base or of another. */
  predicate PoolTold(q: Queues, p: Pool, base: string, u: TenantState, broken: set<string>, w: Worked) {
    var n := Name(base, u.id);
    if p.base == base
    then && Told(q, p, true, u, broken, w.out)
         && Memory(w.queues, n) == if n !in broken then Some(u.suspended) else Memory(q, n)
    else Silent(w.out, n) && Memory(w.queues, n) == Memory(q, n)
  }

  lemma OnePool(q: Queues, p: Pool, tenants: seq<TenantState>, broken: set<string>, base: string, u: TenantState)
    requires ValidTenants(tenants) && u in tenants && IsBase(base) && TenantPool(p)
    ensures PoolTold(q, p, base, u, broken, PoolStep(q, p, tenants, broken))
  {
    if p.base == base { PoolTells(q, p, tenants, broken, u); } else { OtherPool(q, p, tenants, broken, base, u.id); }
  }

  lemma {:induction false} PoolsTell(q: Queues, pools: seq<Pool>, tenants: seq<TenantState>, broken: set<string>, base: string,
                                     u: TenantState)
    requires ValidTenants(tenants) && u in tenants && IsBase(base) && forall p | p in pools :: TenantPool(p)
    ensures var r := OverPools(q, pools, tenants, broken);
            WantedTold(q, pools, base, u, broken, r.out) && Remembered(q, pools, base, u, broken, r.queues)
  {
    if pools != [] {
      var n := |pools| - 1;
      var before, p := pools[..n], pools[n];
      assert p in pools && forall x | x in before :: x in pools;
      PoolsTell(q, before, tenants, broken, base, u);
      var r := OverPools(q, before, tenants, broken);
      OnePool(r.queues, p, tenants, broken, base, u);
      assert pools == before + [p];
      ToldOneMore(q, before, p, base, u, broken, r.queues, r.out, PoolStep(r.queues, p, tenants, broken));
    }
  }

  lemma ToldOneMore(q: Queues, before: seq<Pool>, p: Pool, base: string, u: TenantState, broken: set<string>, q1: Queues,
                    out: Outcome, w: Worked)
    requires WantedTold(q, before, base, u, broken, out) && Remembered(q, before, base, u, broken, q1)
    requires PoolTold(q1, p, base, u, broken, w)
    ensures WantedTold(q, before + [p], base, u, broken, Both(out, w.out))
    ensures Remembered(q, before + [p], base, u, broken, w.queues)
  {
    assert forall x :: x in before + [p] <==> x in before || x == p;
  }

  /** WHAT IS REPORTED of the queue of a wanted tenant: added, exactly if a pool had no worker for it and nothing it needed was
      broken; paused or resumed, exactly if the queue works and the pause last applied was another one; failed, exactly if it
      is broken and needed its schedule or its pause. */
  lemma WantedQueueTold(q: Queues, pools: seq<Pool>, tenants: seq<TenantState>, broken: set<string>, base: string,
                        u: TenantState)
    requires ValidTenants(tenants) && u in tenants && IsBase(base) && forall p | p in pools :: TenantPool(p)
    ensures WantedTold(q, pools, base, u, broken, Reconcile(q, pools, tenants, broken).out)
  {
    PoolsTell(q, pools, tenants, broken, base, u);
    var r := OverPools(q, pools, tenants, broken);
    assert u.id in Ids(tenants);
    SplitInvertsName(Name(base, u.id), base, u.id);
    assert Name(base, u.id) !in GoneProducers(r.queues, Ids(tenants));
  }

  /** What is reported of the queue of a tenant that is gone. */
  predicate GoneTold(pools: seq<Pool>, base: string, id: string, broken: set<string>, out: Outcome) {
    var n := Name(base, id);
    var worked := exists p | p in pools :: p.base == base && id in p.workers;
    && (n in out.removed <==> worked && n !in broken)
    && (n in out.failures <==> worked && n in broken)
    && n !in out.added && n !in out.paused && n !in out.resumed
  }

  lemma GonePool(q: Queues, p: Pool, tenants: seq<TenantState>, broken: set<string>, base: string, id: string)
    requires TenantPool(p) && ValidTenants(tenants) && IsBase(base) && IsTenantId(id) && id !in Ids(tenants)
    ensures var w := PoolStep(q, p, tenants, broken);
            GoneTold([p], base, id, broken, w.out) && Untouched(q, w.queues, Name(base, id))
  {
    OtherTenants(q, RemoveGone(p, Ids(tenants), broken).pool, tenants, broken, base, id);
    assert p in [p];
    forall x | x in p.workers - Ids(tenants) ensures Name(p.base, x) == Name(base, id) ==> p.base == base && x == id {
      if Name(p.base, x) == Name(base, id) { NamesDiffer(p.base, x, base, id); }
    }
  }

  lemma {:induction false} GonePools(q: Queues, pools: seq<Pool>, tenants: seq<TenantState>, broken: set<string>, base: string,
                                     id: string)
    requires ValidTenants(tenants) && IsBase(base) && IsTenantId(id) && id !in Ids(tenants)
    requires forall p | p in pools :: TenantPool(p)
    ensures var r := OverPools(q, pools, tenants, broken);
            GoneTold(pools, base, id, broken, r.out) && Untouched(q, r.queues, Name(base, id))
  {
    if pools != [] {
      var n := |pools| - 1;
      var before, p := pools[..n], pools[n];
      assert p in pools && forall x | x in before :: x in pools;
      GonePools(q, before, tenants, broken, base, id);
      var r := OverPools(q, before, tenants, broken);
      GonePool(r.queues, p, tenants, broken, base, id);
      assert pools == before + [p];
      GoneOneMore(before, p, base, id, broken, r.out, PoolStep(r.queues, p, tenants, broken).out);
    }
  }

  lemma GoneOneMore(before: seq<Pool>, p: Pool, base: string, id: string, broken: set<string>, out: Outcome, more: Outcome)
    requires GoneTold(before, base, id, broken, out) && GoneTold([p], base, id, broken, more)
    ensures GoneTold(before + [p], base, id, broken, Both(out, more))
  {
    assert forall x :: x in before + [p] <==> x in before || x in [p];
  }

  /** And of one that is gone: removed, exactly if a pool had a worker for it and its queue works; failed, exactly if the
      queue is broken and had a worker or an open producer. */
  lemma GoneQueueTold(q: Queues, pools: seq<Pool>, tenants: seq<TenantState>, broken: set<string>, base: string, id: string)
    requires ValidTenants(tenants) && IsBase(base) && IsTenantId(id) && id !in Ids(tenants)
    requires forall p | p in pools :: TenantPool(p)
    ensures var out, n := Reconcile(q, pools, tenants, broken).out, Name(base, id);
            var worked := exists p | p in pools :: p.base == base && id in p.workers;
            && (n in out.removed <==> worked && n !in broken)
            && (n in out.failures <==> n in broken && (worked || n in q.producers))
            && n !in out.added && n !in out.paused && n !in out.resumed
  {
    GonePools(q, pools, tenants, broken, base, id);
    SplitInvertsName(Name(base, id), base, id);
    var r := OverPools(q, pools, tenants, broken);
    assert Name(base, id) in GoneProducers(r.queues, Ids(tenants)) <==> Name(base, id) in q.producers;
  }
}
