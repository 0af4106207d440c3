/** Tenants stay inside their pools, as far as sessions go. */
module AffinityIsolation {
  import opened Keys
  import opened Redis
  import opened Routing
  import opened Affinity

  // ---- Pool confinement ---------------------------------------------------

  function Allowed(bound: map<PoolId, set<string>>, p: PoolId): set<string> {
    if p in bound then bound[p] else {}
  }

  /** No pool ever has members beyond `bound`; for fixed pools `bound` is the pools themselves. */
  ghost predicate PoolsWithin(s: State, bound: map<PoolId, set<string>>) {
    forall p <- s.pools :: s.pools[p] <= Allowed(bound, p)
  }

  ghost predicate CleanEvent(e: Event) {
    e.Begin? && e.request.Resolves() ==> e.request.key.Clean()
  }

  /** The address belongs to the tenant's own pool, or to the default pool for a tenant that has none. */
  predicate InTenantPool(cfg: Config, bound: map<PoolId, set<string>>, tenant: string, addr: string) {
    if tenant in cfg.tenants.tenants then addr in Allowed(bound, cfg.tenants.tenants[tenant])
    else
      && cfg.tenants.policy.UseDefault? && cfg.tenants.fallback.Some?
      && addr in Allowed(bound, cfg.tenants.fallback.value)
  }

  /** Every stored session has a session id, and a backend from its tenant's pool. */
  ghost predicate StoreConfined(cfg: Config, bound: map<PoolId, set<string>>, db: Db) {
    forall k: SessionKey | k.Clean() && SessionRedisKey(cfg.prefix, k) in db.entries ::
      k.sessionId != "" && InTenantPool(cfg, bound, k.tenant, db.entries[SessionRedisKey(cfg.prefix, k)].value)
  }

  predicate CallConfined(cfg: Config, bound: map<PoolId, set<string>>, c: Call) {
    c.request.Resolves() ==>
      && c.request.key.Clean()
      && (c.picked.Some? ==> InTenantPool(cfg, bound, c.request.key.tenant, c.picked.value))
      && match c.pc
         case SessionExpire(hit) => InTenantPool(cfg, bound, c.request.key.tenant, hit)
         case Done(Bound(addr, _)) => InTenantPool(cfg, bound, c.request.key.tenant, addr)
         case Done(Unbound(addr)) => InTenantPool(cfg, bound, c.request.key.tenant, addr)
         case _ => true
  }

  /** What a late SET NX would store is as confined as what is stored. */
  ghost predicate CommandConfined(cfg: Config, bound: map<PoolId, set<string>>, c: Command) {
    c.SetNx? ==>
      forall k: SessionKey | k.Clean() && SessionRedisKey(cfg.prefix, k) == c.key ::
        k.sessionId != "" && InTenantPool(cfg, bound, k.tenant, c.value)
  }

  ghost predicate Confined(cfg: Config, bound: map<PoolId, set<string>>, s: State) {
    && StoreConfined(cfg, bound, s.db)
    && (forall c | c in s.late :: CommandConfined(cfg, bound, c))
    && forall id <- s.calls :: CallConfined(cfg, bound, s.calls[id])
  }

  lemma PendingConfined(cfg: Config, bound: map<PoolId, set<string>>, c: Call)
    requires WellFormed(cfg, c) && !c.pc.Local() && CallConfined(cfg, bound, c)
    ensures CommandConfined(cfg, bound, Pending(cfg, c))
  {
    if c.pc.Bind? {
      forall k: SessionKey | k.Clean() && SessionRedisKey(cfg.prefix, k) == Pending(cfg, c).key
        ensures k.sessionId != "" && InTenantPool(cfg, bound, k.tenant, Pending(cfg, c).value)
      {
        SessionKeyInjective(cfg.prefix, k, c.request.key);
      }
    }
  }

  /** Whatever the server executes, or will execute late, is confined. */
  lemma CommandsConfined(cfg: Config, bound: map<PoolId, set<string>>, s: State, e: Event, s': State)
    requires Valid(cfg, s) && Next(cfg, s, e, s') && Confined(cfg, bound, s)
    ensures Executed(cfg, s, e).Some? ==> CommandConfined(cfg, bound, Executed(cfg, s, e).value)
    ensures forall c | c in s'.late :: CommandConfined(cfg, bound, c)
  {
    if (e.RunCommand? || e.Abandon?) && Waiting(cfg, s, e.id) { PendingConfined(cfg, bound, s.calls[e.id]); }
  }

  lemma StoreConfinedStep(cfg: Config, bound: map<PoolId, set<string>>, s: State, e: Event, s': State)
    requires Valid(cfg, s) && Next(cfg, s, e, s') && Confined(cfg, bound, s)
    ensures StoreConfined(cfg, bound, s'.db)
  {
    CommandsConfined(cfg, bound, s, e, s');
    forall k: SessionKey | k.Clean() && SessionRedisKey(cfg.prefix, k) in s'.db.entries
      ensures k.sessionId != ""
      ensures InTenantPool(cfg, bound, k.tenant, s'.db.entries[SessionRedisKey(cfg.prefix, k)].value)
    {
      SessionEntryEffect(cfg, k, s, e, s');
    }
  }

  /** The call's own step. */
  lemma CallConfinedOwnStep(cfg: Config, bound: map<PoolId, set<string>>, s: State, e: Event, s': State)
    requires Valid(cfg, s) && Next(cfg, s, e, s') && StoreConfined(cfg, bound, s.db)
    requires IsStep(e) && (e.id in s.calls ==> CallConfined(cfg, bound, s.calls[e.id]))
    requires PoolsWithin(s, bound) && CleanEvent(e)
    ensures e.id in s'.calls && CallConfined(cfg, bound, s'.calls[e.id])
  {
    if e.id in s.calls {
      var c := s.calls[e.id];
      if c.request.Resolves() && SessionRedisKey(cfg.prefix, c.request.key) in s.db.entries {
        var rk := SessionRedisKey(cfg.prefix, c.request.key);
        assert InTenantPool(cfg, bound, c.request.key.tenant, s.db.entries[rk].value);
      }
    }
  }

  lemma CallsConfinedStep(cfg: Config, bound: map<PoolId, set<string>>, s: State, e: Event, s': State)
    requires Valid(cfg, s) && Next(cfg, s, e, s') && Confined(cfg, bound, s)
    requires PoolsWithin(s, bound) && CleanEvent(e)
    ensures forall id <- s'.calls :: CallConfined(cfg, bound, s'.calls[id])
  {
    forall id <- s'.calls ensures CallConfined(cfg, bound, s'.calls[id]) {
      if StepOf(e, id) {
        CallConfinedOwnStep(cfg, bound, s, e, s');
      } else {
        assert s'.calls[id] == s.calls[id];
      }
    }
  }

  /** Answers of session routing, and only those, are for keys with a session id; an unbound pick is for
      a key without one. */
  lemma BoundIffSessionId(cfg: Config, ss: seq<State>, es: seq<Event>, n: nat, id: nat)
    requires IsFullRun(cfg, ss, es) && n < |ss| && id in ss[n].calls && ss[n].calls[id].pc.Done?
    requires ss[n].calls[id].pc.outcome.Bound? || ss[n].calls[id].pc.outcome.Unbound?
    ensures ss[n].calls[id].request.Resolves()
    ensures ss[n].calls[id].pc.outcome.Bound? <==> ss[n].calls[id].request.key.sessionId != ""
  {
    RunValid(cfg, ss, es, n);
  }

  /** Denial from the configuration alone: a resolve that is answered by session
      routing is denied if and only if its tenant has no pool of its own and the policy rejects such
      tenants. So a configured tenant is never denied, whatever the policy. */
  lemma DeniedIffUnknownAndRejected(cfg: Config, ss: seq<State>, es: seq<Event>, n: nat, id: nat)
    requires IsFullRun(cfg, ss, es) && n < |ss| && id in ss[n].calls && ss[n].calls[id].request.Resolves()
    requires ss[n].calls[id].pc.Done?
    requires !ss[n].calls[id].pc.outcome.OpHit? && !ss[n].calls[id].pc.outcome.Abandoned?
    ensures ss[n].calls[id].pc.outcome.Denied?
       <==> ss[n].calls[id].request.key.tenant !in cfg.tenants.tenants && cfg.tenants.policy.Reject?
  {
    RunValid(cfg, ss, es, n);
  }

  /** Pool confinement: in every run over clean keys, with pools that never leave `bound`, each
      stored session and each session answer names a backend of the tenant's own pool; keys
      without a session id and tenants without a pool are never stored. */
  lemma {:induction false} PoolConfinement(cfg: Config, bound: map<PoolId, set<string>>, ss: seq<State>,
      es: seq<Event>, n: nat)
    requires IsFullRun(cfg, ss, es) && n < |ss|
    requires StoreConfined(cfg, bound, ss[0].db)
    requires forall i {:trigger es[i]} | 0 <= i < |es| :: CleanEvent(es[i]) && PoolsWithin(ss[i], bound)
    ensures Confined(cfg, bound, ss[n])
  {
    if n == 0 {
    } else {
      PoolConfinement(cfg, bound, ss, es, n - 1);
      RunValid(cfg, ss, es, n - 1);
      assert Next(cfg, ss[n - 1], es[n - 1], ss[n]);
      StoreConfinedStep(cfg, bound, ss[n - 1], es[n - 1], ss[n]);
      CommandsConfined(cfg, bound, ss[n - 1], es[n - 1], ss[n]);
      CallsConfinedStep(cfg, bound, ss[n - 1], es[n - 1], ss[n]);
    }
  }

  /** A resolve for a tenant that is neither configured nor covered by a default pool never issues
      a command on a session entry. It can only consult the operation index; if that has no answer
      it ends denied under the reject policy, and without a backend otherwise. */
  lemma UnservedTenantNeverTouchesSessions(cfg: Config, ss: seq<State>, es: seq<Event>, n: nat, id: nat, k: SessionKey)
    requires IsFullRun(cfg, ss, es) && n < |ss|
    requires id in ss[n].calls && ss[n].calls[id].request.Resolves()
    requires ss[n].calls[id].request.key.tenant !in cfg.tenants.tenants
    requires cfg.tenants.policy.Reject? || cfg.tenants.fallback.None?
    ensures var c := ss[n].calls[id];
      && (Waiting(cfg, ss[n], id) ==> Pending(cfg, c).key != SessionRedisKey(cfg.prefix, k))
      && (c.pc.Done? && !c.pc.outcome.OpHit? && !c.pc.outcome.Abandoned? ==>
           c.pc.outcome == if cfg.tenants.policy.Reject? then Denied else NoBackend)
  {
    RunValid(cfg, ss, es, n);
    var c := ss[n].calls[id];
    if c.request.ResolveOp? { SessionAndOpKeysDiffer(cfg.prefix, k, c.request.op); }
  }
}
