/** The router over the in-process store, and its agreement with the protocol over Redis. What the
    tenant's pool would hand out is an argument of each call. */
module Router {
  import opened Wrappers
  import opened Keys
  import opened Routing
  import opened Stores
  import Redis
  import Affinity

  datatype ResolveOutcome = ResolveOutcome(addr: string, newlyBound: bool)

  type Resolution = Result<Option<ResolveOutcome>, PermissionDenied>

  /** Route a key by its session: deny unknown tenants, never bind a key without a session id,
      keep an existing binding, and bind what the pool offers otherwise. */
  function Resolve(tenants: TenantRouter, t: Tables, key: SessionKey, offer: Option<string>): (Tables, Resolution) {
    match tenants.PoolFor(key.tenant)
    case Err(e) => (t, Err(e))
    case Ok(None) => (t, Ok(None))
    case Ok(Some(_)) =>
      if key.IsZero() then (t, Ok(if offer.Some? then Some(ResolveOutcome(offer.value, false)) else None))
      else if key in t.sessions then (t, Ok(Some(ResolveOutcome(t.sessions[key], false))))
      else if offer.None? then (t, Ok(None))
      else (t.(sessions := t.sessions[key := offer.value]), Ok(Some(ResolveOutcome(offer.value, true))))
  }

  /** The outcome of session routing in the protocol's terms. */
  function Routed(key: SessionKey, r: Resolution): Affinity.Outcome {
    match r
    case Err(_) => Affinity.Denied
    case Ok(None) => Affinity.NoBackend
    case Ok(Some(o)) => if key.IsZero() then Affinity.Unbound(o.addr) else Affinity.Bound(o.addr, o.newlyBound)
  }

  /** Every entry point of the router, as one step on the tables. */
  function Handled(tenants: TenantRouter, t: Tables, r: Affinity.Request, offer: Option<string>): (Tables,
      Affinity.Outcome)
  {
    match r
    case ResolveSession(key) =>
      var (t', res) := Resolve(tenants, t, key, offer);
      (t', Routed(key, res))
    case ResolveOp(op, key) =>
      if op != "" && op in t.ops then (t, Affinity.OpHit(t.ops[op]))
      else
        var (t', res) := Resolve(tenants, t, key, offer);
        (t', Routed(key, res))
    case RememberOp(op, backend) => (if op == "" then t else t.(ops := t.ops[op := backend]), Affinity.Finished)
    case ForgetOp(op) => (if op == "" then t else t.(ops := t.ops - {op}), Affinity.Finished)
    case ForgetSession(key) => (t.(sessions := t.sessions - {key}), Affinity.Finished)
  }

  /** The address in an outcome, as `resolve_op` returns it. */
  function AddressOf(key: SessionKey, o: Affinity.Outcome): Result<Option<string>, PermissionDenied> {
    match o
    case Denied => Err(PermissionDenied(key.tenant))
    case Unbound(addr) => Ok(Some(addr))
    case OpHit(addr) => Ok(Some(addr))
    case Bound(addr, _) => Ok(Some(addr))
    case _ => Ok(None)
  }

  class SessionRouter {
    const tenants: TenantRouter
    const store: MemoryStore

    constructor (tenants: TenantRouter, store: MemoryStore)
      ensures this.tenants == tenants && this.store == store
    {
      this.tenants := tenants;
      this.store := store;
    }

    /** `picked` says whether the pool was asked. */
    method ResolveSessionDetailed(key: SessionKey, offer: Option<string>) returns (r: Resolution, picked: bool)
      modifies store`sessions
      ensures (store.View(), r) == Resolve(tenants, old(store.View()), key, offer)
      ensures picked <==> tenants.Serves(key.tenant) && (key.IsZero() || key !in old(store.sessions))
    {
      picked := false;
      var pool := tenants.PoolFor(key.tenant);
      if pool.Err? { return Err(pool.error), picked; }
      if pool.value.None? { return Ok(None), picked; }
      if key.IsZero() {
        picked := true;
        return Ok(if offer.Some? then Some(ResolveOutcome(offer.value, false)) else None), picked;
      }
      var existing := store.Lookup(key);
      if existing.Some? { return Ok(Some(ResolveOutcome(existing.value, false))), picked; }
      picked := true;
      if offer.None? { return Ok(None), picked; }
      var chosen := offer.value;
      var winner := store.BindIfAbsent(key, chosen);
      return Ok(Some(ResolveOutcome(winner, winner == chosen))), picked;
    }

    /** A known operation is answered from the index and changes nothing; any other goes by session. */
    method ResolveOperation(op: string, key: SessionKey, offer: Option<string>)
      returns (r: Result<Option<string>, PermissionDenied>)
      modifies store`sessions
      ensures op != "" && op in old(store.ops) ==>
        r == Ok(Some(store.ops[op])) && store.View() == old(store.View())
      ensures var (t, o) := Handled(tenants, old(store.View()), Affinity.ResolveOp(op, key), offer);
        store.View() == t && r == AddressOf(key, o)
    {
      if op != "" {
        var hit := store.FindOp(op);
        if hit.Some? { return Ok(hit); }
      }
      var s, _ := ResolveSessionDetailed(key, offer);
      match s {
        case Err(e) => return Err(e);
        case Ok(o) => return Ok(if o.Some? then Some(o.value.addr) else None);
      }
    }

    /** Operations with an empty id are never indexed. */
    method RememberOperation(op: string, backend: string)
      modifies store`ops
      ensures store.View() == Handled(tenants, old(store.View()), Affinity.RememberOp(op, backend), None).0
    {
      if op != "" { store.Remember(op, backend); }
    }

    method ForgetOperation(op: string)
      modifies store`ops
      ensures store.View() == Handled(tenants, old(store.View()), Affinity.ForgetOp(op), None).0
    {
      if op != "" { store.ForgetOperation(op); }
    }

    method ForgetSession(key: SessionKey)
      modifies store`sessions
      ensures store.View() == Handled(tenants, old(store.View()), Affinity.ForgetSession(key), None).0
    {
      store.Forget(key);
    }
  }

  // ---- The protocol, one call at a time ------------------------------------------

  function StoreConfigOf(cfg: Affinity.Config): StoreConfig { StoreConfig(cfg.prefix, cfg.sessionTtl, cfg.opTtl) }

  /** The next event of call `id` when nothing fails and its pool offers `offer`. */
  function NextOf(s: Affinity.State, id: nat, offer: Option<string>): Affinity.Event
    requires id in s.calls
  {
    var pc := s.calls[id].pc;
    if pc.Enter? then Affinity.EnterSession(id)
    else if pc.Pick? || pc.UnboundPick? then Affinity.PickBackend(id, offer)
    else Affinity.RunCommand(id, Redis.NoFault)
  }

  /** The call takes one uninterrupted step. */
  ghost predicate SoloStep(cfg: Affinity.Config, s: Affinity.State, s': Affinity.State, id: nat, offer: Option<string>)
  {
    id in s.calls && Affinity.Next(cfg, s, NextOf(s, id, offer), s')
  }

  /** The call runs from `s` to its answer in `s'` without interruption. */
  least predicate RunsAlone(cfg: Affinity.Config, s: Affinity.State, s': Affinity.State, id: nat, offer: Option<string>)
  {
    id in s.calls &&
    if s.calls[id].pc.Done? then s == s'
    else exists mid :: SoloStep(cfg, s, mid, id, offer) && RunsAlone(cfg, mid, s', id, offer)
  }

  /** The call at its command `c`, answered by `reply`. */
  function Stepped(cfg: Affinity.Config, s: Affinity.State, id: nat): Affinity.State
    requires Affinity.Waiting(cfg, s, id)
  {
    var (db, reply) := Affinity.Issue(cfg, s, id, Redis.NoFault);
    s.(db := db, calls := s.calls[id := Affinity.AfterReply(s.calls[id], reply)])
  }

  function Answered(s: Affinity.State, id: nat, offer: Option<string>): Affinity.State
    requires id in s.calls && (s.calls[id].pc.Pick? || s.calls[id].pc.UnboundPick?)
  {
    s.(calls := s.calls[id := Affinity.AfterPick(s.calls[id], offer)])
  }

  /** The call, waiting for its session lookup, can run alone against a store that mirrors `t`. */
  ghost predicate AtLookup(cfg: Affinity.Config, s: Affinity.State, t: Tables, r: Affinity.Request, id: nat) {
    && cfg.sessionTtl > 0 && Affinity.RoutesBySession(cfg, r) && r.key.Clean()
    && Mirrors(StoreConfigOf(cfg), s.db, t)
    && id in s.calls && s.calls[id] == Affinity.Call(r, None, Affinity.SessionGet)
  }

  ghost predicate Ends(cfg: Affinity.Config, s: Affinity.State, id: nat, t: Tables, o: Affinity.Outcome) {
    && id in s.calls && s.calls[id].pc == Affinity.Done(o) && Mirrors(StoreConfigOf(cfg), s.db, t)
  }

  /** The call has ended the way session routing does. */
  ghost predicate EndsRouted(cfg: Affinity.Config, s: Affinity.State, t: Tables, key: SessionKey, id: nat,
      offer: Option<string>)
  {
    var (t', res) := Resolve(cfg.tenants, t, key, offer);
    Ends(cfg, s, id, t', Routed(key, res))
  }

  /** The session is bound: GET, then EXPIRE. */
  lemma HitRunsAlone(cfg: Affinity.Config, s: Affinity.State, t: Tables, r: Affinity.Request, id: nat,
      offer: Option<string>)
    returns (s': Affinity.State)
    requires AtLookup(cfg, s, t, r, id) && r.key in t.sessions
    ensures RunsAlone(cfg, s, s', id, offer) && EndsRouted(cfg, s', t, r.key, id, offer)
  {
    var rk := SessionRedisKey(cfg.prefix, r.key);
    assert Value(s.db, rk) == Find(t.sessions, r.key);
    var s1 := Stepped(cfg, s, id);
    s' := Stepped(cfg, s1, id);
    assert SoloStep(cfg, s1, s', id, offer);
    assert RunsAlone(cfg, s1, s', id, offer);
    assert SoloStep(cfg, s, s1, id, offer);
    SessionCallMirrors(StoreConfigOf(cfg), s.db, t, LookupSession(r.key));
  }

  /** The session is not bound and a backend is picked: SET NX. */
  lemma BindRunsAlone(cfg: Affinity.Config, s: Affinity.State, t: Tables, r: Affinity.Request, id: nat, addr: string)
    returns (s': Affinity.State)
    requires cfg.sessionTtl > 0 && Affinity.RoutesBySession(cfg, r) && r.key.Clean() && r.key !in t.sessions
    requires Mirrors(StoreConfigOf(cfg), s.db, t)
    requires id in s.calls && s.calls[id] == Affinity.Call(r, Some(addr), Affinity.Bind)
    ensures RunsAlone(cfg, s, s', id, Some(addr)) && EndsRouted(cfg, s', t, r.key, id, Some(addr))
  {
    assert Value(s.db, SessionRedisKey(cfg.prefix, r.key)) == Find(t.sessions, r.key);
    s' := Stepped(cfg, s, id);
    assert SoloStep(cfg, s, s', id, Some(addr));
    assert RunsAlone(cfg, s', s', id, Some(addr));
    SessionCallMirrors(StoreConfigOf(cfg), s.db, t, BindSession(r.key, addr));
  }

  /** The session is not bound: GET, pick, then SET NX if the pool offers a backend. */
  lemma MissRunsAlone(cfg: Affinity.Config, s: Affinity.State, t: Tables, r: Affinity.Request, id: nat,
      offer: Option<string>)
    returns (s': Affinity.State)
    requires AtLookup(cfg, s, t, r, id) && r.key !in t.sessions
    requires Affinity.PickAllowed(s.Members(cfg.tenants.ServingPool(r.key.tenant)), offer)
    ensures RunsAlone(cfg, s, s', id, offer) && EndsRouted(cfg, s', t, r.key, id, offer)
  {
    assert Value(s.db, SessionRedisKey(cfg.prefix, r.key)) == Find(t.sessions, r.key);
    var s1 := Stepped(cfg, s, id);
    var s2 := Answered(s1, id, offer);
    if offer.None? {
      s' := s2;
      assert RunsAlone(cfg, s2, s', id, offer);
    } else {
      s' := BindRunsAlone(cfg, s2, t, r, id, offer.value);
    }
    assert SoloStep(cfg, s1, s2, id, offer);
    assert RunsAlone(cfg, s1, s', id, offer);
    assert SoloStep(cfg, s, s1, id, offer);
  }

  /** What the pool may offer for the key, in this state. */
  predicate OfferAllowed(cfg: Affinity.Config, s: Affinity.State, key: SessionKey, offer: Option<string>) {
    cfg.tenants.Serves(key.tenant) ==>
      Affinity.PickAllowed(s.Members(cfg.tenants.ServingPool(key.tenant)), offer)
  }

  lemma SessionRunsAlone(cfg: Affinity.Config, s: Affinity.State, t: Tables, r: Affinity.Request, id: nat,
      offer: Option<string>)
    returns (s': Affinity.State)
    requires cfg.sessionTtl > 0 && r.Resolves() && r.key.Clean() && Mirrors(StoreConfigOf(cfg), s.db, t)
    requires OfferAllowed(cfg, s, r.key, offer)
    requires id in s.calls && s.calls[id] == Affinity.Call(r, None, Affinity.Enter)
    ensures RunsAlone(cfg, s, s', id, offer) && EndsRouted(cfg, s', t, r.key, id, offer)
  {
    var s1 := s.(calls := s.calls[id := Affinity.Entered(cfg, s.calls[id])]);
    assert SoloStep(cfg, s, s1, id, offer);
    if !cfg.tenants.Serves(r.key.tenant) {
      s' := s1;
    } else if r.key.IsZero() {
      s' := Answered(s1, id, offer);
      assert SoloStep(cfg, s1, s', id, offer);
    } else {
      if r.key in t.sessions {
        s' := HitRunsAlone(cfg, s1, t, r, id, offer);
      } else {
        s' := MissRunsAlone(cfg, s1, t, r, id, offer);
      }
    }
    assert RunsAlone(cfg, s1, s', id, offer);
  }

  /** A lookup of the operation index, then session routing if it has no answer. */
  lemma OpRunsAlone(cfg: Affinity.Config, s: Affinity.State, t: Tables, r: Affinity.Request, id: nat,
      offer: Option<string>)
    returns (s': Affinity.State)
    requires cfg.sessionTtl > 0 && cfg.opTtl > 0 && r.ResolveOp? && r.op != "" && r.key.Clean()
    requires Mirrors(StoreConfigOf(cfg), s.db, t) && OfferAllowed(cfg, s, r.key, offer)
    requires id in s.calls && s.calls[id] == Affinity.Call(r, None, Affinity.OpGet)
    ensures RunsAlone(cfg, s, s', id, offer)
    ensures var (t', o) := Handled(cfg.tenants, t, r, offer); Ends(cfg, s', id, t', o)
  {
    assert Value(s.db, OpRedisKey(cfg.prefix, r.op)) == Find(t.ops, r.op);
    var s1 := Stepped(cfg, s, id);
    assert SoloStep(cfg, s, s1, id, offer);
    if r.op in t.ops {
      s' := Stepped(cfg, s1, id);
      assert SoloStep(cfg, s1, s', id, offer);
      OpCallMirrors(StoreConfigOf(cfg), s.db, t, LookupOp(r.op));
    } else {
      s' := SessionRunsAlone(cfg, s1, t, r, id, offer);
    }
    assert RunsAlone(cfg, s1, s', id, offer);
  }

  /** The requests that need one command at most. */
  lemma CommandRunsAlone(cfg: Affinity.Config, s: Affinity.State, t: Tables, r: Affinity.Request, id: nat,
      offer: Option<string>)
    returns (s': Affinity.State)
    requires cfg.sessionTtl > 0 && cfg.opTtl > 0 && !r.Resolves() && (r.ForgetSession? ==> r.key.Clean())
    requires Mirrors(StoreConfigOf(cfg), s.db, t)
    requires id in s.calls && s.calls[id] == Affinity.Opened(r)
    ensures RunsAlone(cfg, s, s', id, offer)
    ensures var (t', o) := Handled(cfg.tenants, t, r, offer); Ends(cfg, s', id, t', o)
  {
    if s.calls[id].pc.Done? {
      s' := s;
    } else {
      match r {
        case RememberOp(op, backend) => OpCallMirrors(StoreConfigOf(cfg), s.db, t, BindOp(op, backend));
        case ForgetOp(op) => OpCallMirrors(StoreConfigOf(cfg), s.db, t, ForgetOp(op));
        case ForgetSession(key) => SessionCallMirrors(StoreConfigOf(cfg), s.db, t, ForgetSession(key));
      }
      s' := Stepped(cfg, s, id);
      assert SoloStep(cfg, s, s', id, offer);
      assert RunsAlone(cfg, s', s', id, offer);
    }
  }

  /** Router refinement: a protocol call over Redis that nothing interrupts, whatever its request,
      answers and leaves the store exactly as the router over the in-process store. */
  lemma UninterruptedCallIsSequential(cfg: Affinity.Config, s: Affinity.State, t: Tables, r: Affinity.Request,
      id: nat, offer: Option<string>)
    returns (s': Affinity.State)
    requires cfg.sessionTtl > 0 && cfg.opTtl > 0 && Mirrors(StoreConfigOf(cfg), s.db, t)
    requires r.Resolves() ==> r.key.Clean() && OfferAllowed(cfg, s, r.key, offer)
    requires r.ForgetSession? ==> r.key.Clean()
    requires id in s.calls && s.calls[id] == Affinity.Opened(r)
    ensures RunsAlone(cfg, s, s', id, offer)
    ensures var (t', o) := Handled(cfg.tenants, t, r, offer); Ends(cfg, s', id, t', o)
  {
    if !r.Resolves() {
      s' := CommandRunsAlone(cfg, s, t, r, id, offer);
    } else if r.ResolveOp? && r.op != "" {
      s' := OpRunsAlone(cfg, s, t, r, id, offer);
    } else {
      s' := SessionRunsAlone(cfg, s, t, r, id, offer);
    }
  }
}
