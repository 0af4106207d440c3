/** The operation index: what it answers, and what it does to the isolation of tenants. */
module AffinityOperations {
  import opened Wrappers
  import opened Keys
  import opened Redis
  import opened Routing
  import opened Affinity
  import opened AffinityIsolation

  // ---- What the index answers -----------------------------------------------

  /** The server executes a SET of the operation. */
  predicate Overwrites(cfg: Config, s: State, e: Event, op: string) {
    var c := Executed(cfg, s, e);
    c.Some? && c.value.Set? && c.value.key == OpRedisKey(cfg.prefix, op) && c.value.ttl > 0
  }

  /** The call's own lookup of the operation fails. */
  predicate OpLookupFails(cfg: Config, s: State, e: Event, id: nat) {
    && e.RunCommand? && e.id == id && Waiting(cfg, s, id) && s.calls[id].pc.OpGet?
    && e.fault != NoFault
  }

  /** Nothing binds, forgets or expires the operation in this step, and the lookup does not fail. */
  predicate OpQuiet(cfg: Config, ss: seq<State>, es: seq<Event>, m: nat, op: string, id: nat)
    requires |ss| == |es| + 1 && m < |es|
  {
    && !Loses(ss[m], ss[m + 1], OpRedisKey(cfg.prefix, op))
    && !Overwrites(cfg, ss[m], es[m], op)
    && !OpLookupFails(cfg, ss[m], es[m], id)
  }

  function OpValue(cfg: Config, s: State, op: string): Option<string> {
    var key := OpRedisKey(cfg.prefix, op);
    if s.db.Has(key) then Some(s.db.entries[key].value) else None
  }

  /** An operation appears and changes only through an executed SET of that operation. */
  lemma OpEntryEffect(cfg: Config, s: State, e: Event, s': State, op: string)
    requires Valid(cfg, s) && Next(cfg, s, e, s')
    ensures OpValue(cfg, s', op)
         == if Overwrites(cfg, s, e, op) then Some(Executed(cfg, s, e).value.value)
            else if Loses(s, s', OpRedisKey(cfg.prefix, op)) then None
            else OpValue(cfg, s, op)
  {
    var key := OpRedisKey(cfg.prefix, op);
    if !e.Pass? {
      if Concerns(cfg, s, e, key) {
        StoreEffect(cfg, s, e, s');
        var c := Executed(cfg, s, e).value;
        if c.SetNx? {
          forall k: SessionKey ensures key != SessionRedisKey(cfg.prefix, k) {
            SessionAndOpKeysDiffer(cfg.prefix, k, op);
          }
        }
      } else {
        EntryUntouched(cfg, s, e, s', key);
      }
    }
  }

  /** While the operation is stored, a resolve of it goes no other way than to its backend. */
  predicate OnItsWay(s: State, id: nat, op: string, addr: string) {
    id in s.calls && s.calls[id].request.ResolveOp? && s.calls[id].request.op == op ==>
      s.calls[id].pc in {OpGet, OpExpire(addr), Done(OpHit(addr)), Done(Abandoned)}
  }

  lemma OnItsWayStep(cfg: Config, s: State, e: Event, s': State, id: nat, op: string, addr: string)
    requires Next(cfg, s, e, s') && op != "" && OpValue(cfg, s, op) == Some(addr)
    requires OnItsWay(s, id, op, addr) && !OpLookupFails(cfg, s, e, id)
    ensures OnItsWay(s', id, op, addr)
  {
  }

  lemma {:induction false} StoredOpAnswers(
    cfg: Config, op: string, addr: string, ss: seq<State>, es: seq<Event>, i: nat, j: nat, id: nat)
    requires IsFullRun(cfg, ss, es) && i <= j < |ss| && op != ""
    requires OpValue(cfg, ss[i], op) == Some(addr)
    requires forall m | i <= m < j :: OpQuiet(cfg, ss, es, m, op, id)
    requires id !in ss[i].calls
    ensures OpValue(cfg, ss[j], op) == Some(addr) && OnItsWay(ss[j], id, op, addr)
    decreases j
  {
    if i == j {
    } else {
      StoredOpAnswers(cfg, op, addr, ss, es, i, j - 1, id);
      RunValid(cfg, ss, es, j - 1);
      assert OpQuiet(cfg, ss, es, j - 1, op, id);
      assert Next(cfg, ss[j - 1], es[j - 1], ss[j]);
      OpEntryEffect(cfg, ss[j - 1], es[j - 1], ss[j], op);
      OnItsWayStep(cfg, ss[j - 1], es[j - 1], ss[j], id, op, addr);
    }
  }

  /** Operation index: from the step that executes a `remember_op` until the operation is next bound,
      forgotten, expired or its lookup fails, every resolve of that operation issued since answers
      with the remembered backend, whatever the session key and whatever happens to sessions, pools
      and policy. */
  lemma RememberedOpAnswers(cfg: Config, ss: seq<State>, es: seq<Event>, i: nat, j: nat, author: nat, id: nat)
    requires IsFullRun(cfg, ss, es) && i < j < |ss| && cfg.opTtl > 0
    requires es[i].RunCommand? && es[i].id == author && es[i].fault.Runs()
    requires author in ss[i].calls && ss[i].calls[author].request.RememberOp? && !ss[i].calls[author].pc.Done?
    requires forall m | i < m < j :: OpQuiet(cfg, ss, es, m, ss[i].calls[author].request.op, id)
    requires id !in ss[i + 1].calls
    ensures var r := ss[i].calls[author].request;
      OpValue(cfg, ss[j], r.op) == Some(r.backend) && OnItsWay(ss[j], id, r.op, r.backend)
  {
    var r := ss[i].calls[author].request;
    RunValid(cfg, ss, es, i);
    NonEmptyOps(cfg, ss, es, i, author);
    assert Next(cfg, ss[i], es[i], ss[i + 1]);
    OpEntryEffect(cfg, ss[i], es[i], ss[i + 1], r.op);
    StoredOpAnswers(cfg, r.op, r.backend, ss, es, i + 1, j, id);
  }

  /** Only non-empty operation ids get as far as Redis. */
  lemma {:induction false} NonEmptyOps(cfg: Config, ss: seq<State>, es: seq<Event>, n: nat, id: nat)
    requires IsFullRun(cfg, ss, es) && n < |ss| && id in ss[n].calls && ss[n].calls[id].request.RememberOp?
    ensures !ss[n].calls[id].pc.Done? ==> ss[n].calls[id].pc.OpSet? && ss[n].calls[id].request.op != ""
  {
    if n == 0 {
    } else {
      assert Next(cfg, ss[n - 1], es[n - 1], ss[n]);
      RunValid(cfg, ss, es, n);
      if id in ss[n - 1].calls { NonEmptyOps(cfg, ss, es, n - 1, id); }
    }
  }

  // ---- What the index does to tenant isolation ---------------------------------

  /** The backend with which the operation was last remembered, if it has not been lost since; what the
      store holds when the run begins was remembered before. */
  ghost function LastRemembered(cfg: Config, ss: seq<State>, es: seq<Event>, n: nat, op: string): Option<string>
    requires |ss| == |es| + 1 && n < |ss|
  {
    if n == 0 then OpValue(cfg, ss[0], op)
    else if Overwrites(cfg, ss[n - 1], es[n - 1], op) then Some(Executed(cfg, ss[n - 1], es[n - 1]).value.value)
    else if Loses(ss[n - 1], ss[n], OpRedisKey(cfg.prefix, op)) then None
    else LastRemembered(cfg, ss, es, n - 1, op)
  }

  lemma {:induction false} IndexHoldsLastRemembered(cfg: Config, ss: seq<State>, es: seq<Event>, n: nat, op: string)
    requires IsFullRun(cfg, ss, es) && n < |ss|
    ensures OpValue(cfg, ss[n], op) == LastRemembered(cfg, ss, es, n, op)
  {
    if n == 0 {
    } else {
      IndexHoldsLastRemembered(cfg, ss, es, n - 1, op);
      RunValid(cfg, ss, es, n - 1);
      assert Next(cfg, ss[n - 1], es[n - 1], ss[n]);
      OpEntryEffect(cfg, ss[n - 1], es[n - 1], ss[n], op);
    }
  }

  /** The call got its address from the index. */
  predicate FromIndex(c: Call) { c.request.ResolveOp? && (c.pc.OpExpire? || (c.pc.Done? && c.pc.outcome.OpHit?)) }

  function IndexAnswer(c: Call): string
    requires FromIndex(c)
  {
    if c.pc.OpExpire? then c.pc.hit else c.pc.outcome.addr
  }

  /** An address comes from the index only by a lookup that finds it there. */
  lemma IndexStep(cfg: Config, s: State, e: Event, s': State, id: nat)
    requires Valid(cfg, s) && Next(cfg, s, e, s') && id in s'.calls && FromIndex(s'.calls[id])
    requires !(id in s.calls && FromIndex(s.calls[id]))
    ensures e.RunCommand? && e.id == id && Waiting(cfg, s, id) && s.calls[id].pc.OpGet?
    ensures OpValue(cfg, s, s'.calls[id].request.op) == Some(IndexAnswer(s'.calls[id]))
  {
  }

  lemma IndexKeeps(cfg: Config, s: State, e: Event, s': State, id: nat)
    requires Next(cfg, s, e, s') && id in s'.calls && FromIndex(s'.calls[id])
    requires id in s.calls && FromIndex(s.calls[id])
    ensures s'.calls[id].request == s.calls[id].request && IndexAnswer(s'.calls[id]) == IndexAnswer(s.calls[id])
  {
  }

  /** An answer of the index is what the operation was last remembered with when it was looked up. */
  lemma {:induction false} IndexAnswersAreRemembered(cfg: Config, ss: seq<State>, es: seq<Event>, n: nat, id: nat)
    returns (m: nat)
    requires IsFullRun(cfg, ss, es) && n < |ss| && id in ss[n].calls && FromIndex(ss[n].calls[id])
    ensures m < n && LooksUp(cfg, ss, es, m, id)
    ensures LastRemembered(cfg, ss, es, m, ss[n].calls[id].request.op) == Some(IndexAnswer(ss[n].calls[id]))
  {
    assert n > 0;
    RunValid(cfg, ss, es, n - 1);
    assert Next(cfg, ss[n - 1], es[n - 1], ss[n]);
    if id in ss[n - 1].calls && FromIndex(ss[n - 1].calls[id]) {
      IndexKeeps(cfg, ss[n - 1], es[n - 1], ss[n], id);
      m := IndexAnswersAreRemembered(cfg, ss, es, n - 1, id);
    } else {
      IndexStep(cfg, ss[n - 1], es[n - 1], ss[n], id);
      m := n - 1;
      IndexHoldsLastRemembered(cfg, ss, es, m, ss[n].calls[id].request.op);
    }
  }

  /** The address a resolve has answered with, if any. */
  function AnswerOf(c: Call): Option<string> {
    match c.pc
    case Done(Unbound(addr)) => Some(addr)
    case Done(OpHit(addr)) => Some(addr)
    case Done(Bound(addr, _)) => Some(addr)
    case _ => None
  }

  predicate AnsweredFor(s: State, id: nat, tenant: string) {
    && id in s.calls && s.calls[id].request.Resolves() && s.calls[id].request.key.tenant == tenant
    && AnswerOf(s.calls[id]).Some?
  }

  /** Every answer the tenant has got names a backend of its own pool. */
  ghost predicate AnswersConfined(cfg: Config, bound: map<PoolId, set<string>>, s: State, tenant: string) {
    forall id | AnsweredFor(s, id, tenant) :: InTenantPool(cfg, bound, tenant, AnswerOf(s.calls[id]).value)
  }

  /** Looking up the operation for the call found what was remembered from the tenant's pool. */
  ghost predicate RememberedFromPool(cfg: Config, bound: map<PoolId, set<string>>, ss: seq<State>, es: seq<Event>,
    m: nat, id: nat, tenant: string)
    requires |ss| == |es| + 1 && m < |es|
  {
    LooksUp(cfg, ss, es, m, id) ==>
      var last := LastRemembered(cfg, ss, es, m, ss[m].calls[id].request.op);
      last.Some? ==> InTenantPool(cfg, bound, tenant, last.value)
  }

  /** Every operation that the index resolved for the tenant was remembered with a backend of its pool. */
  ghost predicate OperationsConfined(cfg: Config, bound: map<PoolId, set<string>>, ss: seq<State>, es: seq<Event>,
    n: nat, tenant: string)
    requires |ss| == |es| + 1 && n < |ss|
  {
    forall id, m: nat | m < n && AnsweredFor(ss[n], id, tenant) && FromIndex(ss[n].calls[id]) ::
      RememberedFromPool(cfg, bound, ss, es, m, id, tenant)
  }

  lemma PastLookupStep(cfg: Config, s: State, e: Event, s': State, id: nat)
    requires Next(cfg, s, e, s') && id in s.calls && (s.calls[id].pc.OpGet? ==> e.RunCommand? && e.id == id)
    ensures id in s'.calls && !s'.calls[id].pc.OpGet? && s'.calls[id].request == s.calls[id].request
  {
  }

  /** A call looks up its operation at most once. */
  lemma {:induction false} LookupIsOver(cfg: Config, ss: seq<State>, es: seq<Event>, id: nat, i: nat, j: nat)
    requires IsFullRun(cfg, ss, es) && i < j < |ss| && LooksUp(cfg, ss, es, i, id)
    ensures id in ss[j].calls && !ss[j].calls[id].pc.OpGet? && ss[j].calls[id].request == ss[i].calls[id].request
    decreases j
  {
    if i == j - 1 {
    } else {
      LookupIsOver(cfg, ss, es, id, i, j - 1);
    }
    assert Next(cfg, ss[j - 1], es[j - 1], ss[j]);
    PastLookupStep(cfg, ss[j - 1], es[j - 1], ss[j], id);
  }

  lemma LookupIsUnique(cfg: Config, ss: seq<State>, es: seq<Event>, id: nat, i: nat, j: nat)
    requires IsFullRun(cfg, ss, es) && i < |es| && j < |es|
    requires LooksUp(cfg, ss, es, i, id) && LooksUp(cfg, ss, es, j, id)
    ensures i == j
  {
    if i < j { LookupIsOver(cfg, ss, es, id, i, j); }
    if j < i { LookupIsOver(cfg, ss, es, id, j, i); }
  }

  /** One answer of the index is confined if and only if the operation was remembered from the pool. */
  lemma IndexAnswerConfinedIff(cfg: Config, bound: map<PoolId, set<string>>, ss: seq<State>, es: seq<Event>,
    n: nat, id: nat, tenant: string)
    requires IsFullRun(cfg, ss, es) && n < |ss| && AnsweredFor(ss[n], id, tenant) && FromIndex(ss[n].calls[id])
    ensures InTenantPool(cfg, bound, tenant, AnswerOf(ss[n].calls[id]).value)
       <==> forall m: nat | m < n :: RememberedFromPool(cfg, bound, ss, es, m, id, tenant)
  {
    var m := IndexAnswersAreRemembered(cfg, ss, es, n, id);
    LookupIsOver(cfg, ss, es, id, m, n);
    forall i: nat | i < n && LooksUp(cfg, ss, es, i, id) ensures i == m { LookupIsUnique(cfg, ss, es, id, i, m); }
    assert RememberedFromPool(cfg, bound, ss, es, m, id, tenant)
      <==> InTenantPool(cfg, bound, tenant, AnswerOf(ss[n].calls[id]).value);
  }

  /** Isolation with the index: over clean keys and pools that never leave `bound`, every answer a tenant
      gets names a backend of its own pool if and only if every operation the index resolved for it had
      been remembered with such a backend. */
  lemma TenantConfinedIffOperationsAre(cfg: Config, bound: map<PoolId, set<string>>, ss: seq<State>, es: seq<Event>,
    n: nat, tenant: string)
    requires IsFullRun(cfg, ss, es) && n < |ss| && StoreConfined(cfg, bound, ss[0].db)
    requires forall i {:trigger es[i]} | 0 <= i < |es| :: CleanEvent(es[i]) && PoolsWithin(ss[i], bound)
    ensures AnswersConfined(cfg, bound, ss[n], tenant) <==> OperationsConfined(cfg, bound, ss, es, n, tenant)
  {
    PoolConfinement(cfg, bound, ss, es, n);
    RunValid(cfg, ss, es, n);
    forall id | AnsweredFor(ss[n], id, tenant)
      ensures FromIndex(ss[n].calls[id]) ==>
        (InTenantPool(cfg, bound, tenant, AnswerOf(ss[n].calls[id]).value)
         <==> forall m: nat | m < n :: RememberedFromPool(cfg, bound, ss, es, m, id, tenant))
      ensures !FromIndex(ss[n].calls[id]) ==> InTenantPool(cfg, bound, tenant, AnswerOf(ss[n].calls[id]).value)
    {
      if FromIndex(ss[n].calls[id]) {
        IndexAnswerConfinedIff(cfg, bound, ss, es, n, id, tenant);
      } else {
        assert CallConfined(cfg, bound, ss[n].calls[id]);
      }
    }
  }

  // ---- An operation without an answer is routed by its session -------------------

  /** The same call, issued as a plain session resolve. */
  function AsSessionCall(c: Call): Call
    requires c.request.ResolveOp?
  {
    c.(request := ResolveSession(c.request.key))
  }

  /** The call has left the operation index without an answer. */
  predicate PastIndex(c: Call) {
    && c.request.ResolveOp? && !c.pc.OpGet? && !c.pc.OpExpire?
    && !(c.pc.Done? && c.pc.outcome.OpHit?)
  }

  /** The state in which call `id` was issued as a plain session resolve. */
  function AsSession(s: State, id: nat): State
    requires id in s.calls && s.calls[id].request.ResolveOp?
  {
    s.(calls := s.calls[id := AsSessionCall(s.calls[id])])
  }

  /** Past the index, the operation plays no role in what the call does. */
  lemma SessionShadowCall(cfg: Config, c: Call, choice: Option<string>, reply: Reply)
    requires PastIndex(c) && WellFormed(cfg, c)
    ensures WellFormed(cfg, AsSessionCall(c))
    ensures !c.pc.Local() ==>
      && Pending(cfg, AsSessionCall(c)) == Pending(cfg, c)
      && PastIndex(AfterReply(c, reply))
      && AfterReply(AsSessionCall(c), reply) == AsSessionCall(AfterReply(c, reply))
    ensures PastIndex(Entered(cfg, c)) && Entered(cfg, AsSessionCall(c)) == AsSessionCall(Entered(cfg, c))
    ensures c.pc.Pick? || c.pc.UnboundPick? ==>
      && PastIndex(AfterPick(c, choice))
      && AfterPick(AsSessionCall(c), choice) == AsSessionCall(AfterPick(c, choice))
  {
  }

  /** A step of the call itself. */
  lemma SessionShadowOwnStep(cfg: Config, s: State, e: Event, s': State, id: nat)
    requires Valid(cfg, s) && Next(cfg, s, e, s') && id in s.calls && PastIndex(s.calls[id])
    requires StepOf(e, id)
    ensures id in s'.calls && PastIndex(s'.calls[id]) && Next(cfg, AsSession(s, id), e, AsSession(s', id))
  {
    var c, t, t' := s.calls[id], AsSession(s, id), AsSession(s', id);
    var choice := if e.PickBackend? then e.choice else None;
    var reply := if e.RunCommand? then Issue(cfg, s, id, e.fault).1 else Nil;
    SessionShadowCall(cfg, c, choice, reply);
    assert t'.calls == t.calls[id := AsSessionCall(s'.calls[id])];
    assert Waiting(cfg, t, id) <==> Waiting(cfg, s, id);
  }

  /** A step of another call. */
  lemma SessionShadowForeignStep(cfg: Config, s: State, e: Event, s': State, id: nat)
    requires Next(cfg, s, e, s') && id in s.calls && s.calls[id].request.ResolveOp?
    requires IsStep(e) && e.id != id
    ensures id in s'.calls && s'.calls[id] == s.calls[id] && Next(cfg, AsSession(s, id), e, AsSession(s', id))
  {
    var t, t' := AsSession(s, id), AsSession(s', id);
    assert t'.calls == t.calls[e.id := s'.calls[e.id]];
    if e.id in s.calls { assert t.calls[e.id] == s.calls[e.id]; }
    assert Waiting(cfg, t, e.id) <==> Waiting(cfg, s, e.id);
  }

  /** A step of anything else. */
  lemma SessionShadowOtherStep(cfg: Config, s: State, e: Event, s': State, id: nat)
    requires Next(cfg, s, e, s') && id in s.calls && s.calls[id].request.ResolveOp?
    requires !StepOf(e, id)
    ensures id in s'.calls && s'.calls[id] == s.calls[id] && Next(cfg, AsSession(s, id), e, AsSession(s', id))
  {
    if IsStep(e) { SessionShadowForeignStep(cfg, s, e, s', id); }
  }

  /** The step after state `i`, with call `id` issued as a plain session resolve throughout. */
  ghost predicate ShadowStepAt(cfg: Config, ss: seq<State>, es: seq<Event>, id: nat, i: nat)
    requires |ss| == |es| + 1 && i < |es|
  {
    && id in ss[i].calls && PastIndex(ss[i].calls[id])
    && id in ss[i + 1].calls && PastIndex(ss[i + 1].calls[id])
    && Next(cfg, AsSession(ss[i], id), es[i], AsSession(ss[i + 1], id))
  }

  lemma {:induction false} PastIndexRoutesBySession(cfg: Config, ss: seq<State>, es: seq<Event>, id: nat, n: nat)
    requires IsFullRun(cfg, ss, es) && n < |ss|
    requires id in ss[n].calls && PastIndex(ss[n].calls[id])
    ensures forall i | n <= i < |es| :: ShadowStepAt(cfg, ss, es, id, i)
    decreases |es| - n
  {
    if n == |es| {
    } else {
      RunValid(cfg, ss, es, n);
      var s, e, s' := ss[n], es[n], ss[n + 1];
      assert Next(cfg, s, e, s');
      if StepOf(e, id) {
        SessionShadowOwnStep(cfg, s, e, s', id);
      } else {
        SessionShadowOtherStep(cfg, s, e, s', id);
      }
      assert ShadowStepAt(cfg, ss, es, id, n);
      PastIndexRoutesBySession(cfg, ss, es, id, n + 1);
    }
  }

  /** In the step after state `n` call `id` hears from its lookup of the operation. */
  predicate LooksUp(cfg: Config, ss: seq<State>, es: seq<Event>, n: nat, id: nat)
    requires n < |es| && |ss| == |es| + 1
  {
    es[n].RunCommand? && es[n].id == id && Waiting(cfg, ss[n], id) && ss[n].calls[id].pc.OpGet?
  }

  /** The lookup of an operation leaves the store alone. It falls through to session routing if and
      only if it fails or finds nothing; the call then stands where a fresh `resolve_session` of the
      same key stands, and from there on the run is step for step a run of that `resolve_session`,
      with the same store, the same pools and the same answers. */
  lemma UnknownOpRoutesBySession(cfg: Config, ss: seq<State>, es: seq<Event>, id: nat, n: nat)
    requires IsFullRun(cfg, ss, es) && n < |es| && LooksUp(cfg, ss, es, n, id)
    ensures ss[n + 1].db == ss[n].db && id in ss[n + 1].calls && ss[n + 1].calls[id].request == ss[n].calls[id].request
    ensures var miss := es[n].fault != NoFault || !ss[n].db.Has(OpRedisKey(cfg.prefix, ss[n].calls[id].request.op));
      && (PastIndex(ss[n + 1].calls[id]) <==> miss)
      && (miss ==> (forall i | n < i < |es| :: ShadowStepAt(cfg, ss, es, id, i)))
    ensures PastIndex(ss[n + 1].calls[id]) ==>
      AsSessionCall(ss[n + 1].calls[id]).pc == Opened(ResolveSession(ss[n].calls[id].request.key)).pc
  {
    RunValid(cfg, ss, es, n);
    assert Next(cfg, ss[n], es[n], ss[n + 1]);
    if PastIndex(ss[n + 1].calls[id]) { PastIndexRoutesBySession(cfg, ss, es, id, n + 1); }
  }
}
