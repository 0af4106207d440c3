/** What every call has sent, read off the events and commands of a run: a hit renews the entry it
    found, a resolve lacks a backend only when its pool was empty, and the other calls send what they
    are for. */
module AffinityProgress {
  import opened Wrappers
  import opened Keys
  import opened Redis
  import opened Affinity
  import opened AffinityAgreement
  import opened AffinityIsolation

  /** In the step after state `m` call `id` is through with its command `c`. */
  predicate SentAt(cfg: Config, ss: seq<State>, es: seq<Event>, m: nat, id: nat, c: Command)
    requires |ss| == |es| + 1 && m < |es|
  {
    es[m].RunCommand? && es[m].id == id && Waiting(cfg, ss[m], id) && Pending(cfg, ss[m].calls[id]) == c
  }

  ghost predicate Sent(cfg: Config, ss: seq<State>, es: seq<Event>, n: nat, id: nat, c: Command)
    requires |ss| == |es| + 1 && n < |ss|
  {
    exists m: nat | m < n :: SentAt(cfg, ss, es, m, id, c)
  }

  // ---- Hits renew --------------------------------------------------------------------

  /** The commands a finished call must have sent. */
  ghost predicate SentWhatItIsFor(cfg: Config, ss: seq<State>, es: seq<Event>, n: nat, id: nat)
    requires |ss| == |es| + 1 && n < |ss|
  {
    id in ss[n].calls && ss[n].calls[id].pc.Done? ==>
      var c := ss[n].calls[id];
      match c.pc.outcome
      case Bound(_, _) =>
        c.request.Resolves() && (c.picked.None? ==>
          Sent(cfg, ss, es, n, id, Expire(SessionRedisKey(cfg.prefix, c.request.key), cfg.sessionTtl)))
      case OpHit(_) =>
        c.request.ResolveOp? && Sent(cfg, ss, es, n, id, Expire(OpRedisKey(cfg.prefix, c.request.op), cfg.opTtl))
      case Finished =>
        (match c.request
         case RememberOp(op, backend) =>
           op != "" ==> Sent(cfg, ss, es, n, id, Set(OpRedisKey(cfg.prefix, op), backend, cfg.opTtl))
         case ForgetOp(op) => op != "" ==> Sent(cfg, ss, es, n, id, Del(OpRedisKey(cfg.prefix, op)))
         case ForgetSession(key) => Sent(cfg, ss, es, n, id, Del(SessionRedisKey(cfg.prefix, key)))
         case _ => false)
      case _ => true
  }

  lemma SentGrows(cfg: Config, ss: seq<State>, es: seq<Event>, n: nat, id: nat, c: Command)
    requires |ss| == |es| + 1 && n + 1 < |ss|
    ensures Sent(cfg, ss, es, n, id, c) ==> Sent(cfg, ss, es, n + 1, id, c)
    ensures SentAt(cfg, ss, es, n, id, c) ==> Sent(cfg, ss, es, n + 1, id, c)
  {
  }

  /** Calls that answer with their pick carry it. */
  lemma AnswerOfCommand(cfg: Config, c: Call, reply: Reply)
    requires WellFormed(cfg, c) && !c.pc.Local() && (c.pc.SessionExpire? ==> c.picked.None?)
    ensures var d := AfterReply(c, reply); d.request == c.request && (d.pc.Done? ==>
      match d.pc.outcome
      case Bound(_, _) =>
        c.request.Resolves() && (d.picked.None? ==>
          Pending(cfg, c) == Expire(SessionRedisKey(cfg.prefix, c.request.key), cfg.sessionTtl))
      case OpHit(_) =>
        c.request.ResolveOp? && Pending(cfg, c) == Expire(OpRedisKey(cfg.prefix, c.request.op), cfg.opTtl)
      case Finished =>
        (match c.request
         case RememberOp(op, backend) => Pending(cfg, c) == Set(OpRedisKey(cfg.prefix, op), backend, cfg.opTtl)
         case ForgetOp(op) => Pending(cfg, c) == Del(OpRedisKey(cfg.prefix, op))
         case ForgetSession(key) => Pending(cfg, c) == Del(SessionRedisKey(cfg.prefix, key))
         case _ => false)
      case _ => true)
  {
  }

  lemma SentStep(cfg: Config, ss: seq<State>, es: seq<Event>, n: nat, id: nat)
    requires IsFullRun(cfg, ss, es) && n + 1 < |ss| && SentWhatItIsFor(cfg, ss, es, n, id)
    ensures SentWhatItIsFor(cfg, ss, es, n + 1, id)
  {
    RunValid(cfg, ss, es, n);
    NewlyBoundMeansOwnPick(cfg, ss, es, n);
    var s, e, s' := ss[n], es[n], ss[n + 1];
    assert Next(cfg, s, e, s');
    if id in s.calls && s'.calls[id] == s.calls[id] {
      forall c: Command | Sent(cfg, ss, es, n, id, c) ensures Sent(cfg, ss, es, n + 1, id, c) {
        SentGrows(cfg, ss, es, n, id, c);
      }
    } else if e.RunCommand? && e.id == id {
      var c := s.calls[id];
      assert PickLocal(c);
      AnswerOfCommand(cfg, c, Issue(cfg, s, id, e.fault).1);
      SentGrows(cfg, ss, es, n, id, Pending(cfg, c));
    }
  }

  /** In every run, whatever fails: an answer found in the store has been preceded by an EXPIRE of its
      key with the session TTL, an answer of the index by one of the operation with its TTL, and a
      call that remembers or forgets has sent its SET or DEL. */
  lemma {:induction false} CallsSendWhatTheyAreFor(cfg: Config, ss: seq<State>, es: seq<Event>, n: nat, id: nat)
    requires IsFullRun(cfg, ss, es) && n < |ss|
    ensures SentWhatItIsFor(cfg, ss, es, n, id)
  {
    if n == 0 {
    } else {
      CallsSendWhatTheyAreFor(cfg, ss, es, n - 1, id);
      SentStep(cfg, ss, es, n - 1, id);
    }
  }

  /** In the step after state `m` call `id`, which has picked nothing, hears that its EXPIRE of `rk`
      was executed, and answers. */
  predicate HitAt(cfg: Config, ss: seq<State>, es: seq<Event>, m: nat, id: nat, rk: string)
    requires |ss| == |es| + 1 && m < |es|
  {
    && es[m] == RunCommand(id, NoFault) && id in ss[m].calls && !ss[m].calls[id].pc.Done?
    && RoutesTo(cfg, ss[m].calls[id], rk) && id in ss[m + 1].calls && ss[m + 1].calls[id].picked.None?
    && ss[m + 1].calls[id].pc.Done? && ss[m + 1].calls[id].pc.outcome.Bound?
  }

  /** A fault-free hit leaves the entry it finds with a full TTL. */
  lemma HitRenews(cfg: Config, k: SessionKey, ss: seq<State>, es: seq<Event>, m: nat, id: nat)
    requires IsFullRun(cfg, ss, es) && m < |es| && cfg.sessionTtl > 0
    requires HitAt(cfg, ss, es, m, id, SessionRedisKey(cfg.prefix, k)) && ss[m].db.Has(SessionRedisKey(cfg.prefix, k))
    ensures var rk := SessionRedisKey(cfg.prefix, k);
      && SentAt(cfg, ss, es, m, id, Expire(rk, cfg.sessionTtl)) && ss[m + 1].db.now == ss[m].db.now
      && rk in ss[m + 1].db.entries && ss[m + 1].db.entries[rk].deadline == ss[m].db.now + cfg.sessionTtl
  {
    RunValid(cfg, ss, es, m);
    NewlyBoundMeansOwnPick(cfg, ss, es, m);
    assert Next(cfg, ss[m], es[m], ss[m + 1]);
    var c := ss[m].calls[id];
    assert PickLocal(c);
    AnswerOfCommand(cfg, c, Issue(cfg, ss[m], id, NoFault).1);
  }

  /** A resolve that lost the race reads back and renews nothing. */
  lemma LoserRenewsNothing(cfg: Config, ss: seq<State>, es: seq<Event>, m: nat, id: nat)
    requires IsFullRun(cfg, ss, es) && m < |es| && es[m].RunCommand? && es[m].id == id
    requires id in ss[m].calls && ss[m].calls[id].pc.Reread?
    ensures ss[m + 1].db == ss[m].db
  {
    assert Next(cfg, ss[m], es[m], ss[m + 1]);
  }

  /** Until when the entry found at state `i` lasts at least: to its deadline, but no longer than a TTL. */
  function LastsFrom(cfg: Config, s: State, rk: string): int
    requires s.db.Has(rk)
  {
    var deadline, limit := s.db.entries[rk].deadline, s.db.now + cfg.sessionTtl;
    if deadline <= limit then deadline else limit
  }

  /** State `n` is reached while the entry found at state `i` lasts, or less than a TTL after a hit since. */
  ghost predicate HitInTime(cfg: Config, ss: seq<State>, es: seq<Event>, i: nat, n: nat, rk: string)
    requires |ss| == |es| + 1 && i <= n < |ss| && ss[i].db.Has(rk)
  {
    || ss[n].db.now < LastsFrom(cfg, ss[i], rk)
    || exists m: nat, id: nat | i <= m < n ::
         HitAt(cfg, ss, es, m, id, rk) && ss[n].db.now < ss[m].db.now + cfg.sessionTtl
  }

  /** The deadline covers the start and every hit up to state `n`, all of which lie in the past of `s`. */
  ghost predicate Covers(cfg: Config, ss: seq<State>, es: seq<Event>, i: nat, n: nat, rk: string,
    now: int, deadline: int)
    requires |ss| == |es| + 1 && i <= n < |ss| && ss[i].db.Has(rk)
  {
    && ss[i].db.now <= now && LastsFrom(cfg, ss[i], rk) <= deadline
    && forall m: nat, id: nat | i <= m < n && HitAt(cfg, ss, es, m, id, rk) ::
         ss[m].db.now <= now && ss[m].db.now + cfg.sessionTtl <= deadline
  }

  ghost predicate Alive(cfg: Config, ss: seq<State>, es: seq<Event>, i: nat, n: nat, rk: string)
    requires |ss| == |es| + 1 && i <= n < |ss| && ss[i].db.Has(rk)
  {
    ss[n].db.Has(rk) && Covers(cfg, ss, es, i, n, rk, ss[n].db.now, ss[n].db.entries[rk].deadline)
  }

  /** The step itself is a hit. */
  lemma CoversHit(cfg: Config, k: SessionKey, ss: seq<State>, es: seq<Event>, i: nat, n: nat, deadline: int)
    requires IsFullRun(cfg, ss, es) && i <= n < |es| && cfg.sessionTtl > 0
    requires ss[i].db.Has(SessionRedisKey(cfg.prefix, k))
    requires ss[n].db.Has(SessionRedisKey(cfg.prefix, k))
    requires Covers(cfg, ss, es, i, n, SessionRedisKey(cfg.prefix, k), ss[n].db.now, deadline)
    requires var rk := SessionRedisKey(cfg.prefix, k);
      ss[n + 1].db.Has(rk) && ss[n + 1].db.now >= ss[n].db.now && deadline <= ss[n + 1].db.entries[rk].deadline
    ensures Alive(cfg, ss, es, i, n + 1, SessionRedisKey(cfg.prefix, k))
  {
    var rk := SessionRedisKey(cfg.prefix, k);
    forall id: nat | HitAt(cfg, ss, es, n, id, rk)
      ensures ss[n].db.now + cfg.sessionTtl <= ss[n + 1].db.entries[rk].deadline
    {
      HitRenews(cfg, k, ss, es, n, id);
    }
  }

  lemma AliveStep(cfg: Config, k: SessionKey, ss: seq<State>, es: seq<Event>, i: nat, n: nat)
    requires IsFullRun(cfg, ss, es) && i <= n < |es| && cfg.sessionTtl > 0
    requires ss[i].db.Has(SessionRedisKey(cfg.prefix, k))
    requires !Forgets(cfg, ss[n], es[n], SessionRedisKey(cfg.prefix, k))
    requires Alive(cfg, ss, es, i, n, SessionRedisKey(cfg.prefix, k))
    requires HitInTime(cfg, ss, es, i, n + 1, SessionRedisKey(cfg.prefix, k))
    ensures Alive(cfg, ss, es, i, n + 1, SessionRedisKey(cfg.prefix, k))
  {
    var rk := SessionRedisKey(cfg.prefix, k);
    RunValid(cfg, ss, es, n);
    assert Next(cfg, ss[n], es[n], ss[n + 1]);
    DeadlineEffect(cfg, k, ss[n], es[n], ss[n + 1]);
    if es[n].Pass? {
      assert !exists id: nat :: HitAt(cfg, ss, es, n, id, rk);
      assert ss[n + 1].db.now < ss[n].db.entries[rk].deadline;
      CoversHit(cfg, k, ss, es, i, n, ss[n].db.entries[rk].deadline);
    } else {
      var d := if Touches(cfg, ss[n], es[n], rk) then ss[n].db.now + cfg.sessionTtl else ss[n].db.entries[rk].deadline;
      CoversHit(cfg, k, ss, es, i, n, d);
    }
  }

  /** A session that is hit without a fault at gaps shorter than the TTL, and that nobody forgets, is
      never lost, and keeps its backend. */
  lemma {:induction false} HitsKeepSessionAlive(
    cfg: Config, k: SessionKey, ss: seq<State>, es: seq<Event>, i: nat, j: nat, addr: string)
    requires IsFullRun(cfg, ss, es) && i <= j < |ss| && cfg.sessionTtl > 0
    requires ss[i].db.Holds(SessionRedisKey(cfg.prefix, k), addr)
    requires NeverForgotten(cfg, ss, es, SessionRedisKey(cfg.prefix, k))
    requires forall n | i <= n <= j :: HitInTime(cfg, ss, es, i, n, SessionRedisKey(cfg.prefix, k))
    ensures ss[j].db.Holds(SessionRedisKey(cfg.prefix, k), addr)
    ensures Alive(cfg, ss, es, i, j, SessionRedisKey(cfg.prefix, k))
    decreases j
  {
    if i == j {
    } else {
      HitsKeepSessionAlive(cfg, k, ss, es, i, j - 1, addr);
      assert !Forgets(cfg, ss[j - 1], es[j - 1], SessionRedisKey(cfg.prefix, k));
      AliveStep(cfg, k, ss, es, i, j - 1);
      RunValid(cfg, ss, es, j - 1);
      assert Next(cfg, ss[j - 1], es[j - 1], ss[j]);
      SessionEntryEffect(cfg, k, ss[j - 1], es[j - 1], ss[j]);
    }
  }

  // ---- No backend, no pool ---------------------------------------------------------------

  /** The members of the pool that the configuration assigns to the tenant. */
  function PoolOf(cfg: Config, s: State, tenant: string): set<string> {
    if tenant in cfg.tenants.tenants then Allowed(s.pools, cfg.tenants.tenants[tenant])
    else if cfg.tenants.policy.UseDefault? && cfg.tenants.fallback.Some?
    then Allowed(s.pools, cfg.tenants.fallback.value)
    else {}
  }

  /** The pool had nothing to offer when the call asked. */
  predicate AskedInVain(cfg: Config, ss: seq<State>, es: seq<Event>, m: nat, id: nat, tenant: string)
    requires |ss| == |es| + 1 && m < |es|
  {
    es[m] == PickBackend(id, None) && PoolOf(cfg, ss[m], tenant) == {}
  }

  lemma NoBackendStep(cfg: Config, s: State, e: Event, s': State, id: nat)
    requires Valid(cfg, s) && Next(cfg, s, e, s') && id in s'.calls && s'.calls[id].pc == Done(NoBackend)
    requires !(id in s.calls && s.calls[id].pc == Done(NoBackend))
    ensures s'.calls[id].request.Resolves()
    ensures var t := s'.calls[id].request.key.tenant;
      || (e == PickBackend(id, None) && PoolOf(cfg, s, t) == {})
      || (t !in cfg.tenants.tenants && cfg.tenants.policy.UseDefault? && cfg.tenants.fallback.None?)
  {
  }

  /** In every run, whatever fails: a resolve ends without a backend only if the pool of its tenant was
      empty when the call asked it, or if neither the tenant nor the default has a pool. */
  lemma {:induction false} NoBackendMeansEmptyPool(cfg: Config, ss: seq<State>, es: seq<Event>, n: nat, id: nat)
    requires IsFullRun(cfg, ss, es) && n < |ss| && id in ss[n].calls && ss[n].calls[id].pc == Done(NoBackend)
    ensures ss[n].calls[id].request.Resolves()
    ensures var t := ss[n].calls[id].request.key.tenant;
      || (exists m: nat | m < n :: AskedInVain(cfg, ss, es, m, id, t))
      || (t !in cfg.tenants.tenants && cfg.tenants.policy.UseDefault? && cfg.tenants.fallback.None?)
  {
    assert n > 0;
    RunValid(cfg, ss, es, n - 1);
    var s, e, s' := ss[n - 1], es[n - 1], ss[n];
    assert Next(cfg, s, e, s');
    if id in s.calls && s.calls[id].pc == Done(NoBackend) {
      NoBackendMeansEmptyPool(cfg, ss, es, n - 1, id);
    } else {
      NoBackendStep(cfg, s, e, s', id);
      if e == PickBackend(id, None) && PoolOf(cfg, s, s'.calls[id].request.key.tenant) == {} {
        assert AskedInVain(cfg, ss, es, n - 1, id, s'.calls[id].request.key.tenant);
      }
    }
  }
}
