/** Tenants do not influence each other, neither with buckets keyed by scope nor, as long as their
    names contain no separator, with buckets keyed by strings in Redis. */
module LimiterIsolation {
  import opened Wrappers
  import opened Keys
  import opened Redis
  import opened TokenBucket
  import opened BucketLives
  import opened Limiter

  // ---- Independence of tenants ----------------------------------------------------

  /** Time passes for everybody; of the other events, those for requests of tenant `t` stay and all
      others are deleted. */
  function Only(x: Setup, es: Run, t: string): Run {
    if es == [] then []
    else if Last(es).Pass? || ByTenant(x, es, t) then Only(x, Init(es), t) + [Last(es)]
    else Only(x, Init(es), t)
  }

  function Own(w: map<nat, Request>, t: string): map<nat, Request> {
    map id | id in w && w[id].tenant == t :: w[id]
  }

  /** The buckets of the tenant and of its users are the same, and `b` has only its checks in flight. */
  ghost predicate SameForTenant(a: State<Scope>, b: State<Scope>, t: string) {
    SameBuckets(a.buckets, b.buckets, t) && b.waiting == Own(a.waiting, t) && b.clock == a.clock
  }

  ghost predicate SameBuckets(a: map<Scope, Slot>, b: map<Scope, Slot>, t: string) {
    forall s: Scope | s.tenant == t :: Find(a, s) == Find(b, s)
  }

  lemma ConsultSame(x: Setup, a: map<Scope, Slot>, b: map<Scope, Slot>, t: string, s: Scope, cfg: BucketRate,
      v: Visit, fault: Fault)
    requires SameBuckets(a, b, t) && s.tenant == t
    ensures Consult(x, a, s, cfg, v, fault).1 == Consult(x, b, s, cfg, v, fault).1
    ensures SameBuckets(Consult(x, a, s, cfg, v, fault).0, Consult(x, b, s, cfg, v, fault).0, t)
  {
    assert Find(a, s) == Find(b, s);
    var a', b' := Consult(x, a, s, cfg, v, fault).0, Consult(x, b, s, cfg, v, fault).0;
    forall q: Scope | q.tenant == t ensures Find(a', q) == Find(b', q) {
      assert Find(a, q) == Find(b, q);
    }
  }

  lemma StagesSame(x: Setup, a: map<Scope, Slot>, b: map<Scope, Slot>, r: Request, v: Visit, fault: Fault)
    requires SameBuckets(a, b, r.tenant)
    ensures var k := TenantScope(r.tenant);
      var (a', p), (b', q) := TenantStage(x, r.tenant, a, k, v, fault), TenantStage(x, r.tenant, b, k, v, fault);
      p == q && SameBuckets(a', b', r.tenant)
    ensures var k := UserScope(r.tenant, r.user);
      var (a', p), (b', q) := UserStage(x, r.tenant, a, k, v, fault), UserStage(x, r.tenant, b, k, v, fault);
      p == q && SameBuckets(a', b', r.tenant)
  {
    var lim := x.limits.Of(r.tenant);
    ConsultSame(x, a, b, r.tenant, TenantScope(r.tenant), lim.tenant, v, fault);
    ConsultSame(x, a, b, r.tenant, UserScope(r.tenant, r.user), lim.perUser, v, fault);
  }

  lemma OwnTakeOff(w: map<nat, Request>, id: nat, r: Request)
    requires id !in w
    ensures Own(w[id := r], r.tenant) == Own(w, r.tenant)[id := r]
  {
  }

  lemma OwnLand(w: map<nat, Request>, id: nat, t: string)
    ensures Own(w - {id}, t) == Own(w, t) - {id}
  {
  }

  /** An access of the tenant has the same effect in both states. */
  lemma AccessSame(x: Setup, a: State<Scope>, b: State<Scope>, e: Event, t: string)
    requires SameForTenant(a, b, t) && Ready(a, e) && !e.Pass? && RequestOf(a, e).tenant == t
    ensures Ready(b, e) && RequestOf(b, e) == RequestOf(a, e)
    ensures StepScoped(x, a, e).1 == StepScoped(x, b, e).1
    ensures SameForTenant(StepScoped(x, a, e).0, StepScoped(x, b, e).0, t)
  {
    var r := RequestOf(a, e);
    StagesSame(x, a.buckets, b.buckets, r, Visit(e.at, a.clock), if e.Stray? then NoFault else e.fault);
    if e.First? { OwnTakeOff(a.waiting, e.id, r); }
    if e.Second? { OwnLand(a.waiting, e.id, t); }
  }

  /** An access of another tenant does not reach the tenant's state. */
  lemma OthersLeaveTenantAlone(x: Setup, a: State<Scope>, e: Event, t: string)
    requires Ready(a, e) && !e.Pass? && RequestOf(a, e).tenant != t
    ensures SameBuckets(StepScoped(x, a, e).0.buckets, a.buckets, t) && StepScoped(x, a, e).0.clock == a.clock
    ensures Own(StepScoped(x, a, e).0.waiting, t) == Own(a.waiting, t)
  {
  }

  /** Independence: in every interleaving, deleting all accesses of other tenants changes none of
      the tenant's verdicts, however often buckets expire. */
  lemma {:induction false} TenantsAreIndependent(x: Setup, es: Run, t: string)
    ensures TenantVerdicts(x, es, t) == TenantVerdicts(x, Only(x, es, t), t)
    ensures SameForTenant(StateAfter(x, es), StateAfter(x, Only(x, es, t)), t)
  {
    if es == [] {
      assert Own(map[], t) == map[];
    } else {
      TenantsAreIndependent(x, Init(es), t);
      var s, e, os := StateAfter(x, Init(es)), Last(es), Only(x, Init(es), t);
      var us := os + [e];
      assert Init(us) == os && Last(us) == e;
      if ByTenant(x, es, t) {
        AccessSame(x, s, StateAfter(x, os), e, t);
      } else if Ready(s, e) && !e.Pass? {
        OthersLeaveTenantAlone(x, s, e, t);
      }
    }
  }

  // ---- Redis keys -------------------------------------------------------------------

  /** One event with buckets keyed by strings. */
  function StepKeyed(x: Setup, prefix: string, s: State<string>, e: Event): (State<string>, Option<Verdict>)
    requires Ready(s, e)
  {
    if e.Pass? then (s.(clock := s.clock + e.d), None)
    else
      var r := RequestOf(s, e);
      Access(x, s, e, TenantBucketKey(prefix, r.tenant), UserBucketKey(prefix, r.tenant, r.user))
  }

  function AfterKeyed(x: Setup, prefix: string, es: Run): State<string> {
    if es == [] then State(map[], map[], 0.0)
    else
      var s := AfterKeyed(x, prefix, Init(es));
      if Ready(s, Last(es)) then StepKeyed(x, prefix, s, Last(es)).0 else s
  }

  /** The verdict given by the last event over Redis keys, if it ends a check. */
  function KeyedVerdictOf(x: Setup, prefix: string, es: Run): Option<Verdict>
    requires es != []
  {
    var s := AfterKeyed(x, prefix, Init(es));
    if Ready(s, Last(es)) then StepKeyed(x, prefix, s, Last(es)).1 else None
  }

  function ScopeKey(prefix: string, s: Scope): string {
    match s
    case TenantScope(t) => TenantBucketKey(prefix, t)
    case UserScope(t, u) => UserBucketKey(prefix, t, u)
  }

  predicate CleanScope(s: Scope) { '|' !in s.tenant }

  lemma ScopeKeyInjective(prefix: string, a: Scope, b: Scope)
    requires CleanScope(a) && CleanScope(b)
    ensures ScopeKey(prefix, a) == ScopeKey(prefix, b) <==> a == b
  {
    match (a, b)
    case (TenantScope(t), TenantScope(t')) => BucketKeysDiffer(prefix, t, "", "");
    case (TenantScope(t), UserScope(t', u')) => BucketKeysDiffer(prefix, t, t', u');
    case (UserScope(t, u), TenantScope(t')) => BucketKeysDiffer(prefix, t', t, u);
    case (UserScope(t, u), UserScope(t', u')) =>
      UserBucketKeyRoundTrip(prefix, t, u);
      UserBucketKeyRoundTrip(prefix, t', u');
  }

  /** The hash under each key is the bucket of its scope. */
  ghost predicate Mirrors(prefix: string, m: map<string, Slot>, b: map<Scope, Slot>) {
    forall s: Scope | CleanScope(s) :: Find(m, ScopeKey(prefix, s)) == Find(b, s)
  }

  lemma ConsultMirrors(x: Setup, prefix: string, m: map<string, Slot>, b: map<Scope, Slot>, s: Scope,
      cfg: BucketRate, v: Visit, fault: Fault)
    requires Mirrors(prefix, m, b) && CleanScope(s)
    ensures Consult(x, m, ScopeKey(prefix, s), cfg, v, fault).1 == Consult(x, b, s, cfg, v, fault).1
    ensures Mirrors(prefix, Consult(x, m, ScopeKey(prefix, s), cfg, v, fault).0, Consult(x, b, s, cfg, v, fault).0)
  {
    assert Find(m, ScopeKey(prefix, s)) == Find(b, s);
    var m', b' := Consult(x, m, ScopeKey(prefix, s), cfg, v, fault).0, Consult(x, b, s, cfg, v, fault).0;
    forall q: Scope | CleanScope(q) ensures Find(m', ScopeKey(prefix, q)) == Find(b', q) {
      ScopeKeyInjective(prefix, s, q);
      assert Find(m, ScopeKey(prefix, q)) == Find(b, q);
    }
  }

  lemma StagesMirror(x: Setup, prefix: string, m: map<string, Slot>, b: map<Scope, Slot>, r: Request, v: Visit,
      fault: Fault)
    requires Mirrors(prefix, m, b) && '|' !in r.tenant
    ensures var (m', p) := TenantStage(x, r.tenant, m, TenantBucketKey(prefix, r.tenant), v, fault);
      var (b', q) := TenantStage(x, r.tenant, b, TenantScope(r.tenant), v, fault);
      p == q && Mirrors(prefix, m', b')
    ensures var (m', p) := UserStage(x, r.tenant, m, UserBucketKey(prefix, r.tenant, r.user), v, fault);
      var (b', q) := UserStage(x, r.tenant, b, UserScope(r.tenant, r.user), v, fault);
      p == q && Mirrors(prefix, m', b')
  {
    var lim := x.limits.Of(r.tenant);
    ConsultMirrors(x, prefix, m, b, TenantScope(r.tenant), lim.tenant, v, fault);
    ConsultMirrors(x, prefix, m, b, UserScope(r.tenant, r.user), lim.perUser, v, fault);
  }

  lemma StepMirrors(x: Setup, prefix: string, k: State<string>, s: State<Scope>, e: Event)
    requires Mirrors(prefix, k.buckets, s.buckets) && k.waiting == s.waiting && k.clock == s.clock
    requires Ready(s, e) && (e.Pass? || '|' !in RequestOf(s, e).tenant)
    ensures StepKeyed(x, prefix, k, e).1 == StepScoped(x, s, e).1
    ensures Mirrors(prefix, StepKeyed(x, prefix, k, e).0.buckets, StepScoped(x, s, e).0.buckets)
    ensures StepKeyed(x, prefix, k, e).0.waiting == StepScoped(x, s, e).0.waiting
    ensures StepKeyed(x, prefix, k, e).0.clock == StepScoped(x, s, e).0.clock
  {
    if !e.Pass? {
      var r := RequestOf(s, e);
      StagesMirror(x, prefix, k.buckets, s.buckets, r, Visit(e.at, s.clock), if e.Stray? then NoFault else e.fault);
    }
  }

  /** Every request of the run comes from a tenant without a separator in its name. */
  predicate CleanTenants(es: Run) {
    forall e <- es | e.First? || e.Stray? :: '|' !in e.request.tenant
  }

  lemma CleanPrefix(es: Run)
    requires es != [] && CleanTenants(es)
    ensures CleanTenants(Init(es)) && (Last(es).First? || Last(es).Stray? ==> '|' !in Last(es).request.tenant)
  {
    assert Last(es) in es && forall e <- Init(es) :: e in es;
  }

  /** With separator-free tenant names, the limiter over Redis keys gives the same verdicts as the
      limiter over scopes, event by event, on the same clock readings, faults and expiries. So
      everything proved over scopes holds over Redis keys. */
  lemma {:induction false} RedisKeysRefineScopes(x: Setup, prefix: string, es: Run)
    requires CleanTenants(es)
    ensures es != [] ==> KeyedVerdictOf(x, prefix, es) == VerdictOf(x, es)
    ensures var k, s := AfterKeyed(x, prefix, es), StateAfter(x, es);
      && k.waiting == s.waiting && k.clock == s.clock && Mirrors(prefix, k.buckets, s.buckets)
      && (forall id <- s.waiting :: '|' !in s.waiting[id].tenant)
  {
    if es == [] {
    } else {
      CleanPrefix(es);
      RedisKeysRefineScopes(x, prefix, Init(es));
      var s := StateAfter(x, Init(es));
      if Ready(s, Last(es)) {
        StepMirrors(x, prefix, AfterKeyed(x, prefix, Init(es)), s, Last(es));
      }
    }
  }

  /** The last event happens over Redis keys, for a request of tenant `t`. */
  predicate KeyedByTenant(x: Setup, prefix: string, es: Run, t: string)
    requires es != []
  {
    var s := AfterKeyed(x, prefix, Init(es));
    Ready(s, Last(es)) && !Last(es).Pass? && RequestOf(s, Last(es)).tenant == t
  }

  /** The verdicts the limiter over Redis keys gives to one tenant, in order. */
  function KeyedTenantVerdicts(x: Setup, prefix: string, es: Run, t: string): seq<Verdict> {
    if es == [] then []
    else
      var vs, v := KeyedTenantVerdicts(x, prefix, Init(es), t), KeyedVerdictOf(x, prefix, es);
      if KeyedByTenant(x, prefix, es, t) && v.Some? then vs + [v.value] else vs
  }

  function KeyedOnly(x: Setup, prefix: string, es: Run, t: string): Run {
    if es == [] then []
    else if Last(es).Pass? || KeyedByTenant(x, prefix, es, t) then KeyedOnly(x, prefix, Init(es), t) + [Last(es)]
    else KeyedOnly(x, prefix, Init(es), t)
  }

  lemma {:induction false} KeyedVerdictsAreScoped(x: Setup, prefix: string, es: Run, t: string)
    requires CleanTenants(es)
    ensures KeyedTenantVerdicts(x, prefix, es, t) == TenantVerdicts(x, es, t)
    ensures KeyedOnly(x, prefix, es, t) == Only(x, es, t) && CleanTenants(Only(x, es, t))
  {
    if es == [] {
    } else {
      CleanPrefix(es);
      KeyedVerdictsAreScoped(x, prefix, Init(es), t);
      RedisKeysRefineScopes(x, prefix, Init(es));
      RedisKeysRefineScopes(x, prefix, es);
    }
  }

  /** Independence over Redis: with separator-free tenant names, deleting all accesses of other
      tenants changes none of the tenant's verdicts. */
  lemma RedisTenantsAreIndependent(x: Setup, prefix: string, es: Run, t: string)
    requires CleanTenants(es)
    ensures KeyedTenantVerdicts(x, prefix, es, t) == KeyedTenantVerdicts(x, prefix, KeyedOnly(x, prefix, es, t), t)
  {
    KeyedVerdictsAreScoped(x, prefix, es, t);
    KeyedVerdictsAreScoped(x, prefix, Only(x, es, t), t);
    TenantsAreIndependent(x, es, t);
  }

  // ---- The condition on names is exact ---------------------------------------------

  /** Every tenant of the run has a clean name or is called `name`. */
  predicate CleanExcept(es: Run, name: string) {
    forall e <- es | e.First? || e.Stray? :: '|' !in e.request.tenant || e.request.tenant == name
  }

  /** In every setup and every run whose tenants are clean or called `name`, no tenant's verdicts depend
      on the others. */
  ghost predicate IndependentWith(prefix: string, name: string) {
    forall x: Setup, es: Run, t: string | CleanExcept(es, name) ::
      KeyedTenantVerdicts(x, prefix, es, t) == KeyedTenantVerdicts(x, prefix, KeyedOnly(x, prefix, es, t), t)
  }

  /** Every user may make one request, tenants are not limited. */
  const ONE_EACH := Setup(Limits(map[], TenantLimits(BucketRate(0.0, 0), BucketRate(1.0, 1))), Closed, None)

  function OneCheck(id: nat, r: Request): Run { [First(id, r, 0.0, NoFault), Second(id, 0.0, NoFault)] }

  /** One check from an idle state visits the user's bucket and is admitted if that is unused. */
  lemma OneCheckEffect(prefix: string, es: Run, id: nat, r: Request, t: string)
    requires AfterKeyed(ONE_EACH, prefix, es).waiting == map[] && AfterKeyed(ONE_EACH, prefix, es).clock == 0.0
    ensures var s, us := AfterKeyed(ONE_EACH, prefix, es), es + OneCheck(id, r);
      var uk := UserBucketKey(prefix, r.tenant, r.user);
      var (slot, ok) := TakeSlot(BucketRate(1.0, 1), None, Find(s.buckets, uk), Visit(0.0, 0.0));
      && AfterKeyed(ONE_EACH, prefix, us) == s.(buckets := s.buckets[uk := slot])
      && KeyedTenantVerdicts(ONE_EACH, prefix, us, t)
         == KeyedTenantVerdicts(ONE_EACH, prefix, es, t)
            + (if r.tenant == t then [if ok then Admit else RejectUser] else [])
      && KeyedOnly(ONE_EACH, prefix, us, t)
         == KeyedOnly(ONE_EACH, prefix, es, t) + (if r.tenant == t then OneCheck(id, r) else [])
  {
    var e1, e2 := First(id, r, 0.0, NoFault), Second(id, 0.0, NoFault);
    var mid := es + [e1];
    assert Init(mid) == es && Last(mid) == e1;
    assert es + OneCheck(id, r) == mid + [e2];
    assert Init(mid + [e2]) == mid && Last(mid + [e2]) == e2;
    assert AfterKeyed(ONE_EACH, prefix, mid).waiting == map[id := r];
    assert map[id := r] - {id} == map[];
  }

  lemma EmptyThenFull()
    ensures var (slot, ok) := TakeSlot(BucketRate(1.0, 1), None, None, Visit(0.0, 0.0));
      ok && !TakeSlot(BucketRate(1.0, 1), None, Some(slot), Visit(0.0, 0.0)).1
  {
  }

  /** Two tenants whose users share a bucket: a request of one costs the other its admission. */
  lemma SharedBucketInterferes(prefix: string, dirty: Request, clean: Request)
    requires dirty.tenant != clean.tenant
    requires UserBucketKey(prefix, dirty.tenant, dirty.user) == UserBucketKey(prefix, clean.tenant, clean.user)
    ensures var es := ([] + OneCheck(0, dirty)) + OneCheck(1, clean);
      && KeyedTenantVerdicts(ONE_EACH, prefix, es, clean.tenant) == [RejectUser]
      && KeyedOnly(ONE_EACH, prefix, es, clean.tenant) == [] + OneCheck(1, clean)
  {
    var t, before := clean.tenant, [] + OneCheck(0, dirty);
    EmptyThenFull();
    OneCheckEffect(prefix, [], 0, dirty, t);
    assert KeyedTenantVerdicts(ONE_EACH, prefix, before, t) == [] && KeyedOnly(ONE_EACH, prefix, before, t) == [];
    OneCheckEffect(prefix, before, 1, clean, t);
  }

  lemma AloneAdmitted(prefix: string, r: Request)
    ensures KeyedTenantVerdicts(ONE_EACH, prefix, [] + OneCheck(1, r), r.tenant) == [Admit]
  {
    EmptyThenFull();
    OneCheckEffect(prefix, [], 1, r, r.tenant);
  }

  /** A name with a separator shares its users' buckets with a clean tenant. */
  lemma DirtyNameInterferes(prefix: string, name: string) returns (es: Run, t: string)
    requires '|' in name
    ensures CleanExcept(es, name)
    ensures KeyedTenantVerdicts(ONE_EACH, prefix, es, t)
         != KeyedTenantVerdicts(ONE_EACH, prefix, KeyedOnly(ONE_EACH, prefix, es, t), t)
  {
    UserBucketKeyRoundTrip(prefix, name, "");
    var d := DecodeUserBucket(prefix, UserBucketKey(prefix, name, "")).value;
    t := d.0;
    es := ([] + OneCheck(0, Request(name, ""))) + OneCheck(1, Request(t, d.1));
    SharedBucketInterferes(prefix, Request(name, ""), Request(t, d.1));
    AloneAdmitted(prefix, Request(t, d.1));
  }

  /** Independence over Redis holds alongside all clean names if and only if the name is clean. */
  lemma IndependentIffNameClean(prefix: string, name: string)
    ensures IndependentWith(prefix, name) <==> '|' !in name
  {
    if '|' !in name {
      forall x: Setup, es: Run, t: string | CleanExcept(es, name)
        ensures KeyedTenantVerdicts(x, prefix, es, t) == KeyedTenantVerdicts(x, prefix, KeyedOnly(x, prefix, es, t), t)
      {
        RedisTenantsAreIndependent(x, prefix, es, t);
      }
    } else {
      var es, t := DirtyNameInterferes(prefix, name);
    }
  }
}
