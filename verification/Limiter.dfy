/** Two-level rate limiting: a bucket per tenant, then a bucket per user of the tenant. The check
    is written once over a key type `K`: the in-process limiter keys its buckets by scope, the
    Redis limiter by strings. Against Redis the two bucket accesses of one check are two commands,
    and those of different checks interleave; buckets expire on the server's clock, and commands can
    be lost or arrive late. A run is therefore a sequence of accesses and of passing time. */
module Limiter {
  import opened Wrappers
  import opened Redis
  import opened TokenBucket
  import opened BucketLives

  datatype TenantLimits = TenantLimits(tenant: BucketRate, perUser: BucketRate)

  datatype Limits = Limits(overrides: map<string, TenantLimits>, fallback: TenantLimits) {
    function Of(tenant: string): TenantLimits {
      if tenant in overrides then overrides[tenant] else fallback
    }
  }

  /** What a Redis failure does to the request. */
  datatype FailMode = Open | Closed

  /** `ttl` is the lifetime of an idle bucket; in process, buckets do not expire. */
  datatype Setup = Setup(limits: Limits, mode: FailMode, ttl: Option<nat>)

  datatype Verdict = Admit | RejectTenant | RejectUser | Unavailable

  datatype Answer = Yes | No | Error

  datatype Request = Request(tenant: string, user: string)

  /** Take a token from the bucket stored under `k`, as the client experiences it. */
  function Consult<K>(x: Setup, b: map<K, Slot>, k: K, cfg: BucketRate, v: Visit, fault: Fault): (map<K, Slot>, Answer)
  {
    if !fault.Runs() then (b, Error)
    else
      var (after, ok) := TakeSlot(cfg, x.ttl, Find(b, k), v);
      (b[k := after], if fault.ReplyLost? then Error else if ok then Yes else No)
  }

  /** The bucket answer lets the request go on. */
  predicate Passes(mode: FailMode, a: Answer) { a.Yes? || (a.Error? && mode.Open?) }

  function Refusal(a: Answer, scope: Verdict): Verdict { if a.No? then scope else Unavailable }

  /** The tenant stage; a disabled bucket is not consulted. */
  function TenantStage<K>(x: Setup, tenant: string, b: map<K, Slot>, tk: K, v: Visit, fault: Fault): (map<K, Slot>,
      Answer)
  {
    var cfg := x.limits.Of(tenant).tenant;
    if cfg.Enabled() then Consult(x, b, tk, cfg, v, fault) else (b, Yes)
  }

  function UserStage<K>(x: Setup, tenant: string, b: map<K, Slot>, uk: K, v: Visit, fault: Fault): (map<K, Slot>,
      Answer)
  {
    var cfg := x.limits.Of(tenant).perUser;
    if cfg.Enabled() then Consult(x, b, uk, cfg, v, fault) else (b, Yes)
  }

  /** One attempt to visit a bucket. */
  datatype Touch = Touch(visit: Visit, fault: Fault)

  /** One uninterrupted check: both stages in a row. */
  function Check<K>(x: Setup, b: map<K, Slot>, tk: K, uk: K, r: Request, first: Touch, second: Touch): (map<K, Slot>,
      Verdict)
  {
    var (b1, a1) := TenantStage(x, r.tenant, b, tk, first.visit, first.fault);
    if !Passes(x.mode, a1) then (b1, Refusal(a1, RejectTenant))
    else
      var (b2, a2) := UserStage(x, r.tenant, b1, uk, second.visit, second.fault);
      (b2, if Passes(x.mode, a2) then Admit else Refusal(a2, RejectUser))
  }

  // ---- Runs of interleaved accesses -----------------------------------------

  /** The first access of check `id` concerns the tenant bucket, the second the user bucket. A stray
      access is a command that runs after its check has given up on it. */
  datatype Event =
    | First(id: nat, request: Request, at: real, fault: Fault)
    | Second(id: nat, at: real, fault: Fault)
    | Stray(request: Request, onUser: bool, at: real)
    | Pass(d: real)

  /** The buckets, the checks that are past the tenant bucket and owe the user bucket a visit, and the
      server's clock. */
  datatype State<K(==)> = State(buckets: map<K, Slot>, waiting: map<nat, Request>, clock: real)

  /** Checks in flight have distinct ids, a second access needs a first, and time does not go back. */
  predicate Ready<K>(s: State<K>, e: Event) {
    match e
    case First(id, _, _, _) => id !in s.waiting
    case Second(id, _, _) => id in s.waiting
    case Stray(_, _, _) => true
    case Pass(d) => d >= 0.0
  }

  function RequestOf<K>(s: State<K>, e: Event): Request
    requires Ready(s, e) && !e.Pass?
  {
    if e.Second? then s.waiting[e.id] else e.request
  }

  /** One access: the new state, and the verdict if the check ends here. */
  function Access<K>(x: Setup, s: State<K>, e: Event, tk: K, uk: K): (State<K>, Option<Verdict>)
    requires Ready(s, e) && !e.Pass?
  {
    var r := RequestOf(s, e);
    var v := Visit(e.at, s.clock);
    match e
    case First(id, _, _, fault) =>
      var (b, a) := TenantStage(x, r.tenant, s.buckets, tk, v, fault);
      if !Passes(x.mode, a) then (s.(buckets := b), Some(Refusal(a, RejectTenant)))
      else if x.limits.Of(r.tenant).perUser.Enabled() then (s.(buckets := b, waiting := s.waiting[id := r]), None)
      else (s.(buckets := b), Some(Admit))
    case Second(id, _, fault) =>
      var (b, a) := UserStage(x, r.tenant, s.buckets, uk, v, fault);
      (s.(buckets := b, waiting := s.waiting - {id}), Some(if Passes(x.mode, a) then Admit else Refusal(a, RejectUser)))
    case Stray(_, onUser, _) =>
      var b := if onUser then UserStage(x, r.tenant, s.buckets, uk, v, NoFault).0
               else TenantStage(x, r.tenant, s.buckets, tk, v, NoFault).0;
      (s.(buckets := b), None)
  }

  /** A check whose two accesses follow each other, with time in between, is one uninterrupted check. */
  lemma AccessesMakeOneCheck<K>(x: Setup, s: State<K>, id: nat, r: Request, at: real, fault: Fault,
    d: real, userAt: real, userFault: Fault, tk: K, uk: K)
    requires id !in s.waiting && d >= 0.0
    ensures var e1, e2 := First(id, r, at, fault), Second(id, userAt, userFault);
      var first, second := Touch(Visit(at, s.clock), fault), Touch(Visit(userAt, s.clock + d), userFault);
      var (b, v) := Check(x, s.buckets, tk, uk, r, first, second);
      var (s1, v1) := Access(x, s, e1, tk, uk);
      if v1.Some? then s1 == s.(buckets := b) && v1 == Some(v)
      else
        var s2 := s1.(clock := s1.clock + d);
        Ready(s2, e2) && Access(x, s2, e2, tk, uk) == (s.(buckets := b, clock := s.clock + d), Some(v))
  {
    var s1 := Access(x, s, First(id, r, at, fault), tk, uk).0;
    assert s1.waiting - {id} == s.waiting;
  }

  datatype Scope = TenantScope(tenant: string) | UserScope(tenant: string, user: string)

  type Run = seq<Event>

  function Init(es: Run): Run
    requires es != []
  {
    es[..|es| - 1]
  }

  function Last(es: Run): Event
    requires es != []
  {
    es[|es| - 1]
  }

  /** One event with buckets keyed by scope. */
  function StepScoped(x: Setup, s: State<Scope>, e: Event): (State<Scope>, Option<Verdict>)
    requires Ready(s, e)
  {
    if e.Pass? then (s.(clock := s.clock + e.d), None)
    else
      var r := RequestOf(s, e);
      Access(x, s, e, TenantScope(r.tenant), UserScope(r.tenant, r.user))
  }

  /** The state after a run; events that are not ready do not happen. */
  function StateAfter(x: Setup, es: Run): State<Scope> {
    if es == [] then State(map[], map[], 0.0)
    else
      var s := StateAfter(x, Init(es));
      if Ready(s, Last(es)) then StepScoped(x, s, Last(es)).0 else s
  }

  /** The last event happens, for a request of tenant `t`. */
  predicate ByTenant(x: Setup, es: Run, t: string)
    requires es != []
  {
    var s := StateAfter(x, Init(es));
    Ready(s, Last(es)) && !Last(es).Pass? && RequestOf(s, Last(es)).tenant == t
  }

  predicate ByUser(x: Setup, es: Run, t: string, u: string)
    requires es != []
  {
    ByTenant(x, es, t) && RequestOf(StateAfter(x, Init(es)), Last(es)).user == u
  }

  /** The verdict given by the last event, if it ends a check. */
  function VerdictOf(x: Setup, es: Run): Option<Verdict>
    requires es != []
  {
    var s := StateAfter(x, Init(es));
    if Ready(s, Last(es)) then StepScoped(x, s, Last(es)).1 else None
  }

  /** The verdicts given to one tenant, in order. */
  function TenantVerdicts(x: Setup, es: Run, t: string): seq<Verdict> {
    if es == [] then []
    else
      var vs := TenantVerdicts(x, Init(es), t);
      if ByTenant(x, es, t) && VerdictOf(x, es).Some? then vs + [VerdictOf(x, es).value] else vs
  }

  function UserVerdicts(x: Setup, es: Run, t: string, u: string): seq<Verdict> {
    if es == [] then []
    else
      var vs := UserVerdicts(x, Init(es), t, u);
      if ByUser(x, es, t, u) && VerdictOf(x, es).Some? then vs + [VerdictOf(x, es).value] else vs
  }

  function Count(vs: seq<Verdict>, v: Verdict): nat {
    if vs == [] then 0 else Count(vs[..|vs| - 1], v) + if vs[|vs| - 1] == v then 1 else 0
  }

  lemma CountSnoc(vs: seq<Verdict>, w: Verdict, v: Verdict)
    ensures Count(vs + [w], v) == Count(vs, v) + if w == v then 1 else 0
  {
    assert (vs + [w])[..|vs + [w]| - 1] == vs;
  }

  lemma TenantCountStep(x: Setup, es: Run, t: string, v: Verdict)
    requires es != []
    ensures Count(TenantVerdicts(x, es, t), v)
         == Count(TenantVerdicts(x, Init(es), t), v)
            + if ByTenant(x, es, t) && VerdictOf(x, es) == Some(v) then 1 else 0
  {
    if ByTenant(x, es, t) && VerdictOf(x, es).Some? {
      CountSnoc(TenantVerdicts(x, Init(es), t), VerdictOf(x, es).value, v);
    }
  }

  lemma UserCountStep(x: Setup, es: Run, t: string, u: string, v: Verdict)
    requires es != []
    ensures Count(UserVerdicts(x, es, t, u), v)
         == Count(UserVerdicts(x, Init(es), t, u), v)
            + if ByUser(x, es, t, u) && VerdictOf(x, es) == Some(v) then 1 else 0
  {
    if ByUser(x, es, t, u) && VerdictOf(x, es).Some? {
      CountSnoc(UserVerdicts(x, Init(es), t, u), VerdictOf(x, es).value, v);
    }
  }

  /** The verdicts that an access without a failure can end in. */
  lemma VerdictKinds(x: Setup, es: Run, t: string)
    requires es != [] && ByTenant(x, es, t) && !Last(es).Stray? && Last(es).fault.NoFault?
    ensures Last(es).First? ==> VerdictOf(x, es) in {None, Some(Admit), Some(RejectTenant)}
    ensures Last(es).Second? ==> VerdictOf(x, es) in {Some(Admit), Some(RejectUser)}
  {
  }

  // ---- Each bucket sees exactly its own accesses ------------------------------

  /** The event runs the script on a tenant bucket, or on a user bucket. */
  predicate RunsOnTenant(e: Event) { (e.First? && e.fault.Runs()) || (e.Stray? && !e.onUser) }

  predicate RunsOnUser(e: Event) { (e.Second? && e.fault.Runs()) || (e.Stray? && e.onUser) }

  /** The last event as a visit. */
  function LastVisit(x: Setup, es: Run): Visit
    requires es != [] && !Last(es).Pass?
  {
    Visit(Last(es).at, StateAfter(x, Init(es)).clock)
  }

  /** The visits to the tenant's bucket. */
  function TenantVisits(x: Setup, es: Run, t: string): seq<Visit> {
    if es == [] then []
    else
      var vs := TenantVisits(x, Init(es), t);
      if ByTenant(x, es, t) && RunsOnTenant(Last(es)) then vs + [LastVisit(x, es)] else vs
  }

  /** The visits to the user's bucket. */
  function UserVisits(x: Setup, es: Run, t: string, u: string): seq<Visit> {
    if es == [] then []
    else
      var vs := UserVisits(x, Init(es), t, u);
      if ByUser(x, es, t, u) && RunsOnUser(Last(es)) then vs + [LastVisit(x, es)] else vs
  }

  function Slots(x: Setup, es: Run): map<Scope, Slot> { StateAfter(x, es).buckets }

  lemma TenantBucketEffect(x: Setup, es: Run, t: string)
    requires es != [] && x.limits.Of(t).tenant.Enabled()
    ensures var b, b' := Slots(x, Init(es)), Slots(x, es);
      Find(b', TenantScope(t))
      == if ByTenant(x, es, t) && RunsOnTenant(Last(es))
         then Some(TakeSlot(x.limits.Of(t).tenant, x.ttl, Find(b, TenantScope(t)), LastVisit(x, es)).0)
         else Find(b, TenantScope(t))
  {
  }

  lemma UserBucketEffect(x: Setup, es: Run, t: string, u: string)
    requires es != [] && x.limits.Of(t).perUser.Enabled()
    ensures var b, b' := Slots(x, Init(es)), Slots(x, es);
      Find(b', UserScope(t, u))
      == if ByUser(x, es, t, u) && RunsOnUser(Last(es))
         then Some(TakeSlot(x.limits.Of(t).perUser, x.ttl, Find(b, UserScope(t, u)), LastVisit(x, es)).0)
         else Find(b, UserScope(t, u))
  {
  }

  lemma {:induction false} TenantBucketSeesTenantVisits(x: Setup, es: Run, t: string)
    requires x.limits.Of(t).tenant.Enabled()
    ensures Find(Slots(x, es), TenantScope(t)) == SlotAfter(x.limits.Of(t).tenant, x.ttl, TenantVisits(x, es, t))
  {
    if es == [] {
    } else {
      TenantBucketSeesTenantVisits(x, Init(es), t);
      TenantBucketEffect(x, es, t);
      if ByTenant(x, es, t) {
        TakeSlotExtends(x.limits.Of(t).tenant, x.ttl, TenantVisits(x, Init(es), t), LastVisit(x, es));
      }
    }
  }

  lemma {:induction false} UserBucketSeesUserVisits(x: Setup, es: Run, t: string, u: string)
    requires x.limits.Of(t).perUser.Enabled()
    ensures Find(Slots(x, es), UserScope(t, u)) == SlotAfter(x.limits.Of(t).perUser, x.ttl, UserVisits(x, es, t, u))
  {
    if es == [] {
    } else {
      UserBucketSeesUserVisits(x, Init(es), t, u);
      UserBucketEffect(x, es, t, u);
      if ByUser(x, es, t, u) {
        TakeSlotExtends(x.limits.Of(t).perUser, x.ttl, UserVisits(x, Init(es), t, u), LastVisit(x, es));
      }
    }
  }

  /** Tokens taken from a bucket by the visits `vs`, over all its lives. */
  function Spent(cfg: BucketRate, ttl: Option<nat>, vs: seq<Visit>): nat {
    ExpiringAdmits(cfg.burst, History(cfg, ttl, vs), 0, |vs|)
  }

  lemma SpentSnoc(cfg: BucketRate, ttl: Option<nat>, vs: seq<Visit>, v: Visit)
    requires cfg.Enabled()
    ensures Spent(cfg, ttl, vs + [v])
         == Spent(cfg, ttl, vs) + if TakeSlot(cfg, ttl, SlotAfter(cfg, ttl, vs), v).1 then 1 else 0
  {
    TakeSlotExtends(cfg, ttl, vs, v);
    HistorySnoc(cfg, ttl, vs, v);
    ExpiringPrefixAdmits(cfg.burst, History(cfg, ttl, vs), History(cfg, ttl, vs + [v]), 0, |vs|);
  }

  /** Tokens taken from the tenant's bucket over the run, and from the user's. */
  function TenantTokens(x: Setup, es: Run, t: string): nat {
    Spent(x.limits.Of(t).tenant, x.ttl, TenantVisits(x, es, t))
  }

  function UserTokens(x: Setup, es: Run, t: string, u: string): nat {
    Spent(x.limits.Of(t).perUser, x.ttl, UserVisits(x, es, t, u))
  }

  // ---- Conservation -------------------------------------------------------------

  /** The tenant's checks that are past its bucket and have no verdict yet. */
  function InFlight(w: map<nat, Request>, t: string): set<nat> {
    set id | id in w && w[id].tenant == t
  }

  /** Accesses of the tenant to its own bucket that failed. */
  function TenantFaults(x: Setup, es: Run, t: string): nat {
    if es == [] then 0
    else
      var n := TenantFaults(x, Init(es), t);
      if ByTenant(x, es, t) && Last(es).First? && !Last(es).fault.NoFault? then n + 1 else n
  }

  function UserFaults(x: Setup, es: Run, t: string, u: string): nat {
    if es == [] then 0
    else
      var n := UserFaults(x, Init(es), t, u);
      if ByUser(x, es, t, u) && Last(es).Second? && !Last(es).fault.NoFault? then n + 1 else n
  }

  predicate NotRefused(v: Option<Verdict>) { v.None? || v.value == Admit }

  /** Admitted, refused by a user bucket, unavailable at the user bucket, or in flight: the checks
      that have got past the tenant's bucket. */
  function PassedTenant(x: Setup, es: Run, t: string): nat {
    if es == [] then 0
    else
      var n := PassedTenant(x, Init(es), t);
      if ByTenant(x, es, t) && Last(es).First? && NotRefused(VerdictOf(x, es)) then n + 1 else n
  }

  lemma TenantTokensStep(x: Setup, es: Run, t: string)
    requires es != [] && x.limits.Of(t).tenant.Enabled()
    ensures TenantTokens(x, es, t) - TenantTokens(x, Init(es), t)
         == if ByTenant(x, es, t) && RunsOnTenant(Last(es))
               && TakeSlot(x.limits.Of(t).tenant, x.ttl, Find(Slots(x, Init(es)), TenantScope(t)), LastVisit(x, es)).1
            then 1 else 0
  {
    TenantBucketSeesTenantVisits(x, Init(es), t);
    if ByTenant(x, es, t) {
      SpentSnoc(x.limits.Of(t).tenant, x.ttl, TenantVisits(x, Init(es), t), LastVisit(x, es));
    }
  }

  /** One access to the tenant's bucket: it passes exactly when it takes a token, unless it fails,
      in which case the mode decides. */
  lemma TenantStep(x: Setup, es: Run, t: string)
    requires es != [] && ByTenant(x, es, t) && Last(es).First? && x.limits.Of(t).tenant.Enabled()
    ensures var taken := TenantTokens(x, es, t) - TenantTokens(x, Init(es), t);
      var passed := PassedTenant(x, es, t) - PassedTenant(x, Init(es), t);
      && 0 <= taken <= 1
      && passed == if Last(es).fault.NoFault? then taken else if x.mode.Open? then 1 else 0
  {
    TenantTokensStep(x, es, t);
  }

  /** No access of the tenant's checks fails or arrives late, at either bucket. */
  ghost predicate FaultFree(x: Setup, es: Run, t: string) {
    es != [] ==>
      FaultFree(x, Init(es), t) && (ByTenant(x, es, t) ==> !Last(es).Stray? && Last(es).fault.NoFault?)
  }

  lemma TakeOff(w: map<nat, Request>, id: nat, r: Request, t: string)
    requires id !in w
    ensures |InFlight(w[id := r], t)| == |InFlight(w, t)| + if r.tenant == t then 1 else 0
  {
    assert InFlight(w[id := r], t) == InFlight(w, t) + if r.tenant == t then {id} else {};
  }

  lemma Land(w: map<nat, Request>, id: nat, t: string)
    requires id in w
    ensures |InFlight(w - {id}, t)| == |InFlight(w, t)| - if w[id].tenant == t then 1 else 0
  {
    assert InFlight(w, t) == InFlight(w - {id}, t) + if w[id].tenant == t then {id} else {};
  }

  /** A first access without a verdict takes off, a second access lands. */
  lemma FlightStep(x: Setup, es: Run, t: string)
    requires es != []
    ensures |InFlight(StateAfter(x, es).waiting, t)| - |InFlight(StateAfter(x, Init(es)).waiting, t)|
         == if !ByTenant(x, es, t) then 0
            else if Last(es).Second? then -1
            else if Last(es).First? && VerdictOf(x, es).None? then 1
            else 0
  {
    var w := StateAfter(x, Init(es)).waiting;
    if Last(es).Second? && Last(es).id in w { Land(w, Last(es).id, t); }
    if Last(es).First? && Last(es).id !in w { TakeOff(w, Last(es).id, Last(es).request, t); }
  }

  lemma {:induction false} PassedAreAccountedFor(x: Setup, es: Run, t: string)
    requires FaultFree(x, es, t)
    ensures var vs := TenantVerdicts(x, es, t);
      PassedTenant(x, es, t) == Count(vs, Admit) + Count(vs, RejectUser) + |InFlight(StateAfter(x, es).waiting, t)|
  {
    if es == [] {
    } else {
      PassedAreAccountedFor(x, Init(es), t);
      FlightStep(x, es, t);
      TenantCountStep(x, es, t, Admit);
      TenantCountStep(x, es, t, RejectUser);
      if ByTenant(x, es, t) { VerdictKinds(x, es, t); }
    }
  }

  lemma {:induction false} PassesAreTokens(x: Setup, es: Run, t: string)
    requires x.limits.Of(t).tenant.Enabled() && FaultFree(x, es, t)
    ensures PassedTenant(x, es, t) == TenantTokens(x, es, t) && TenantFaults(x, es, t) == 0
  {
    if es == [] {
    } else {
      PassesAreTokens(x, Init(es), t);
      if ByTenant(x, es, t) && Last(es).First? { TenantStep(x, es, t); }
    }
  }

  /** Conservation, in every interleaving without failed accesses, however often buckets expire: the
      tokens taken from the tenant's bucket are the checks admitted, plus those refused by a user
      bucket, plus those still between the two buckets. */
  lemma TenantConservation(x: Setup, es: Run, t: string)
    requires x.limits.Of(t).tenant.Enabled() && FaultFree(x, es, t)
    ensures var vs := TenantVerdicts(x, es, t);
      TenantTokens(x, es, t) == Count(vs, Admit) + Count(vs, RejectUser) + |InFlight(StateAfter(x, es).waiting, t)|
  {
    PassedAreAccountedFor(x, es, t);
    PassesAreTokens(x, es, t);
  }

  // ---- Quotas ---------------------------------------------------------------------

  /** From any point on, passes at the tenant's bucket are covered by tokens, or in fail-open mode
      by failed accesses. */
  lemma {:induction false} PassesCovered(x: Setup, es: Run, k: nat, t: string)
    requires x.limits.Of(t).tenant.Enabled() && k <= |es|
    ensures var past := es[..k];
      PassedTenant(x, es, t) - PassedTenant(x, past, t)
      <= TenantTokens(x, es, t) - TenantTokens(x, past, t)
         + if x.mode.Open? then TenantFaults(x, es, t) - TenantFaults(x, past, t) else 0
    decreases |es|
  {
    if k == |es| {
      assert es[..k] == es;
    } else {
      assert Init(es)[..k] == es[..k];
      PassesCovered(x, Init(es), k, t);
      TenantTokensStep(x, es, t);
      if ByTenant(x, es, t) && Last(es).First? { TenantStep(x, es, t); }
    }
  }

  lemma UserTokensStep(x: Setup, es: Run, t: string, u: string)
    requires es != [] && x.limits.Of(t).perUser.Enabled()
    ensures UserTokens(x, es, t, u) - UserTokens(x, Init(es), t, u)
         == if ByUser(x, es, t, u) && RunsOnUser(Last(es))
               && TakeSlot(x.limits.Of(t).perUser, x.ttl, Find(Slots(x, Init(es)), UserScope(t, u)), LastVisit(x, es)).1
            then 1 else 0
  {
    UserBucketSeesUserVisits(x, Init(es), t, u);
    if ByUser(x, es, t, u) {
      SpentSnoc(x.limits.Of(t).perUser, x.ttl, UserVisits(x, Init(es), t, u), LastVisit(x, es));
    }
  }

  lemma UserStep(x: Setup, es: Run, t: string, u: string)
    requires es != [] && ByUser(x, es, t, u) && x.limits.Of(t).perUser.Enabled()
    ensures var taken := UserTokens(x, es, t, u) - UserTokens(x, Init(es), t, u);
      && 0 <= taken <= 1
      && (VerdictOf(x, es) == Some(Admit)
          <==> Last(es).Second? && if Last(es).fault.NoFault? then taken == 1 else x.mode.Open?)
  {
    UserTokensStep(x, es, t, u);
  }

  lemma {:induction false} UserAdmissionsCovered(x: Setup, es: Run, k: nat, t: string, u: string)
    requires x.limits.Of(t).perUser.Enabled() && k <= |es|
    ensures var past := es[..k];
      Count(UserVerdicts(x, es, t, u), Admit) - Count(UserVerdicts(x, past, t, u), Admit)
      <= UserTokens(x, es, t, u) - UserTokens(x, past, t, u)
         + if x.mode.Open? then UserFaults(x, es, t, u) - UserFaults(x, past, t, u) else 0
    decreases |es|
  {
    if k == |es| {
      assert es[..k] == es;
    } else {
      assert Init(es)[..k] == es[..k];
      UserAdmissionsCovered(x, Init(es), k, t, u);
      UserTokensStep(x, es, t, u);
      UserCountStep(x, es, t, u, Admit);
      if ByUser(x, es, t, u) { UserStep(x, es, t, u); }
    }
  }

  lemma {:induction false} VisitsGrow(x: Setup, es: Run, k: nat, t: string, u: string)
    requires k <= |es|
    ensures TenantVisits(x, es[..k], t) <= TenantVisits(x, es, t)
    ensures UserVisits(x, es[..k], t, u) <= UserVisits(x, es, t, u)
    decreases |es|
  {
    if k == |es| {
      assert es[..k] == es;
    } else {
      assert Init(es)[..k] == es[..k];
      VisitsGrow(x, Init(es), k, t, u);
    }
  }

  /** The lives of the bucket that begin after visit `i`. */
  function LivesSince(ttl: Option<nat>, vs: seq<Visit>, i: nat): nat {
    if |vs| <= i then 0 else Expiries(Readings(ttl, vs), i, |vs| - 1)
  }

  /** How far the callers' clocks move forward from visit `i` on, within the lives of the bucket. */
  function MovementSince(ttl: Option<nat>, vs: seq<Visit>, i: nat): real {
    if |vs| <= i then 0.0 else LifeForward(Readings(ttl, vs), i, |vs| - 1)
  }

  lemma {:induction false} HistoryOfPrefix(cfg: BucketRate, ttl: Option<nat>, past: seq<Visit>, vs: seq<Visit>)
    requires past <= vs
    ensures History(cfg, ttl, past) <= History(cfg, ttl, vs)
    decreases |vs|
  {
    if past == vs {
    } else {
      var before, v := vs[..|vs| - 1], vs[|vs| - 1];
      HistoryOfPrefix(cfg, ttl, past, before);
      assert vs == before + [v];
      HistorySnoc(cfg, ttl, before, v);
    }
  }

  lemma SpentInWindow(cfg: BucketRate, ttl: Option<nat>, past: seq<Visit>, vs: seq<Visit>)
    requires past <= vs
    ensures Spent(cfg, ttl, vs) - Spent(cfg, ttl, past)
         == ExpiringAdmits(cfg.burst, History(cfg, ttl, vs), |past|, |vs|)
  {
    HistoryOfPrefix(cfg, ttl, past, vs);
    ExpiringPrefixAdmits(cfg.burst, History(cfg, ttl, past), History(cfg, ttl, vs), 0, |past|);
    ExpiringAdmitsSplit(cfg.burst, History(cfg, ttl, vs), |past|, |vs|);
  }

  /** What a bucket may hand out: `lives + 1` bursts, and the tokens released in `seconds`. */
  function Allowance(cfg: BucketRate, lives: nat, seconds: real): real {
    Bursts(cfg.burst, lives) as real + Credit(cfg.rate, seconds)
  }

  lemma NoVisitsAllowed(cfg: BucketRate)
    ensures Allowance(cfg, 0, 0.0) == cfg.burst as real
  {
    OneMoreBurst(cfg.burst, 0);
  }

  lemma WindowWithinAllowance(cfg: BucketRate, ttl: Option<nat>, vs: seq<Visit>, i: nat)
    requires cfg.Enabled() && i < |vs|
    ensures ExpiringAdmits(cfg.burst, History(cfg, ttl, vs), i, |vs|) as real
         <= Allowance(cfg, LivesSince(ttl, vs, i), MovementSince(ttl, vs, i))
  {
    ExpiringForwardBound(cfg, ttl, vs, i, |vs| - 1);
  }

  lemma SpentWithinQuota(cfg: BucketRate, ttl: Option<nat>, past: seq<Visit>, vs: seq<Visit>)
    requires cfg.Enabled() && past <= vs
    ensures (Spent(cfg, ttl, vs) - Spent(cfg, ttl, past)) as real
         <= Allowance(cfg, LivesSince(ttl, vs, |past|), MovementSince(ttl, vs, |past|))
  {
    SpentInWindow(cfg, ttl, past, vs);
    if |past| == |vs| {
      NoVisitsAllowed(cfg);
    } else {
      WindowWithinAllowance(cfg, ttl, vs, |past|);
    }
  }

  /** The checks that get past the tenant's bucket after the first `k` events stay within what a bucket
      with rate and burst `cfg` may hand out; fail-open mode adds the failed accesses. */
  predicate TenantWithinAllowance(x: Setup, es: Run, k: nat, t: string, cfg: BucketRate)
    requires k <= |es|
  {
    var past := es[..k];
    var vs, i := TenantVisits(x, es, t), |TenantVisits(x, past, t)|;
    (PassedTenant(x, es, t) - PassedTenant(x, past, t)) as real
    <= Allowance(cfg, LivesSince(x.ttl, vs, i), MovementSince(x.ttl, vs, i))
       + if x.mode.Open? then (TenantFaults(x, es, t) - TenantFaults(x, past, t)) as real else 0.0
  }

  /** The same for the admissions of a user. */
  predicate UserWithinAllowance(x: Setup, es: Run, k: nat, t: string, u: string, cfg: BucketRate)
    requires k <= |es|
  {
    var past := es[..k];
    var vs, i := UserVisits(x, es, t, u), |UserVisits(x, past, t, u)|;
    (Count(UserVerdicts(x, es, t, u), Admit) - Count(UserVerdicts(x, past, t, u), Admit)) as real
    <= Allowance(cfg, LivesSince(x.ttl, vs, i), MovementSince(x.ttl, vs, i))
       + if x.mode.Open? then (UserFaults(x, es, t, u) - UserFaults(x, past, t, u)) as real else 0.0
  }

  /** The tenant quota over any window of any interleaving, whatever fails, however the clocks
      disagree and however often the bucket expires: the checks that get past the bucket after the
      first `k` events stay within one burst, one more for each life of the bucket that begins since
      then, and rate times the movement of the clock at the bucket. Only fail-open mode adds the
      failed accesses. */
  lemma TenantQuota(x: Setup, es: Run, k: nat, t: string)
    requires x.limits.Of(t).tenant.Enabled() && k <= |es|
    ensures TenantWithinAllowance(x, es, k, t, x.limits.Of(t).tenant)
  {
    PassesCovered(x, es, k, t);
    VisitsGrow(x, es, k, t, "");
    SpentWithinQuota(x.limits.Of(t).tenant, x.ttl, TenantVisits(x, es[..k], t), TenantVisits(x, es, t));
  }

  /** Every admission is a check that got past the tenant's bucket. */
  lemma {:induction false} AdmittedHavePassed(x: Setup, es: Run, t: string)
    ensures Count(TenantVerdicts(x, es, t), Admit) + |InFlight(StateAfter(x, es).waiting, t)| <= PassedTenant(x, es, t)
  {
    if es == [] {
    } else {
      AdmittedHavePassed(x, Init(es), t);
      FlightStep(x, es, t);
      TenantCountStep(x, es, t, Admit);
    }
  }

  /** The admissions of each user over any window of any interleaving stay within the user quota. */
  lemma UserQuota(x: Setup, es: Run, k: nat, t: string, u: string)
    requires x.limits.Of(t).perUser.Enabled() && k <= |es|
    ensures UserWithinAllowance(x, es, k, t, u, x.limits.Of(t).perUser)
  {
    UserAdmissionsCovered(x, es, k, t, u);
    VisitsGrow(x, es, k, t, u);
    SpentWithinQuota(x.limits.Of(t).perUser, x.ttl, UserVisits(x, es[..k], t, u), UserVisits(x, es, t, u));
  }
}
