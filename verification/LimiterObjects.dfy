/** The two limiters as objects. In process, buckets live by value inside their maps, and serving one
    is `Take`, which `Bucket.TryTake` implements. */
module LimiterObjects {
  import opened Wrappers
  import opened Keys
  import opened Redis
  import opened TokenBucket
  import opened BucketLives
  import opened LuaBucket
  import opened Limiter

  // ---- In process --------------------------------------------------------------

  datatype TenantState = TenantState(tenantBucket: Balance, userBuckets: map<string, Balance>)

  /** A bucket that has just been created behaves like one that does not exist yet. */
  lemma FullBucketIsFresh(cfg: BucketRate, created: real, now: real)
    requires cfg.Enabled()
    ensures Take(cfg, Some(Balance(cfg.burst as real, created)), now) == Take(cfg, None, now)
  {
    assert Credit(cfg.rate, Rise(created, now)) >= 0.0;
  }

  /** In process a bucket does not expire. */
  function Forever(b: Balance): Slot { Slot(b, None) }

  /** The nested maps hold exactly the buckets of `view`; tenant buckets that are disabled exist
      but are never used. */
  ghost predicate Represents(limits: Limits, state: map<string, TenantState>, view: map<Scope, Slot>) {
    && (forall t: string :: RepresentsTenant(limits, state, view, t))
    && (forall t: string, u: string :: RepresentsUser(state, view, t, u))
  }

  ghost predicate RepresentsTenant(limits: Limits, state: map<string, TenantState>, view: map<Scope, Slot>, t: string) {
    limits.Of(t).tenant.Enabled() ==>
      Find(view, TenantScope(t)) == if t in state then Some(Forever(state[t].tenantBucket)) else None
  }

  ghost predicate RepresentsUser(state: map<string, TenantState>, view: map<Scope, Slot>, t: string, u: string) {
    Find(view, UserScope(t, u))
    == if t in state && u in state[t].userBuckets then Some(Forever(state[t].userBuckets[u])) else None
  }

  class MemoryLimiter {
    const limits: Limits
    var state: map<string, TenantState>
    ghost var view: map<Scope, Slot>

    ghost predicate Valid()
      reads this
    {
      Represents(limits, state, view)
    }

    /** The limits as a setup: no failures, no expiry. */
    function AsSetup(): Setup { Setup(limits, Open, None) }

    constructor (limits: Limits)
      ensures Valid() && this.limits == limits && view == map[]
    {
      this.limits := limits;
      state := map[];
      view := map[];
    }

    /** Both stages run under one lock. */
    method CheckRequest(r: Request, at: real, userAt: real) returns (v: Verdict)
      requires Valid()
      modifies this
      ensures Valid()
      ensures (view, v)
           == Check(AsSetup(), old(view), TenantScope(r.tenant), UserScope(r.tenant, r.user), r,
                    Touch(Visit(at, at), NoFault), Touch(Visit(userAt, userAt), NoFault))
    {
      var lim := limits.Of(r.tenant);
      if !lim.tenant.Enabled() && !lim.perUser.Enabled() { return Admit; }
      var passed := TakeTenant(r.tenant, at);
      if !passed { return RejectTenant; }
      if lim.perUser.Enabled() {
        passed := TakeUser(r.tenant, r.user, userAt);
        if !passed { return RejectUser; }
      }
      return Admit;
    }

    /** The entry of the tenant, created on first use, and its bucket if that is enabled. */
    method TakeTenant(tenant: string, at: real) returns (ok: bool)
      requires Valid()
      modifies this
      ensures Valid() && tenant in state
      ensures var (b, a) := TenantStage(AsSetup(), tenant, old(view), TenantScope(tenant), Visit(at, at), NoFault);
              view == b && ok == a.Yes?
    {
      var cfg := limits.Of(tenant).tenant;
      var entry := if tenant in state then state[tenant] else TenantState(Balance(cfg.burst as real, at), map[]);
      ok := true;
      if cfg.Enabled() {
        assert RepresentsTenant(limits, state, view, tenant);
        FullBucketIsFresh(cfg, at, at);
        var (bucket, admitted) := Take(cfg, Some(entry.tenantBucket), at);
        entry, ok := entry.(tenantBucket := bucket), admitted;
        view := view[TenantScope(tenant) := Forever(bucket)];
      }
      state := state[tenant := entry];
      forall t: string ensures RepresentsTenant(limits, state, view, t) {
        assert RepresentsTenant(limits, old(state), old(view), t);
      }
      forall t: string, u: string ensures RepresentsUser(state, view, t, u) {
        assert RepresentsUser(old(state), old(view), t, u);
      }
    }

    method TakeUser(tenant: string, user: string, at: real) returns (ok: bool)
      requires Valid() && tenant in state && limits.Of(tenant).perUser.Enabled()
      modifies this
      ensures Valid()
      ensures var (b, a) := UserStage(AsSetup(), tenant, old(view), UserScope(tenant, user), Visit(at, at), NoFault);
              view == b && ok == a.Yes?
    {
      var cfg := limits.Of(tenant).perUser;
      var entry := state[tenant];
      var bucket := if user in entry.userBuckets then entry.userBuckets[user] else Balance(cfg.burst as real, at);
      assert RepresentsUser(state, view, tenant, user);
      FullBucketIsFresh(cfg, at, at);
      var (after, admitted) := Take(cfg, Some(bucket), at);
      ok := admitted;
      state := state[tenant := entry.(userBuckets := entry.userBuckets[user := after])];
      view := view[UserScope(tenant, user) := Forever(after)];
      forall t: string ensures RepresentsTenant(limits, state, view, t) {
        assert RepresentsTenant(limits, old(state), old(view), t);
      }
      forall t: string, u: string ensures RepresentsUser(state, view, t, u) {
        assert RepresentsUser(old(state), old(view), t, u);
      }
    }
  }

  // ---- Over Redis ----------------------------------------------------------------

  class RedisLimiter {
    const prefix: string
    const limits: Limits
    const mode: FailMode
    const keyTtl: nat
    var hashes: map<string, Hash>

    constructor (prefix: string, limits: Limits, mode: FailMode, keyTtl: nat)
      ensures this.prefix == prefix && AsSetup() == Setup(limits, mode, Some(keyTtl)) && hashes == map[]
    {
      this.prefix, this.limits, this.mode, this.keyTtl := prefix, limits, mode, keyTtl;
      hashes := map[];
    }

    function AsSetup(): Setup { Setup(limits, mode, Some(keyTtl)) }

    /** Run the script for one bucket at instant `on` of the server's clock; the network may lose the
        command or its reply. A delayed command runs later, by itself. */
    method TakeOne(key: string, cfg: BucketRate, nowMs: int, on: real, fault: Fault) returns (a: Answer)
      requires cfg.Enabled()
      modifies this
      ensures (AsSlots(hashes), a)
           == Consult(AsSetup(), AsSlots(old(hashes)), key, cfg, Visit(Seconds(nowMs), on), fault)
    {
      if !fault.Runs() { return Error; }
      var stored := Find(hashes, key);
      var hash, admitted := TokenBucketScript(cfg, keyTtl, stored, nowMs, on);
      hashes := hashes[key := hash];
      assert AsSlots(hashes) == AsSlots(old(hashes))[key := AsSlot(hash)];
      return if fault.ReplyLost? then Error else if admitted then Yes else No;
    }

    /** A failed access ends the check in fail-closed mode only. */
    method HandleRedisError() returns (refusal: Option<Verdict>)
      ensures refusal.Some? <==> !Passes(mode, Error)
      ensures refusal.Some? ==> refusal.value == Unavailable
    {
      return if mode.Open? then None else Some(Unavailable);
    }

    method CheckRequest(r: Request, nowMs: int, on: real, fault: Fault, userNowMs: int, userOn: real, userFault: Fault)
      returns (v: Verdict)
      modifies this
      ensures (AsSlots(hashes), v)
           == Check(AsSetup(), AsSlots(old(hashes)),
                    TenantBucketKey(prefix, r.tenant), UserBucketKey(prefix, r.tenant, r.user), r,
                    Touch(Visit(Seconds(nowMs), on), fault), Touch(Visit(Seconds(userNowMs), userOn), userFault))
    {
      var lim := limits.Of(r.tenant);
      if !lim.tenant.Enabled() && !lim.perUser.Enabled() { return Admit; }
      if lim.tenant.Enabled() {
        var a := TakeOne(TenantBucketKey(prefix, r.tenant), lim.tenant, nowMs, on, fault);
        match a {
          case Yes =>
          case No => return RejectTenant;
          case Error =>
            var refusal := HandleRedisError();
            if refusal.Some? { return refusal.value; }
        }
      }
      if lim.perUser.Enabled() {
        var a := TakeOne(UserBucketKey(prefix, r.tenant, r.user), lim.perUser, userNowMs, userOn, userFault);
        match a {
          case Yes =>
          case No => return RejectUser;
          case Error =>
            var refusal := HandleRedisError();
            if refusal.Some? { return refusal.value; }
        }
      }
      return Admit;
    }
  }
}
