/** The limiter in terms of its configuration: which rate and burst govern a tenant, which verdict each
    access gives, and that the limits of others do not matter. */
module LimiterLaws {
  import opened Wrappers
  import opened TokenBucket
  import opened BucketLives
  import opened Limiter
  import opened LimiterExpiry
  import opened LimiterIsolation

  /** The tenant's override governs it, and the fallback a tenant without one. */
  predicate Governs(limits: Limits, t: string, lim: TenantLimits) {
    if t in limits.overrides then lim == limits.overrides[t] else lim == limits.fallback
  }

  /** A bucket limits if and only if both its rate and its burst are positive. */
  predicate Limiting(cfg: BucketRate) { cfg.rate > 0.0 && cfg.burst > 0 }

  // ---- Verdicts ------------------------------------------------------------------------

  /** The last visit fits into every window of the bucket's current life that ends in it. */
  ghost predicate LastFits(cfg: BucketRate, ttl: Option<nat>, vs: seq<Visit>) {
    vs != [] && var n := |vs| - 1;
    forall i: nat | LifeStart(Readings(ttl, vs), n) <= i <= n :: ExpiringRoomFor(cfg, ttl, vs, i, n)
  }

  lemma AdmittedIffLastFits(cfg: BucketRate, ttl: Option<nat>, vs: seq<Visit>, v: Visit)
    requires Limiting(cfg)
    ensures TakeSlot(cfg, ttl, SlotAfter(cfg, ttl, vs), v).1 <==> LastFits(cfg, ttl, vs + [v])
  {
    TakeSlotExtends(cfg, ttl, vs, v);
    ExpiringExactAdmission(cfg, ttl, vs + [v], |vs|);
  }

  /** The verdict of a check's first access, in every interleaving: in fail-closed mode a failed access
      to a limiting bucket makes the check unavailable; a visit that does not fit is refused; any other
      access lets the check go on to a limiting user bucket, or admits it. */
  lemma FirstVerdict(x: Setup, es: Run, t: string, lim: TenantLimits)
    requires es != [] && ByTenant(x, es, t) && Last(es).First? && Governs(x.limits, t, lim)
    ensures var fault, on := Last(es).fault, Limiting(lim.tenant);
      VerdictOf(x, es)
      == if on && !fault.NoFault? && x.mode.Closed? then Some(Unavailable)
         else if on && fault.NoFault? && !LastFits(lim.tenant, x.ttl, TenantVisits(x, es, t)) then Some(RejectTenant)
         else if Limiting(lim.perUser) then None
         else Some(Admit)
  {
    if Limiting(lim.tenant) {
      TenantBucketSeesTenantVisits(x, Init(es), t);
      AdmittedIffLastFits(lim.tenant, x.ttl, TenantVisits(x, Init(es), t), LastVisit(x, es));
    }
  }

  /** The verdict of a check's second access. */
  lemma SecondVerdict(x: Setup, es: Run, t: string, u: string, lim: TenantLimits)
    requires es != [] && ByUser(x, es, t, u) && Last(es).Second? && Governs(x.limits, t, lim)
    ensures var fault, on := Last(es).fault, Limiting(lim.perUser);
      VerdictOf(x, es)
      == if on && !fault.NoFault? && x.mode.Closed? then Some(Unavailable)
         else if on && fault.NoFault? && !LastFits(lim.perUser, x.ttl, UserVisits(x, es, t, u)) then Some(RejectUser)
         else Some(Admit)
  {
    if Limiting(lim.perUser) {
      UserBucketSeesUserVisits(x, Init(es), t, u);
      AdmittedIffLastFits(lim.perUser, x.ttl, UserVisits(x, Init(es), t, u), LastVisit(x, es));
    }
  }

  // ---- Quotas --------------------------------------------------------------------------

  /** Both quotas hold with the rates and bursts that the configuration gives the tenant. */
  lemma QuotasFollowConfiguration(x: Setup, es: Run, k: nat, t: string, u: string, lim: TenantLimits)
    requires k <= |es| && Governs(x.limits, t, lim)
    ensures Limiting(lim.tenant) ==> TenantWithinAllowance(x, es, k, t, lim.tenant)
    ensures Limiting(lim.perUser) ==> UserWithinAllowance(x, es, k, t, u, lim.perUser)
  {
    if Limiting(lim.tenant) { TenantQuota(x, es, k, t); }
    if Limiting(lim.perUser) { UserQuota(x, es, k, t, u); }
  }

  /** Both need no allowance for expired buckets if and only if those rates times the lifetime, less
      twice the skew, cover those bursts. */
  lemma ProperQuotasFollowConfiguration(x: Setup, t: string, u: string, lim: TenantLimits, delta: real)
    requires Governs(x.limits, t, lim) && x.ttl.Some? && delta >= 0.0
    ensures Limiting(lim.tenant) ==>
      (TenantQuotaProper(x, t, delta, lim.tenant) <==> LivesLongEnough(lim.tenant, x.ttl.value, delta))
    ensures Limiting(lim.perUser) ==>
      (UserQuotaProper(x, t, u, delta, lim.perUser) <==> LivesLongEnough(lim.perUser, x.ttl.value, delta))
  {
    if Limiting(lim.tenant) { TenantQuotaProperIffTtlCoversBurst(x, t, delta); }
    if Limiting(lim.perUser) { UserQuotaProperIffTtlCoversBurst(x, t, u, delta); }
  }

  // ---- The limits of others ------------------------------------------------------------------

  /** All requests of the run are the tenant's. */
  predicate PureRun(es: Run, t: string) {
    forall e <- es | e.First? || e.Stray? :: e.request.tenant == t
  }

  lemma PurePrefix(es: Run, t: string)
    requires es != [] && PureRun(es, t)
    ensures PureRun(Init(es), t) && (Last(es).First? || Last(es).Stray? ==> Last(es).request.tenant == t)
  {
    assert Last(es) in es && forall e <- Init(es) :: e in es;
  }

  lemma {:induction false} OnlyIsPure(x: Setup, es: Run, t: string)
    ensures PureRun(Only(x, es, t), t)
  {
    if es == [] {
    } else {
      OnlyIsPure(x, Init(es), t);
    }
  }

  /** Both setups treat the tenant alike. */
  predicate SameFor(x: Setup, y: Setup, t: string, lim: TenantLimits) {
    x.mode == y.mode && x.ttl == y.ttl && Governs(x.limits, t, lim) && Governs(y.limits, t, lim)
  }

  lemma {:induction false} PureRunsAgree(x: Setup, y: Setup, es: Run, t: string, lim: TenantLimits)
    requires SameFor(x, y, t, lim) && PureRun(es, t)
    ensures StateAfter(x, es) == StateAfter(y, es) && TenantVerdicts(x, es, t) == TenantVerdicts(y, es, t)
    ensures forall id <- StateAfter(x, es).waiting :: StateAfter(x, es).waiting[id].tenant == t
  {
    if es == [] {
    } else {
      PurePrefix(es, t);
      PureRunsAgree(x, y, Init(es), t, lim);
      assert x.limits.Of(t) == lim && y.limits.Of(t) == lim;
    }
  }

  /** Neither the fallback, for a tenant with an override, nor anybody else's override changes a verdict:
      what the tenant gets in any run under one setup is what it gets alone under the other. */
  lemma OthersLimitsDoNotMatter(x: Setup, y: Setup, es: Run, t: string, lim: TenantLimits)
    requires SameFor(x, y, t, lim)
    ensures TenantVerdicts(x, es, t) == TenantVerdicts(y, Only(x, es, t), t)
  {
    TenantsAreIndependent(x, es, t);
    OnlyIsPure(x, es, t);
    PureRunsAgree(x, y, Only(x, es, t), t, lim);
  }
}
