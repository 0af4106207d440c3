/** When the quota needs no allowance for expired buckets: exactly when rate times lifetime, less twice
    the skew of the clocks, covers the burst. */
module LimiterExpiry {
  import opened Wrappers
  import opened Redis
  import opened TokenBucket
  import opened BucketLives
  import opened Limiter

  /** How far the callers' clocks move forward from visit `i` on. */
  function ForwardSince(vs: seq<Visit>, i: nat): real {
    if |vs| <= i then 0.0 else Forward(Stamps(vs), i, |vs| - 1)
  }

  /** On a shared clock that is the time from visit `i` to the last one. */
  lemma ForwardOnSharedClock(vs: seq<Visit>, i: nat)
    requires SharedClock(vs) && i < |vs|
    ensures ForwardSince(vs, i) == vs[|vs| - 1].at - vs[i].at
  {
    SharedStampsInOrder(vs);
    ForwardIsElapsed(Stamps(vs), i, |vs| - 1);
  }

  /** One burst, and the tokens released in `seconds`. */
  function OneBurst(cfg: BucketRate, seconds: real): real { cfg.burst as real + Credit(cfg.rate, seconds) }

  /** The quota proper for the checks that get past the tenant's bucket after the first `k` events. */
  predicate TenantWithinBurst(x: Setup, es: Run, k: nat, t: string, cfg: BucketRate)
    requires k <= |es|
  {
    var past := es[..k];
    (PassedTenant(x, es, t) - PassedTenant(x, past, t)) as real
    <= OneBurst(cfg, ForwardSince(TenantVisits(x, es, t), |TenantVisits(x, past, t)|))
       + if x.mode.Open? then (TenantFaults(x, es, t) - TenantFaults(x, past, t)) as real else 0.0
  }

  /** The quota proper for the admissions of a user. */
  predicate UserWithinBurst(x: Setup, es: Run, k: nat, t: string, u: string, cfg: BucketRate)
    requires k <= |es|
  {
    var past := es[..k];
    (Count(UserVerdicts(x, es, t, u), Admit) - Count(UserVerdicts(x, past, t, u), Admit)) as real
    <= OneBurst(cfg, ForwardSince(UserVisits(x, es, t, u), |UserVisits(x, past, t, u)|))
       + if x.mode.Open? then (UserFaults(x, es, t, u) - UserFaults(x, past, t, u)) as real else 0.0
  }

  /** With clocks within `delta` of the server's, an idle bucket is full again before it expires. */
  predicate LivesLongEnough(cfg: BucketRate, ttl: nat, delta: real) {
    Credit(cfg.rate, LeastIdle(ttl, delta)) >= cfg.burst as real
  }

  // ---- Sufficient ------------------------------------------------------------------

  lemma LongLivedWindow(cfg: BucketRate, ttl: nat, delta: real, vs: seq<Visit>, i: nat)
    requires cfg.Enabled() && i < |vs| && WithinSkew(delta, vs) && LivesLongEnough(cfg, ttl, delta)
    ensures ExpiringAdmits(cfg.burst, History(cfg, Some(ttl), vs), i, |vs|) as real
         <= OneBurst(cfg, ForwardSince(vs, i))
  {
    TtlCoversBurst(cfg, ttl, delta, vs);
    LongLivedAdmitsAgree(cfg.burst, History(cfg, Some(ttl), vs), i, |vs|);
    HistoryAts(cfg, Some(ttl), vs);
    ForwardBound(cfg, Stamps(vs), i, |vs| - 1);
  }

  lemma NothingElapsed(cfg: BucketRate)
    ensures OneBurst(cfg, 0.0) == cfg.burst as real
  {
  }

  lemma SpentWithinBurst(cfg: BucketRate, ttl: nat, delta: real, past: seq<Visit>, vs: seq<Visit>)
    requires cfg.Enabled() && past <= vs && WithinSkew(delta, vs) && LivesLongEnough(cfg, ttl, delta)
    ensures (Spent(cfg, Some(ttl), vs) - Spent(cfg, Some(ttl), past)) as real <= OneBurst(cfg, ForwardSince(vs, |past|))
  {
    SpentInWindow(cfg, Some(ttl), past, vs);
    if |past| == |vs| {
      NothingElapsed(cfg);
    } else {
      LongLivedWindow(cfg, ttl, delta, vs, |past|);
    }
  }

  lemma TenantHolds(x: Setup, es: Run, k: nat, t: string, delta: real)
    requires x.limits.Of(t).tenant.Enabled() && x.ttl.Some? && k <= |es|
    requires WithinSkew(delta, TenantVisits(x, es, t)) && LivesLongEnough(x.limits.Of(t).tenant, x.ttl.value, delta)
    ensures TenantWithinBurst(x, es, k, t, x.limits.Of(t).tenant)
  {
    PassesCovered(x, es, k, t);
    VisitsGrow(x, es, k, t, "");
    SpentWithinBurst(x.limits.Of(t).tenant, x.ttl.value, delta, TenantVisits(x, es[..k], t), TenantVisits(x, es, t));
  }

  lemma UserHolds(x: Setup, es: Run, k: nat, t: string, u: string, delta: real)
    requires x.limits.Of(t).perUser.Enabled() && x.ttl.Some? && k <= |es|
    requires WithinSkew(delta, UserVisits(x, es, t, u)) && LivesLongEnough(x.limits.Of(t).perUser, x.ttl.value, delta)
    ensures UserWithinBurst(x, es, k, t, u, x.limits.Of(t).perUser)
  {
    UserAdmissionsCovered(x, es, k, t, u);
    VisitsGrow(x, es, k, t, u);
    SpentWithinBurst(x.limits.Of(t).perUser, x.ttl.value, delta, UserVisits(x, es[..k], t, u), UserVisits(x, es, t, u));
  }

  // ---- Necessary: two bursts at the tenant's bucket ------------------------------------

  lemma Snoc(es: Run, e: Event)
    ensures es + [e] != [] && Init(es + [e]) == es && Last(es + [e]) == e
  {
  }

  /** After `burst` accesses time passes. */
  function Paused(es: Run, c: nat, burst: nat, d: real): Run { if c == burst then es + [Pass(d)] else es }

  /** `burst` checks on visit `a`, and `burst` checks on visit `b`: the first accesses of the first `c`. */
  function TwoBurstRun(r: Request, burst: nat, a: Visit, b: Visit, c: nat): Run {
    if c == 0 then []
    else
      var before := Paused(TwoBurstRun(r, burst, a, b, c - 1), c - 1, burst, b.on - a.on);
      before + [First(c, r, if c <= burst then a.at else b.at, NoFault)]
  }

  /** The server's clock, when the first burst is at its instant 0, and the ids in flight. */
  ghost predicate Entered(x: Setup, es: Run, t: string, clock: real, c: nat, vs: seq<Visit>) {
    && StateAfter(x, es).clock == clock && (forall id <- StateAfter(x, es).waiting :: id <= c)
    && TenantVisits(x, es, t) == vs && FaultFree(x, es, t)
  }

  lemma EnteredPass(x: Setup, es: Run, t: string, clock: real, c: nat, vs: seq<Visit>, d: real)
    requires Entered(x, es, t, clock, c, vs) && d >= 0.0
    ensures Entered(x, es + [Pass(d)], t, clock + d, c, vs)
  {
    Snoc(es, Pass(d));
  }

  lemma EnteredFirst(x: Setup, es: Run, r: Request, clock: real, c: nat, vs: seq<Visit>, at: real)
    requires Entered(x, es, r.tenant, clock, c, vs)
    ensures Entered(x, es + [First(c + 1, r, at, NoFault)], r.tenant, clock, c + 1, vs + [Visit(at, clock)])
  {
    Snoc(es, First(c + 1, r, at, NoFault));
  }

  lemma TwoBurstsSnoc(burst: nat, a: Visit, b: Visit, c: nat)
    requires c < 2 * burst
    ensures TwoBursts(burst, a, b)[..c + 1] == TwoBursts(burst, a, b)[..c] + [if c < burst then a else b]
  {
  }

  lemma EnteredStep(x: Setup, es: Run, us: Run, r: Request, clock: real, c: nat, vs: seq<Visit>, burst: nat, d: real,
      v: Visit)
    requires Entered(x, es, r.tenant, clock, c, vs) && d >= 0.0 && v.on == if c == burst then clock + d else clock
    requires us == Paused(es, c, burst, d) + [First(c + 1, r, v.at, NoFault)]
    ensures Entered(x, us, r.tenant, v.on, c + 1, vs + [v])
  {
    if c == burst { EnteredPass(x, es, r.tenant, clock, c, vs, d); }
    EnteredFirst(x, Paused(es, c, burst, d), r, v.on, c, vs, v.at);
  }

  lemma EnteredAtStart(x: Setup, t: string)
    ensures Entered(x, [], t, 0.0, 0, [])
  {
  }

  lemma {:induction false} TenantRunVisits(x: Setup, r: Request, burst: nat, a: Visit, b: Visit, c: nat)
    requires c <= 2 * burst && a.on == 0.0 <= b.on
    ensures Entered(x, TwoBurstRun(r, burst, a, b, c), r.tenant, if c <= burst then a.on else b.on, c,
                    TwoBursts(burst, a, b)[..c])
  {
    var es, vs := TwoBurstRun(r, burst, a, b, c), TwoBursts(burst, a, b)[..c];
    if c == 0 {
      assert es == [] && vs == [];
      EnteredAtStart(x, r.tenant);
    } else {
      var es1, vs1 := TwoBurstRun(r, burst, a, b, c - 1), TwoBursts(burst, a, b)[..c - 1];
      var v, clock1 := if c <= burst then a else b, if c <= burst + 1 then a.on else b.on;
      TenantRunVisits(x, r, burst, a, b, c - 1);
      TwoBurstsSnoc(burst, a, b, c - 1);
      assert vs == vs1 + [v] && v.on == if c <= burst then a.on else b.on;
      EnteredStep(x, es1, es, r, clock1, c - 1, vs1, burst, b.on - a.on, v);
    }
  }

  lemma ForwardOfTwoBursts(burst: nat, a: Visit, b: Visit)
    requires burst > 0
    ensures ForwardSince(TwoBursts(burst, a, b), 0) == Rise(a.at, b.at)
  {
    ForwardOfTwo(Stamps(TwoBursts(burst, a, b)), burst, 2 * burst - 1);
  }

  /** Without a fault, the run breaks the quota proper if the bucket expires between the bursts and the
      callers' clocks do not move far enough. */
  lemma TenantRunExceeds(x: Setup, t: string, a: Visit, b: Visit) returns (es: Run)
    requires x.limits.Of(t).tenant.Enabled() && x.ttl.Some? && a.on == 0.0 && b.on >= x.ttl.value as real
    requires Credit(x.limits.Of(t).tenant.rate, Rise(a.at, b.at)) < x.limits.Of(t).tenant.burst as real
    ensures TenantVisits(x, es, t) == TwoBursts(x.limits.Of(t).tenant.burst, a, b) && FaultFree(x, es, t)
    ensures !TenantWithinBurst(x, es, 0, t, x.limits.Of(t).tenant)
  {
    var cfg := x.limits.Of(t).tenant;
    es := TwoBurstRun(Request(t, ""), cfg.burst, a, b, 2 * cfg.burst);
    TenantRunVisits(x, Request(t, ""), cfg.burst, a, b, 2 * cfg.burst);
    var vs := TwoBursts(cfg.burst, a, b);
    assert vs[..2 * cfg.burst] == vs;
    PassesAreTokens(x, es, t);
    TwoBurstsAdmitted(cfg, x.ttl.value, a, b);
    ForwardOfTwoBursts(cfg.burst, a, b);
    assert es[..0] == [];
  }

  /** The quota proper holds for the tenant in every run whose clocks at its bucket stay within `delta`
      of the server's, and in every window. */
  ghost predicate TenantQuotaProper(x: Setup, t: string, delta: real, cfg: BucketRate) {
    forall es: Run, k: nat | k <= |es| && WithinSkew(delta, TenantVisits(x, es, t)) ::
      TenantWithinBurst(x, es, k, t, cfg)
  }

  lemma TwoBurstsWithinSkew(burst: nat, start: real, ttl: nat, delta: real)
    requires delta >= 0.0
    ensures WithinSkew(delta, TwoBursts(burst, Visit(start + delta, start),
                                        Visit(start + ttl as real - delta, start + ttl as real)))
  {
  }

  /** The tenant quota needs no allowance for expired buckets if and only if rate times lifetime, less
      twice the skew, covers the burst. */
  lemma TenantQuotaProperIffTtlCoversBurst(x: Setup, t: string, delta: real)
    requires x.limits.Of(t).tenant.Enabled() && x.ttl.Some? && delta >= 0.0
    ensures TenantQuotaProper(x, t, delta, x.limits.Of(t).tenant)
       <==> LivesLongEnough(x.limits.Of(t).tenant, x.ttl.value, delta)
  {
    var cfg, ttl := x.limits.Of(t).tenant, x.ttl.value;
    if LivesLongEnough(cfg, ttl, delta) {
      forall es: Run, k: nat | k <= |es| && WithinSkew(delta, TenantVisits(x, es, t))
        ensures TenantWithinBurst(x, es, k, t, x.limits.Of(t).tenant)
      {
        TenantHolds(x, es, k, t, delta);
      }
    } else {
      var a, b := Visit(0.0 + delta, 0.0), Visit(0.0 + ttl as real - delta, 0.0 + ttl as real);
      CreditOfRise(cfg, a.at, b.at);
      var es := TenantRunExceeds(x, t, a, b);
      TwoBurstsWithinSkew(cfg.burst, 0.0, ttl, delta);
    }
  }

  /** With unrelated clocks callers break the quota proper whatever the lifetime: the server's clock
      moves on and drops the bucket while the callers' clock stands still. */
  lemma TenantQuotaProperNeedsBoundedSkew(x: Setup, t: string) returns (es: Run)
    requires x.limits.Of(t).tenant.Enabled() && x.ttl.Some?
    ensures FaultFree(x, es, t) && !TenantWithinBurst(x, es, 0, t, x.limits.Of(t).tenant)
  {
    NothingElapsed(x.limits.Of(t).tenant);
    es := TenantRunExceeds(x, t, Visit(0.0, 0.0), Visit(0.0, x.ttl.value as real));
  }

  // ---- Necessary: two bursts at a user's bucket ------------------------------------------
  //
  // The user's checks first pass the tenant's bucket one by one, slowly enough for it to refill, and
  // wait between the two buckets. Then they visit the user's bucket in two bursts.

  /** The checks `lo + 1` to `hi` wait for their second access. */
  function Tickets(lo: nat, hi: nat, r: Request): (w: map<nat, Request>)
    ensures forall id: nat :: id in w <==> lo < id <= hi
    ensures forall id <- w :: w[id] == r
  {
    if hi <= lo then map[] else Tickets(lo, hi - 1, r)[hi := r]
  }

  /** Who waits, what the server's clock reads, and the visits to the user's bucket. */
  datatype Point = Point(waiting: map<nat, Request>, clock: real, visits: seq<Visit>)

  /** The run has come to point `p`. Nothing has failed, the user has been admitted as often as tokens
      were taken, and the tenant's bucket has been visited on the server's clock. */
  ghost predicate Stands(x: Setup, es: Run, r: Request, p: Point) {
    && StateAfter(x, es).waiting == p.waiting && StateAfter(x, es).clock == p.clock
    && UserVisits(x, es, r.tenant, r.user) == p.visits && UserFaults(x, es, r.tenant, r.user) == 0
    && FaultFree(x, es, r.tenant)
    && Count(UserVerdicts(x, es, r.tenant, r.user), Admit) == Spent(x.limits.Of(r.tenant).perUser, x.ttl, p.visits)
    && SharedUntil(TenantVisits(x, es, r.tenant), p.clock)
  }

  predicate SharedUntil(vs: seq<Visit>, clock: real) {
    SharedClock(vs) && (vs != [] ==> vs[|vs| - 1].on <= clock)
  }

  lemma SharedSnoc(vs: seq<Visit>, clock: real)
    requires SharedUntil(vs, clock)
    ensures SharedUntil(vs + [Visit(clock, clock)], clock)
  {
  }

  lemma StandsPass(x: Setup, es: Run, r: Request, p: Point, d: real)
    requires Stands(x, es, r, p) && d >= 0.0
    ensures Stands(x, es + [Pass(d)], r, p.(clock := p.clock + d))
    ensures TenantVisits(x, es + [Pass(d)], r.tenant) == TenantVisits(x, es, r.tenant)
  {
    Snoc(es, Pass(d));
  }

  /** A visit that leaves the bucket time for one token is admitted. */
  lemma SpacedVisitAdmitted(cfg: BucketRate, ttl: Option<nat>, vs: seq<Visit>, v: Visit)
    requires cfg.Enabled()
    requires vs != [] ==> v.at >= vs[|vs| - 1].at && Credit(cfg.rate, v.at - vs[|vs| - 1].at) >= 1.0
    ensures TakeSlot(cfg, ttl, SlotAfter(cfg, ttl, vs), v).1
  {
    ExpiringBounded(cfg.burst, History(cfg, ttl, vs), |vs|);
  }

  /** The tenant's bucket has had time for one token since its last visit. */
  predicate Rested(x: Setup, t: string, vs: seq<Visit>, clock: real) {
    x.limits.Of(t).tenant.Enabled() && vs != [] ==>
      clock >= vs[|vs| - 1].at && Credit(x.limits.Of(t).tenant.rate, clock - vs[|vs| - 1].at) >= 1.0
  }

  /** The first access of a check that leaves the tenant's bucket time for one token passes. */
  lemma SpacedFirstPasses(x: Setup, es: Run, r: Request, id: nat)
    requires id !in StateAfter(x, es).waiting && x.limits.Of(r.tenant).perUser.Enabled()
    requires Rested(x, r.tenant, TenantVisits(x, es, r.tenant), StateAfter(x, es).clock)
    ensures var s, us := StateAfter(x, es), es + [First(id, r, StateAfter(x, es).clock, NoFault)];
      && StateAfter(x, us).waiting == s.waiting[id := r] && StateAfter(x, us).clock == s.clock
      && VerdictOf(x, us) == None
  {
    var clock := StateAfter(x, es).clock;
    Snoc(es, First(id, r, clock, NoFault));
    if x.limits.Of(r.tenant).tenant.Enabled() {
      TenantBucketSeesTenantVisits(x, es, r.tenant);
      SpacedVisitAdmitted(x.limits.Of(r.tenant).tenant, x.ttl, TenantVisits(x, es, r.tenant), Visit(clock, clock));
    }
  }

  predicate LastAt(vs: seq<Visit>, clock: real) { vs != [] ==> vs[|vs| - 1].at == clock }

  lemma StandsFirst(x: Setup, es: Run, r: Request, p: Point, id: nat)
    requires Stands(x, es, r, p) && id !in p.waiting && x.limits.Of(r.tenant).perUser.Enabled()
    requires Rested(x, r.tenant, TenantVisits(x, es, r.tenant), p.clock)
    ensures var us := es + [First(id, r, p.clock, NoFault)];
      Stands(x, us, r, p.(waiting := p.waiting[id := r])) && LastAt(TenantVisits(x, us, r.tenant), p.clock)
  {
    Snoc(es, First(id, r, p.clock, NoFault));
    SpacedFirstPasses(x, es, r, id);
    SharedSnoc(TenantVisits(x, es, r.tenant), p.clock);
  }

  lemma StandsSecond(x: Setup, es: Run, r: Request, p: Point, id: nat, at: real)
    requires Stands(x, es, r, p) && id in p.waiting && p.waiting[id] == r && x.limits.Of(r.tenant).perUser.Enabled()
    ensures Stands(x, es + [Second(id, at, NoFault)], r,
                   Point(p.waiting - {id}, p.clock, p.visits + [Visit(at, p.clock)]))
  {
    var us := es + [Second(id, at, NoFault)];
    Snoc(es, Second(id, at, NoFault));
    UserCountStep(x, us, r.tenant, r.user, Admit);
    UserStep(x, us, r.tenant, r.user);
  }

  function Clock(gap: real, c: nat): real { if c == 0 then 0.0 else Clock(gap, c - 1) + gap }

  /** One check of the user every `gap` seconds gets past the tenant's bucket. */
  function Gather(r: Request, gap: real, c: nat): Run {
    if c == 0 then [] else (Gather(r, gap, c - 1) + [Pass(gap)]) + [First(c, r, Clock(gap, c), NoFault)]
  }

  lemma TicketsShrink(lo: nat, hi: nat, r: Request)
    requires lo < hi
    ensures lo + 1 in Tickets(lo, hi, r) && Tickets(lo, hi, r) - {lo + 1} == Tickets(lo + 1, hi, r)
  {
  }

  /** The gap is long enough for one token at the tenant's bucket. */
  predicate LongGap(x: Setup, t: string, gap: real) {
    gap >= 0.0 && (x.limits.Of(t).tenant.Enabled() ==> Credit(x.limits.Of(t).tenant.rate, gap) >= 1.0)
  }

  lemma SomeGap(x: Setup, t: string) returns (gap: real)
    ensures LongGap(x, t, gap)
  {
    var cfg := x.limits.Of(t).tenant;
    gap := if cfg.Enabled() then 1.0 / cfg.rate else 1.0;
  }

  lemma StandsAtStart(x: Setup, r: Request)
    ensures Stands(x, [], r, Point(map[], 0.0, [])) && TenantVisits(x, [], r.tenant) == []
  {
  }

  lemma RestedAfterGap(x: Setup, t: string, vs: seq<Visit>, clock: real, gap: real)
    requires LastAt(vs, clock) && LongGap(x, t, gap)
    ensures Rested(x, t, vs, clock + gap)
  {
  }

  lemma GatherPass(x: Setup, es: Run, mid: Run, r: Request, p: Point, m: Point, gap: real)
    requires LongGap(x, r.tenant, gap) && Stands(x, es, r, p) && LastAt(TenantVisits(x, es, r.tenant), p.clock)
    requires mid == es + [Pass(gap)] && m == p.(clock := p.clock + gap)
    ensures Stands(x, mid, r, m) && Rested(x, r.tenant, TenantVisits(x, mid, r.tenant), m.clock)
  {
    StandsPass(x, es, r, p, gap);
    RestedAfterGap(x, r.tenant, TenantVisits(x, mid, r.tenant), p.clock, gap);
  }

  lemma GatherFirst(x: Setup, mid: Run, us: Run, r: Request, m: Point, q: Point, id: nat)
    requires x.limits.Of(r.tenant).perUser.Enabled() && id !in m.waiting && Stands(x, mid, r, m)
    requires Rested(x, r.tenant, TenantVisits(x, mid, r.tenant), m.clock)
    requires us == mid + [First(id, r, m.clock, NoFault)] && q == m.(waiting := m.waiting[id := r])
    ensures Stands(x, us, r, q) && LastAt(TenantVisits(x, us, r.tenant), q.clock)
  {
    StandsFirst(x, mid, r, m, id);
  }

  function Gathered(r: Request, gap: real, c: nat): Point { Point(Tickets(0, c, r), Clock(gap, c), []) }

  lemma {:induction false} AllGathered(x: Setup, r: Request, gap: real, c: nat)
    requires x.limits.Of(r.tenant).perUser.Enabled() && LongGap(x, r.tenant, gap)
    ensures Stands(x, Gather(r, gap, c), r, Gathered(r, gap, c))
    ensures LastAt(TenantVisits(x, Gather(r, gap, c), r.tenant), Clock(gap, c))
  {
    if c == 0 {
      StandsAtStart(x, r);
      assert Gather(r, gap, c) == [] && Gathered(r, gap, c) == Point(map[], 0.0, []);
    } else {
      AllGathered(x, r, gap, c - 1);
      var es, p := Gather(r, gap, c - 1), Gathered(r, gap, c - 1);
      var mid, m := es + [Pass(gap)], p.(clock := p.clock + gap);
      GatherPass(x, es, mid, r, p, m, gap);
      GatherFirst(x, mid, Gather(r, gap, c), r, m, Gathered(r, gap, c), c);
    }
  }

  /** The first `c` of the waiting checks visit the user's bucket, in two bursts. */
  function Release(es: Run, burst: nat, a: Visit, b: Visit, c: nat): Run {
    if c == 0 then es
    else
      var before := Paused(Release(es, burst, a, b, c - 1), c - 1, burst, b.on - a.on);
      before + [Second(c, if c <= burst then a.at else b.at, NoFault)]
  }

  lemma ReleaseStep(x: Setup, es: Run, us: Run, r: Request, p: Point, q: Point, c: nat, burst: nat, d: real, v: Visit)
    requires x.limits.Of(r.tenant).perUser.Enabled() && Stands(x, es, r, p)
    requires c + 1 in p.waiting && p.waiting[c + 1] == r && d >= 0.0
    requires v.on == if c == burst then p.clock + d else p.clock
    requires us == Paused(es, c, burst, d) + [Second(c + 1, v.at, NoFault)]
    requires q == Point(p.waiting - {c + 1}, v.on, p.visits + [v])
    ensures Stands(x, us, r, q)
  {
    if c == burst { StandsPass(x, es, r, p, d); }
    StandsSecond(x, Paused(es, c, burst, d), r, p.(clock := v.on), c + 1, v.at);
  }

  function Released(r: Request, burst: nat, a: Visit, b: Visit, c: nat): Point
    requires c <= 2 * burst
  {
    Point(Tickets(c, 2 * burst, r), if c <= burst then a.on else b.on, TwoBursts(burst, a, b)[..c])
  }

  lemma ReleasedNext(r: Request, burst: nat, a: Visit, b: Visit, c: nat)
    requires c < 2 * burst && a.on <= b.on
    ensures var p, v := Released(r, burst, a, b, c), if c < burst then a else b;
      && c + 1 in p.waiting && p.waiting[c + 1] == r
      && v.on == (if c == burst then p.clock + (b.on - a.on) else p.clock)
      && Released(r, burst, a, b, c + 1) == Point(p.waiting - {c + 1}, v.on, p.visits + [v])
  {
    TicketsShrink(c, 2 * burst, r);
    TwoBurstsSnoc(burst, a, b, c);
  }

  lemma {:induction false} AllReleased(x: Setup, es: Run, r: Request, burst: nat, a: Visit, b: Visit, c: nat)
    requires x.limits.Of(r.tenant).perUser.Enabled() && c <= 2 * burst && a.on <= b.on
    requires Stands(x, es, r, Released(r, burst, a, b, 0))
    ensures Stands(x, Release(es, burst, a, b, c), r, Released(r, burst, a, b, c))
  {
    if c == 0 {
      assert Release(es, burst, a, b, c) == es;
    } else {
      AllReleased(x, es, r, burst, a, b, c - 1);
      ReleasedNext(r, burst, a, b, c - 1);
      ReleaseStep(x, Release(es, burst, a, b, c - 1), Release(es, burst, a, b, c), r, Released(r, burst, a, b, c - 1),
                  Released(r, burst, a, b, c), c - 1, burst, b.on - a.on, if c <= burst then a else b);
    }
  }

  /** The run of a user whose checks gather until `a`, and then visit the bucket at `a` and at `b`. */
  lemma UserRunStands(x: Setup, r: Request, gap: real, burst: nat, a: Visit, b: Visit) returns (es: Run, p: Point)
    requires x.limits.Of(r.tenant).perUser.Enabled() && LongGap(x, r.tenant, gap)
    requires a.on == Clock(gap, 2 * burst) && a.on <= b.on && burst > 0
    ensures Stands(x, es, r, p) && p.visits == TwoBursts(burst, a, b)
  {
    AllGathered(x, r, gap, 2 * burst);
    assert Gathered(r, gap, 2 * burst) == Released(r, burst, a, b, 0);
    AllReleased(x, Gather(r, gap, 2 * burst), r, burst, a, b, 2 * burst);
    es, p := Release(Gather(r, gap, 2 * burst), burst, a, b, 2 * burst), Released(r, burst, a, b, 2 * burst);
    assert TwoBursts(burst, a, b)[..2 * burst] == TwoBursts(burst, a, b);
  }

  lemma TwoBurstsExceed(x: Setup, es: Run, r: Request, p: Point, a: Visit, b: Visit)
    requires x.limits.Of(r.tenant).perUser.Enabled() && x.ttl.Some? && b.on >= a.on + x.ttl.value as real
    requires Stands(x, es, r, p) && p.visits == TwoBursts(x.limits.Of(r.tenant).perUser.burst, a, b)
    requires Credit(x.limits.Of(r.tenant).perUser.rate, Rise(a.at, b.at)) < x.limits.Of(r.tenant).perUser.burst as real
    ensures !UserWithinBurst(x, es, 0, r.tenant, r.user, x.limits.Of(r.tenant).perUser)
  {
    var cfg := x.limits.Of(r.tenant).perUser;
    assert es[..0] == [];
    TwoBurstsAdmitted(cfg, x.ttl.value, a, b);
    ForwardOfTwoBursts(cfg.burst, a, b);
  }

  /** Without a fault, and with a tenant bucket that is visited on the server's clock, the run breaks the
      user's quota proper if the skewed clocks do not move far enough while the bucket expires. */
  lemma UserRunExceeds(x: Setup, r: Request, delta: real) returns (es: Run)
    requires x.limits.Of(r.tenant).perUser.Enabled() && x.ttl.Some? && delta >= 0.0
    requires !LivesLongEnough(x.limits.Of(r.tenant).perUser, x.ttl.value, delta)
    ensures FaultFree(x, es, r.tenant) && SharedClock(TenantVisits(x, es, r.tenant))
    ensures WithinSkew(delta, UserVisits(x, es, r.tenant, r.user))
    ensures !UserWithinBurst(x, es, 0, r.tenant, r.user, x.limits.Of(r.tenant).perUser)
  {
    var cfg, ttl := x.limits.Of(r.tenant).perUser, x.ttl.value;
    var gap := SomeGap(x, r.tenant);
    var start := Clock(gap, 2 * cfg.burst);
    var a, b := Visit(start + delta, start), Visit(start + ttl as real - delta, start + ttl as real);
    var p: Point;
    es, p := UserRunStands(x, r, gap, cfg.burst, a, b);
    TwoBurstsWithinSkew(cfg.burst, start, ttl, delta);
    CreditOfRise(cfg, a.at, b.at);
    TwoBurstsExceed(x, es, r, p, a, b);
  }

  ghost predicate UserQuotaProper(x: Setup, t: string, u: string, delta: real, cfg: BucketRate) {
    forall es: Run, k: nat | k <= |es| && WithinSkew(delta, UserVisits(x, es, t, u)) ::
      UserWithinBurst(x, es, k, t, u, cfg)
  }

  /** The user quota needs no allowance for expired buckets if and only if rate times lifetime, less
      twice the skew, covers the burst; whatever the tenant's bucket and the fail mode. */
  lemma UserQuotaProperIffTtlCoversBurst(x: Setup, t: string, u: string, delta: real)
    requires x.limits.Of(t).perUser.Enabled() && x.ttl.Some? && delta >= 0.0
    ensures UserQuotaProper(x, t, u, delta, x.limits.Of(t).perUser)
       <==> LivesLongEnough(x.limits.Of(t).perUser, x.ttl.value, delta)
  {
    if LivesLongEnough(x.limits.Of(t).perUser, x.ttl.value, delta) {
      forall es: Run, k: nat | k <= |es| && WithinSkew(delta, UserVisits(x, es, t, u))
        ensures UserWithinBurst(x, es, k, t, u, x.limits.Of(t).perUser)
      {
        UserHolds(x, es, k, t, u, delta);
      }
    } else {
      var es := UserRunExceeds(x, Request(t, u), delta);
    }
  }
}
