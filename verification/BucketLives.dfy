/** A bucket kept in Redis has several lives: its hash expires a fixed time after each visit, on the
    server's clock, and the next visit finds a full bucket. Callers send their own clock readings,
    and the two clocks need not agree. */
module BucketLives {
  import opened Wrappers
  import opened TokenBucket

  // ---- A bucket with several lives, clock readings in tokens --------------------

  /** A clock reading, and whether the hash had expired before it. */
  datatype Reading = Reading(at: real, gone: bool)

  /** The tokens that visit `n` finds after the refill. */
  function ExpiringLevel(burst: nat, rs: seq<Reading>, n: nat): real
    requires n < |rs|
    decreases n, 1
  {
    if n == 0 || rs[n].gone then burst as real
    else Min(burst as real, ExpiringLeft(burst, rs, n) + Rise(rs[n - 1].at, rs[n].at))
  }

  predicate ExpiringAdmitted(burst: nat, rs: seq<Reading>, n: nat)
    requires n < |rs|
    decreases n, 2
  {
    ExpiringLevel(burst, rs, n) >= 1.0
  }

  /** The tokens left after the first `n` visits. */
  function ExpiringLeft(burst: nat, rs: seq<Reading>, n: nat): real
    requires n <= |rs|
    decreases n, 0
  {
    if n == 0 then burst as real
    else ExpiringLevel(burst, rs, n - 1) - if ExpiringAdmitted(burst, rs, n - 1) then 1.0 else 0.0
  }

  /** The admitted visits with index in `[i, j)`. */
  function ExpiringAdmits(burst: nat, rs: seq<Reading>, i: nat, j: nat): nat
    requires j <= |rs|
    decreases j
  {
    if j <= i then 0
    else ExpiringAdmits(burst, rs, i, j - 1) + if ExpiringAdmitted(burst, rs, j - 1) then 1 else 0
  }

  lemma {:induction false} ExpiringPrefix(burst: nat, rs: seq<Reading>, us: seq<Reading>, n: nat)
    requires n <= |rs| && n <= |us| && forall m | 0 <= m < n :: rs[m] == us[m]
    ensures ExpiringLeft(burst, rs, n) == ExpiringLeft(burst, us, n)
    ensures forall m | 0 <= m < n :: ExpiringAdmitted(burst, rs, m) == ExpiringAdmitted(burst, us, m)
  {
    if n == 0 {
    } else {
      ExpiringPrefix(burst, rs, us, n - 1);
    }
  }

  lemma {:induction false} ExpiringPrefixAdmits(burst: nat, rs: seq<Reading>, us: seq<Reading>, i: nat, n: nat)
    requires n <= |rs| && n <= |us| && forall m | 0 <= m < n :: rs[m] == us[m]
    ensures ExpiringAdmits(burst, rs, i, n) == ExpiringAdmits(burst, us, i, n)
    decreases n
  {
    if n <= i {
    } else {
      ExpiringPrefixAdmits(burst, rs, us, i, n - 1);
      ExpiringPrefix(burst, rs, us, n);
    }
  }

  lemma {:induction false} ExpiringAdmitsSplit(burst: nat, rs: seq<Reading>, i: nat, n: nat)
    requires i <= n <= |rs|
    ensures ExpiringAdmits(burst, rs, 0, n) == ExpiringAdmits(burst, rs, 0, i) + ExpiringAdmits(burst, rs, i, n)
    decreases n
  {
    if i == n {
    } else {
      ExpiringAdmitsSplit(burst, rs, i, n - 1);
    }
  }

  /** Serving one more visit. */
  lemma ExpiringServe(burst: nat, rs: seq<Reading>, r: Reading)
    ensures var n := |rs|;
      (ExpiringLeft(burst, rs + [r], n + 1), ExpiringAdmitted(burst, rs + [r], n))
      == if n == 0 || r.gone then Serve(burst, burst as real, 0.0)
         else Serve(burst, ExpiringLeft(burst, rs, n), Rise(rs[n - 1].at, r.at))
  {
    ExpiringPrefix(burst, rs, rs + [r], |rs|);
  }

  // ---- Bounds for any clocks -------------------------------------------------------

  lemma {:induction false} ExpiringBounded(burst: nat, rs: seq<Reading>, n: nat)
    requires n <= |rs|
    ensures 0.0 <= ExpiringLeft(burst, rs, n) <= burst as real
  {
    if n == 0 {
    } else {
      ExpiringBounded(burst, rs, n - 1);
    }
  }

  /** The lives that begin after visit `i` and up to visit `j`. */
  function Expiries(rs: seq<Reading>, i: nat, j: nat): nat
    requires j < |rs|
    decreases j
  {
    if j <= i then 0 else Expiries(rs, i, j - 1) + if rs[j].gone then 1 else 0
  }

  /** How far the clock moved forward between visits `i` and `j` within the lives of the bucket. */
  function LifeForward(rs: seq<Reading>, i: nat, j: nat): real
    requires j < |rs|
    decreases j
  {
    if j <= i then 0.0 else LifeForward(rs, i, j - 1) + if rs[j].gone then 0.0 else Rise(rs[j - 1].at, rs[j].at)
  }

  /** `n + 1` bursts. */
  function Bursts(burst: nat, n: nat): nat { burst * (n + 1) }

  lemma OneMoreBurst(burst: nat, n: nat)
    ensures Bursts(burst, n + 1) == Bursts(burst, n) + burst && Bursts(burst, 0) == burst
  {
  }

  lemma {:induction false} ExpiringSpentIsCovered(burst: nat, rs: seq<Reading>, i: nat, j: nat)
    requires i <= j < |rs|
    ensures ExpiringAdmits(burst, rs, i, j + 1) as real + ExpiringLeft(burst, rs, j + 1)
         <= Bursts(burst, Expiries(rs, i, j)) as real + LifeForward(rs, i, j)
    decreases j
  {
    if i == j {
      ExpiringBounded(burst, rs, j);
      assert ExpiringAdmits(burst, rs, i, j) == 0;
    } else {
      ExpiringSpentIsCovered(burst, rs, i, j - 1);
      ExpiringBounded(burst, rs, j);
      OneMoreBurst(burst, Expiries(rs, i, j - 1));
    }
  }

  // ---- Seconds, and the two clocks ----------------------------------------------------

  /** A visit: the caller's clock and the server's clock at that instant. */
  datatype Visit = Visit(at: real, on: real)

  /** The hash expired between the visit before `n` and visit `n`. Without a TTL it never does. */
  predicate Gone(ttl: Option<nat>, vs: seq<Visit>, n: nat)
    requires n < |vs|
  {
    n > 0 && ttl.Some? && vs[n].on >= vs[n - 1].on + ttl.value as real
  }

  function Readings(ttl: Option<nat>, vs: seq<Visit>): (rs: seq<Reading>)
    ensures |rs| == |vs| && forall n | 0 <= n < |vs| :: rs[n] == Reading(vs[n].at, Gone(ttl, vs, n))
  {
    seq(|vs|, n requires 0 <= n < |vs| => Reading(vs[n].at, Gone(ttl, vs, n)))
  }

  function InTokens(rate: real, rs: seq<Reading>): (us: seq<Reading>)
    ensures |us| == |rs| && forall n | 0 <= n < |rs| :: us[n] == Reading(Credit(rate, rs[n].at), rs[n].gone)
  {
    seq(|rs|, n requires 0 <= n < |rs| => Reading(Credit(rate, rs[n].at), rs[n].gone))
  }

  function History(cfg: BucketRate, ttl: Option<nat>, vs: seq<Visit>): (us: seq<Reading>)
    ensures |us| == |vs|
  {
    InTokens(cfg.rate, Readings(ttl, vs))
  }

  lemma {:induction false} LifeForwardInTokens(rate: real, rs: seq<Reading>, i: nat, j: nat)
    requires rate > 0.0 && j < |rs|
    ensures LifeForward(InTokens(rate, rs), i, j) == Credit(rate, LifeForward(rs, i, j))
    ensures Expiries(InTokens(rate, rs), i, j) == Expiries(rs, i, j)
    decreases j
  {
    if j <= i {
      assert Credit(rate, 0.0) == 0.0;
    } else {
      LifeForwardInTokens(rate, rs, i, j - 1);
      RiseInTokens(rate, rs[j - 1].at, rs[j].at);
      Distribute(rate, LifeForward(rs, i, j - 1), Rise(rs[j - 1].at, rs[j].at));
    }
  }

  /** Any clocks, any expiry: a window of visits admits at most one burst, one more for each life that
      begins in it, and rate times the forward movement of the callers' clocks within the lives. */
  lemma ExpiringForwardBound(cfg: BucketRate, ttl: Option<nat>, vs: seq<Visit>, i: nat, j: nat)
    requires cfg.Enabled() && i <= j < |vs|
    ensures ExpiringAdmits(cfg.burst, History(cfg, ttl, vs), i, j + 1) as real
         <= Bursts(cfg.burst, Expiries(Readings(ttl, vs), i, j)) as real
            + Credit(cfg.rate, LifeForward(Readings(ttl, vs), i, j))
  {
    var us := History(cfg, ttl, vs);
    ExpiringSpentIsCovered(cfg.burst, us, i, j);
    ExpiringBounded(cfg.burst, us, j + 1);
    LifeForwardInTokens(cfg.rate, Readings(ttl, vs), i, j);
  }

  // ---- Exact admission for any clocks ---------------------------------------------------

  /** The visit with which the life of visit `n` began. */
  function LifeStart(rs: seq<Reading>, n: nat): (start: nat)
    requires n < |rs|
    ensures start <= n
  {
    if n == 0 || rs[n].gone then n else LifeStart(rs, n - 1)
  }

  /** What the window from visit `i` to visit `n` still allows. */
  function ExpiringSlack(burst: nat, rs: seq<Reading>, i: nat, n: nat): real
    requires i <= n < |rs|
  {
    burst as real + LifeForward(rs, i, n) - ExpiringAdmits(burst, rs, i, n) as real
  }

  /** The level is the least slack of all windows of the current life that end here. */
  lemma {:induction false} ExpiringLevelIsLeastSlack(burst: nat, rs: seq<Reading>, n: nat) returns (least: nat)
    requires n < |rs|
    ensures LifeStart(rs, n) <= least <= n && ExpiringLevel(burst, rs, n) == ExpiringSlack(burst, rs, least, n)
    ensures forall i: nat | LifeStart(rs, n) <= i <= n :: ExpiringLevel(burst, rs, n) <= ExpiringSlack(burst, rs, i, n)
  {
    if n == 0 || rs[n].gone {
      least := n;
    } else {
      var before := ExpiringLevelIsLeastSlack(burst, rs, n - 1);
      forall i: nat | LifeStart(rs, n) <= i <= n
        ensures ExpiringLevel(burst, rs, n) <= ExpiringSlack(burst, rs, i, n)
      {
        if i < n { assert ExpiringLevel(burst, rs, n - 1) <= ExpiringSlack(burst, rs, i, n - 1); }
      }
      least := if ExpiringLevel(burst, rs, n) == burst as real then n else before;
    }
  }

  lemma ExpiringExactInTokens(burst: nat, rs: seq<Reading>, n: nat)
    requires n < |rs|
    ensures ExpiringAdmitted(burst, rs, n)
       <==> forall i: nat | LifeStart(rs, n) <= i <= n :: ExpiringSlack(burst, rs, i, n) >= 1.0
  {
    var least := ExpiringLevelIsLeastSlack(burst, rs, n);
  }

  lemma {:induction false} LifeStartInTokens(rate: real, rs: seq<Reading>, n: nat)
    requires n < |rs|
    ensures LifeStart(InTokens(rate, rs), n) == LifeStart(rs, n)
  {
    if n == 0 || rs[n].gone {
    } else {
      LifeStartInTokens(rate, rs, n - 1);
    }
  }

  /** Within the window from `i` to `n` there is room for one more visit. */
  ghost predicate ExpiringRoomFor(cfg: BucketRate, ttl: Option<nat>, vs: seq<Visit>, i: nat, n: nat)
    requires i <= n < |vs|
  {
    ExpiringAdmits(cfg.burst, History(cfg, ttl, vs), i, n) as real + 1.0
    <= cfg.burst as real + Credit(cfg.rate, LifeForward(Readings(ttl, vs), i, n))
  }

  /** Exact admission for any clocks and any expiries: a visit is admitted if and only if, for every
      window of the bucket's current life that ends in it, the admissions of the window including it
      stay within burst plus rate times the forward movement of the callers' clocks. */
  lemma ExpiringExactAdmission(cfg: BucketRate, ttl: Option<nat>, vs: seq<Visit>, n: nat)
    requires cfg.Enabled() && n < |vs|
    ensures ExpiringAdmitted(cfg.burst, History(cfg, ttl, vs), n)
       <==> forall i: nat | LifeStart(Readings(ttl, vs), n) <= i <= n :: ExpiringRoomFor(cfg, ttl, vs, i, n)
  {
    var us := History(cfg, ttl, vs);
    ExpiringExactInTokens(cfg.burst, us, n);
    LifeStartInTokens(cfg.rate, Readings(ttl, vs), n);
    forall i: nat | LifeStart(us, n) <= i <= n
      ensures ExpiringRoomFor(cfg, ttl, vs, i, n) <==> ExpiringSlack(cfg.burst, us, i, n) >= 1.0
    {
      LifeForwardInTokens(cfg.rate, Readings(ttl, vs), i, n);
    }
  }

  // ---- Visit by visit ---------------------------------------------------------------------

  /** A stored balance and the instant at which it expires, on the server's clock. */
  datatype Slot = Slot(balance: Balance, deadline: Option<real>)

  function Deadline(ttl: Option<nat>, on: real): Option<real> {
    if ttl.None? then None else Some(on + ttl.value as real)
  }

  /** What is left of a slot at instant `on`. */
  function Present(slot: Option<Slot>, on: real): Option<Balance> {
    if slot.None? || (slot.value.deadline.Some? && on >= slot.value.deadline.value) then None
    else Some(slot.value.balance)
  }

  /** One visit, which also renews the deadline. */
  function TakeSlot(cfg: BucketRate, ttl: Option<nat>, slot: Option<Slot>, v: Visit): (Slot, bool) {
    var (balance, ok) := Take(cfg, Present(slot, v.on), v.at);
    (Slot(balance, Deadline(ttl, v.on)), ok)
  }

  /** The slot after the visits `vs`. */
  function SlotAfter(cfg: BucketRate, ttl: Option<nat>, vs: seq<Visit>): Option<Slot> {
    if vs == [] then None
    else
      var last := vs[|vs| - 1];
      Some(Slot(Balance(ExpiringLeft(cfg.burst, History(cfg, ttl, vs), |vs|), last.at), Deadline(ttl, last.on)))
  }

  lemma ReadingsSnoc(ttl: Option<nat>, vs: seq<Visit>, v: Visit)
    ensures Readings(ttl, vs + [v]) == Readings(ttl, vs) + [Reading(v.at, Gone(ttl, vs + [v], |vs|))]
  {
    var us := vs + [v];
    forall n | 0 <= n < |vs| ensures Readings(ttl, us)[n] == Readings(ttl, vs)[n] {
      assert us[n] == vs[n] && Gone(ttl, us, n) == Gone(ttl, vs, n);
    }
  }

  lemma TokensSnoc(rate: real, rs: seq<Reading>, r: Reading)
    ensures InTokens(rate, rs + [r]) == InTokens(rate, rs) + [Reading(Credit(rate, r.at), r.gone)]
  {
  }

  lemma HistorySnoc(cfg: BucketRate, ttl: Option<nat>, vs: seq<Visit>, v: Visit)
    ensures History(cfg, ttl, vs + [v])
         == History(cfg, ttl, vs) + [Reading(Credit(cfg.rate, v.at), Gone(ttl, vs + [v], |vs|))]
  {
    ReadingsSnoc(ttl, vs, v);
    TokensSnoc(cfg.rate, Readings(ttl, vs), Reading(v.at, Gone(ttl, vs + [v], |vs|)));
  }

  lemma TakeSlotAt(cfg: BucketRate, ttl: Option<nat>, vs: seq<Visit>, v: Visit, rs: seq<Reading>, r: Reading)
    requires rs == History(cfg, ttl, vs) && rs + [r] == History(cfg, ttl, vs + [v])
    requires r.gone == Gone(ttl, vs + [v], |vs|)
    requires vs != [] ==> Credit(cfg.rate, Rise(vs[|vs| - 1].at, v.at)) == Rise(rs[|vs| - 1].at, r.at)
    ensures TakeSlot(cfg, ttl, SlotAfter(cfg, ttl, vs), v)
         == (SlotAfter(cfg, ttl, vs + [v]).value, ExpiringAdmitted(cfg.burst, rs + [r], |vs|))
  {
    ExpiringServe(cfg.burst, rs, r);
  }

  /** Serving one more visit is one `TakeSlot`, whatever the two clocks say. */
  lemma TakeSlotExtends(cfg: BucketRate, ttl: Option<nat>, vs: seq<Visit>, v: Visit)
    requires cfg.Enabled()
    ensures var us := vs + [v];
      TakeSlot(cfg, ttl, SlotAfter(cfg, ttl, vs), v)
      == (SlotAfter(cfg, ttl, us).value, ExpiringAdmitted(cfg.burst, History(cfg, ttl, us), |vs|))
  {
    HistorySnoc(cfg, ttl, vs, v);
    if vs != [] { RiseInTokens(cfg.rate, vs[|vs| - 1].at, v.at); }
    TakeSlotAt(cfg, ttl, vs, v, History(cfg, ttl, vs), Reading(Credit(cfg.rate, v.at), Gone(ttl, vs + [v], |vs|)));
  }

  // ---- When expiry does not matter -----------------------------------------------------------

  function Ats(rs: seq<Reading>): (cs: seq<real>)
    ensures |cs| == |rs| && forall n | 0 <= n < |rs| :: cs[n] == rs[n].at
  {
    seq(|rs|, n requires 0 <= n < |rs| => rs[n].at)
  }

  /** Every new life begins after a full refill. */
  predicate RefilledBeforeGone(burst: nat, rs: seq<Reading>) {
    forall n | 0 < n < |rs| && rs[n].gone :: rs[n - 1].at + burst as real <= rs[n].at
  }

  /** Then the bucket behaves like one that never expires. */
  lemma {:induction false} LongLivedBucketsAgree(burst: nat, rs: seq<Reading>, n: nat)
    requires RefilledBeforeGone(burst, rs) && n <= |rs|
    ensures ExpiringLeft(burst, rs, n) == Left(burst, Ats(rs), n)
    ensures forall m | 0 <= m < n :: ExpiringAdmitted(burst, rs, m) == Admitted(burst, Ats(rs), m)
  {
    if n == 0 {
    } else {
      LongLivedBucketsAgree(burst, rs, n - 1);
      BalanceBounded(burst, Ats(rs), n - 1);
    }
  }

  lemma {:induction false} LongLivedAdmitsAgree(burst: nat, rs: seq<Reading>, i: nat, n: nat)
    requires RefilledBeforeGone(burst, rs) && n <= |rs|
    ensures ExpiringAdmits(burst, rs, i, n) == Admits(burst, Ats(rs), i, n)
    decreases n
  {
    if n <= i {
    } else {
      LongLivedAdmitsAgree(burst, rs, i, n - 1);
      LongLivedBucketsAgree(burst, rs, n);
    }
  }

  function Stamps(vs: seq<Visit>): (ts: seq<real>)
    ensures |ts| == |vs| && forall n | 0 <= n < |vs| :: ts[n] == vs[n].at
  {
    Ats(Readings(None, vs))
  }

  /** Callers' clocks stay within `delta` of the server's, which does not go back. */
  predicate WithinSkew(delta: real, vs: seq<Visit>) {
    && (forall n | 0 <= n < |vs| :: vs[n].on - delta <= vs[n].at <= vs[n].on + delta)
    && (forall i, j | 0 <= i <= j < |vs| :: vs[i].on <= vs[j].on)
  }

  /** Callers and server read one clock. */
  predicate SharedClock(vs: seq<Visit>) { WithinSkew(0.0, vs) }

  lemma SharedStampsInOrder(vs: seq<Visit>)
    requires SharedClock(vs)
    ensures NonDecreasing(Stamps(vs))
  {
  }

  lemma HistoryAts(cfg: BucketRate, ttl: Option<nat>, vs: seq<Visit>)
    ensures Ats(History(cfg, ttl, vs)) == Credits(cfg.rate, Stamps(vs))
  {
    forall n | 0 <= n < |vs| ensures Credits(cfg.rate, Stamps(vs))[n] == Credit(cfg.rate, vs[n].at) {
      CreditAt(cfg.rate, Stamps(vs), n);
    }
  }

  /** The callers' clocks have moved on by at least this much when a bucket has expired. */
  function LeastIdle(ttl: nat, delta: real): real { ttl as real - 2.0 * delta }

  lemma CreditOfIdle(rate: real, x: real, idle: real, y: real)
    requires rate > 0.0 && x + idle <= y
    ensures Credit(rate, x) + Credit(rate, idle) <= Credit(rate, y)
  {
    Distribute(rate, x, idle);
    RiseInTokens(rate, x + idle, y);
  }

  lemma TtlCoversBurst(cfg: BucketRate, ttl: nat, delta: real, vs: seq<Visit>)
    requires cfg.Enabled() && WithinSkew(delta, vs)
    requires Credit(cfg.rate, LeastIdle(ttl, delta)) >= cfg.burst as real
    ensures RefilledBeforeGone(cfg.burst, History(cfg, Some(ttl), vs))
  {
    var us, idle := History(cfg, Some(ttl), vs), LeastIdle(ttl, delta);
    forall n | 0 < n < |us| && us[n].gone ensures us[n - 1].at + cfg.burst as real <= us[n].at {
      CreditOfIdle(cfg.rate, vs[n - 1].at, idle, vs[n].at);
    }
  }

  /** `burst` visits at one instant, and `burst` more at another. */
  function TwoBursts(burst: nat, a: Visit, b: Visit): (vs: seq<Visit>)
    ensures |vs| == 2 * burst
  {
    seq(2 * burst, n => if n < burst then a else b)
  }

  lemma {:induction false} TwoLivesAdmit(burst: nat, rs: seq<Reading>, n: nat)
    requires burst > 0 && n <= |rs| == 2 * burst && rs[burst].gone
    ensures ExpiringAdmits(burst, rs, 0, n) == n
    ensures forall m | 0 <= m < n :: ExpiringAdmitted(burst, rs, m)
    ensures ExpiringLeft(burst, rs, n) >= (if n <= burst then burst - n else 2 * burst - n) as real
  {
    if n == 0 {
    } else {
      TwoLivesAdmit(burst, rs, n - 1);
      assert ExpiringAdmitted(burst, rs, n - 1);
    }
  }

  /** If the bucket expires in between, both bursts are admitted, whatever the callers' clocks say. */
  lemma TwoBurstsAdmitted(cfg: BucketRate, ttl: nat, a: Visit, b: Visit)
    requires cfg.Enabled() && b.on >= a.on + ttl as real
    ensures var us := History(cfg, Some(ttl), TwoBursts(cfg.burst, a, b));
      && ExpiringAdmits(cfg.burst, us, 0, 2 * cfg.burst) == 2 * cfg.burst
      && (forall m | 0 <= m < 2 * cfg.burst :: ExpiringAdmitted(cfg.burst, us, m))
  {
    var vs := TwoBursts(cfg.burst, a, b);
    assert Gone(Some(ttl), vs, cfg.burst);
    assert Readings(Some(ttl), vs)[cfg.burst].gone;
    TwoLivesAdmit(cfg.burst, History(cfg, Some(ttl), vs), 2 * cfg.burst);
  }

  /** With callers' clocks within `delta` of the server's, expiry never changes a decision. */
  ghost predicate ExpiryUnobservable(cfg: BucketRate, ttl: nat, delta: real) {
    forall vs: seq<Visit>, n: nat | WithinSkew(delta, vs) && n < |vs| ::
      ExpiringAdmitted(cfg.burst, History(cfg, Some(ttl), vs), n)
           == Admitted(cfg.burst, Credits(cfg.rate, Stamps(vs)), n)
  }

  lemma {:induction false} AllAdmitted(burst: nat, cs: seq<real>, n: nat)
    requires n <= |cs| && forall m | 0 <= m < n :: Admitted(burst, cs, m)
    ensures Admits(burst, cs, 0, n) == n
  {
    if n == 0 {
    } else {
      AllAdmitted(burst, cs, n - 1);
    }
  }

  lemma {:induction false} ForwardOfTwo(ts: seq<real>, burst: nat, n: nat)
    requires n < |ts| == 2 * burst && burst > 0
    requires forall m | 0 <= m < |ts| :: ts[m] == if m < burst then ts[0] else ts[burst]
    ensures Forward(ts, 0, n) == if n < burst then 0.0 else Rise(ts[0], ts[burst])
  {
    if n == 0 {
    } else {
      ForwardOfTwo(ts, burst, n - 1);
    }
  }

  /** A bucket that never expires refuses part of two bursts that are too close on its clock. */
  lemma OneLifeRefuses(cfg: BucketRate, a: Visit, b: Visit) returns (m: nat)
    requires cfg.Enabled() && Credit(cfg.rate, Rise(a.at, b.at)) < cfg.burst as real
    ensures var vs := TwoBursts(cfg.burst, a, b);
      m < |vs| && !Admitted(cfg.burst, Credits(cfg.rate, Stamps(vs)), m)
  {
    var ts, n := Stamps(TwoBursts(cfg.burst, a, b)), 2 * cfg.burst;
    ForwardOfTwo(ts, cfg.burst, n - 1);
    ForwardBound(cfg, ts, 0, n - 1);
    if forall m | 0 <= m < n :: Admitted(cfg.burst, Credits(cfg.rate, ts), m) {
      AllAdmitted(cfg.burst, Credits(cfg.rate, ts), n);
    }
    m :| 0 <= m < n && !Admitted(cfg.burst, Credits(cfg.rate, ts), m);
  }

  lemma CreditOfRise(cfg: BucketRate, x: real, y: real)
    requires cfg.Enabled() && Credit(cfg.rate, y - x) < cfg.burst as real
    ensures Credit(cfg.rate, Rise(x, y)) < cfg.burst as real
  {
  }

  /** The caller's clock is ahead by `delta` at the first burst and behind by `delta` at the second. */
  lemma ShortLivedBucketsDiffer(cfg: BucketRate, ttl: nat, delta: real)
    requires cfg.Enabled() && delta >= 0.0 && Credit(cfg.rate, LeastIdle(ttl, delta)) < cfg.burst as real
    ensures !ExpiryUnobservable(cfg, ttl, delta)
  {
    var a, b := Visit(delta, 0.0), Visit(ttl as real - delta, ttl as real);
    CreditOfRise(cfg, a.at, b.at);
    var m := OneLifeRefuses(cfg, a, b);
    TwoBurstsAdmitted(cfg, ttl, a, b);
    assert WithinSkew(delta, TwoBursts(cfg.burst, a, b));
  }

  /** With callers' clocks within `delta` of the server's, expiry of idle buckets is unobservable if and
      only if rate times the lifetime, less twice `delta`, covers the burst. */
  lemma ExpiryUnobservableIffTtlCoversBurst(cfg: BucketRate, ttl: nat, delta: real)
    requires cfg.Enabled() && delta >= 0.0
    ensures ExpiryUnobservable(cfg, ttl, delta) <==> Credit(cfg.rate, LeastIdle(ttl, delta)) >= cfg.burst as real
  {
    if Credit(cfg.rate, LeastIdle(ttl, delta)) >= cfg.burst as real {
      forall vs: seq<Visit>, n: nat | WithinSkew(delta, vs) && n < |vs|
        ensures ExpiringAdmitted(cfg.burst, History(cfg, Some(ttl), vs), n)
             == Admitted(cfg.burst, Credits(cfg.rate, Stamps(vs)), n)
      {
        TtlCoversBurst(cfg, ttl, delta, vs);
        LongLivedBucketsAgree(cfg.burst, History(cfg, Some(ttl), vs), |vs|);
        HistoryAts(cfg, Some(ttl), vs);
      }
    } else {
      ShortLivedBucketsDiffer(cfg, ttl, delta);
    }
  }
}
