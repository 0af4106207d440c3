/** The token bucket: one request takes one token, tokens come back at a constant rate up to the
    burst. Tokens and seconds are reals, and the time of each request is an argument. */
module TokenBucket {
  import opened Wrappers

  datatype BucketRate = BucketRate(rate: real, burst: nat) {
    predicate Enabled() { rate > 0.0 && burst > 0 }
  }

  /** What a bucket remembers: the tokens left by the last request, and when that was. */
  datatype Balance = Balance(tokens: real, last: real)

  function Min(a: real, b: real): real { if a <= b then a else b }

  /** The distance from `a` to `b`, not counted when it would be negative. */
  function Rise(a: real, b: real): real { if b >= a then b - a else 0.0 }

  /** The tokens released in `t` seconds. */
  function Credit(rate: real, t: real): real { rate * t }

  /** Refill `left` tokens by what has been released since, then take one if there is one: the
      tokens left, and whether the request is admitted. */
  function Serve(burst: nat, left: real, released: real): (real, bool) {
    var level := Min(burst as real, left + released);
    if level >= 1.0 then (level - 1.0, true) else (level, false)
  }

  /** One request at `now`. A bucket without a past starts full. */
  function Take(cfg: BucketRate, before: Option<Balance>, now: real): (Balance, bool) {
    var (left, ok) :=
      if before.None? then Serve(cfg.burst, cfg.burst as real, 0.0)
      else Serve(cfg.burst, before.value.tokens, Credit(cfg.rate, Rise(before.value.last, now)));
    (Balance(left, now), ok)
  }

  // ---- A bucket over a sequence of requests --------------------------------
  //
  // `cs` holds the clock readings of the requests in tokens: a clock that reads `t` seconds has
  // released `rate * t` tokens.

  /** The tokens that request `n` finds after the refill. */
  function Level(burst: nat, cs: seq<real>, n: nat): real
    requires n < |cs|
    decreases n, 1
  {
    if n == 0 then burst as real
    else Min(burst as real, Left(burst, cs, n) + Rise(cs[n - 1], cs[n]))
  }

  predicate Admitted(burst: nat, cs: seq<real>, n: nat)
    requires n < |cs|
    decreases n, 2
  {
    Level(burst, cs, n) >= 1.0
  }

  /** The tokens left after the first `n` requests. */
  function Left(burst: nat, cs: seq<real>, n: nat): real
    requires n <= |cs|
    decreases n, 0
  {
    if n == 0 then burst as real
    else Level(burst, cs, n - 1) - if Admitted(burst, cs, n - 1) then 1.0 else 0.0
  }

  /** The admitted requests with index in `[i, j)`. */
  function Admits(burst: nat, cs: seq<real>, i: nat, j: nat): nat
    requires j <= |cs|
    decreases j
  {
    if j <= i then 0
    else Admits(burst, cs, i, j - 1) + if Admitted(burst, cs, j - 1) then 1 else 0
  }

  lemma {:induction false} PrefixDecides(burst: nat, cs: seq<real>, ds: seq<real>, n: nat)
    requires n <= |cs| && n <= |ds| && forall m | 0 <= m < n :: cs[m] == ds[m]
    ensures Left(burst, cs, n) == Left(burst, ds, n)
    ensures forall m | 0 <= m < n :: Admitted(burst, cs, m) == Admitted(burst, ds, m)
  {
    if n == 0 {
    } else {
      PrefixDecides(burst, cs, ds, n - 1);
    }
  }

  lemma {:induction false} PrefixAdmits(burst: nat, cs: seq<real>, ds: seq<real>, i: nat, n: nat)
    requires n <= |cs| && n <= |ds| && forall m | 0 <= m < n :: cs[m] == ds[m]
    ensures Admits(burst, cs, i, n) == Admits(burst, ds, i, n)
    decreases n
  {
    if n <= i {
    } else {
      PrefixAdmits(burst, cs, ds, i, n - 1);
      PrefixDecides(burst, cs, ds, n);
    }
  }

  // ---- Seconds ----------------------------------------------------------------

  /** The clock readings `ts` in tokens. */
  function Credits(rate: real, ts: seq<real>): (cs: seq<real>)
    ensures |cs| == |ts|
  {
    if ts == [] then [] else Credits(rate, ts[..|ts| - 1]) + [Credit(rate, ts[|ts| - 1])]
  }

  lemma {:induction false} CreditAt(rate: real, ts: seq<real>, i: nat)
    requires i < |ts|
    ensures Credits(rate, ts)[i] == Credit(rate, ts[i])
  {
    if i == |ts| - 1 {
    } else {
      CreditAt(rate, ts[..|ts| - 1], i);
    }
  }

  lemma CreditsSnoc(rate: real, ts: seq<real>, now: real)
    ensures Credits(rate, ts + [now]) == Credits(rate, ts) + [Credit(rate, now)]
  {
    var us := ts + [now];
    assert us != [] && us[..|us| - 1] == ts && us[|us| - 1] == now;
  }

  lemma RiseInTokens(rate: real, a: real, b: real)
    requires rate > 0.0
    ensures Credit(rate, Rise(a, b)) == Rise(Credit(rate, a), Credit(rate, b))
    ensures a <= b <==> Credit(rate, a) <= Credit(rate, b)
  {
    assert rate * b - rate * a == rate * (b - a);
    if a <= b { assert rate * (b - a) >= 0.0; } else { assert rate * (a - b) > 0.0; }
  }

  lemma CreditRise(rate: real, ts: seq<real>, i: nat, j: nat)
    requires rate > 0.0 && i < |ts| && j < |ts|
    ensures Credit(rate, Rise(ts[i], ts[j])) == Rise(Credits(rate, ts)[i], Credits(rate, ts)[j])
    ensures ts[i] <= ts[j] <==> Credits(rate, ts)[i] <= Credits(rate, ts)[j]
  {
    CreditAt(rate, ts, i);
    CreditAt(rate, ts, j);
    RiseInTokens(rate, ts[i], ts[j]);
  }

  lemma ElapsedInTokens(rate: real, ts: seq<real>, i: nat, j: nat)
    requires i < |ts| && j < |ts|
    ensures Credits(rate, ts)[j] - Credits(rate, ts)[i] == Credit(rate, ts[j] - ts[i])
  {
    CreditAt(rate, ts, i);
    CreditAt(rate, ts, j);
    Distribute(rate, ts[i], ts[j] - ts[i]);
  }

  lemma Distribute(r: real, x: real, y: real)
    ensures Credit(r, x + y) == Credit(r, x) + Credit(r, y)
  {
  }

  /** The balance after the requests at `ts`, if there were any. */
  function BalanceAfter(cfg: BucketRate, ts: seq<real>): Option<Balance> {
    if ts == [] then None else Some(Balance(Left(cfg.burst, Credits(cfg.rate, ts), |ts|), ts[|ts| - 1]))
  }

  /** Serving one more request, with the clock in tokens. */
  lemma ServeExtends(burst: nat, cs: seq<real>, c: real)
    ensures var n := |cs|;
      (Left(burst, cs + [c], n + 1), Admitted(burst, cs + [c], n))
      == if n == 0 then Serve(burst, burst as real, 0.0) else Serve(burst, Left(burst, cs, n), Rise(cs[n - 1], c))
  {
    PrefixDecides(burst, cs, cs + [c], |cs|);
  }

  lemma ReleasedInTokens(rate: real, ts: seq<real>, now: real)
    requires rate > 0.0 && ts != []
    ensures Credit(rate, Rise(ts[|ts| - 1], now)) == Rise(Credits(rate, ts)[|ts| - 1], Credit(rate, now))
  {
    CreditAt(rate, ts, |ts| - 1);
    RiseInTokens(rate, ts[|ts| - 1], now);
  }

  /** Serving one more request is one `Take`. */
  lemma TakeExtends(cfg: BucketRate, ts: seq<real>, now: real)
    requires cfg.Enabled()
    ensures var us := ts + [now];
      Take(cfg, BalanceAfter(cfg, ts), now)
           == (BalanceAfter(cfg, us).value, Admitted(cfg.burst, Credits(cfg.rate, us), |ts|))
  {
    CreditsSnoc(cfg.rate, ts, now);
    if ts != [] { ReleasedInTokens(cfg.rate, ts, now); }
    TakeExtendsAt(cfg, ts, now, Credits(cfg.rate, ts), Credit(cfg.rate, now));
  }

  lemma TakeExtendsAt(cfg: BucketRate, ts: seq<real>, now: real, cs: seq<real>, c: real)
    requires cs == Credits(cfg.rate, ts) && cs + [c] == Credits(cfg.rate, ts + [now])
    requires ts != [] ==> Credit(cfg.rate, Rise(ts[|ts| - 1], now)) == Rise(cs[|ts| - 1], c)
    ensures var us := ts + [now];
      Take(cfg, BalanceAfter(cfg, ts), now)
           == (BalanceAfter(cfg, us).value, Admitted(cfg.burst, Credits(cfg.rate, us), |ts|))
  {
    ServeExtends(cfg.burst, cs, c);
  }

  // ---- The bucket object ----------------------------------------------------

  class Bucket {
    const cfg: BucketRate
    var tokens: real
    var lastRefill: real
    ghost var seen: seq<real>

    /** The fields are what the requests seen so far leave behind. */
    ghost predicate Valid()
      reads this
    {
      if seen == [] then tokens == cfg.burst as real
      else BalanceAfter(cfg, seen) == Some(Balance(tokens, lastRefill))
    }

    constructor (cfg: BucketRate, now: real)
      ensures Valid() && this.cfg == cfg && seen == [] && lastRefill == now
    {
      this.cfg := cfg;
      tokens := cfg.burst as real;
      lastRefill := now;
      seen := [];
    }

    method TryTake(now: real) returns (ok: bool)
      requires Valid() && cfg.Enabled()
      modifies this
      ensures Valid() && seen == old(seen) + [now]
      ensures ok <==> Admitted(cfg.burst, Credits(cfg.rate, seen), |old(seen)|)
    {
      TakeExtends(cfg, seen, now);
      var elapsed := if now >= lastRefill then now - lastRefill else 0.0;
      var released := elapsed * cfg.rate;
      assert released == Credit(cfg.rate, Rise(lastRefill, now)) && released >= 0.0;
      tokens := Min(cfg.burst as real, tokens + released);
      lastRefill := now;
      seen := seen + [now];
      if tokens >= 1.0 {
        tokens := tokens - 1.0;
        ok := true;
      } else {
        ok := false;
      }
    }
  }

  // ---- Exact admission --------------------------------------------------------

  predicate NonDecreasing(ts: seq<real>) {
    forall i, j | 0 <= i <= j < |ts| :: ts[i] <= ts[j]
  }

  lemma CreditsNonDecreasing(rate: real, ts: seq<real>)
    requires rate > 0.0 && NonDecreasing(ts)
    ensures NonDecreasing(Credits(rate, ts))
  {
    var cs := Credits(rate, ts);
    forall i, j | 0 <= i <= j < |cs| ensures cs[i] <= cs[j] { CreditRise(rate, ts, i, j); }
  }

  /** What the window from request `i` to request `n` still allows. */
  function Slack(burst: nat, cs: seq<real>, i: nat, n: nat): real
    requires i <= n < |cs|
  {
    burst as real + (cs[n] - cs[i]) - Admits(burst, cs, i, n) as real
  }

  /** The level is the least slack of all windows that end here. */
  lemma {:induction false} LevelIsLeastSlack(burst: nat, cs: seq<real>, n: nat) returns (least: nat)
    requires NonDecreasing(cs) && n < |cs|
    ensures least <= n && Level(burst, cs, n) == Slack(burst, cs, least, n)
    ensures forall i: nat | i <= n :: Level(burst, cs, n) <= Slack(burst, cs, i, n)
  {
    if n == 0 {
      least := 0;
    } else {
      var before := LevelIsLeastSlack(burst, cs, n - 1);
      forall i: nat | i <= n ensures Level(burst, cs, n) <= Slack(burst, cs, i, n) {
        if i < n { assert Level(burst, cs, n - 1) <= Slack(burst, cs, i, n - 1); }
      }
      least := if Level(burst, cs, n) == burst as real then n else before;
    }
  }

  lemma ExactAdmissionInTokens(burst: nat, cs: seq<real>, n: nat)
    requires NonDecreasing(cs) && n < |cs|
    ensures Admitted(burst, cs, n)
       <==> forall i: nat | i <= n :: Admits(burst, cs, i, n) as real + 1.0 <= burst as real + (cs[n] - cs[i])
  {
    var least := LevelIsLeastSlack(burst, cs, n);
    assert Slack(burst, cs, least, n) >= 1.0
      <==> Admits(burst, cs, least, n) as real + 1.0 <= burst as real + (cs[n] - cs[least]);
    if Admitted(burst, cs, n) {
      forall i: nat | i <= n ensures Admits(burst, cs, i, n) as real + 1.0 <= burst as real + (cs[n] - cs[i]) {
        assert Level(burst, cs, n) <= Slack(burst, cs, i, n);
      }
    }
  }

  /** Within the window from `i` to `n` there is room for one more request. */
  ghost predicate RoomFor(cfg: BucketRate, ts: seq<real>, i: nat, n: nat)
    requires i <= n < |ts|
  {
    Admits(cfg.burst, Credits(cfg.rate, ts), i, n) as real + 1.0
    <= cfg.burst as real + Credit(cfg.rate, ts[n] - ts[i])
  }

  /** Exact admission: with timestamps that never go back, a request is admitted if and only if,
      for every window that ends in it, the admissions of the window including it stay within
      burst plus rate times the length of the window. */
  lemma ExactAdmission(cfg: BucketRate, ts: seq<real>, n: nat)
    requires cfg.Enabled() && NonDecreasing(ts) && n < |ts|
    ensures Admitted(cfg.burst, Credits(cfg.rate, ts), n) <==> forall i: nat | i <= n :: RoomFor(cfg, ts, i, n)
  {
    CreditsNonDecreasing(cfg.rate, ts);
    var cs := Credits(cfg.rate, ts);
    ExactAdmissionInTokens(cfg.burst, cs, n);
    forall i: nat | i <= n
      ensures RoomFor(cfg, ts, i, n)
         <==> Admits(cfg.burst, cs, i, n) as real + 1.0 <= cfg.burst as real + (cs[n] - cs[i])
    {
      ElapsedInTokens(cfg.rate, ts, i, n);
    }
  }

  // ---- Bounds under any clock -----------------------------------------------------

  /** How far the clock moved forward between requests `i` and `j`, backward jumps not deducted. */
  function Forward(ts: seq<real>, i: nat, j: nat): real
    requires j < |ts|
    decreases j
  {
    if j <= i then 0.0 else Forward(ts, i, j - 1) + Rise(ts[j - 1], ts[j])
  }

  lemma {:induction false} ForwardInTokens(rate: real, ts: seq<real>, i: nat, j: nat)
    requires rate > 0.0 && j < |ts|
    ensures Forward(Credits(rate, ts), i, j) == Credit(rate, Forward(ts, i, j))
    decreases j
  {
    if j <= i {
      assert Credit(rate, 0.0) == 0.0;
    } else {
      ForwardInTokens(rate, ts, i, j - 1);
      CreditRise(rate, ts, j - 1, j);
      Distribute(rate, Forward(ts, i, j - 1), Rise(ts[j - 1], ts[j]));
    }
  }

  lemma {:induction false} ForwardIsElapsed(ts: seq<real>, i: nat, j: nat)
    requires NonDecreasing(ts) && i <= j < |ts|
    ensures Forward(ts, i, j) == ts[j] - ts[i]
    decreases j
  {
    if i == j {
    } else {
      ForwardIsElapsed(ts, i, j - 1);
    }
  }

  /** For timestamps in any order the balance stays between zero and the burst. */
  lemma {:induction false} BalanceBounded(burst: nat, cs: seq<real>, n: nat)
    requires n <= |cs|
    ensures 0.0 <= Left(burst, cs, n) <= burst as real
  {
    if n == 0 {
    } else {
      BalanceBounded(burst, cs, n - 1);
    }
  }

  lemma {:induction false} SpentIsCovered(burst: nat, cs: seq<real>, i: nat, j: nat)
    requires i <= j < |cs|
    ensures Admits(burst, cs, i, j + 1) as real + Left(burst, cs, j + 1) <= burst as real + Forward(cs, i, j)
    decreases j
  {
    if i == j {
      BalanceBounded(burst, cs, j);
      assert Admits(burst, cs, i, j) == 0;
    } else {
      SpentIsCovered(burst, cs, i, j - 1);
    }
  }

  /** Skewed clocks: whatever the order of the timestamps, any window of requests admits at most
      burst plus rate times the forward movement of the clock within it. */
  lemma ForwardBound(cfg: BucketRate, ts: seq<real>, i: nat, j: nat)
    requires cfg.Enabled() && i <= j < |ts|
    ensures Admits(cfg.burst, Credits(cfg.rate, ts), i, j + 1) as real
         <= cfg.burst as real + Credit(cfg.rate, Forward(ts, i, j))
  {
    var cs := Credits(cfg.rate, ts);
    SpentIsCovered(cfg.burst, cs, i, j);
    BalanceBounded(cfg.burst, cs, j + 1);
    ForwardInTokens(cfg.rate, ts, i, j);
  }

  lemma WindowBoundInTokens(burst: nat, cs: seq<real>, i: nat, j: nat)
    requires NonDecreasing(cs) && i <= j < |cs|
    ensures Admits(burst, cs, i, j + 1) as real <= burst as real + (cs[j] - cs[i])
  {
    SpentIsCovered(burst, cs, i, j);
    BalanceBounded(burst, cs, j + 1);
    ForwardIsElapsed(cs, i, j);
  }

  /** The quota proper: with timestamps that never go back the bound is burst plus rate times the
      length of the window. */
  lemma WindowBound(cfg: BucketRate, ts: seq<real>, i: nat, j: nat)
    requires cfg.Enabled() && NonDecreasing(ts) && i <= j < |ts|
    ensures Admits(cfg.burst, Credits(cfg.rate, ts), i, j + 1) as real
         <= cfg.burst as real + Credit(cfg.rate, ts[j] - ts[i])
  {
    CreditsNonDecreasing(cfg.rate, ts);
    WindowBoundInTokens(cfg.burst, Credits(cfg.rate, ts), i, j);
    ElapsedInTokens(cfg.rate, ts, i, j);
  }

  // ---- Greedy optimality ----------------------------------------------------------

  /** The requests with index in `[i, j)` that a policy admits. */
  function Taken(ds: seq<bool>, i: nat, j: nat): nat
    requires j <= |ds|
    decreases j
  {
    if j <= i then 0 else Taken(ds, i, j - 1) + if ds[j - 1] then 1 else 0
  }

  /** In the window from `i` to `j` the policy stays within the quota. */
  ghost predicate WithinQuota(cfg: BucketRate, ts: seq<real>, ds: seq<bool>, i: nat, j: nat)
    requires i <= j < |ts| == |ds|
  {
    Taken(ds, i, j + 1) as real <= cfg.burst as real + Credit(cfg.rate, ts[j] - ts[i])
  }

  /** The policy exceeds the quota in no window. */
  ghost predicate Conforms(cfg: BucketRate, ts: seq<real>, ds: seq<bool>) {
    |ds| == |ts| && forall i: nat, j: nat | i <= j < |ts| :: WithinQuota(cfg, ts, ds, i, j)
  }

  lemma {:induction false} TakenSplits(ds: seq<bool>, i: nat, n: nat)
    requires i <= n <= |ds|
    ensures Taken(ds, 0, n) == Taken(ds, 0, i) + Taken(ds, i, n)
    decreases n
  {
    if i == n {
    } else {
      TakenSplits(ds, i, n - 1);
    }
  }

  lemma {:induction false} AdmitsSplits(burst: nat, cs: seq<real>, i: nat, n: nat)
    requires i <= n <= |cs|
    ensures Admits(burst, cs, 0, n) == Admits(burst, cs, 0, i) + Admits(burst, cs, i, n)
    decreases n
  {
    if i == n {
    } else {
      AdmitsSplits(burst, cs, i, n - 1);
    }
  }

  /** A request that the bucket refuses is one that no conforming policy can take on top of
      what the bucket has taken. */
  lemma RefusedLeavesNoRoom(cfg: BucketRate, ts: seq<real>, ds: seq<bool>, n: nat)
    requires cfg.Enabled() && NonDecreasing(ts) && Conforms(cfg, ts, ds) && n < |ts|
    requires ds[n] && !Admitted(cfg.burst, Credits(cfg.rate, ts), n)
    requires forall m: nat | m <= n :: Taken(ds, 0, m) <= Admits(cfg.burst, Credits(cfg.rate, ts), 0, m)
    ensures Taken(ds, 0, n + 1) <= Admits(cfg.burst, Credits(cfg.rate, ts), 0, n)
  {
    var cs := Credits(cfg.rate, ts);
    CreditsNonDecreasing(cfg.rate, ts);
    var i := LevelIsLeastSlack(cfg.burst, cs, n);
    TakenSplits(ds, i, n + 1);
    AdmitsSplits(cfg.burst, cs, i, n);
    assert WithinQuota(cfg, ts, ds, i, n);
    ElapsedInTokens(cfg.rate, ts, i, n);
    assert Taken(ds, 0, i) <= Admits(cfg.burst, cs, 0, i);
  }

  /** Greedy optimality: in every prefix of the arrivals the bucket has admitted at least as many
      requests as any policy that respects the same quota. */
  lemma {:induction false} GreedyOptimal(cfg: BucketRate, ts: seq<real>, ds: seq<bool>, n: nat)
    requires cfg.Enabled() && NonDecreasing(ts) && Conforms(cfg, ts, ds) && n <= |ts|
    ensures forall m: nat | m <= n :: Taken(ds, 0, m) <= Admits(cfg.burst, Credits(cfg.rate, ts), 0, m)
  {
    if n == 0 {
    } else {
      GreedyOptimal(cfg, ts, ds, n - 1);
      assert Taken(ds, 0, n - 1) <= Admits(cfg.burst, Credits(cfg.rate, ts), 0, n - 1);
      if ds[n - 1] && !Admitted(cfg.burst, Credits(cfg.rate, ts), n - 1) {
        RefusedLeavesNoRoom(cfg, ts, ds, n - 1);
      }
    }
  }

  lemma {:induction false} TakenByBucket(burst: nat, cs: seq<real>, ds: seq<bool>, i: nat, j: nat)
    requires |ds| == |cs| && j <= |cs| && forall n | 0 <= n < |cs| :: ds[n] == Admitted(burst, cs, n)
    ensures Taken(ds, i, j) == Admits(burst, cs, i, j)
    decreases j
  {
    if j <= i {
    } else {
      TakenByBucket(burst, cs, ds, i, j - 1);
    }
  }

  /** The decisions of the bucket itself form a conforming policy, so the optimum is attained. */
  lemma BucketConforms(cfg: BucketRate, ts: seq<real>, ds: seq<bool>)
    requires cfg.Enabled() && NonDecreasing(ts)
    requires |ds| == |ts| && forall n | 0 <= n < |ts| :: ds[n] == Admitted(cfg.burst, Credits(cfg.rate, ts), n)
    ensures Conforms(cfg, ts, ds)
  {
    forall i: nat, j: nat | i <= j < |ts| ensures WithinQuota(cfg, ts, ds, i, j) {
      TakenByBucket(cfg.burst, Credits(cfg.rate, ts), ds, i, j + 1);
      WindowBound(cfg, ts, i, j);
    }
  }
}
