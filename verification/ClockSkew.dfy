/** Replicas with different clocks: how far the shared quota can be exceeded, exactly. */
module ClockSkew {
  import opened TokenBucket
  import opened BucketLives

  function Total(burst: nat, rs: seq<Reading>): nat { ExpiringAdmits(burst, rs, 0, |rs|) }

  function Rest(burst: nat, rs: seq<Reading>): real { ExpiringLeft(burst, rs, |rs|) }

  function Last(rs: seq<Reading>): Reading
    requires rs != []
  {
    rs[|rs| - 1]
  }

  /** The same reading again, `m` times, in the same life. */
  function Repeat(at: real, m: nat): (rs: seq<Reading>)
    ensures |rs| == m && forall i | 0 <= i < m :: rs[i] == Reading(at, false)
  {
    seq(m, _ => Reading(at, false))
  }

  /** The first `k` readings, each sent `m` times in a row. */
  function Stutter(rs: seq<Reading>, m: nat, k: nat): seq<Reading>
    requires m > 0 && k <= |rs|
  {
    if k == 0 then [] else (Stutter(rs, m, k - 1) + [rs[k - 1]]) + Repeat(rs[k - 1].at, m - 1)
  }

  // ---- The bound can be reached ------------------------------------------------

  lemma OneMore(burst: nat, rs: seq<Reading>, r: Reading)
    requires rs != [] && (r.gone || Rest(burst, rs) + Rise(Last(rs).at, r.at) <= burst as real)
    ensures var us := rs + [r];
      var level := if r.gone then burst as real else Rest(burst, rs) + Rise(Last(rs).at, r.at);
      && Total(burst, us) as real + Rest(burst, us) == Total(burst, rs) as real + level
      && (Rest(burst, us) < 1.0 || Rest(burst, us) == level - 1.0)
  {
    ExpiringServe(burst, rs, r);
    ExpiringPrefixAdmits(burst, rs, rs + [r], 0, |rs|);
  }

  /** Repeating a request at one instant empties the bucket and loses nothing. */
  lemma {:induction false} Drain(burst: nat, rs: seq<Reading>, m: nat)
    requires rs != []
    ensures var us := rs + Repeat(Last(rs).at, m);
      && Last(us).at == Last(rs).at
      && Total(burst, us) as real + Rest(burst, us) == Total(burst, rs) as real + Rest(burst, rs)
      && (Rest(burst, us) < 1.0 || Rest(burst, us) <= Rest(burst, rs) - m as real)
  {
    var at := Last(rs).at;
    if m == 0 {
      assert rs + Repeat(at, 0) == rs;
    } else {
      Drain(burst, rs, m - 1);
      var us := rs + Repeat(at, m - 1);
      assert rs + Repeat(at, m) == us + [Reading(at, false)];
      ExpiringBounded(burst, us, |us|);
      OneMore(burst, us, Reading(at, false));
    }
  }

  /** No jump of the clock refills more than fits into an almost empty bucket. */
  predicate SmallJumps(burst: nat, rs: seq<Reading>) {
    forall k | 0 <= k && k + 1 < |rs| :: Rise(rs[k].at, rs[k + 1].at) + 1.0 <= burst as real
  }

  /** All that the bound allows is spent, up to less than one token for each life. */
  lemma {:induction false} StutterSpendsEverything(burst: nat, rs: seq<Reading>, k: nat)
    requires burst > 0 && SmallJumps(burst, rs) && 0 < k <= |rs|
    ensures var us, n := Stutter(rs, burst, k), Expiries(rs, 0, k - 1);
      && us != [] && Last(us).at == rs[k - 1].at && Rest(burst, us) < 1.0
      && Total(burst, us) as real + Rest(burst, us) + n as real >= Bursts(burst, n) as real + LifeForward(rs, 0, k - 1)
  {
    var before, r := Stutter(rs, burst, k - 1), rs[k - 1];
    var first := before + [r];
    assert Stutter(rs, burst, k) == first + Repeat(r.at, burst - 1);
    if k == 1 {
      assert first == [r];
      ExpiringServe(burst, [], r);
      OneMoreBurst(burst, 0);
      assert Total(burst, first) as real + Rest(burst, first) == burst as real;
    } else {
      StutterSpendsEverything(burst, rs, k - 1);
      assert Rise(rs[k - 2].at, rs[k - 2 + 1].at) + 1.0 <= burst as real;
      OneMore(burst, before, r);
      OneMoreBurst(burst, Expiries(rs, 0, k - 2));
    }
    assert Rest(burst, first) < 1.0 || Rest(burst, first) <= burst as real - 1.0;
    Drain(burst, first, burst - 1);
  }

  // ---- The forward movement is the exact price of skew ----------------------------

  lemma TokensOfRepeat(rate: real, rs: seq<Reading>, at: real, m: nat)
    ensures InTokens(rate, rs + Repeat(at, m)) == InTokens(rate, rs) + Repeat(Credit(rate, at), m)
  {
  }

  lemma {:induction false} TokensOfStutter(rate: real, rs: seq<Reading>, m: nat, k: nat)
    requires m > 0 && k <= |rs|
    ensures InTokens(rate, Stutter(rs, m, k)) == Stutter(InTokens(rate, rs), m, k)
  {
    if k == 0 {
    } else {
      TokensOfStutter(rate, rs, m, k - 1);
      var before, r := Stutter(rs, m, k - 1), rs[k - 1];
      TokensSnoc(rate, before, r);
      TokensOfRepeat(rate, before + [r], r.at, m - 1);
    }
  }

  lemma {:induction false} MeasuresOfPrefix(rs: seq<Reading>, r: Reading, j: nat)
    requires j < |rs|
    ensures LifeForward(rs + [r], 0, j) == LifeForward(rs, 0, j) && Expiries(rs + [r], 0, j) == Expiries(rs, 0, j)
  {
    if j == 0 {
    } else {
      MeasuresOfPrefix(rs, r, j - 1);
    }
  }

  /** The forward movement and the number of expiries over a whole sequence. */
  function Movement(rs: seq<Reading>): real { if rs == [] then 0.0 else LifeForward(rs, 0, |rs| - 1) }

  function Losses(rs: seq<Reading>): nat { if rs == [] then 0 else Expiries(rs, 0, |rs| - 1) }

  lemma {:induction false} MeasuresOfRepeat(rs: seq<Reading>, m: nat)
    requires rs != []
    ensures var us := rs + Repeat(Last(rs).at, m);
      Last(us).at == Last(rs).at && Movement(us) == Movement(rs) && Losses(us) == Losses(rs)
  {
    var at := Last(rs).at;
    if m == 0 {
      assert rs + Repeat(at, 0) == rs;
    } else {
      MeasuresOfRepeat(rs, m - 1);
      var us := rs + Repeat(at, m - 1);
      assert rs + Repeat(at, m) == us + [Reading(at, false)];
      MeasuresOfPrefix(us, Reading(at, false), |us| - 1);
    }
  }

  lemma {:induction false} MeasuresOfStutter(rs: seq<Reading>, m: nat, k: nat)
    requires m > 0 && 0 < k <= |rs|
    ensures var us := Stutter(rs, m, k);
      && us != [] && Last(us).at == rs[k - 1].at
      && Movement(us) == LifeForward(rs, 0, k - 1) && Losses(us) == Expiries(rs, 0, k - 1)
  {
    var before, r := Stutter(rs, m, k - 1), rs[k - 1];
    var first := before + [r];
    MeasuresOfRepeat(first, m - 1);
    if k == 1 {
    } else {
      MeasuresOfStutter(rs, m, k - 1);
      MeasuresOfPrefix(before, r, |before| - 1);
    }
  }

  /** Whatever the rate and the burst, requests that follow the readings `rs`, each sent any number of
      times, stay within one burst, one more for each expiry, and rate times `span`. */
  ghost predicate QuotaHolds(rs: seq<Reading>, span: real) {
    forall cfg: BucketRate, m: nat | cfg.Enabled() && m > 0 :: QuotaHoldsFor(cfg, rs, m, span)
  }

  ghost predicate QuotaHoldsFor(cfg: BucketRate, rs: seq<Reading>, m: nat, span: real)
    requires m > 0
  {
    Total(cfg.burst, InTokens(cfg.rate, Stutter(rs, m, |rs|))) as real
    <= Bursts(cfg.burst, Losses(rs)) as real + Credit(cfg.rate, span)
  }

  lemma StutterWithinForward(burst: nat, rs: seq<Reading>, m: nat)
    requires m > 0 && rs != []
    ensures Total(burst, Stutter(rs, m, |rs|)) as real <= Bursts(burst, Losses(rs)) as real + Movement(rs)
  {
    var us := Stutter(rs, m, |rs|);
    MeasuresOfStutter(rs, m, |rs|);
    ExpiringSpentIsCovered(burst, us, 0, |us| - 1);
    ExpiringBounded(burst, us, |us|);
  }

  lemma QuotaHoldsWithinForward(cfg: BucketRate, rs: seq<Reading>, m: nat, span: real)
    requires cfg.Enabled() && m > 0 && rs != [] && Movement(rs) <= span
    ensures QuotaHoldsFor(cfg, rs, m, span)
  {
    TokensOfStutter(cfg.rate, rs, m, |rs|);
    StutterWithinForward(cfg.burst, InTokens(cfg.rate, rs), m);
    LifeForwardInTokens(cfg.rate, rs, 0, |rs| - 1);
    RiseInTokens(cfg.rate, Movement(rs), span);
  }

  lemma {:induction false} LargestJump(rs: seq<Reading>, k: nat) returns (burst: nat)
    requires k <= |rs|
    ensures burst > 0 && SmallJumps(burst, rs[..k])
  {
    if k == 0 {
      burst := 1;
    } else {
      var b := LargestJump(rs, k - 1);
      var jump := if k >= 2 then Rise(rs[k - 2].at, rs[k - 1].at) else 0.0;
      burst := b + jump.Floor + 2;
      forall i | 0 <= i && i + 1 < k ensures Rise(rs[..k][i].at, rs[..k][i + 1].at) + 1.0 <= burst as real {
        if i + 1 < k - 1 {
          assert Rise(rs[..k - 1][i].at, rs[..k - 1][i + 1].at) + 1.0 <= b as real;
        }
      }
    }
  }

  lemma FastEnough(excess: real, n: nat) returns (rate: real)
    requires excess > 0.0
    ensures rate > 0.0 && Credit(rate, excess) == (n + 1) as real
  {
    rate := (n + 1) as real / excess;
  }

  lemma QuotaFailsBeyondForward(rs: seq<Reading>, span: real) returns (cfg: BucketRate, m: nat)
    requires rs != [] && Movement(rs) > span
    ensures cfg.Enabled() && m > 0 && !QuotaHoldsFor(cfg, rs, m, span)
  {
    var excess := Movement(rs) - span;
    var rate := FastEnough(excess, Losses(rs));
    var us := InTokens(rate, rs);
    var burst := LargestJump(us, |us|);
    assert us[..|us|] == us;
    cfg, m := BucketRate(rate, burst), burst;
    StutterSpendsEverything(burst, us, |rs|);
    TokensOfStutter(rate, rs, m, |rs|);
    LifeForwardInTokens(rate, rs, 0, |rs| - 1);
    Distribute(rate, span, excess);
  }

  /** The price of skew, for any order of clock readings and any expiries of the hash: the quota with
      allowance `span` holds for every rate, burst and number of repetitions if and only if `span`
      covers the forward movement of the clock within the lives. When clocks never go back and the
      hash lives on, that is the time between the first and the last request; when they do go back,
      it is more, and the quota proper fails. */
  lemma QuotaHoldsIffSpanCoversForward(rs: seq<Reading>, span: real)
    requires rs != []
    ensures QuotaHolds(rs, span) <==> Movement(rs) <= span
  {
    if Movement(rs) <= span {
      forall cfg: BucketRate, m: nat | cfg.Enabled() && m > 0 ensures QuotaHoldsFor(cfg, rs, m, span) {
        QuotaHoldsWithinForward(cfg, rs, m, span);
      }
    } else {
      var cfg, m := QuotaFailsBeyondForward(rs, span);
    }
  }

  /** Two replicas one second apart that alternate: four readings within one second, but the clock
      moves forward by two. */
  lemma AlternatingReplicasExceedQuota()
    ensures var rs := [Reading(0.0, false), Reading(1.0, false), Reading(0.0, false), Reading(1.0, false)];
      !QuotaHolds(rs, 1.0)
  {
    var rs := [Reading(0.0, false), Reading(1.0, false), Reading(0.0, false), Reading(1.0, false)];
    assert LifeForward(rs, 0, 1) == 1.0 && LifeForward(rs, 0, 2) == 1.0 && LifeForward(rs, 0, 3) == 2.0;
    QuotaHoldsIffSpanCoversForward(rs, 1.0);
  }
}
