/** Active health checking: what the two words kept per backend (a state and a streak) mean in
    terms of the probes and hints the backend has received. */
module Health {
  import opened Arithmetic

  const MAX_U32: nat := 0xFFFF_FFFF

  type U32 = n: nat | n <= MAX_U32

  datatype HealthState = Healthy | Unhealthy

  datatype Status = Status(state: HealthState, streak: U32)

  const FRESH := Status(Healthy, 0)

  datatype Thresholds = Thresholds(unhealthy: U32, healthy: U32) {
    /** A threshold of zero acts like one: the streak is incremented before it is compared. */
    function Evict(): U32 { if unhealthy == 0 then 1 else unhealthy }

    function Readmit(): U32 { if healthy == 0 then 1 else healthy }
  }

  /** What happens to one backend: a probe result, or a forwarding error reported by a handler. */
  datatype Event = Probe(ok: bool) | Hint

  function SaturatingIncrement(n: U32): U32 { if n == MAX_U32 then n else n + 1 }

  function Min(a: nat, b: nat): nat { if a < b then a else b }

  // ---- One backend --------------------------------------------------------

  /** The status after one event. */
  function Step(cfg: Thresholds, s: Status, e: Event): Status {
    match (s.state, e)
    case (Healthy, Probe(true)) => s.(streak := 0)
    case (Healthy, Probe(false)) =>
      var n := SaturatingIncrement(s.streak);
      if n >= cfg.unhealthy then Status(Unhealthy, 0) else s.(streak := n)
    case (Unhealthy, Probe(true)) =>
      var n := SaturatingIncrement(s.streak);
      if n >= cfg.healthy then Status(Healthy, 0) else s.(streak := n)
    case (Unhealthy, Probe(false)) => s.(streak := 0)
    case (Healthy, Hint) => s.(streak := SaturatingIncrement(s.streak))
    case (Unhealthy, Hint) => s
  }

  /** The status of an entry that has seen the events `h` since it was created. */
  function Replay(cfg: Thresholds, h: seq<Event>): Status {
    if h == [] then FRESH else Step(cfg, Replay(cfg, h[..|h| - 1]), h[|h| - 1])
  }

  // ---- What a history means, without states and streaks --------------------

  /** Failed probes and hints since the last successful probe. */
  function Complaints(h: seq<Event>): nat {
    if h == [] || h[|h| - 1] == Probe(true) then 0 else Complaints(h[..|h| - 1]) + 1
  }

  /** Successful probes since the last failed one, counting only events from index `j` on. */
  function Recoveries(h: seq<Event>, j: nat): nat {
    if |h| <= j || h[|h| - 1] == Probe(false) then 0
    else Recoveries(h[..|h| - 1], j) + if h[|h| - 1].Probe? then 1 else 0
  }

  /** The history ends in a failed probe that completes the quota of complaints. */
  predicate Trouble(cfg: Thresholds, h: seq<Event>) {
    h != [] && h[|h| - 1] == Probe(false) && Complaints(h) >= cfg.unhealthy
  }

  /** So many successes in a row re-admit a backend; it takes at least one. */
  predicate Enough(cfg: Thresholds, successes: nat) { successes >= 1 && successes >= cfg.healthy }

  /** At some point after the first `j` events, enough probes in a row had succeeded. */
  ghost predicate RecoveredAfter(cfg: Thresholds, h: seq<Event>, j: nat) {
    exists m | j <= m <= |h| :: Enough(cfg, Recoveries(h[..m], j))
  }

  /** The backend was in trouble after the first `j` events, and has not recovered since. */
  ghost predicate EvictedAt(cfg: Thresholds, h: seq<Event>, j: nat) {
    j <= |h| && Trouble(cfg, h[..j]) && !RecoveredAfter(cfg, h, j)
  }

  /** The backend has been in trouble and has not recovered since. */
  ghost predicate Evicted(cfg: Thresholds, h: seq<Event>) {
    exists j :: EvictedAt(cfg, h, j)
  }

  // ---- The status is the meaning of the history -----------------------------

  lemma {:induction false} RecoveriesMonotone(h: seq<Event>, i: nat, j: nat)
    requires i <= j
    ensures Recoveries(h, i) >= Recoveries(h, j)
  {
    if |h| <= j {
    } else {
      RecoveriesMonotone(h[..|h| - 1], i, j);
    }
  }

  /** A failed probe erases what came before it. */
  lemma {:induction false} RecoveriesRestart(h: seq<Event>, i: nat, j: nat)
    requires i <= j <= |h| && j > 0 && h[j - 1] == Probe(false)
    ensures Recoveries(h, i) == Recoveries(h, j)
  {
    if |h| == j {
    } else {
      RecoveriesRestart(h[..|h| - 1], i, j);
    }
  }

  lemma Prefixes(h: seq<Event>, m: nat)
    requires h != [] && m < |h|
    ensures h[..|h| - 1][..m] == h[..m]
  {
  }

  lemma RecoveredStaysRecovered(cfg: Thresholds, h: seq<Event>, j: nat)
    requires h != [] && RecoveredAfter(cfg, h[..|h| - 1], j)
    ensures RecoveredAfter(cfg, h, j)
  {
    var g := h[..|h| - 1];
    var m :| j <= m <= |g| && Recoveries(g[..m], j) >= cfg.Readmit();
    Prefixes(h, m);
    assert Recoveries(h[..m], j) >= cfg.Readmit();
  }

  lemma NotRecoveredYet(cfg: Thresholds, h: seq<Event>, j: nat)
    requires h != [] && j < |h|
    requires !RecoveredAfter(cfg, h[..|h| - 1], j) && Recoveries(h, j) < cfg.Readmit()
    ensures !RecoveredAfter(cfg, h, j)
  {
    forall m | j <= m <= |h| ensures Recoveries(h[..m], j) < cfg.Readmit() {
      if m == |h| { assert h[..m] == h; }
      else { Prefixes(h, m); assert Recoveries(h[..|h| - 1][..m], j) < cfg.Readmit(); }
    }
  }

  /** All such instants count the same successes. */
  lemma RecoveriesAgree(cfg: Thresholds, h: seq<Event>, i: nat, j: nat)
    requires EvictedAt(cfg, h, i) && EvictedAt(cfg, h, j)
    ensures Recoveries(h, i) == Recoveries(h, j)
  {
    if i <= j { RecoveriesRestart(h, i, j); } else { RecoveriesRestart(h, j, i); }
  }

  /** The meaning of the streak, and of each of the two states. */
  ghost predicate Means(cfg: Thresholds, h: seq<Event>) {
    match Replay(cfg, h).state
    case Healthy =>
      && Replay(cfg, h).streak == Min(Complaints(h), MAX_U32)
      && (forall j | 0 <= j <= |h| && Trouble(cfg, h[..j]) :: RecoveredAfter(cfg, h, j))
    case Unhealthy =>
      exists j :: EvictedAt(cfg, h, j) && Replay(cfg, h).streak == Recoveries(h, j)
  }

  lemma HealthyStep(cfg: Thresholds, h: seq<Event>)
    requires h != [] && Means(cfg, h[..|h| - 1]) && Replay(cfg, h[..|h| - 1]).state.Healthy?
    ensures Means(cfg, h)
  {
    var g := h[..|h| - 1];
    assert h[..|h|] == h;
    if Replay(cfg, h).state.Unhealthy? {
      assert Trouble(cfg, h);
      forall m | |h| <= m <= |h| ensures Recoveries(h[..m], |h|) == 0 { }
      assert EvictedAt(cfg, h, |h|);
    } else {
      forall j | 0 <= j <= |h| && Trouble(cfg, h[..j]) ensures RecoveredAfter(cfg, h, j) {
        if j < |h| {
          Prefixes(h, j);
          RecoveredStaysRecovered(cfg, h, j);
        }
      }
    }
  }

  lemma UnhealthyStep(cfg: Thresholds, h: seq<Event>, i: nat)
    requires h != [] && EvictedAt(cfg, h[..|h| - 1], i) && Replay(cfg, h[..|h| - 1]).state.Unhealthy?
    requires Replay(cfg, h[..|h| - 1]).streak == Recoveries(h[..|h| - 1], i)
    ensures Means(cfg, h)
  {
    var g := h[..|h| - 1];
    Prefixes(h, i);
    assert g[..|g|] == g && h[..|h|] == h;
    assert Recoveries(g, i) < cfg.Readmit() by { assert Recoveries(g[..|g|], i) < cfg.Readmit(); }
    if Replay(cfg, h).state.Unhealthy? {
      NotRecoveredYet(cfg, h, i);
      assert EvictedAt(cfg, h, i);
    } else {
      assert Recoveries(h, i) >= cfg.Readmit();
      forall j | 0 <= j <= |h| && Trouble(cfg, h[..j]) ensures RecoveredAfter(cfg, h, j) {
        if j <= i { RecoveriesMonotone(h, j, i); } else { RecoveriesRestart(h, i, j); }
        assert Recoveries(h[..|h|], j) >= cfg.Readmit();
      }
    }
  }

  lemma {:induction false} StatusMeaning(cfg: Thresholds, h: seq<Event>)
    ensures Means(cfg, h)
  {
    if h == [] {
      assert forall j | 0 <= j <= |h| :: h[..j] == [];
    } else {
      var g := h[..|h| - 1];
      StatusMeaning(cfg, g);
      if Replay(cfg, g).state.Healthy? {
        HealthyStep(cfg, h);
      } else {
        var i :| EvictedAt(cfg, g, i) && Replay(cfg, g).streak == Recoveries(g, i);
        UnhealthyStep(cfg, h, i);
      }
    }
  }

  /** The stored state says exactly what the history says: unhealthy if and only if some failed
      probe completed the quota of complaints and no run of successes has made up for it since. */
  lemma StateEqualsHistory(cfg: Thresholds, h: seq<Event>)
    ensures Replay(cfg, h).state.Unhealthy? <==> Evicted(cfg, h)
  {
    StatusMeaning(cfg, h);
  }

  /** When the next event changes the state: an eviction needs a failed probe that completes the
      quota (hints alone never evict), a re-admission needs a successful probe that completes the
      run of successes since the eviction. Saturation of the 32-bit streak never matters. */
  lemma TransitionsEqualHistory(cfg: Thresholds, h: seq<Event>, e: Event)
    ensures var s, s' := Replay(cfg, h), Replay(cfg, h + [e]);
      && (s.state.Healthy? ==>
           (s'.state.Unhealthy? <==> e == Probe(false) && Complaints(h) + 1 >= cfg.unhealthy))
      && (forall j | EvictedAt(cfg, h, j) ::
           s.state.Unhealthy? && (s'.state.Healthy? <==> e == Probe(true) && Recoveries(h, j) + 1 >= cfg.healthy))
  {
    StatusMeaning(cfg, h);
    StateEqualsHistory(cfg, h);
    assert (h + [e])[..|h + [e]| - 1] == h;
    if Replay(cfg, h).state.Unhealthy? {
      var i :| EvictedAt(cfg, h, i) && Replay(cfg, h).streak == Recoveries(h, i);
      UnhealthyStreak(cfg, h);
      forall j | EvictedAt(cfg, h, j) ensures Recoveries(h, j) == Replay(cfg, h).streak {
        RecoveriesAgree(cfg, h, i, j);
      }
    }
  }

  // ---- When hints matter --------------------------------------------------------

  /** The history without its hints. */
  function NoHints(h: seq<Event>): seq<Event> {
    if h == [] then []
    else if h[|h| - 1].Hint? then NoHints(h[..|h| - 1])
    else NoHints(h[..|h| - 1]) + [h[|h| - 1]]
  }

  /** With an eviction quota of one, hints change neither the state nor the way back. */
  lemma {:induction false} HintsAreIdle(cfg: Thresholds, h: seq<Event>)
    requires cfg.Evict() == 1
    ensures var s, t := Replay(cfg, h), Replay(cfg, NoHints(h));
      s.state == t.state && (s.state.Unhealthy? ==> s.streak == t.streak)
  {
    if h == [] {
    } else {
      var g, e := h[..|h| - 1], h[|h| - 1];
      HintsAreIdle(cfg, g);
      if e.Probe? {
        var us := NoHints(g) + [e];
        assert us[..|us| - 1] == NoHints(g);
      }
    }
  }

  function Hints(n: nat): (h: seq<Event>)
    ensures |h| == n
  {
    if n == 0 then [] else Hints(n - 1) + [Hint]
  }

  /** A healthy backend that receives `n` hints stays healthy, and owes `n` more complaints. */
  lemma {:induction false} HintsPrime(cfg: Thresholds, h: seq<Event>, n: nat)
    requires Replay(cfg, h).state.Healthy? && Complaints(h) == 0
    ensures Replay(cfg, h + Hints(n)).state.Healthy? && Complaints(h + Hints(n)) == n
  {
    if n == 0 {
      assert h + Hints(0) == h;
    } else {
      HintsPrime(cfg, h, n - 1);
      var us := h + Hints(n - 1);
      assert h + Hints(n) == us + [Hint];
      assert (us + [Hint])[..|us + [Hint]| - 1] == us;
    }
  }

  lemma {:induction false} NoHintsInHints(n: nat)
    ensures NoHints(Hints(n)) == []
  {
    if n == 0 {
    } else {
      NoHintsInHints(n - 1);
      var us := Hints(n - 1);
      assert (us + [Hint])[..|us + [Hint]| - 1] == us;
    }
  }

  /** With a larger quota, hints let a single failed probe evict where the probes alone do not. */
  lemma HintsMatter(cfg: Thresholds)
    requires cfg.Evict() > 1
    ensures var h := Hints(cfg.Evict() - 1) + [Probe(false)];
      Replay(cfg, h).state.Unhealthy? && Replay(cfg, NoHints(h)).state.Healthy?
  {
    var us := Hints(cfg.Evict() - 1);
    var h := us + [Probe(false)];
    HintsPrime(cfg, [], cfg.Evict() - 1);
    assert [] + us == us && h[..|h| - 1] == us;
    TransitionsEqualHistory(cfg, us, Probe(false));
    NoHintsInHints(cfg.Evict() - 1);
    assert NoHints(h) == [Probe(false)] && [] + [Probe(false)] == [Probe(false)];
    TransitionsEqualHistory(cfg, [], Probe(false));
  }

  /** "Evicted after that many consecutive failed probes" is what the code does, whatever handlers
      report, if and only if the quota is one (a threshold of zero acts like one). */
  lemma HintsNeverMatterIffQuotaIsOne(cfg: Thresholds)
    ensures (forall h :: Replay(cfg, h).state == Replay(cfg, NoHints(h)).state) <==> cfg.unhealthy <= 1
  {
    if cfg.Evict() == 1 {
      forall h ensures Replay(cfg, h).state == Replay(cfg, NoHints(h)).state { HintsAreIdle(cfg, h); }
    } else {
      HintsMatter(cfg);
    }
  }

  // ---- How often a backend can flap ----------------------------------------

  function Probes(h: seq<Event>): nat {
    if h == [] then 0 else Probes(h[..|h| - 1]) + if h[|h| - 1].Probe? then 1 else 0
  }

  /** Completed evict-and-readmit cycles. */
  function Cycles(cfg: Thresholds, h: seq<Event>): nat {
    if h == [] then 0
    else
      var g := h[..|h| - 1];
      Cycles(cfg, g) + if Replay(cfg, g).state.Unhealthy? && Replay(cfg, h).state.Healthy? then 1 else 0
  }

  /** Each cycle costs one failed probe and `Readmit` successes; without hints it costs `Evict`
      failed probes. */
  function CycleCost(cfg: Thresholds, hinted: bool): nat {
    (if hinted then 1 else cfg.Evict()) + cfg.Readmit()
  }

  /** Probes already spent on the cycle in progress. */
  function Progress(cfg: Thresholds, hinted: bool, s: Status): nat {
    if s.state.Unhealthy? then (if hinted then 1 else cfg.Evict()) + s.streak
    else if hinted then 0 else s.streak
  }

  /** One event never adds more to the bill than to the number of probes. */
  lemma StepPaidFor(cfg: Thresholds, s: Status, e: Event, hinted: bool)
    requires s.state.Unhealthy? ==> s.streak < cfg.Readmit()
    requires !hinted ==> e.Probe?
    ensures var s' := Step(cfg, s, e);
      (if s.state.Unhealthy? && s'.state.Healthy? then CycleCost(cfg, hinted) else 0) + Progress(cfg, hinted, s')
      <= Progress(cfg, hinted, s) + if e.Probe? then 1 else 0
  {
  }

  lemma UnhealthyStreak(cfg: Thresholds, h: seq<Event>)
    ensures Replay(cfg, h).state.Unhealthy? ==> Replay(cfg, h).streak < cfg.Readmit()
  {
    StatusMeaning(cfg, h);
    if Replay(cfg, h).state.Unhealthy? {
      var j :| EvictedAt(cfg, h, j) && Replay(cfg, h).streak == Recoveries(h, j);
      assert h[..|h|] == h;
      assert Recoveries(h[..|h|], j) < cfg.Readmit();
    }
  }

  lemma {:induction false} CyclesPaidFor(cfg: Thresholds, h: seq<Event>, hinted: bool)
    requires !hinted ==> Hint !in h
    ensures Cycles(cfg, h) * CycleCost(cfg, hinted) + Progress(cfg, hinted, Replay(cfg, h)) <= Probes(h)
  {
    if h == [] {
    } else {
      var g, e := h[..|h| - 1], h[|h| - 1];
      CyclesPaidFor(cfg, g, hinted);
      assert e in h;
      UnhealthyStreak(cfg, g);
      StepPaidFor(cfg, Replay(cfg, g), e, hinted);
      MultiplySuccessor(Cycles(cfg, g), CycleCost(cfg, hinted));
    }
  }

  /** A backend that has been probed `n` times has gone through at most `n / (1 + Readmit)` cycles,
      and through at most `n / (Evict + Readmit)` if no handler ever reported it. */
  lemma FlapBound(cfg: Thresholds, h: seq<Event>)
    ensures Cycles(cfg, h) <= Probes(h) / (1 + cfg.Readmit())
    ensures Hint !in h ==> Cycles(cfg, h) <= Probes(h) / (cfg.Evict() + cfg.Readmit())
  {
    CyclesPaidFor(cfg, h, true);
    QuotientBound(Cycles(cfg, h), CycleCost(cfg, true), Probes(h));
    if Hint !in h {
      CyclesPaidFor(cfg, h, false);
      QuotientBound(Cycles(cfg, h), CycleCost(cfg, false), Probes(h));
    }
  }
}
