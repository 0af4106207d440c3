/** The health-aware pool: the status map over all backends, and picking among those not evicted.
    The inner pool's current backends and the probe results are arguments: what the inner pool
    lists and what the network answers is arbitrary. */
module HealthPool {
  import opened Wrappers
  import opened Health
  import RoundRobin

  type Statuses = map<string, Status>

  function Feed(cfg: Thresholds, m: Statuses, addr: string, e: Event): Statuses {
    m[addr := Step(cfg, if addr in m then m[addr] else FRESH, e)]
  }

  /** Apply the probe results of one round in order. */
  function FeedAll(cfg: Thresholds, m: Statuses, results: seq<(string, bool)>): Statuses {
    if results == [] then m
    else
      var (addr, ok) := results[|results| - 1];
      Feed(cfg, FeedAll(cfg, m, results[..|results| - 1]), addr, Probe(ok))
  }

  function Retained(m: Statuses, backends: seq<string>): Statuses {
    map addr | addr in m && addr in backends :: m[addr]
  }

  /** One probe round: forget backends that are no longer listed, then apply the results. */
  function AfterRound(cfg: Thresholds, m: Statuses, backends: seq<string>, results: seq<(string, bool)>): Statuses {
    if backends == [] then map[] else FeedAll(cfg, Retained(m, backends), results)
  }

  /** A handler reports an error: known backends get a hint, unknown ones are ignored. */
  function AfterHint(cfg: Thresholds, m: Statuses, addr: string): Statuses {
    if addr in m then Feed(cfg, m, addr, Hint) else m
  }

  predicate Out(m: Statuses, addr: string) { addr in m && m[addr].state.Unhealthy? }

  /** The listed backends that are not evicted, in order. */
  function Admitted(m: Statuses, inner: seq<string>): (out: seq<string>)
    ensures forall addr :: addr in out <==> addr in inner && !Out(m, addr)
  {
    if inner == [] then []
    else
      var rest := Admitted(m, inner[..|inner| - 1]);
      if Out(m, inner[|inner| - 1]) then rest else rest + [inner[|inner| - 1]]
  }

  class HealthAwarePool {
    const cfg: Thresholds
    var statuses: Statuses
    var cursor: nat

    ghost predicate Valid()
      reads this
    {
      cursor < RoundRobin.WRAP
    }

    constructor (cfg: Thresholds)
      ensures Valid() && this.cfg == cfg && statuses == map[] && cursor == 0
    {
      this.cfg := cfg;
      statuses := map[];
      cursor := 0;
    }

    /** The apply part of a probe round. */
    method ProbeAll(backends: seq<string>, results: seq<(string, bool)>)
      modifies this`statuses
      ensures statuses == AfterRound(cfg, old(statuses), backends, results)
    {
      if backends == [] {
        statuses := map[];
        return;
      }
      statuses := map addr | addr in statuses && addr in backends :: statuses[addr];
      ghost var start := statuses;
      for i := 0 to |results|
        invariant statuses == FeedAll(cfg, start, results[..i])
      {
        var (addr, ok) := results[i];
        var entry := if addr in statuses then statuses[addr] else FRESH;
        var status := ApplyProbe(entry, ok);
        statuses := statuses[addr := status];
        assert results[..i + 1][..i] == results[..i];
      }
      assert results[..|results|] == results;
    }

    method ApplyProbe(entry: Status, ok: bool) returns (status: Status)
      ensures status == Step(cfg, entry, Probe(ok))
    {
      var state, streak := entry.state, entry.streak;
      match (state, ok) {
        case (Healthy, true) => streak := 0;
        case (Healthy, false) =>
          streak := SaturatingIncrement(streak);
          if streak >= cfg.unhealthy { state, streak := Unhealthy, 0; }
        case (Unhealthy, true) =>
          streak := SaturatingIncrement(streak);
          if streak >= cfg.healthy { state, streak := Healthy, 0; }
        case (Unhealthy, false) => streak := 0;
      }
      status := Status(state, streak);
    }

    method MarkUnhealthy(addr: string)
      modifies this`statuses
      ensures statuses == AfterHint(cfg, old(statuses), addr)
    {
      if addr in statuses {
        var status := statuses[addr];
        if status.state == Healthy {
          statuses := statuses[addr := status.(streak := SaturatingIncrement(status.streak))];
        } else {
          assert statuses == statuses[addr := status];
        }
      }
    }

    method HealthySnapshot(inner: seq<string>) returns (out: seq<string>)
      ensures out == Admitted(statuses, inner)
    {
      out := [];
      for i := 0 to |inner|
        invariant out == Admitted(statuses, inner[..i])
      {
        assert inner[..i + 1][..i] == inner[..i];
        if !(inner[i] in statuses && statuses[inner[i]].state == Unhealthy) {
          out := out + [inner[i]];
        }
      }
      assert inner[..|inner|] == inner;
    }

    /** Round-robin over the admitted backends; nothing exactly when there is none. An unsuccessful
        pick does not move the cursor. */
    method Pick(inner: seq<string>) returns (addr: Option<string>)
      requires Valid()
      modifies this`cursor
      ensures Valid()
      ensures addr.None? <==> Admitted(statuses, inner) == []
      ensures addr.None? ==> cursor == old(cursor)
      ensures addr.Some? ==>
        var healthy := Admitted(statuses, inner);
        && healthy != [] && cursor == (old(cursor) + 1) % RoundRobin.WRAP
        && addr.value == healthy[RoundRobin.Position(old(cursor), 0, |healthy|)]
    {
      var healthy := HealthySnapshot(inner);
      if healthy == [] { return None; }
      var idx := cursor;
      RoundRobin.PositionNow(idx, |healthy|);
      cursor := (cursor + 1) % RoundRobin.WRAP;
      return Some(healthy[idx % |healthy|]);
    }
  }

  // ---- The map over a whole life of the pool --------------------------------

  datatype PoolEvent =
    | Round(backends: seq<string>, results: seq<(string, bool)>)
    | Report(addr: string)

  function After(cfg: Thresholds, m: Statuses, e: PoolEvent): Statuses {
    match e
    case Round(backends, results) => AfterRound(cfg, m, backends, results)
    case Report(addr) => AfterHint(cfg, m, addr)
  }

  /** The status map after a life `es` of the pool. */
  function Life(cfg: Thresholds, es: seq<PoolEvent>): Statuses {
    if es == [] then map[] else After(cfg, Life(cfg, es[..|es| - 1]), es[|es| - 1])
  }

  /** A past followed by the results for the backend within a round; the first creates the entry. */
  function Extend(past: Option<seq<Event>>, results: seq<(string, bool)>, addr: string): Option<seq<Event>> {
    if results == [] then past
    else
      var before := Extend(past, results[..|results| - 1], addr);
      var (a, ok) := results[|results| - 1];
      if a == addr then Some((if before.Some? then before.value else []) + [Probe(ok)]) else before
  }

  /** What a backend has been through since its entry was created, if it has an entry: a round
      that does not list the backend erases its past, and reports about unknown backends are lost. */
  function Past(es: seq<PoolEvent>, addr: string): Option<seq<Event>> {
    if es == [] then None
    else
      var before := Past(es[..|es| - 1], addr);
      match es[|es| - 1]
      case Round(backends, results) =>
        if backends == [] then None else Extend(if addr in backends then before else None, results, addr)
      case Report(a) =>
        if a == addr && before.Some? then Some(before.value + [Hint]) else before
  }

  function StatusOf(cfg: Thresholds, past: Option<seq<Event>>): Option<Status> {
    if past.None? then None else Some(Replay(cfg, past.value))
  }

  lemma ReplaySnoc(cfg: Thresholds, h: seq<Event>, e: Event)
    ensures Replay(cfg, h + [e]) == Step(cfg, Replay(cfg, h), e)
  {
    assert (h + [e])[..|h + [e]| - 1] == h;
  }

  lemma {:induction false} ResultsExtendPast(cfg: Thresholds, m: Statuses, results: seq<(string, bool)>,
      addr: string, past: Option<seq<Event>>)
    requires Find(m, addr) == StatusOf(cfg, past)
    ensures Find(FeedAll(cfg, m, results), addr) == StatusOf(cfg, Extend(past, results, addr))
  {
    if results == [] {
    } else {
      var rest := results[..|results| - 1];
      ResultsExtendPast(cfg, m, rest, addr, past);
      var before := Extend(past, rest, addr);
      ReplaySnoc(cfg, if before.Some? then before.value else [], Probe(results[|results| - 1].1));
    }
  }

  /** Over any life of the pool, a backend has an entry exactly when it has a past, and the entry
      is the replay of that past. */
  lemma {:induction false} EntryEqualsPast(cfg: Thresholds, es: seq<PoolEvent>, addr: string)
    ensures Find(Life(cfg, es), addr) == StatusOf(cfg, Past(es, addr))
  {
    if es == [] {
    } else {
      var before := es[..|es| - 1];
      EntryEqualsPast(cfg, before, addr);
      match es[|es| - 1]
      case Round(backends, results) =>
        if backends != [] {
          var kept := if addr in backends then Past(before, addr) else None;
          ResultsExtendPast(cfg, Retained(Life(cfg, before), backends), results, addr, kept);
        }
      case Report(a) =>
        if a == addr && Past(before, addr).Some? { ReplaySnoc(cfg, Past(before, addr).value, Hint); }
    }
  }

  /** Nothing is offered exactly when every listed backend is evicted. */
  lemma NoneOfferedIffAllEvicted(m: Statuses, inner: seq<string>)
    ensures Admitted(m, inner) == [] <==> forall a <- inner :: Out(m, a)
  {
    var healthy := Admitted(m, inner);
    if healthy != [] { assert healthy[0] in healthy; }
    if healthy == [] { assert forall a :: a !in healthy; }
  }

  /** Where in the list the backends of the snapshot stand. */
  function Positions(m: Statuses, inner: seq<string>): (at: seq<nat>)
    ensures forall k | 0 <= k < |at| :: at[k] < |inner|
  {
    if inner == [] then []
    else
      var before := Positions(m, inner[..|inner| - 1]);
      if Out(m, inner[|inner| - 1]) then before else before + [|inner| - 1]
  }

  predicate Increasing(at: seq<nat>) { forall j, k | 0 <= j < k < |at| :: at[j] < at[k] }

  lemma {:induction false} PositionsIncrease(m: Statuses, inner: seq<string>)
    ensures Increasing(Positions(m, inner))
  {
    if inner == [] {
    } else {
      PositionsIncrease(m, inner[..|inner| - 1]);
    }
  }

  lemma {:induction false} PositionsAreThoseInService(m: Statuses, inner: seq<string>, i: nat)
    requires i < |inner|
    ensures i in Positions(m, inner) <==> !Out(m, inner[i])
  {
    var n := |inner| - 1;
    if i == n {
      assert forall k <- Positions(m, inner[..n]) :: k < n;
    } else {
      PositionsAreThoseInService(m, inner[..n], i);
    }
  }

  lemma {:induction false} SnapshotAtPositions(m: Statuses, inner: seq<string>)
    ensures |Positions(m, inner)| == |Admitted(m, inner)|
    ensures forall k | 0 <= k < |Positions(m, inner)| :: inner[Positions(m, inner)[k]] == Admitted(m, inner)[k]
  {
    if inner == [] {
    } else {
      var rest := inner[..|inner| - 1];
      SnapshotAtPositions(m, rest);
      assert forall i | 0 <= i < |rest| :: rest[i] == inner[i];
    }
  }

  /** The snapshot is the listed backends that are not evicted, in their order: its places correspond, in
      strictly increasing order, to exactly the list positions of backends that are not out. */
  lemma SnapshotIsSubsequence(m: Statuses, inner: seq<string>) returns (at: seq<nat>)
    ensures |at| == |Admitted(m, inner)|
    ensures forall k | 0 <= k < |at| :: at[k] < |inner| && inner[at[k]] == Admitted(m, inner)[k]
    ensures Increasing(at)
    ensures forall i: nat | i < |inner| :: i in at <==> !Out(m, inner[i])
  {
    at := Positions(m, inner);
    PositionsIncrease(m, inner);
    SnapshotAtPositions(m, inner);
    forall i: nat | i < |inner| ensures i in at <==> !Out(m, inner[i]) { PositionsAreThoseInService(m, inner, i); }
  }

  /** How many listed backends are not out. */
  function InService(m: Statuses, inner: seq<string>): nat {
    if inner == [] then 0
    else InService(m, inner[..|inner| - 1]) + if Out(m, inner[|inner| - 1]) then 0 else 1
  }

  lemma {:induction false} SnapshotLength(m: Statuses, inner: seq<string>)
    ensures |Admitted(m, inner)| == InService(m, inner)
  {
    if inner == [] {
    } else {
      SnapshotLength(m, inner[..|inner| - 1]);
    }
  }

  lemma SnapshotDistinct(m: Statuses, inner: seq<string>)
    requires RoundRobin.Distinct(inner)
    ensures RoundRobin.Distinct(Admitted(m, inner))
  {
    var at := SnapshotIsSubsequence(m, inner);
    var out := Admitted(m, inner);
    forall j, k | 0 <= j < k < |out| ensures out[j] != out[k] {
      assert at[j] < at[k] && inner[at[j]] == out[j] && inner[at[k]] == out[k];
    }
  }

  /** Each listed backend that is not out gets floor(m/h) or ceil(m/h) of `m` picks, where h of them are
      in service, and no other backend gets any. */
  ghost predicate EvenlyServed(m: Statuses, inner: seq<string>, picks: seq<string>)
    requires InService(m, inner) > 0
  {
    var h := InService(m, inner);
    forall addr ::
      if addr in inner && !Out(m, addr)
      then |picks| / h <= RoundRobin.Occurrences(picks, addr) <= (|picks| + h - 1) / h
      else RoundRobin.Occurrences(picks, addr) == 0
  }

  lemma {:induction false} NoOccurrences(backends: seq<string>, c: nat, m: nat, addr: string)
    requires backends != [] && addr !in backends
    ensures RoundRobin.Occurrences(RoundRobin.Picks(backends, c, m), addr) == 0
  {
    if m == 0 {
    } else {
      NoOccurrences(backends, c, m - 1, addr);
      var before := RoundRobin.Picks(backends, c, m - 1);
      var last := backends[RoundRobin.Position(c, m - 1, |backends|)];
      assert (before + [last])[..|before + [last]| - 1] == before;
    }
  }

  lemma FairPicksServeEvenly(m: Statuses, inner: seq<string>, c: nat, n: nat)
    requires RoundRobin.Distinct(inner) && Admitted(m, inner) != []
    ensures InService(m, inner) > 0
    ensures RoundRobin.Fair(c, n, InService(m, inner)) ==>
      EvenlyServed(m, inner, RoundRobin.Picks(Admitted(m, inner), c, n))
  {
    var healthy := Admitted(m, inner);
    SnapshotLength(m, inner);
    SnapshotDistinct(m, inner);
    RoundRobin.FairPicksAreEven(healthy, c, n);
    forall addr | !(addr in inner && !Out(m, addr))
      ensures RoundRobin.Occurrences(RoundRobin.Picks(healthy, c, n), addr) == 0
    {
      NoOccurrences(healthy, c, n, addr);
    }
  }

  /** Any `n` picks in a row while the list and the statuses stay as they are: none answers if every
      backend is out; otherwise all do, and as long as the cursor does not wrap, or the number in service
      divides 2^64, they serve the backends in service evenly and no other. */
  method PickRepeatedly(pool: HealthAwarePool, inner: seq<string>, n: nat) returns (picks: seq<string>)
    requires pool.Valid()
    modifies pool`cursor
    ensures pool.Valid() && (InService(pool.statuses, inner) == 0 <==> forall a <- inner :: Out(pool.statuses, a))
    ensures var h := InService(pool.statuses, inner);
      if h == 0 then picks == [] && pool.cursor == old(pool.cursor)
      else
        && |picks| == n && pool.cursor == (old(pool.cursor) + n) % RoundRobin.WRAP
        && (RoundRobin.Distinct(inner) && (old(pool.cursor) + n <= RoundRobin.WRAP || RoundRobin.WRAP % h == 0) ==>
            EvenlyServed(pool.statuses, inner, picks))
  {
    picks := [];
    ghost var c, m := pool.cursor, pool.statuses;
    ghost var healthy := Admitted(m, inner);
    SnapshotLength(m, inner);
    NoneOfferedIffAllEvicted(m, inner);
    for k := 0 to n
      invariant pool.Valid() && pool.statuses == m
      invariant if healthy == [] then picks == [] && pool.cursor == c
                else
                  && pool.cursor == (c + k) % RoundRobin.WRAP && |picks| == k
                  && picks == RoundRobin.Picks(healthy, c, k)
    {
      if healthy != [] { RoundRobin.CursorAfterPicks(c, k, |healthy|); }
      var addr := pool.Pick(inner);
      if addr.Some? { picks := picks + [addr.value]; }
    }
    if healthy != [] && RoundRobin.Distinct(inner) {
      FairPicksServeEvenly(m, inner, c, n);
      if c + n <= RoundRobin.WRAP { RoundRobin.FairUntilWrap(c, n, |healthy|); }
      if RoundRobin.WRAP % |healthy| == 0 { RoundRobin.FairWhenLengthDivides(c, n, |healthy|); }
    }
  }

  /** Whatever the life of the pool, the backends offered for picking are exactly the listed ones
      whose past does not leave them evicted. */
  lemma OfferedEqualsHistory(cfg: Thresholds, es: seq<PoolEvent>, inner: seq<string>, addr: string)
    ensures addr in Admitted(Life(cfg, es), inner)
       <==> addr in inner && (Past(es, addr).Some? ==> !Evicted(cfg, Past(es, addr).value))
  {
    EntryEqualsPast(cfg, es, addr);
    if Past(es, addr).Some? { StateEqualsHistory(cfg, Past(es, addr).value); }
  }

  /** A round in which the backend is listed and probed. */
  function RoundOf(addr: string, ok: bool): PoolEvent { Round([addr], [(addr, ok)]) }

  function Reports(addr: string, n: nat): (es: seq<PoolEvent>)
    ensures |es| == n
  {
    if n == 0 then [] else Reports(addr, n - 1) + [Report(addr)]
  }

  /** The backend is probed well, reported `n` times, and then fails one probe. */
  function ReportedLife(addr: string, n: nat): seq<PoolEvent> {
    ([RoundOf(addr, true)] + Reports(addr, n)) + [RoundOf(addr, false)]
  }

  lemma RoundExtendsPast(es: seq<PoolEvent>, addr: string, ok: bool)
    ensures var before := Past(es, addr);
      Past(es + [RoundOf(addr, ok)], addr) == Some((if before.Some? then before.value else []) + [Probe(ok)])
  {
    var us, results, before := es + [RoundOf(addr, ok)], [(addr, ok)], Past(es, addr);
    assert us[..|us| - 1] == es && us[|us| - 1] == Round([addr], results);
    assert results[..|results| - 1] == [] && Extend(before, [], addr) == before;
    assert Extend(before, results, addr) == Some((if before.Some? then before.value else []) + [Probe(ok)]);
  }

  lemma ReportExtendsPast(es: seq<PoolEvent>, addr: string)
    requires Past(es, addr).Some?
    ensures Past(es + [Report(addr)], addr) == Some(Past(es, addr).value + [Hint])
  {
    assert (es + [Report(addr)])[..|es + [Report(addr)]| - 1] == es;
  }

  lemma {:induction false} ReportsExtendPast(es: seq<PoolEvent>, addr: string, n: nat)
    requires Past(es, addr).Some?
    ensures Past(es + Reports(addr, n), addr) == Some(Past(es, addr).value + Hints(n))
  {
    var h := Past(es, addr).value;
    if n == 0 {
      assert es + Reports(addr, 0) == es && h + Hints(0) == h;
    } else {
      ReportsExtendPast(es, addr, n - 1);
      assert es + Reports(addr, n) == (es + Reports(addr, n - 1)) + [Report(addr)];
      ReportExtendsPast(es + Reports(addr, n - 1), addr);
      assert h + Hints(n) == (h + Hints(n - 1)) + [Hint];
    }
  }

  /** One failed probe evicts a backend that was reported `n` times since its last success if and only
      if the reports and the failure together reach the quota. */
  lemma ReportsCountTowardsEviction(cfg: Thresholds, addr: string, n: nat)
    ensures Out(Life(cfg, ReportedLife(addr, n)), addr) <==> n + 1 >= cfg.unhealthy
  {
    var first := [RoundOf(addr, true)];
    var reported := first + Reports(addr, n);
    assert [] + [RoundOf(addr, true)] == first;
    RoundExtendsPast([], addr, true);
    assert Past(first, addr) == Some([Probe(true)]) by { assert [] + [Probe(true)] == [Probe(true)]; }
    ReportsExtendPast(first, addr, n);
    RoundExtendsPast(reported, addr, false);
    EntryEqualsPast(cfg, ReportedLife(addr, n), addr);
    var h := [Probe(true)] + Hints(n);
    assert Past(reported, addr) == Some(h);
    assert [Probe(true)][..0] == [];
    HintsPrime(cfg, [Probe(true)], n);
    TransitionsEqualHistory(cfg, h, Probe(false));
  }
}
