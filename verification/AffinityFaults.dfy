/** What the affinity protocol guarantees in every run, whatever fails, expires or is forgotten. */
module AffinityFaults {
  import opened Wrappers
  import opened Keys
  import opened Affinity

  /** `m` is an instant of the call: it has begun, and had not yet answered one step earlier. */
  predicate During(ss: seq<State>, m: nat, id: nat)
    requires m < |ss|
  {
    id in ss[m].calls && (m > 0 && id in ss[m - 1].calls ==> !ss[m - 1].calls[id].pc.Done?)
  }

  /** `addr` was stored under `rk` at some instant of the call, up to state `n`. */
  ghost predicate StoredDuring(ss: seq<State>, n: nat, id: nat, rk: string, addr: string)
    requires n < |ss|
  {
    exists m | 0 <= m <= n :: During(ss, m, id) && ss[m].db.Holds(rk, addr)
  }

  /** The pool handed `addr` to the call. */
  ghost predicate PickedDuring(es: seq<Event>, n: nat, id: nat, addr: Option<string>)
    requires n <= |es|
  {
    exists m | 0 <= m < n :: es[m] == PickBackend(id, addr)
  }

  /** The SET NX of the call, or the GET after it, failed. */
  predicate BindFails(cfg: Config, s: State, e: Event, id: nat) {
    && e.RunCommand? && e.id == id && Waiting(cfg, s, id)
    && (s.calls[id].pc.Bind? || s.calls[id].pc.Reread?)
    && Issue(cfg, s, id, e.fault).1.Failed?
  }

  ghost predicate BindFailed(cfg: Config, ss: seq<State>, es: seq<Event>, n: nat, id: nat)
    requires |ss| == |es| + 1 && n < |ss|
  {
    exists m {:trigger es[m]} | 0 <= m < n :: BindFails(cfg, ss[m], es[m], id)
  }

  /** The step after state `m` loses the entry. */
  predicate LosesAt(ss: seq<State>, m: nat, rk: string)
    requires m + 1 < |ss|
  {
    Loses(ss[m], ss[m + 1], rk)
  }

  /** The entry went away between the call's SET NX miss and the GET after it. */
  ghost predicate LostBeforeReread(ss: seq<State>, n: nat, id: nat, rk: string)
    requires n < |ss|
  {
    exists m | 0 <= m < n :: LosesAt(ss, m, rk) && id in ss[m].calls && ss[m].calls[id].pc.Reread?
  }

  /** Where the addresses a call carries come from. */
  ghost predicate Explained(cfg: Config, ss: seq<State>, es: seq<Event>, n: nat, id: nat)
    requires |ss| == |es| + 1 && n < |ss|
  {
    id in ss[n].calls && ss[n].calls[id].request.Resolves() ==>
      var c := ss[n].calls[id];
      var rk := SessionRedisKey(cfg.prefix, c.request.key);
      match c.pc
      case SessionExpire(hit) => During(ss, n, id) && StoredDuring(ss, n, id, rk, hit)
      case Bind => During(ss, n, id) && PickedDuring(es, n, id, c.picked)
      case Reread =>
        && During(ss, n, id) && PickedDuring(es, n, id, c.picked)
        && (ss[n].db.Has(rk) || LostBeforeReread(ss, n, id, rk))
      case Done(Bound(addr, _)) =>
        || StoredDuring(ss, n, id, rk, addr)
        || (&& c.picked == Some(addr) && PickedDuring(es, n, id, c.picked)
            && (BindFailed(cfg, ss, es, n, id) || LostBeforeReread(ss, n, id, rk)))
      case Done(_) => true
      case _ => During(ss, n, id)
  }

  lemma Grow(cfg: Config, ss: seq<State>, es: seq<Event>, n: nat, id: nat, rk: string, addr: string)
    requires |ss| == |es| + 1 && n + 1 < |ss|
    ensures StoredDuring(ss, n, id, rk, addr) ==> StoredDuring(ss, n + 1, id, rk, addr)
    ensures forall a :: PickedDuring(es, n, id, a) ==> PickedDuring(es, n + 1, id, a)
    ensures BindFailed(cfg, ss, es, n, id) ==> BindFailed(cfg, ss, es, n + 1, id)
    ensures LostBeforeReread(ss, n, id, rk) ==> LostBeforeReread(ss, n + 1, id, rk)
  {
  }

  /** The step runs the SET NX of the call, or the GET after it. */
  lemma ExplainBind(cfg: Config, ss: seq<State>, es: seq<Event>, n: nat, id: nat)
    requires IsFullRun(cfg, ss, es) && n + 1 < |ss| && Valid(cfg, ss[n])
    requires es[n].RunCommand? && es[n].id == id
    requires id in ss[n].calls && (ss[n].calls[id].pc.Bind? || ss[n].calls[id].pc.Reread?)
    requires Explained(cfg, ss, es, n, id)
    ensures Explained(cfg, ss, es, n + 1, id)
  {
    var s, e, s' := ss[n], es[n], ss[n + 1];
    assert Next(cfg, s, e, s');
    var rk := SessionRedisKey(cfg.prefix, s.calls[id].request.key);
    Grow(cfg, ss, es, n, id, rk, "");
    assert During(ss, n, id) && During(ss, n + 1, id);
    assert BindFails(cfg, s, e, id) ==> BindFailed(cfg, ss, es, n + 1, id);
  }

  /** The step runs the command the call waits on. */
  lemma ExplainCommand(cfg: Config, ss: seq<State>, es: seq<Event>, n: nat, id: nat)
    requires IsFullRun(cfg, ss, es) && n + 1 < |ss|
    requires es[n].RunCommand? && es[n].id == id
    requires Explained(cfg, ss, es, n, id)
    ensures Explained(cfg, ss, es, n + 1, id)
  {
    RunValid(cfg, ss, es, n);
    assert Next(cfg, ss[n], es[n], ss[n + 1]);
    var c := ss[n].calls[id];
    if c.pc.Bind? || c.pc.Reread? {
      ExplainBind(cfg, ss, es, n, id);
    } else if c.request.Resolves() {
      assert During(ss, n, id) && During(ss, n + 1, id);
      var rk := SessionRedisKey(cfg.prefix, c.request.key);
      if c.pc.SessionExpire? { Grow(cfg, ss, es, n, id, rk, c.pc.hit); }
    }
  }

  /** The step leaves the call where it is. */
  lemma ExplainOther(cfg: Config, ss: seq<State>, es: seq<Event>, n: nat, id: nat)
    requires IsFullRun(cfg, ss, es) && n + 1 < |ss|
    requires id in ss[n].calls && id in ss[n + 1].calls && ss[n + 1].calls[id] == ss[n].calls[id]
    requires Explained(cfg, ss, es, n, id)
    ensures Explained(cfg, ss, es, n + 1, id)
  {
    var c := ss[n].calls[id];
    if c.request.Resolves() {
      var rk := SessionRedisKey(cfg.prefix, c.request.key);
      Grow(cfg, ss, es, n, id, rk, "");
      match c.pc
      case SessionExpire(hit) => Grow(cfg, ss, es, n, id, rk, hit);
      case Done(Bound(addr, _)) => Grow(cfg, ss, es, n, id, rk, addr);
      case Reread => assert LosesAt(ss, n, rk) ==> LostBeforeReread(ss, n + 1, id, rk);
      case _ =>
    }
  }

  lemma ExplainStep(cfg: Config, ss: seq<State>, es: seq<Event>, n: nat, id: nat)
    requires IsFullRun(cfg, ss, es) && n + 1 < |ss|
    requires Explained(cfg, ss, es, n, id)
    ensures Explained(cfg, ss, es, n + 1, id)
  {
    var s, e, s' := ss[n], es[n], ss[n + 1];
    assert Next(cfg, s, e, s');
    if e.RunCommand? && e.id == id {
      ExplainCommand(cfg, ss, es, n, id);
    } else if id in s.calls && s'.calls[id] == s.calls[id] {
      ExplainOther(cfg, ss, es, n, id);
    } else {
      assert id in s'.calls ==> During(ss, n + 1, id);
    }
  }

  lemma {:induction false} RunExplained(cfg: Config, ss: seq<State>, es: seq<Event>, n: nat, id: nat)
    requires IsFullRun(cfg, ss, es) && n < |ss|
    ensures Explained(cfg, ss, es, n, id)
  {
    if n == 0 {
    } else {
      RunExplained(cfg, ss, es, n - 1, id);
      ExplainStep(cfg, ss, es, n - 1, id);
    }
  }

  /** Every run, any faults: a session answer was stored under the call's key at some instant of
      the call, or it is the call's own pick; and an own pick that was never stored needs a failed
      SET NX, a failed second GET, or the loss of the entry between the two. */
  lemma AnswersAreExplained(cfg: Config, ss: seq<State>, es: seq<Event>, n: nat, id: nat)
    requires IsFullRun(cfg, ss, es) && n < |ss|
    requires id in ss[n].calls && ss[n].calls[id].pc.Done? && ss[n].calls[id].pc.outcome.Bound?
    ensures
      var c := ss[n].calls[id];
      && c.request.Resolves()
      && var rk := SessionRedisKey(cfg.prefix, c.request.key);
         var addr := c.pc.outcome.addr;
         || StoredDuring(ss, n, id, rk, addr)
         || (&& c.picked == Some(addr) && PickedDuring(es, n, id, c.picked)
             && (BindFailed(cfg, ss, es, n, id) || LostBeforeReread(ss, n, id, rk)))
  {
    RunValid(cfg, ss, es, n);
    RunExplained(cfg, ss, es, n, id);
  }

  /** Every run, any faults: while a session entry exists its value does not change. */
  lemma {:induction false} StoredValueNeverChanges(
    cfg: Config, k: SessionKey, ss: seq<State>, es: seq<Event>, i: nat, j: nat, addr: string)
    requires IsFullRun(cfg, ss, es) && i <= j < |ss|
    requires ss[i].db.Holds(SessionRedisKey(cfg.prefix, k), addr)
    requires forall m {:trigger ss[m]} | i <= m <= j :: ss[m].db.Has(SessionRedisKey(cfg.prefix, k))
    ensures ss[j].db.Holds(SessionRedisKey(cfg.prefix, k), addr)
    decreases j
  {
    if i == j {
    } else {
      StoredValueNeverChanges(cfg, k, ss, es, i, j - 1, addr);
      RunValid(cfg, ss, es, j - 1);
      assert Next(cfg, ss[j - 1], es[j - 1], ss[j]);
      SessionEntryEffect(cfg, k, ss[j - 1], es[j - 1], ss[j]);
    }
  }
}
