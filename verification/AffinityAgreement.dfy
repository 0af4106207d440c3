/** Session stickiness across replicas: agreement on one backend, how long it lasts, and which
    call reports the binding as new. */
module AffinityAgreement {
  import opened Wrappers
  import opened Keys
  import opened Affinity
  import opened AffinityFaults

  // ---- Agreement ----------------------------------------------------------

  /** The step does not lose the entry, and no bind on this key fails. Lookups and EXPIREs may
      fail, and anything may happen to other keys. */
  predicate Undisturbed(cfg: Config, s: State, e: Event, s': State, rk: string) {
    && !Loses(s, s', rk)
    && !(e.RunCommand? && BindFails(cfg, s, e, e.id) && RoutesTo(cfg, s.calls[e.id], rk))
  }

  ghost predicate UndisturbedRun(cfg: Config, ss: seq<State>, es: seq<Event>, rk: string)
    requires |ss| == |es| + 1
  {
    forall i {:trigger es[i]} | 0 <= i < |es| :: Undisturbed(cfg, ss[i], es[i], ss[i + 1], rk)
  }

  /** Every answer, and every address about to become one, is what the store holds. */
  predicate CallAgrees(cfg: Config, s: State, c: Call, rk: string) {
    RoutesTo(cfg, c, rk) ==>
      match c.pc
      case SessionExpire(hit) => s.db.Holds(rk, hit)
      case Reread => s.db.Has(rk)
      case Done(Bound(addr, _)) => s.db.Holds(rk, addr)
      case _ => true
  }

  ghost predicate Agreed(cfg: Config, s: State, rk: string) {
    forall id <- s.calls :: CallAgrees(cfg, s, s.calls[id], rk)
  }

  /** The call's own step. */
  lemma AgreementOwnStep(cfg: Config, k: SessionKey, s: State, e: Event, s': State)
    requires Valid(cfg, s) && Next(cfg, s, e, s') && IsStep(e)
    requires e.id in s.calls ==> CallAgrees(cfg, s, s.calls[e.id], SessionRedisKey(cfg.prefix, k))
    requires Undisturbed(cfg, s, e, s', SessionRedisKey(cfg.prefix, k))
    ensures e.id in s'.calls && CallAgrees(cfg, s', s'.calls[e.id], SessionRedisKey(cfg.prefix, k))
  {
    SessionEntryEffect(cfg, k, s, e, s');
  }

  lemma AgreementStep(cfg: Config, k: SessionKey, s: State, e: Event, s': State)
    requires Valid(cfg, s) && Next(cfg, s, e, s')
    requires Agreed(cfg, s, SessionRedisKey(cfg.prefix, k))
    requires Undisturbed(cfg, s, e, s', SessionRedisKey(cfg.prefix, k))
    ensures Agreed(cfg, s', SessionRedisKey(cfg.prefix, k))
  {
    var rk := SessionRedisKey(cfg.prefix, k);
    SessionEntryEffect(cfg, k, s, e, s');
    forall id <- s'.calls ensures CallAgrees(cfg, s', s'.calls[id], rk) {
      if StepOf(e, id) {
        AgreementOwnStep(cfg, k, s, e, s');
      } else {
        assert s'.calls[id] == s.calls[id] && CallAgrees(cfg, s, s.calls[id], rk);
      }
    }
  }

  /** Cross-replica agreement: whatever the interleaving, as long as the key is undisturbed, at
      every instant all answers given for it are the one backend the store holds. */
  lemma {:induction false} CrossReplicaAgreement(cfg: Config, k: SessionKey, ss: seq<State>, es: seq<Event>, n: nat)
    requires IsFullRun(cfg, ss, es) && n < |ss|
    requires UndisturbedRun(cfg, ss, es, SessionRedisKey(cfg.prefix, k))
    ensures Agreed(cfg, ss[n], SessionRedisKey(cfg.prefix, k))
  {
    if n == 0 {
    } else {
      CrossReplicaAgreement(cfg, k, ss, es, n - 1);
      RunValid(cfg, ss, es, n - 1);
      assert Next(cfg, ss[n - 1], es[n - 1], ss[n]);
      AgreementStep(cfg, k, ss[n - 1], es[n - 1], ss[n]);
    }
  }

  // ---- How long it lasts --------------------------------------------------

  /** The server executes an EXPIRE of the key. */
  predicate Touches(cfg: Config, s: State, e: Event, rk: string) {
    var c := Executed(cfg, s, e);
    c.Some? && c.value.Expire? && c.value.key == rk
  }

  predicate Forgets(cfg: Config, s: State, e: Event, rk: string) {
    var c := Executed(cfg, s, e);
    c.Some? && c.value.Del? && c.value.key == rk
  }

  /** When the key was last set or refreshed, read off the commands: the first SET NX sets it, later ones
      do not, and an EXPIRE refreshes it once it is set. What the store holds when the run begins
      counts as refreshed one TTL before its deadline. */
  ghost function LastRefresh(cfg: Config, ss: seq<State>, es: seq<Event>, n: nat, rk: string): Option<int>
    requires |ss| == |es| + 1 && n < |ss|
  {
    if n == 0 then
      if ss[0].db.Has(rk) then Some(ss[0].db.entries[rk].deadline - cfg.sessionTtl) else None
    else
      var before := LastRefresh(cfg, ss, es, n - 1, rk);
      var s, e := ss[n - 1], es[n - 1];
      if before.None? && TriesToBind(cfg, s, e, rk) then Some(s.db.now)
      else if before.Some? && Touches(cfg, s, e, rk) then Some(s.db.now)
      else before
  }

  /** At state `n` less than the TTL has passed since the last refresh. */
  ghost predicate Fresh(cfg: Config, ss: seq<State>, es: seq<Event>, n: nat, rk: string)
    requires |ss| == |es| + 1 && n < |ss|
  {
    var last := LastRefresh(cfg, ss, es, n, rk);
    last.Some? ==> ss[n].db.now < last.value + cfg.sessionTtl
  }

  lemma DeadlineEffect(cfg: Config, k: SessionKey, s: State, e: Event, s': State)
    requires Valid(cfg, s) && Next(cfg, s, e, s')
    requires !Forgets(cfg, s, e, SessionRedisKey(cfg.prefix, k))
    requires s.db.Has(SessionRedisKey(cfg.prefix, k))
    ensures var rk := SessionRedisKey(cfg.prefix, k);
      if e.Pass? then
        if s'.db.now < s.db.entries[rk].deadline
        then rk in s'.db.entries && s'.db.entries[rk] == s.db.entries[rk]
        else !s'.db.Has(rk)
      else if Touches(cfg, s, e, rk) && cfg.sessionTtl == 0 then !s'.db.Has(rk) && s'.db.now == s.db.now
      else
        && rk in s'.db.entries && s'.db.now == s.db.now
        && s'.db.entries[rk].deadline
           == if Touches(cfg, s, e, rk) then s.db.now + cfg.sessionTtl else s.db.entries[rk].deadline
  {
    var rk := SessionRedisKey(cfg.prefix, k);
    if Concerns(cfg, s, e, rk) {
      StoreEffect(cfg, s, e, s');
      SessionCommand(cfg, Executed(cfg, s, e).value, k);
    } else if !e.Pass? {
      EntryUntouched(cfg, s, e, s', rk);
    }
  }

  /** While the key has not been lost, it is stored exactly since the first bind, with a deadline
      one TTL after the last refresh. */
  ghost predicate Tracked(cfg: Config, ss: seq<State>, es: seq<Event>, n: nat, rk: string)
    requires |ss| == |es| + 1 && n < |ss|
  {
    var last := LastRefresh(cfg, ss, es, n, rk);
    && (ss[n].db.Has(rk) <==> last.Some?)
    && (last.Some? ==> ss[n].db.entries[rk].deadline == last.value + cfg.sessionTtl)
  }

  lemma TrackedStep(cfg: Config, k: SessionKey, ss: seq<State>, es: seq<Event>, n: nat)
    requires IsFullRun(cfg, ss, es) && n < |es|
    requires Tracked(cfg, ss, es, n, SessionRedisKey(cfg.prefix, k))
    requires !Forgets(cfg, ss[n], es[n], SessionRedisKey(cfg.prefix, k))
    ensures var rk := SessionRedisKey(cfg.prefix, k);
      if Loses(ss[n], ss[n + 1], rk) then !Fresh(cfg, ss, es, n + 1, rk)
      else Tracked(cfg, ss, es, n + 1, rk)
  {
    var rk := SessionRedisKey(cfg.prefix, k);
    RunValid(cfg, ss, es, n);
    assert Next(cfg, ss[n], es[n], ss[n + 1]);
    SessionEntryEffect(cfg, k, ss[n], es[n], ss[n + 1]);
    if ss[n].db.Has(rk) { DeadlineEffect(cfg, k, ss[n], es[n], ss[n + 1]); }
  }

  ghost predicate NeverForgotten(cfg: Config, ss: seq<State>, es: seq<Event>, rk: string)
    requires |ss| == |es| + 1
  {
    forall i {:trigger es[i]} | 0 <= i < |es| :: !Forgets(cfg, ss[i], es[i], rk)
  }

  lemma {:induction false} TrackedUntilLost(cfg: Config, k: SessionKey, ss: seq<State>, es: seq<Event>, n: nat)
    requires IsFullRun(cfg, ss, es) && n < |ss|
    requires NeverForgotten(cfg, ss, es, SessionRedisKey(cfg.prefix, k))
    requires
      || (forall m | 0 <= m < n :: !LosesAt(ss, m, SessionRedisKey(cfg.prefix, k)))
      || (forall m | 0 <= m <= n :: Fresh(cfg, ss, es, m, SessionRedisKey(cfg.prefix, k)))
    ensures Tracked(cfg, ss, es, n, SessionRedisKey(cfg.prefix, k))
  {
    if n == 0 {
    } else {
      TrackedUntilLost(cfg, k, ss, es, n - 1);
      var rk := SessionRedisKey(cfg.prefix, k);
      assert !Forgets(cfg, ss[n - 1], es[n - 1], rk);
      TrackedStep(cfg, k, ss, es, n - 1);
      assert !LosesAt(ss, n - 1, rk);
    }
  }

  /** A binding that nobody forgets survives the whole run if and only if every state is reached
      less than one TTL after the key's last refresh. */
  lemma BindingSurvivesIffRefreshedInTime(cfg: Config, k: SessionKey, ss: seq<State>, es: seq<Event>)
    requires IsFullRun(cfg, ss, es)
    requires NeverForgotten(cfg, ss, es, SessionRedisKey(cfg.prefix, k))
    ensures var rk := SessionRedisKey(cfg.prefix, k);
      (forall m | 0 <= m < |es| :: !LosesAt(ss, m, rk))
      <==> (forall m | 0 <= m < |ss| :: Fresh(cfg, ss, es, m, rk))
  {
    var rk := SessionRedisKey(cfg.prefix, k);
    if forall m | 0 <= m < |es| :: !LosesAt(ss, m, rk) {
      forall m | 0 <= m < |ss| ensures Fresh(cfg, ss, es, m, rk) {
        TrackedUntilLost(cfg, k, ss, es, m);
        RunValid(cfg, ss, es, m);
      }
    }
    if forall m | 0 <= m < |ss| :: Fresh(cfg, ss, es, m, rk) {
      forall m | 0 <= m < |es| ensures !LosesAt(ss, m, rk) {
        TrackedUntilLost(cfg, k, ss, es, m);
        assert !Forgets(cfg, ss[m], es[m], rk);
        TrackedStep(cfg, k, ss, es, m);
        assert Fresh(cfg, ss, es, m + 1, rk);
      }
    }
  }

  /** Timed stickiness: a key that is refreshed in time, never forgotten, and whose binds do not
      fail resolves to one backend for as long as the run lasts, however the pools change. */
  lemma TimedStickiness(cfg: Config, k: SessionKey, ss: seq<State>, es: seq<Event>, n: nat)
    requires IsFullRun(cfg, ss, es) && n < |ss|
    requires NeverForgotten(cfg, ss, es, SessionRedisKey(cfg.prefix, k))
    requires forall m | 0 <= m < |ss| :: Fresh(cfg, ss, es, m, SessionRedisKey(cfg.prefix, k))
    requires forall i {:trigger es[i]} | 0 <= i < |es| && es[i].RunCommand? && BindFails(cfg, ss[i], es[i], es[i].id) ::
               !RoutesTo(cfg, ss[i].calls[es[i].id], SessionRedisKey(cfg.prefix, k))
    ensures Agreed(cfg, ss[n], SessionRedisKey(cfg.prefix, k))
  {
    var rk := SessionRedisKey(cfg.prefix, k);
    BindingSurvivesIffRefreshedInTime(cfg, k, ss, es);
    forall i {:trigger es[i]} | 0 <= i < |es| ensures Undisturbed(cfg, ss[i], es[i], ss[i + 1], rk) {
      assert !LosesAt(ss, i, rk);
    }
    CrossReplicaAgreement(cfg, k, ss, es, n);
  }

  // ---- Who reports the binding as new --------------------------------------

  /** A session answer is reported as new exactly when it equals the call's own pick; so a call
      that picked another backend than the winner, or picked none, never reports. */
  predicate ReportsItsPick(c: Call) {
    c.pc.Done? && c.pc.outcome.Bound? ==>
      (c.pc.outcome.newlyBound <==> c.picked == Some(c.pc.outcome.addr))
  }

  /** Calls that have not picked yet carry no pick. */
  predicate PickLocal(c: Call) {
    && ReportsItsPick(c)
    && (!c.pc.Done? && !c.pc.Bind? && !c.pc.Reread? ==> c.picked.None?)
  }

  lemma {:induction false} NewlyBoundMeansOwnPick(cfg: Config, ss: seq<State>, es: seq<Event>, n: nat)
    requires IsFullRun(cfg, ss, es) && n < |ss|
    ensures forall id <- ss[n].calls :: PickLocal(ss[n].calls[id])
  {
    if n == 0 {
    } else {
      NewlyBoundMeansOwnPick(cfg, ss, es, n - 1);
      RunValid(cfg, ss, es, n - 1);
      assert Next(cfg, ss[n - 1], es[n - 1], ss[n]);
    }
  }

  /** The session answers given for `rk` so far that claim the binding as new. */
  ghost function Reporters(cfg: Config, s: State, rk: string): set<nat> {
    set id | id in s.calls && RoutesTo(cfg, s.calls[id], rk)
          && s.calls[id].pc.Done? && s.calls[id].pc.outcome.Bound? && s.calls[id].pc.outcome.newlyBound
  }

  /** The answered calls whose own pick is what the store now holds. */
  ghost function WinningPickers(cfg: Config, s: State, rk: string): set<nat> {
    set id | id in s.calls && RoutesTo(cfg, s.calls[id], rk) && s.db.Has(rk)
          && s.calls[id].pc.Done? && s.calls[id].pc.outcome.Bound? && s.calls[id].picked == Some(s.db.entries[rk].value)
  }

  /** Without disturbance, the answers that claim the binding are exactly those of the calls that
      picked the winning backend. */
  lemma ReportersPickedTheWinner(cfg: Config, k: SessionKey, ss: seq<State>, es: seq<Event>, n: nat)
    requires IsFullRun(cfg, ss, es) && n < |ss|
    requires UndisturbedRun(cfg, ss, es, SessionRedisKey(cfg.prefix, k))
    ensures var rk := SessionRedisKey(cfg.prefix, k);
            Reporters(cfg, ss[n], rk) == WinningPickers(cfg, ss[n], rk)
  {
    var rk := SessionRedisKey(cfg.prefix, k);
    NewlyBoundMeansOwnPick(cfg, ss, es, n);
    CrossReplicaAgreement(cfg, k, ss, es, n);
    forall id <- ss[n].calls
      ensures id in Reporters(cfg, ss[n], rk) <==> id in WinningPickers(cfg, ss[n], rk)
    {
      assert CallAgrees(cfg, ss[n], ss[n].calls[id], rk) && PickLocal(ss[n].calls[id]);
    }
  }

  predicate InsertsAt(cfg: Config, ss: seq<State>, es: seq<Event>, m: nat, rk: string)
    requires |ss| == |es| + 1 && m < |es|
  {
    Inserts(cfg, ss[m], es[m], rk)
  }

  lemma {:induction false} StaysStored(cfg: Config, ss: seq<State>, es: seq<Event>, rk: string, i: nat, j: nat)
    requires IsRun(cfg, ss, es) && UndisturbedRun(cfg, ss, es, rk)
    requires i <= j < |ss| && ss[i].db.Has(rk)
    ensures ss[j].db.Has(rk)
    decreases j
  {
    if i == j {
    } else {
      StaysStored(cfg, ss, es, rk, i, j - 1);
      assert Undisturbed(cfg, ss[j - 1], es[j - 1], ss[j], rk);
    }
  }

  lemma {:induction false} StaysAnswered(cfg: Config, ss: seq<State>, es: seq<Event>, id: nat, i: nat, j: nat)
    requires IsRun(cfg, ss, es) && i <= j < |ss|
    requires id in ss[i].calls && ss[i].calls[id].pc.Done?
    ensures id in ss[j].calls && ss[j].calls[id] == ss[i].calls[id]
    decreases j
  {
    if i == j {
    } else {
      StaysAnswered(cfg, ss, es, id, i, j - 1);
      assert Next(cfg, ss[j - 1], es[j - 1], ss[j]);
    }
  }

  lemma {:induction false} StoredSinceSomeInsert(cfg: Config, k: SessionKey, ss: seq<State>, es: seq<Event>, n: nat)
    returns (m: nat)
    requires IsFullRun(cfg, ss, es) && n < |ss|
    requires !ss[0].db.Has(SessionRedisKey(cfg.prefix, k)) && ss[n].db.Has(SessionRedisKey(cfg.prefix, k))
    ensures m < n && InsertsAt(cfg, ss, es, m, SessionRedisKey(cfg.prefix, k))
  {
    RunValid(cfg, ss, es, n - 1);
    assert Next(cfg, ss[n - 1], es[n - 1], ss[n]);
    SessionEntryEffect(cfg, k, ss[n - 1], es[n - 1], ss[n]);
    if ss[n - 1].db.Has(SessionRedisKey(cfg.prefix, k)) {
      m := StoredSinceSomeInsert(cfg, k, ss, es, n - 1);
    } else {
      m := n - 1;
    }
  }

  /** Fresh-binding report: a key that starts unbound, ends bound and is undisturbed has been
      inserted exactly once; if the inserting call was not abandoned it reports the binding, and
      it is the only one to do so if and only if no other answered call picked the same backend. */
  lemma FreshBindingReport(cfg: Config, k: SessionKey, ss: seq<State>, es: seq<Event>, n: nat) returns (m: nat)
    requires IsFullRun(cfg, ss, es) && n < |ss|
    requires !ss[0].db.Has(SessionRedisKey(cfg.prefix, k)) && ss[n].db.Has(SessionRedisKey(cfg.prefix, k))
    requires UndisturbedRun(cfg, ss, es, SessionRedisKey(cfg.prefix, k))
    ensures m < n
    ensures var rk := SessionRedisKey(cfg.prefix, k);
      && (forall i | 0 <= i < |es| :: InsertsAt(cfg, ss, es, i, rk) <==> i == m)
      && (es[m].RunCommand? ==>
           && es[m].id in Reporters(cfg, ss[n], rk)
           && (Reporters(cfg, ss[n], rk) == {es[m].id} <==> WinningPickers(cfg, ss[n], rk) <= {es[m].id}))
  {
    var rk := SessionRedisKey(cfg.prefix, k);
    m := StoredSinceSomeInsert(cfg, k, ss, es, n);
    RunValid(cfg, ss, es, m);
    assert Next(cfg, ss[m], es[m], ss[m + 1]);
    SessionEntryEffect(cfg, k, ss[m], es[m], ss[m + 1]);
    forall i | 0 <= i < |es| ensures InsertsAt(cfg, ss, es, i, rk) <==> i == m {
      if i > m { InsertedOnce(cfg, k, ss, es, m, i); }
      if i < m && InsertsAt(cfg, ss, es, i, rk) { InsertedOnce(cfg, k, ss, es, i, m); }
    }
    ReportersPickedTheWinner(cfg, k, ss, es, n);
    if es[m].RunCommand? {
      assert Undisturbed(cfg, ss[m], es[m], ss[m + 1], rk);
      StaysAnswered(cfg, ss, es, es[m].id, m + 1, n);
    }
  }

  lemma InsertedOnce(cfg: Config, k: SessionKey, ss: seq<State>, es: seq<Event>, i: nat, j: nat)
    requires IsFullRun(cfg, ss, es) && i < j < |es|
    requires UndisturbedRun(cfg, ss, es, SessionRedisKey(cfg.prefix, k))
    requires InsertsAt(cfg, ss, es, i, SessionRedisKey(cfg.prefix, k))
    ensures !InsertsAt(cfg, ss, es, j, SessionRedisKey(cfg.prefix, k))
  {
    RunValid(cfg, ss, es, i);
    assert Next(cfg, ss[i], es[i], ss[i + 1]);
    SessionEntryEffect(cfg, k, ss[i], es[i], ss[i + 1]);
    StaysStored(cfg, ss, es, SessionRedisKey(cfg.prefix, k), i + 1, j);
  }
}
