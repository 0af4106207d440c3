/** Exactly when a bind answers with a backend that the store does not hold. */
module AffinityUnstored {
  import opened Wrappers
  import opened Keys
  import opened Redis
  import opened Affinity
  import opened AffinityFaults
  import opened AffinityAgreement

  /** In the step after state `n` the call, past its pick, hears from Redis and answers. */
  predicate AnswersBind(cfg: Config, ss: seq<State>, es: seq<Event>, n: nat, id: nat)
    requires |ss| == |es| + 1 && n < |es|
  {
    && es[n].RunCommand? && es[n].id == id && Waiting(cfg, ss[n], id)
    && (ss[n].calls[id].pc.Bind? || ss[n].calls[id].pc.Reread?)
    && id in ss[n + 1].calls && ss[n + 1].calls[id].pc.Done? && ss[n + 1].calls[id].pc.outcome.Bound?
  }

  /** The store does not hold the answer just given. */
  predicate Unstored(cfg: Config, ss: seq<State>, es: seq<Event>, n: nat, id: nat)
    requires |ss| == |es| + 1 && n < |es| && AnswersBind(cfg, ss, es, n, id)
  {
    !ss[n + 1].db.Holds(SessionRedisKey(cfg.prefix, ss[n].calls[id].request.key), ss[n + 1].calls[id].pc.outcome.addr)
  }

  /** What the key holds at the instant of the step: what it held before, or what the step's own
      SET NX puts there. */
  function HeldThen(cfg: Config, s: State, e: Event, rk: string): Option<string> {
    if s.db.Has(rk) then Some(s.db.entries[rk].value)
    else if Inserts(cfg, s, e, rk) then Some(Executed(cfg, s, e).value.value)
    else None
  }

  /** The SET NX of the call finds the key taken. */
  predicate MissesAt(cfg: Config, ss: seq<State>, es: seq<Event>, b: nat, id: nat)
    requires |ss| == |es| + 1 && b < |es|
  {
    && es[b] == RunCommand(id, NoFault) && Waiting(cfg, ss[b], id) && ss[b].calls[id].pc.Bind?
    && cfg.sessionTtl > 0 && ss[b].db.Has(SessionRedisKey(cfg.prefix, ss[b].calls[id].request.key))
  }

  /** After state `b` and before state `n` the entry went away, and nobody inserted it again. */
  ghost predicate LostSince(cfg: Config, ss: seq<State>, es: seq<Event>, b: nat, n: nat, rk: string)
    requires |ss| == |es| + 1 && n < |ss|
  {
    exists m | b < m < n :: LosesAt(ss, m, rk) && forall i | m < i < n :: !InsertsAt(cfg, ss, es, i, rk)
  }

  /** The entry went away after the SET NX miss of the call and nobody inserted it again. */
  ghost predicate LostAfterMiss(cfg: Config, ss: seq<State>, es: seq<Event>, n: nat, id: nat, rk: string)
    requires |ss| == |es| + 1 && n < |ss|
  {
    exists b | 0 <= b < n :: MissesAt(cfg, ss, es, b, id) && LostSince(cfg, ss, es, b, n, rk)
  }

  lemma {:induction false} AbsentIffLost(cfg: Config, k: SessionKey, ss: seq<State>, es: seq<Event>, b: nat, n: nat)
    requires IsFullRun(cfg, ss, es) && b < n < |ss| && ss[b + 1].db.Has(SessionRedisKey(cfg.prefix, k))
    ensures !ss[n].db.Has(SessionRedisKey(cfg.prefix, k))
       <==> LostSince(cfg, ss, es, b, n, SessionRedisKey(cfg.prefix, k))
    decreases n
  {
    if n == b + 1 {
    } else {
      var rk := SessionRedisKey(cfg.prefix, k);
      AbsentIffLost(cfg, k, ss, es, b, n - 1);
      LossStep(cfg, k, ss, es, b, n - 1);
    }
  }

  lemma LossStep(cfg: Config, k: SessionKey, ss: seq<State>, es: seq<Event>, b: nat, n: nat)
    requires IsFullRun(cfg, ss, es) && b < n < |es|
    requires !ss[n].db.Has(SessionRedisKey(cfg.prefix, k))
       <==> LostSince(cfg, ss, es, b, n, SessionRedisKey(cfg.prefix, k))
    ensures !ss[n + 1].db.Has(SessionRedisKey(cfg.prefix, k))
       <==> LostSince(cfg, ss, es, b, n + 1, SessionRedisKey(cfg.prefix, k))
  {
    var rk := SessionRedisKey(cfg.prefix, k);
    RunValid(cfg, ss, es, n);
    assert Next(cfg, ss[n], es[n], ss[n + 1]);
    SessionEntryEffect(cfg, k, ss[n], es[n], ss[n + 1]);
    if !ss[n + 1].db.Has(rk) {
      if ss[n].db.Has(rk) {
        assert LosesAt(ss, n, rk);
      } else {
        assert !InsertsAt(cfg, ss, es, n, rk);
        var m :| b < m < n && LosesAt(ss, m, rk) && forall i | m < i < n :: !InsertsAt(cfg, ss, es, i, rk);
        assert forall i | m < i < n + 1 :: !InsertsAt(cfg, ss, es, i, rk);
      }
    } else {
      assert !LosesAt(ss, n, rk);
      forall m | b < m < n && LosesAt(ss, m, rk) ensures exists i | m < i < n + 1 :: InsertsAt(cfg, ss, es, i, rk) {
        if ss[n].db.Has(rk) {
          assert !(forall i | m < i < n :: !InsertsAt(cfg, ss, es, i, rk));
        } else {
          assert InsertsAt(cfg, ss, es, n, rk);
        }
      }
    }
  }

  /** Only a SET NX miss makes a call read back. */
  lemma MissStep(cfg: Config, s: State, e: Event, s': State, id: nat)
    requires Valid(cfg, s) && Next(cfg, s, e, s') && id in s'.calls && s'.calls[id].pc.Reread?
    requires !(id in s.calls && s.calls[id].pc.Reread?)
    ensures e == RunCommand(id, NoFault) && Waiting(cfg, s, id) && s.calls[id].pc.Bind? && cfg.sessionTtl > 0
    ensures s.db.Has(SessionRedisKey(cfg.prefix, s.calls[id].request.key))
  {
  }

  /** A call that reads back has been through a SET NX miss, for the key it still asks for. */
  lemma {:induction false} RereadFollowsMiss(cfg: Config, ss: seq<State>, es: seq<Event>, n: nat, id: nat)
    returns (b: nat)
    requires IsFullRun(cfg, ss, es) && n < |ss| && id in ss[n].calls && ss[n].calls[id].pc.Reread?
    ensures b < n && MissesAt(cfg, ss, es, b, id)
  {
    assert n > 0;
    RunValid(cfg, ss, es, n - 1);
    assert Next(cfg, ss[n - 1], es[n - 1], ss[n]);
    if id in ss[n - 1].calls && ss[n - 1].calls[id].pc.Reread? {
      b := RereadFollowsMiss(cfg, ss, es, n - 1, id);
    } else {
      MissStep(cfg, ss[n - 1], es[n - 1], ss[n], id);
      b := n - 1;
    }
  }

  lemma {:induction false} RequestStays(cfg: Config, ss: seq<State>, es: seq<Event>, id: nat, i: nat, j: nat)
    requires IsRun(cfg, ss, es) && i <= j < |ss| && id in ss[i].calls
    ensures id in ss[j].calls && ss[j].calls[id].request == ss[i].calls[id].request
    decreases j
  {
    if i == j {
    } else {
      RequestStays(cfg, ss, es, id, i, j - 1);
      assert Next(cfg, ss[j - 1], es[j - 1], ss[j]);
    }
  }

  /** The second GET finds nothing exactly when the entry was lost after the miss. */
  lemma EmptyRereadIffLost(cfg: Config, ss: seq<State>, es: seq<Event>, n: nat, id: nat)
    requires IsFullRun(cfg, ss, es) && n < |ss| && id in ss[n].calls && ss[n].calls[id].pc.Reread?
    ensures ss[n].calls[id].request.Resolves()
    ensures var rk := SessionRedisKey(cfg.prefix, ss[n].calls[id].request.key);
      !ss[n].db.Has(rk) <==> LostAfterMiss(cfg, ss, es, n, id, rk)
  {
    RunValid(cfg, ss, es, n);
    var k := ss[n].calls[id].request.key;
    var rk := SessionRedisKey(cfg.prefix, k);
    forall b | 0 <= b < n && MissesAt(cfg, ss, es, b, id)
      ensures !ss[n].db.Has(rk) <==> LostSince(cfg, ss, es, b, n, rk)
    {
      assert Next(cfg, ss[b], es[b], ss[b + 1]);
      RequestStays(cfg, ss, es, id, b, n);
      AbsentIffLost(cfg, k, ss, es, b, n);
    }
    var b := RereadFollowsMiss(cfg, ss, es, n, id);
  }

  /** The unstored-answer law, in every run: a bind whose last command is answered leaves its answer
      unstored if and only if that command is the second GET and the entry was lost after the SET NX
      miss and not inserted again before the GET. A bind whose last command fails answers with its
      own pick, which is unstored if and only if the key then holds anything else, or nothing. */
  lemma UnstoredAnswerIff(cfg: Config, ss: seq<State>, es: seq<Event>, n: nat, id: nat)
    requires IsFullRun(cfg, ss, es) && n < |es| && AnswersBind(cfg, ss, es, n, id)
    ensures var c, rk := ss[n].calls[id], SessionRedisKey(cfg.prefix, ss[n].calls[id].request.key);
      Unstored(cfg, ss, es, n, id)
      <==> if BindFails(cfg, ss[n], es[n], id) then HeldThen(cfg, ss[n], es[n], rk) != c.picked
           else c.pc.Reread? && LostAfterMiss(cfg, ss, es, n, id, rk)
  {
    assert Next(cfg, ss[n], es[n], ss[n + 1]);
    if ss[n].calls[id].pc.Reread? { EmptyRereadIffLost(cfg, ss, es, n, id); }
  }
}
