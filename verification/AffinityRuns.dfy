/** Complete runs in which the code does less than its comments promise. */
module AffinityRuns {
  import opened Wrappers
  import opened Keys
  import opened Redis
  import opened Routing
  import opened Affinity
  import opened AffinityAgreement
  import opened AffinityUnstored

  // ---- Resolves of one session, scene by scene --------------------------------

  /** One default pool for everybody, and sessions that live for one unit of time. */
  const CONFIG := Config("", 1, 1, TenantRouter(map[], Some(0), UseDefault))

  const KEY := SessionKey("", "", "s")

  const RK := SessionRedisKey("", KEY)

  const POOLS: map<PoolId, set<string>> := map[0 := {"a", "b"}]

  /** A resolve of the session that picks `p`. */
  function Racer(p: string, pc: Pc): Call {
    Call(ResolveSession(KEY), if pc.Bind? || pc.Reread? || pc.Done? then Some(p) else None, pc)
  }

  function Answered(p: string, addr: string): Call { Racer(p, Done(Bound(addr, addr == p))) }

  function Numbered(cs: seq<Call>): map<nat, Call> { map i: nat | i < |cs| :: cs[i] }

  /** The session is bound to `v`, just now, and the calls stand as in `cs`. */
  function Scene(v: Option<string>, now: int, cs: seq<Call>): State {
    State(Db(if v.Some? then map[RK := Entry(v.value, now + 1)] else map[], now), POOLS, Numbered(cs), multiset{})
  }

  lemma NumberedUpdate(cs: seq<Call>, id: nat, c: Call)
    ensures id < |cs| ==> Numbered(cs)[id := c] == Numbered(cs[id := c])
    ensures Numbered(cs)[|cs| := c] == Numbered(cs + [c])
  {
  }

  lemma BeginStep(v: Option<string>, now: int, cs: seq<Call>, p: string)
    ensures Next(CONFIG, Scene(v, now, cs), Begin(|cs|, ResolveSession(KEY)), Scene(v, now, cs + [Racer(p, Enter)]))
  {
    NumberedUpdate(cs, 0, Racer(p, Enter));
  }

  lemma EnterStep(v: Option<string>, now: int, cs: seq<Call>, id: nat, p: string)
    requires id < |cs| && cs[id] == Racer(p, Enter)
    ensures Next(CONFIG, Scene(v, now, cs), EnterSession(id), Scene(v, now, cs[id := Racer(p, SessionGet)]))
  {
    NumberedUpdate(cs, id, Racer(p, SessionGet));
  }

  lemma MissStep(now: int, cs: seq<Call>, id: nat, p: string)
    requires id < |cs| && cs[id] == Racer(p, SessionGet)
    ensures Next(CONFIG, Scene(None, now, cs), RunCommand(id, NoFault), Scene(None, now, cs[id := Racer(p, Pick)]))
  {
    NumberedUpdate(cs, id, Racer(p, Pick));
  }

  lemma PickStep(v: Option<string>, now: int, cs: seq<Call>, id: nat, p: string)
    requires id < |cs| && cs[id] == Racer(p, Pick) && p in POOLS[0]
    ensures Next(CONFIG, Scene(v, now, cs), PickBackend(id, Some(p)), Scene(v, now, cs[id := Racer(p, Bind)]))
  {
    NumberedUpdate(cs, id, Racer(p, Bind));
  }

  lemma BindStep(now: int, cs: seq<Call>, id: nat, p: string)
    requires id < |cs| && cs[id] == Racer(p, Bind)
    ensures Next(CONFIG, Scene(None, now, cs), RunCommand(id, NoFault), Scene(Some(p), now, cs[id := Answered(p, p)]))
  {
    NumberedUpdate(cs, id, Answered(p, p));
  }

  lemma TakenStep(v: string, now: int, cs: seq<Call>, id: nat, p: string)
    requires id < |cs| && cs[id] == Racer(p, Bind)
    ensures Next(CONFIG, Scene(Some(v), now, cs), RunCommand(id, NoFault),
                 Scene(Some(v), now, cs[id := Racer(p, Reread)]))
  {
    NumberedUpdate(cs, id, Racer(p, Reread));
  }

  lemma RereadStep(v: Option<string>, now: int, cs: seq<Call>, id: nat, p: string)
    requires id < |cs| && cs[id] == Racer(p, Reread)
    ensures var winner := if v.Some? then v.value else p;
      Next(CONFIG, Scene(v, now, cs), RunCommand(id, NoFault), Scene(v, now, cs[id := Answered(p, winner)]))
  {
    NumberedUpdate(cs, id, Answered(p, if v.Some? then v.value else p));
  }

  lemma ExpiryStep(v: string, now: int, cs: seq<Call>)
    ensures Next(CONFIG, Scene(Some(v), now, cs), Pass(1), Scene(None, now + 1, cs))
  {
    assert Tick(Scene(Some(v), now, cs).db, 1).entries == map[];
  }

  /** States and events given by their index make a run. */
  lemma FromIndices(cfg: Config, state: nat -> State, event: nat -> Event, k: nat)
    returns (ss: seq<State>, es: seq<Event>)
    requires forall n: nat | n < k :: Next(cfg, state(n), event(n), state(n + 1))
    ensures |es| == k && IsRun(cfg, ss, es)
    ensures forall n: nat | n <= k :: ss[n] == state(n)
    ensures forall n: nat | n < k :: es[n] == event(n)
  {
    ss, es := seq(k + 1, (n: nat) => state(n)), seq(k, (n: nat) => event(n));
  }

  // ---- Two racers --------------------------------------------------------------

  /** Two resolves that both miss, pick `p` and `q`, and bind one after the other. */
  function RaceAt(p: string, q: string, n: nat): State {
    if n == 0 then Scene(None, 0, [])
    else if n == 1 then Scene(None, 0, [Racer(p, Enter)])
    else if n == 2 then Scene(None, 0, [Racer(p, Enter), Racer(q, Enter)])
    else if n == 3 then Scene(None, 0, [Racer(p, SessionGet), Racer(q, Enter)])
    else if n == 4 then Scene(None, 0, [Racer(p, SessionGet), Racer(q, SessionGet)])
    else if n == 5 then Scene(None, 0, [Racer(p, Pick), Racer(q, SessionGet)])
    else if n == 6 then Scene(None, 0, [Racer(p, Pick), Racer(q, Pick)])
    else if n == 7 then Scene(None, 0, [Racer(p, Bind), Racer(q, Pick)])
    else if n == 8 then Scene(None, 0, [Racer(p, Bind), Racer(q, Bind)])
    else if n == 9 then Scene(Some(p), 0, [Answered(p, p), Racer(q, Bind)])
    else Scene(Some(p), 0, [Answered(p, p), Racer(q, Reread)])
  }

  function RaceEvent(p: string, q: string, n: nat): Event {
    if n <= 1 then Begin(n, ResolveSession(KEY))
    else if n <= 3 then EnterSession(n - 2)
    else if n <= 5 then RunCommand(n - 4, NoFault)
    else if n == 6 then PickBackend(0, Some(p))
    else if n == 7 then PickBackend(1, Some(q))
    else RunCommand(n - 8, NoFault)
  }

  lemma BeginSteps(p: string, q: string, n: nat)
    requires n < 2
    ensures Next(CONFIG, RaceAt(p, q, n), RaceEvent(p, q, n), RaceAt(p, q, n + 1))
  {
    if n == 0 { BeginStep(None, 0, [], p); } else { BeginStep(None, 0, [Racer(p, Enter)], q); }
  }

  lemma EnterSteps(p: string, q: string, n: nat)
    requires 2 <= n < 4
    ensures Next(CONFIG, RaceAt(p, q, n), RaceEvent(p, q, n), RaceAt(p, q, n + 1))
  {
    if n == 2 { EnterStep(None, 0, [Racer(p, Enter), Racer(q, Enter)], 0, p); }
    else { EnterStep(None, 0, [Racer(p, SessionGet), Racer(q, Enter)], 1, q); }
  }

  lemma MiddleSteps(p: string, q: string, n: nat)
    requires 4 <= n < 8 && p in POOLS[0] && q in POOLS[0]
    ensures Next(CONFIG, RaceAt(p, q, n), RaceEvent(p, q, n), RaceAt(p, q, n + 1))
  {
    if n == 4 { MissStep(0, [Racer(p, SessionGet), Racer(q, SessionGet)], 0, p); }
    else if n == 5 { MissStep(0, [Racer(p, Pick), Racer(q, SessionGet)], 1, q); }
    else if n == 6 { PickStep(None, 0, [Racer(p, Pick), Racer(q, Pick)], 0, p); }
    else { PickStep(None, 0, [Racer(p, Bind), Racer(q, Pick)], 1, q); }
  }

  lemma ClosingSteps(p: string, q: string, n: nat)
    requires 8 <= n < 10
    ensures Next(CONFIG, RaceAt(p, q, n), RaceEvent(p, q, n), RaceAt(p, q, n + 1))
  {
    if n == 8 { BindStep(0, [Racer(p, Bind), Racer(q, Bind)], 0, p); }
    else { TakenStep(p, 0, [Answered(p, p), Racer(q, Bind)], 1, q); }
  }

  lemma RaceSteps(p: string, q: string, n: nat)
    requires n < 10 && p in POOLS[0] && q in POOLS[0]
    ensures Next(CONFIG, RaceAt(p, q, n), RaceEvent(p, q, n), RaceAt(p, q, n + 1))
  {
    if n < 2 { BeginSteps(p, q, n); }
    else if n < 4 { EnterSteps(p, q, n); }
    else if n < 8 { MiddleSteps(p, q, n); }
    else { ClosingSteps(p, q, n); }
  }

  /** The race to its end, when both pick the same backend. */
  function TieAt(n: nat): State {
    if n <= 10 then RaceAt("b", "b", n) else Scene(Some("b"), 0, [Answered("b", "b"), Answered("b", "b")])
  }

  function TieEvent(n: nat): Event { if n < 10 then RaceEvent("b", "b", n) else RunCommand(1, NoFault) }

  lemma TieSteps(n: nat)
    requires n < 11
    ensures Next(CONFIG, TieAt(n), TieEvent(n), TieAt(n + 1))
  {
    if n < 10 {
      RaceSteps("b", "b", n); } else { RereadStep(Some("b"), 0, [Answered("b", "b"), Racer("b", Reread)], 1, "b");
    }
  }

  lemma TieUndisturbed(n: nat)
    requires n < 11
    ensures Undisturbed(CONFIG, TieAt(n), TieEvent(n), TieAt(n + 1), RK)
  {
  }

  /** "Exactly once per session" is more than the report promises: two replicas that race for a
      session and pick the same backend, with nothing lost and nothing failing, both report it as
      new. */
  lemma TwoRacersBothReport() returns (ss: seq<State>, es: seq<Event>)
    ensures IsFullRun(CONFIG, ss, es) && |ss| == 12
    ensures UndisturbedRun(CONFIG, ss, es, RK)
    ensures Reporters(CONFIG, ss[11], RK) == {0, 1}
  {
    forall n: nat | n < 11 ensures Next(CONFIG, TieAt(n), TieEvent(n), TieAt(n + 1)) { TieSteps(n); }
    ss, es := FromIndices(CONFIG, TieAt, TieEvent, 11);
    forall n | 0 <= n < 11 ensures Undisturbed(CONFIG, ss[n], es[n], ss[n + 1], RK) { TieUndisturbed(n); }
    assert ss[0] == TieAt(0) && ss[11] == TieAt(11);
  }

  // ---- An answer that is stored nowhere ------------------------------------------

  /** The loser of the race reads back after the entry has expired, and a third resolve follows. */
  function LossAt(n: nat): State {
    var loser := Answered("b", "b");
    if n == 0 then Scene(Some("a"), 0, [Answered("a", "a"), Racer("b", Reread)])
    else if n == 1 then Scene(None, 1, [Answered("a", "a"), Racer("b", Reread)])
    else if n == 2 then Scene(None, 1, [Answered("a", "a"), loser])
    else if n == 3 then Scene(None, 1, [Answered("a", "a"), loser, Racer("a", Enter)])
    else if n == 4 then Scene(None, 1, [Answered("a", "a"), loser, Racer("a", SessionGet)])
    else if n == 5 then Scene(None, 1, [Answered("a", "a"), loser, Racer("a", Pick)])
    else if n == 6 then Scene(None, 1, [Answered("a", "a"), loser, Racer("a", Bind)])
    else Scene(Some("a"), 1, [Answered("a", "a"), loser, Answered("a", "a")])
  }

  function LossEvent(n: nat): Event {
    if n == 0 then Pass(1)
    else if n == 1 then RunCommand(1, NoFault)
    else if n == 2 then Begin(2, ResolveSession(KEY))
    else if n == 3 then EnterSession(2)
    else if n == 5 then PickBackend(2, Some("a"))
    else RunCommand(2, NoFault)
  }

  lemma LossSteps(n: nat)
    requires n < 3
    ensures Next(CONFIG, LossAt(n), LossEvent(n), LossAt(n + 1))
  {
    var winner, loser := Answered("a", "a"), Answered("b", "b");
    if n == 0 { ExpiryStep("a", 0, [winner, Racer("b", Reread)]); }
    else if n == 1 { RereadStep(None, 1, [winner, Racer("b", Reread)], 1, "b"); }
    else { BeginStep(None, 1, [winner, loser], "a"); }
  }

  lemma ThirdLooks(n: nat)
    requires 3 <= n < 5
    ensures Next(CONFIG, LossAt(n), LossEvent(n), LossAt(n + 1))
  {
    var winner, loser := Answered("a", "a"), Answered("b", "b");
    if n == 3 { EnterStep(None, 1, [winner, loser, Racer("a", Enter)], 2, "a"); }
    else { MissStep(1, [winner, loser, Racer("a", SessionGet)], 2, "a"); }
  }

  lemma ThirdBinds(n: nat)
    requires 5 <= n < 7
    ensures Next(CONFIG, LossAt(n), LossEvent(n), LossAt(n + 1))
  {
    var winner, loser := Answered("a", "a"), Answered("b", "b");
    if n == 5 { PickStep(None, 1, [winner, loser, Racer("a", Pick)], 2, "a"); }
    else { BindStep(1, [winner, loser, Racer("a", Bind)], 2, "a"); }
  }

  function SplitAt(n: nat): State { if n < 10 then RaceAt("a", "b", n) else LossAt(n - 10) }

  function SplitEvent(n: nat): Event { if n < 10 then RaceEvent("a", "b", n) else LossEvent(n - 10) }

  lemma SplitSteps(n: nat)
    requires n < 17
    ensures Next(CONFIG, SplitAt(n), SplitEvent(n), SplitAt(n + 1))
  {
    if n < 10 { RaceSteps("a", "b", n); }
    else if n < 13 { LossSteps(n - 10); }
    else if n < 15 { ThirdLooks(n - 10); }
    else { ThirdBinds(n - 10); }
  }

  /** The loser answers at instant 11, when the store is empty; the third resolve is bound at 17. */
  lemma SplitAnswers()
    ensures 1 in SplitAt(11).calls && SplitAt(11).calls[1] == Racer("b", Reread)
    ensures 1 in SplitAt(12).calls && SplitAt(12).calls[1] == Answered("b", "b") && SplitAt(12).db.entries == map[]
    ensures 1 in SplitAt(17).calls && SplitAt(17).calls[1] == Answered("b", "b")
    ensures 2 in SplitAt(17).calls && SplitAt(17).calls[2] == Answered("a", "a") && SplitAt(17).db.Holds(RK, "a")
  {
  }

  lemma SplitHasNoFault(n: nat)
    requires n < 17
    ensures SplitEvent(n).RunCommand? ==> SplitEvent(n).fault.NoFault?
  {
  }

  /** Without a single fault, a resolve answers with a backend that the store does not hold, and a
      later resolve of the same session is bound to another one. */
  lemma UnstoredAnswerSplitsSession() returns (ss: seq<State>, es: seq<Event>)
    ensures IsFullRun(CONFIG, ss, es) && |ss| == 18
    ensures forall n | 0 <= n < 17 && es[n].RunCommand? :: es[n].fault.NoFault?
    ensures AnswersBind(CONFIG, ss, es, 11, 1) && Unstored(CONFIG, ss, es, 11, 1)
    ensures 1 in ss[17].calls && ss[17].calls[1] == Answered("b", "b")
    ensures 2 in ss[17].calls && ss[17].calls[2] == Answered("a", "a") && ss[17].db.Holds(RK, "a")
  {
    forall n: nat | n < 17 ensures Next(CONFIG, SplitAt(n), SplitEvent(n), SplitAt(n + 1)) { SplitSteps(n); }
    ss, es := FromIndices(CONFIG, SplitAt, SplitEvent, 17);
    forall n | 0 <= n < 17 ensures es[n].RunCommand? ==> es[n].fault.NoFault? { SplitHasNoFault(n); }
    SplitAnswers();
    assert ss[0] == SplitAt(0) && es[11] == SplitEvent(11);
    assert ss[11] == SplitAt(11) && ss[12] == SplitAt(12) && ss[17] == SplitAt(17);
  }

  // ---- A denied tenant that reaches a backend --------------------------------------

  function OpStore(cfg: Config, op: string, addr: string): Db {
    Db(map[OpRedisKey(cfg.prefix, op) := Entry(addr, cfg.opTtl)], 0)
  }

  /** One call remembers an operation, another resolves it for `key`. */
  function OpScene(db: Db, author: Call, reader: Call): State {
    State(db, map[], map[0 := author, 1 := reader], multiset{})
  }

  lemma OpReads(cfg: Config, author: Call, key: SessionKey, op: string, addr: string)
    requires op != "" && cfg.opTtl > 0
    ensures var db := OpStore(cfg, op, addr);
      && Next(cfg, OpScene(db, author, Call(ResolveOp(op, key), None, OpGet)), RunCommand(1, NoFault),
              OpScene(db, author, Call(ResolveOp(op, key), None, OpExpire(addr))))
      && Next(cfg, OpScene(db, author, Call(ResolveOp(op, key), None, OpExpire(addr))), RunCommand(1, NoFault),
              OpScene(db, author, Call(ResolveOp(op, key), None, Done(OpHit(addr)))))
  {
    var db, k := OpStore(cfg, op, addr), OpRedisKey(cfg.prefix, op);
    assert db.entries[k := Entry(addr, cfg.opTtl)] == db.entries;
    var c1, c2 := Call(ResolveOp(op, key), None, OpExpire(addr)), Call(ResolveOp(op, key), None, Done(OpHit(addr)));
    assert OpScene(db, author, c1).calls[1 := c2] == OpScene(db, author, c2).calls;
    assert OpScene(db, author, Call(ResolveOp(op, key), None, OpGet)).calls[1 := c1] == OpScene(db, author, c1).calls;
  }

  lemma OpWrites(cfg: Config, op: string, addr: string)
    requires op != "" && cfg.opTtl > 0
    ensures var empty := State(Db(map[], 0), map[], map[], multiset{});
      var c, c' := Call(RememberOp(op, addr), None, OpSet), Call(RememberOp(op, addr), None, Done(Finished));
      && Next(cfg, empty, Begin(0, RememberOp(op, addr)), empty.(calls := map[0 := c]))
      && Next(cfg, empty.(calls := map[0 := c]), RunCommand(0, NoFault),
              State(OpStore(cfg, op, addr), map[], map[0 := c'], multiset{}))
  {
    var c, c' := Call(RememberOp(op, addr), None, OpSet), Call(RememberOp(op, addr), None, Done(Finished));
    assert map[0 := c][0 := c'] == map[0 := c'];
    assert map[][OpRedisKey(cfg.prefix, op) := Entry(addr, cfg.opTtl)] == OpStore(cfg, op, addr).entries;
  }

  /** The index is consulted before the tenant: whatever the tenant, denied ones included, a resolve
      of any remembered operation is answered with its backend. */
  lemma DeniedTenantReachesBackend(cfg: Config, key: SessionKey, op: string, addr: string)
    returns (ss: seq<State>, es: seq<Event>)
    requires cfg.tenants.PoolFor(key.tenant).Err? && op != "" && cfg.opTtl > 0
    ensures IsFullRun(cfg, ss, es) && |ss| == 6
    ensures forall n | 0 <= n < 5 && es[n].RunCommand? :: es[n].fault.NoFault?
    ensures 1 in ss[5].calls && ss[5].calls[1] == Call(ResolveOp(op, key), None, Done(OpHit(addr)))
  {
    var empty := State(Db(map[], 0), map[], map[], multiset{});
    var c, c' := Call(RememberOp(op, addr), None, OpSet), Call(RememberOp(op, addr), None, Done(Finished));
    var r, db := ResolveOp(op, key), OpStore(cfg, op, addr);
    OpWrites(cfg, op, addr);
    OpReads(cfg, c', key, op, addr);
    var s2, s3 := State(db, map[], map[0 := c'], multiset{}), OpScene(db, c', Call(r, None, OpGet));
    assert s2.calls[1 := Call(r, None, OpGet)] == s3.calls;
    ss := [empty, empty.(calls := map[0 := c]), s2, s3, OpScene(db, c', Call(r, None, OpExpire(addr))),
           OpScene(db, c', Call(r, None, Done(OpHit(addr))))];
    es := [Begin(0, RememberOp(op, addr)), RunCommand(0, NoFault), Begin(1, r),
           RunCommand(1, NoFault), RunCommand(1, NoFault)];
  }
}
