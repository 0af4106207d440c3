/** The two affinity stores as objects, and the sense in which the Redis store implements the
    in-process one. */
module Stores {
  import opened Wrappers
  import opened Keys
  import opened Redis

  datatype StoreCall =
    | LookupSession(key: SessionKey)
    | BindSession(key: SessionKey, backend: string)
    | ForgetSession(key: SessionKey)
    | LookupOp(op: string)
    | BindOp(op: string, backend: string)
    | ForgetOp(op: string)
  {
    predicate OnSession() { LookupSession? || BindSession? || ForgetSession? }
  }

  datatype Answer = Maybe(found: Option<string>) | Winner(addr: string) | Done

  // ---- In process --------------------------------------------------------------

  datatype Tables = Tables(sessions: map<SessionKey, string>, ops: map<string, string>)

  function OnTables(t: Tables, c: StoreCall): (Tables, Answer) {
    match c
    case LookupSession(k) => (t, Maybe(Find(t.sessions, k)))
    case BindSession(k, b) =>
      if k in t.sessions then (t, Winner(t.sessions[k])) else (t.(sessions := t.sessions[k := b]), Winner(b))
    case ForgetSession(k) => (t.(sessions := t.sessions - {k}), Done)
    case LookupOp(op) => (t, Maybe(Find(t.ops, op)))
    case BindOp(op, b) => (t.(ops := t.ops[op := b]), Done)
    case ForgetOp(op) => (t.(ops := t.ops - {op}), Done)
  }

  class MemoryStore {
    var sessions: map<SessionKey, string>
    var ops: map<string, string>

    ghost function View(): Tables
      reads this
    {
      Tables(sessions, ops)
    }

    constructor ()
      ensures View() == Tables(map[], map[])
    {
      sessions, ops := map[], map[];
    }

    method Lookup(key: SessionKey) returns (addr: Option<string>)
      ensures (View(), Maybe(addr)) == OnTables(View(), LookupSession(key))
    {
      addr := if key in sessions then Some(sessions[key]) else None;
    }

    /** The binding that exists afterwards; an existing one is never replaced. */
    method BindIfAbsent(key: SessionKey, backend: string) returns (addr: string)
      modifies this`sessions
      ensures (View(), Winner(addr)) == OnTables(old(View()), BindSession(key, backend))
      ensures key in sessions && sessions[key] == addr
    {
      if key !in sessions { sessions := sessions[key := backend]; }
      addr := sessions[key];
    }

    method Forget(key: SessionKey)
      modifies this`sessions
      ensures View() == OnTables(old(View()), ForgetSession(key)).0
    {
      sessions := sessions - {key};
    }

    method FindOp(op: string) returns (addr: Option<string>)
      ensures (View(), Maybe(addr)) == OnTables(View(), LookupOp(op))
    {
      addr := if op in ops then Some(ops[op]) else None;
    }

    method Remember(op: string, backend: string)
      modifies this`ops
      ensures View() == OnTables(old(View()), BindOp(op, backend)).0
    {
      ops := ops[op := backend];
    }

    method ForgetOperation(op: string)
      modifies this`ops
      ensures View() == OnTables(old(View()), ForgetOp(op)).0
    {
      ops := ops - {op};
    }
  }

  // ---- Over Redis ----------------------------------------------------------------

  datatype StoreConfig = StoreConfig(prefix: string, sessionTtl: nat, opTtl: nat)

  /** A lookup: GET, and EXPIRE on a hit. */
  function GetAndTouch(db: Db, key: string, ttl: nat): (Db, Answer) {
    match Apply(db, Get(key)).1
    case Bulk(v) => (Apply(db, Expire(key, ttl)).0, Maybe(Some(v)))
    case _ => (db, Maybe(None))
  }

  /** A bind: SET NX EX, and GET on a miss. */
  function SetOrGet(db: Db, key: string, backend: string, ttl: nat): (Db, Answer) {
    var (db1, reply) := Apply(db, SetNx(key, backend, ttl));
    if !reply.Nil? then (db1, Winner(backend))
    else
      var got := Apply(db1, Get(key)).1;
      (db1, Winner(if got.Bulk? then got.value else backend))
  }

  /** A whole call without failures and without interference. */
  function OnRedis(cfg: StoreConfig, db: Db, c: StoreCall): (Db, Answer) {
    match c
    case LookupSession(k) => GetAndTouch(db, SessionRedisKey(cfg.prefix, k), cfg.sessionTtl)
    case BindSession(k, b) => SetOrGet(db, SessionRedisKey(cfg.prefix, k), b, cfg.sessionTtl)
    case ForgetSession(k) => (Apply(db, Del(SessionRedisKey(cfg.prefix, k))).0, Done)
    case LookupOp(op) => GetAndTouch(db, OpRedisKey(cfg.prefix, op), cfg.opTtl)
    case BindOp(op, b) => (Apply(db, Set(OpRedisKey(cfg.prefix, op), b, cfg.opTtl)).0, Done)
    case ForgetOp(op) => (Apply(db, Del(OpRedisKey(cfg.prefix, op))).0, Done)
  }

  /** The server. A delayed command is a `Run` of its own when it arrives. */
  class RedisServer {
    var db: Db

    constructor (now: int)
      ensures db == Db(map[], now)
    {
      db := Db(map[], now);
    }

    method Run(c: Command, fault: Fault) returns (reply: Reply)
      modifies this
      ensures (db, reply) == Exec(old(db), c, fault)
    {
      if !fault.Runs() { return Failed; }
      var (after, r) := Apply(db, c);
      db := after;
      reply := if fault.NoFault? then r else Failed;
    }
  }

  /** Only the entry under `key` may differ. */
  ghost predicate SameElsewhere(a: Db, b: Db, key: string) {
    && a.now == b.now
    && forall k | k != key :: Find(a.entries, k) == Find(b.entries, k)
  }

  class RedisStore {
    const cfg: StoreConfig
    const server: RedisServer

    constructor (cfg: StoreConfig, server: RedisServer)
      ensures this.cfg == cfg && this.server == server
    {
      this.cfg := cfg;
      this.server := server;
    }

    /** GET, and EXPIRE on a hit. A failed GET is a miss; a failed EXPIRE is ignored. */
    method Fetch(key: string, ttl: nat, fault: Fault, expireFault: Fault) returns (addr: Option<string>)
      modifies server
      ensures addr.Some? ==> old(server.db).Holds(key, addr.value)
      ensures addr.None? <==> (fault != NoFault || !old(server.db).Has(key))
      ensures addr.None? ==> server.db == old(server.db)
      ensures SameElsewhere(old(server.db), server.db, key)
      ensures ttl > 0 ==> forall v :: old(server.db).Holds(key, v) <==> server.db.Holds(key, v)
      ensures addr.Some? && expireFault.Runs() && ttl > 0 ==>
        Find(server.db.entries, key) == Some(Entry(addr.value, old(server.db).now + ttl))
      ensures fault == expireFault == NoFault ==> (server.db, Maybe(addr)) == GetAndTouch(old(server.db), key, ttl)
    {
      var reply := server.Run(Get(key), fault);
      match reply {
        case Bulk(v) =>
          var _ := server.Run(Expire(key, ttl), expireFault);
          addr := Some(v);
        case _ => addr := None;
      }
    }

    method Lookup(key: SessionKey, fault: Fault, expireFault: Fault) returns (addr: Option<string>)
      modifies server
      ensures addr.None? <==> (fault != NoFault || !old(server.db).Has(SessionRedisKey(cfg.prefix, key)))
      ensures addr.Some? ==> old(server.db).Holds(SessionRedisKey(cfg.prefix, key), addr.value)
      ensures addr.Some? && expireFault.Runs() && cfg.sessionTtl > 0 ==>
        Find(server.db.entries, SessionRedisKey(cfg.prefix, key))
        == Some(Entry(addr.value, old(server.db).now + cfg.sessionTtl))
      ensures fault == expireFault == NoFault ==>
        (server.db, Maybe(addr)) == OnRedis(cfg, old(server.db), LookupSession(key))
    {
      addr := Fetch(SessionRedisKey(cfg.prefix, key), cfg.sessionTtl, fault, expireFault);
    }

    /** SET NX EX, and GET on a miss. The answer is what was stored, or the caller's own backend;
        an existing binding is never replaced, and without failures the answer is what is stored. */
    method BindIfAbsent(key: SessionKey, backend: string, fault: Fault, getFault: Fault) returns (addr: string)
      modifies server
      ensures var rk := SessionRedisKey(cfg.prefix, key);
        && SameElsewhere(old(server.db), server.db, rk)
        && (addr == backend || old(server.db).Holds(rk, addr))
        && (old(server.db).Has(rk) ==> server.db == old(server.db))
        && (fault == getFault == NoFault && cfg.sessionTtl > 0 ==> server.db.Holds(rk, addr))
        && (!old(server.db).Has(rk) && fault.Runs() && cfg.sessionTtl > 0 ==>
            Find(server.db.entries, rk) == Some(Entry(backend, old(server.db).now + cfg.sessionTtl)))
      ensures fault == getFault == NoFault ==>
        (server.db, Winner(addr)) == OnRedis(cfg, old(server.db), BindSession(key, backend))
    {
      var rk := SessionRedisKey(cfg.prefix, key);
      var reply := server.Run(SetNx(rk, backend, cfg.sessionTtl), fault);
      match reply {
        case Nil =>
          var got := server.Run(Get(rk), getFault);
          addr := if got.Bulk? then got.value else backend;
        case _ => addr := backend;
      }
    }

    method Forget(key: SessionKey, fault: Fault)
      modifies server
      ensures SameElsewhere(old(server.db), server.db, SessionRedisKey(cfg.prefix, key))
      ensures server.db.Has(SessionRedisKey(cfg.prefix, key))
         <==> !fault.Runs() && old(server.db).Has(SessionRedisKey(cfg.prefix, key))
      ensures fault == NoFault ==> server.db == OnRedis(cfg, old(server.db), ForgetSession(key)).0
    {
      var _ := server.Run(Del(SessionRedisKey(cfg.prefix, key)), fault);
    }

    method FindOp(op: string, fault: Fault, expireFault: Fault) returns (addr: Option<string>)
      modifies server
      ensures addr.None? <==> (fault != NoFault || !old(server.db).Has(OpRedisKey(cfg.prefix, op)))
      ensures addr.Some? ==> old(server.db).Holds(OpRedisKey(cfg.prefix, op), addr.value)
      ensures addr.Some? && expireFault.Runs() && cfg.opTtl > 0 ==>
        Find(server.db.entries, OpRedisKey(cfg.prefix, op)) == Some(Entry(addr.value, old(server.db).now + cfg.opTtl))
      ensures fault == expireFault == NoFault ==> (server.db, Maybe(addr)) == OnRedis(cfg, old(server.db), LookupOp(op))
    {
      addr := Fetch(OpRedisKey(cfg.prefix, op), cfg.opTtl, fault, expireFault);
    }

    /** Operations are overwritten; a lost command leaves the old binding. */
    method Remember(op: string, backend: string, fault: Fault)
      modifies server
      ensures SameElsewhere(old(server.db), server.db, OpRedisKey(cfg.prefix, op))
      ensures fault.Runs() && cfg.opTtl > 0 ==>
        Find(server.db.entries, OpRedisKey(cfg.prefix, op)) == Some(Entry(backend, old(server.db).now + cfg.opTtl))
      ensures !fault.Runs() ==> server.db == old(server.db)
      ensures fault == NoFault ==> server.db == OnRedis(cfg, old(server.db), BindOp(op, backend)).0
    {
      var _ := server.Run(Set(OpRedisKey(cfg.prefix, op), backend, cfg.opTtl), fault);
    }

    method ForgetOperation(op: string, fault: Fault)
      modifies server
      ensures SameElsewhere(old(server.db), server.db, OpRedisKey(cfg.prefix, op))
      ensures server.db.Has(OpRedisKey(cfg.prefix, op))
         <==> !fault.Runs() && old(server.db).Has(OpRedisKey(cfg.prefix, op))
      ensures fault == NoFault ==> server.db == OnRedis(cfg, old(server.db), ForgetOp(op)).0
    {
      var _ := server.Run(Del(OpRedisKey(cfg.prefix, op)), fault);
    }
  }

  // ---- The Redis store implements the in-process store -------------------------------

  /** Whole calls one after the other, with time passing in between. */
  datatype Step = Do(call: StoreCall) | Wait(d: nat)

  function RedisAfter(cfg: StoreConfig, steps: seq<Step>): Db {
    if steps == [] then Db(map[], 0)
    else
      var db := RedisAfter(cfg, steps[..|steps| - 1]);
      match steps[|steps| - 1]
      case Do(c) => OnRedis(cfg, db, c).0
      case Wait(d) => Tick(db, d)
  }

  function RedisAnswers(cfg: StoreConfig, steps: seq<Step>): seq<Answer> {
    if steps == [] then []
    else
      var before := steps[..|steps| - 1];
      match steps[|steps| - 1]
      case Do(c) => RedisAnswers(cfg, before) + [OnRedis(cfg, RedisAfter(cfg, before), c).1]
      case Wait(_) => RedisAnswers(cfg, before)
  }

  function TablesAfter(steps: seq<Step>): Tables {
    if steps == [] then Tables(map[], map[])
    else
      var t := TablesAfter(steps[..|steps| - 1]);
      match steps[|steps| - 1]
      case Do(c) => OnTables(t, c).0
      case Wait(_) => t
  }

  function TablesAnswers(steps: seq<Step>): seq<Answer> {
    if steps == [] then []
    else
      var before := steps[..|steps| - 1];
      match steps[|steps| - 1]
      case Do(c) => TablesAnswers(before) + [OnTables(TablesAfter(before), c).1]
      case Wait(_) => TablesAnswers(before)
  }

  ghost predicate NothingExpires(cfg: StoreConfig, steps: seq<Step>) {
    steps != [] ==>
      var before := steps[..|steps| - 1];
      && NothingExpires(cfg, before)
      && (steps[|steps| - 1].Wait? ==>
           Tick(RedisAfter(cfg, before), steps[|steps| - 1].d).entries == RedisAfter(cfg, before).entries)
  }

  function Value(db: Db, key: string): Option<string> {
    if key in db.entries then Some(db.entries[key].value) else None
  }

  ghost predicate Mirrors(cfg: StoreConfig, db: Db, t: Tables) {
    && (forall k: SessionKey | k.Clean() :: Value(db, SessionRedisKey(cfg.prefix, k)) == Find(t.sessions, k))
    && (forall op: string :: Value(db, OpRedisKey(cfg.prefix, op)) == Find(t.ops, op))
  }

  lemma SessionCallMirrors(cfg: StoreConfig, db: Db, t: Tables, c: StoreCall)
    requires cfg.sessionTtl > 0 && Mirrors(cfg, db, t) && c.OnSession() && c.key.Clean()
    ensures OnRedis(cfg, db, c).1 == OnTables(t, c).1
    ensures Mirrors(cfg, OnRedis(cfg, db, c).0, OnTables(t, c).0)
  {
    var rk := SessionRedisKey(cfg.prefix, c.key);
    assert Value(db, rk) == Find(t.sessions, c.key);
    var db', t' := OnRedis(cfg, db, c).0, OnTables(t, c).0;
    assert Value(db', rk) == Find(t'.sessions, c.key);
    forall k: SessionKey | k.Clean() ensures Value(db', SessionRedisKey(cfg.prefix, k)) == Find(t'.sessions, k) {
      if k != c.key {
        if SessionRedisKey(cfg.prefix, k) == rk { SessionKeyInjective(cfg.prefix, k, c.key); }
        assert Value(db, SessionRedisKey(cfg.prefix, k)) == Find(t.sessions, k);
      }
    }
    forall op: string ensures Value(db', OpRedisKey(cfg.prefix, op)) == Find(t'.ops, op) {
      SessionAndOpKeysDiffer(cfg.prefix, c.key, op);
      assert Value(db, OpRedisKey(cfg.prefix, op)) == Find(t.ops, op);
    }
  }

  lemma OpCallMirrors(cfg: StoreConfig, db: Db, t: Tables, c: StoreCall)
    requires cfg.opTtl > 0 && Mirrors(cfg, db, t) && !c.OnSession()
    ensures OnRedis(cfg, db, c).1 == OnTables(t, c).1
    ensures Mirrors(cfg, OnRedis(cfg, db, c).0, OnTables(t, c).0)
  {
    var ok := OpRedisKey(cfg.prefix, c.op);
    assert Value(db, ok) == Find(t.ops, c.op);
    var db', t' := OnRedis(cfg, db, c).0, OnTables(t, c).0;
    assert Value(db', ok) == Find(t'.ops, c.op);
    forall k: SessionKey | k.Clean() ensures Value(db', SessionRedisKey(cfg.prefix, k)) == Find(t'.sessions, k) {
      SessionAndOpKeysDiffer(cfg.prefix, k, c.op);
      assert Value(db, SessionRedisKey(cfg.prefix, k)) == Find(t.sessions, k);
    }
    forall op: string ensures Value(db', OpRedisKey(cfg.prefix, op)) == Find(t'.ops, op) {
      OpKeyInjective(cfg.prefix, op, c.op);
      assert Value(db, OpRedisKey(cfg.prefix, op)) == Find(t.ops, op);
    }
  }

  /** Store refinement: with clean session keys, positive TTLs, no failure and no expiry, every
      sequence of whole calls to the Redis store is answered as the in-process store answers it. */
  lemma {:induction false} RedisStoreRefinesMemoryStore(cfg: StoreConfig, steps: seq<Step>)
    requires cfg.sessionTtl > 0 && cfg.opTtl > 0 && NothingExpires(cfg, steps)
    requires forall s <- steps | s.Do? && s.call.OnSession() :: s.call.key.Clean()
    ensures RedisAnswers(cfg, steps) == TablesAnswers(steps)
    ensures Mirrors(cfg, RedisAfter(cfg, steps), TablesAfter(steps))
  {
    if steps == [] {
    } else {
      var before, last := steps[..|steps| - 1], steps[|steps| - 1];
      assert last in steps && forall s <- before :: s in steps;
      RedisStoreRefinesMemoryStore(cfg, before);
      var db, t := RedisAfter(cfg, before), TablesAfter(before);
      match last
      case Do(c) =>
        if c.OnSession() { SessionCallMirrors(cfg, db, t, c); } else { OpCallMirrors(cfg, db, t, c); }
      case Wait(d) =>
        var db' := Tick(db, d);
        assert forall key :: Value(db', key) == Value(db, key);
    }
  }

  /** The stores agree on every sequence of calls whose session keys are clean or equal to `k`. */
  ghost predicate StoresAgreeWith(cfg: StoreConfig, k: SessionKey) {
    forall steps: seq<Step> |
      && NothingExpires(cfg, steps)
      && (forall s <- steps | s.Do? && s.call.OnSession() :: s.call.key.Clean() || s.call.key == k) ::
      RedisAnswers(cfg, steps) == TablesAnswers(steps)
  }

  lemma OneCall(cfg: StoreConfig, c: StoreCall)
    ensures var (db, a) := OnRedis(cfg, Db(map[], 0), c);
      RedisAfter(cfg, [Do(c)]) == db && RedisAnswers(cfg, [Do(c)]) == [a]
    ensures var (t, a) := OnTables(Tables(map[], map[]), c);
      TablesAfter([Do(c)]) == t && TablesAnswers([Do(c)]) == [a]
    ensures NothingExpires(cfg, [Do(c)])
  {
    assert [Do(c)][..0] == [];
  }

  lemma TwoCalls(cfg: StoreConfig, c: StoreCall, d: StoreCall)
    ensures var (db, a) := OnRedis(cfg, Db(map[], 0), c);
      RedisAnswers(cfg, [Do(c), Do(d)]) == [a, OnRedis(cfg, db, d).1]
    ensures var (t, a) := OnTables(Tables(map[], map[]), c);
      TablesAnswers([Do(c), Do(d)]) == [a, OnTables(t, d).1]
    ensures NothingExpires(cfg, [Do(c), Do(d)])
  {
    var steps := [Do(c), Do(d)];
    OneCall(cfg, c);
    assert |steps| == 2 && steps[..|steps| - 1] == [Do(c)] && steps[|steps| - 1] == Do(d);
  }

  lemma BindThenLookup(cfg: StoreConfig, a: SessionKey, b: SessionKey)
    requires cfg.sessionTtl > 0 && a != b && SessionRedisKey(cfg.prefix, a) == SessionRedisKey(cfg.prefix, b)
    ensures OnRedis(cfg, OnRedis(cfg, Db(map[], 0), BindSession(a, "")).0, LookupSession(b)).1 == Maybe(Some(""))
    ensures OnTables(OnTables(Tables(map[], map[]), BindSession(a, "")).0, LookupSession(b)).1 == Maybe(None)
  {
  }

  lemma DirtyKeyDiverges(cfg: StoreConfig, k: SessionKey) returns (steps: seq<Step>)
    requires cfg.sessionTtl > 0 && !k.Clean()
    ensures NothingExpires(cfg, steps)
    ensures forall s <- steps | s.Do? && s.call.OnSession() :: s.call.key.Clean() || s.call.key == k
    ensures RedisAnswers(cfg, steps) != TablesAnswers(steps)
  {
    SessionKeyRoundTrip(cfg.prefix, k);
    var other := DecodeSession(cfg.prefix, SessionRedisKey(cfg.prefix, k)).value;
    var bind, lookup := BindSession(other, ""), LookupSession(k);
    steps := [Do(bind), Do(lookup)];
    TwoCalls(cfg, bind, lookup);
    BindThenLookup(cfg, other, k);
    assert RedisAnswers(cfg, steps)[1] != TablesAnswers(steps)[1];
  }

  /** The condition on keys is exact. */
  lemma StoresAgreeIffKeyClean(cfg: StoreConfig, k: SessionKey)
    requires cfg.sessionTtl > 0 && cfg.opTtl > 0
    ensures StoresAgreeWith(cfg, k) <==> k.Clean()
  {
    if k.Clean() {
      forall steps: seq<Step> |
        && NothingExpires(cfg, steps)
        && (forall s <- steps | s.Do? && s.call.OnSession() :: s.call.key.Clean() || s.call.key == k)
        ensures RedisAnswers(cfg, steps) == TablesAnswers(steps)
      {
        RedisStoreRefinesMemoryStore(cfg, steps);
      }
    } else {
      var steps := DirtyKeyDiverges(cfg, k);
    }
  }
}
