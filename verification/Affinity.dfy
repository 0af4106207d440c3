/** The session-affinity protocol as a transition system. Any number of gateway replicas run any
    number of router calls against one Redis; every call advances one Redis command (or one local
    step) at a time, and the commands of different calls interleave freely. Commands can be lost or
    arrive late, replies can be lost, calls can be abandoned half-way, entries expire, and pools
    change. */
module Affinity {
  import opened Wrappers
  import opened Keys
  import opened Redis
  import opened Routing

  datatype Config = Config(prefix: string, sessionTtl: nat, opTtl: nat, tenants: TenantRouter)

  /** The entry points of the router. */
  datatype Request =
    | ResolveSession(key: SessionKey)
    | ResolveOp(op: string, key: SessionKey)
    | RememberOp(op: string, backend: string)
    | ForgetOp(op: string)
    | ForgetSession(key: SessionKey)
  {
    predicate Resolves() { ResolveSession? || ResolveOp? }
  }

  datatype Outcome =
    | Denied
    | NoBackend
    | Unbound(addr: string)                  // a pick for a key without a session id
    | OpHit(addr: string)                    // the operation index answered
    | Bound(addr: string, newlyBound: bool)  // session routing answered
    | Finished
    | Abandoned                              // the caller went away; nobody sees an answer

  /** Where a call stands. The states that wait on Redis name the command they wait for. */
  datatype Pc =
    | OpGet
    | OpExpire(hit: string)
    | Enter
    | UnboundPick
    | SessionGet
    | SessionExpire(hit: string)
    | Pick
    | Bind
    | Reread
    | OpSet
    | OpDel
    | SessionDel
    | Done(outcome: Outcome)
  {
    predicate Local() { Enter? || UnboundPick? || Pick? || Done? }
  }

  /** One router call: its arguments, the backend it picked (if it got that far), and its place. */
  datatype Call = Call(request: Request, picked: Option<string>, pc: Pc)

  /** `late` holds the commands that are under way although their callers have given up on them. */
  datatype State = State(db: Db, pools: map<PoolId, set<string>>, calls: map<nat, Call>, late: multiset<Command>) {
    function Members(p: PoolId): set<string> { if p in pools then pools[p] else {} }
  }

  datatype Event =
    | Begin(id: nat, request: Request)
    | EnterSession(id: nat)
    | PickBackend(id: nat, choice: Option<string>)
    | RunCommand(id: nat, fault: Fault)
    | Abandon(id: nat, fault: Fault)
    | Arrive(command: Command)
    | Pass(d: nat)
    | Resize(pools: map<PoolId, set<string>>)

  // ---- One call -----------------------------------------------------------

  /** The call as its caller issues it. Empty operation ids bypass the operation index. */
  function Opened(request: Request): Call {
    var pc :=
      match request
      case ResolveSession(_) => Enter
      case ResolveOp(op, _) => if op == "" then Enter else OpGet
      case RememberOp(op, _) => if op == "" then Done(Finished) else OpSet
      case ForgetOp(op) => if op == "" then Done(Finished) else OpDel
      case ForgetSession(_) => SessionDel;
    Call(request, None, pc)
  }

  /** A call sits only at places its request reaches. */
  predicate WellFormed(cfg: Config, c: Call) {
    match c.pc
    case OpGet => c.request.ResolveOp? && c.request.op != ""
    case OpExpire(_) => c.request.ResolveOp? && c.request.op != ""
    case Enter => c.request.Resolves()
    case UnboundPick => c.request.Resolves() && c.request.key.IsZero() && cfg.tenants.Serves(c.request.key.tenant)
    case SessionGet => RoutesBySession(cfg, c.request)
    case SessionExpire(_) => RoutesBySession(cfg, c.request)
    case Pick => RoutesBySession(cfg, c.request)
    case Bind => RoutesBySession(cfg, c.request) && c.picked.Some?
    case Reread => RoutesBySession(cfg, c.request) && c.picked.Some?
    case OpSet => c.request.RememberOp?
    case OpDel => c.request.ForgetOp?
    case SessionDel => c.request.ForgetSession?
    case Done(Bound(_, _)) => RoutesBySession(cfg, c.request)
    case Done(Unbound(_)) => c.request.Resolves() && c.request.key.IsZero() && cfg.tenants.Serves(c.request.key.tenant)
    case Done(OpHit(_)) => c.request.ResolveOp?
    case Done(Denied) => c.request.Resolves() && cfg.tenants.PoolFor(c.request.key.tenant).Err?
    case Done(NoBackend) => c.request.Resolves() && cfg.tenants.PoolFor(c.request.key.tenant).Ok?
    case Done(Finished) => !c.request.Resolves()
    case Done(Abandoned) => true
  }

  /** The request resolves a key that has a session id and a tenant with a pool. */
  predicate RoutesBySession(cfg: Config, r: Request) {
    r.Resolves() && !r.key.IsZero() && cfg.tenants.Serves(r.key.tenant)
  }

  /** The tenant check that precedes every session lookup. */
  function Entered(cfg: Config, c: Call): Call
    requires c.request.Resolves()
  {
    match cfg.tenants.PoolFor(c.request.key.tenant)
    case Err(_) => c.(pc := Done(Denied))
    case Ok(None) => c.(pc := Done(NoBackend))
    case Ok(Some(_)) => c.(pc := if c.request.key.IsZero() then UnboundPick else SessionGet)
  }

  /** A pool hands out one of its current members, and nothing only when it has none. */
  predicate PickAllowed(members: set<string>, choice: Option<string>) {
    match choice
    case None => members == {}
    case Some(addr) => addr in members
  }

  function AfterPick(c: Call, choice: Option<string>): Call
    requires c.pc.Pick? || c.pc.UnboundPick?
  {
    match choice
    case None => c.(pc := Done(NoBackend))
    case Some(addr) => if c.pc.Pick? then c.(picked := Some(addr), pc := Bind) else c.(pc := Done(Unbound(addr)))
  }

  /** The command a call waits on. */
  function Pending(cfg: Config, c: Call): Command
    requires WellFormed(cfg, c) && !c.pc.Local()
  {
    match c.pc
    case OpGet => Get(OpRedisKey(cfg.prefix, c.request.op))
    case OpExpire(_) => Expire(OpRedisKey(cfg.prefix, c.request.op), cfg.opTtl)
    case SessionGet => Get(SessionRedisKey(cfg.prefix, c.request.key))
    case SessionExpire(_) => Expire(SessionRedisKey(cfg.prefix, c.request.key), cfg.sessionTtl)
    case Bind => SetNx(SessionRedisKey(cfg.prefix, c.request.key), c.picked.value, cfg.sessionTtl)
    case Reread => Get(SessionRedisKey(cfg.prefix, c.request.key))
    case OpSet => Set(OpRedisKey(cfg.prefix, c.request.op), c.request.backend, cfg.opTtl)
    case OpDel => Del(OpRedisKey(cfg.prefix, c.request.op))
    case SessionDel => Del(SessionRedisKey(cfg.prefix, c.request.key))
  }

  /** What the call does with the reply. Errors never surface: a failed lookup counts as a miss,
      and a bind that cannot learn the winner answers with the caller's own pick. */
  function AfterReply(c: Call, reply: Reply): Call
    requires !c.pc.Local() && (c.pc.Bind? || c.pc.Reread? ==> c.picked.Some?)
  {
    match c.pc
    case OpGet => c.(pc := if reply.Bulk? then OpExpire(reply.value) else Enter)
    case OpExpire(hit) => c.(pc := Done(OpHit(hit)))
    case SessionGet => c.(pc := if reply.Bulk? then SessionExpire(reply.value) else Pick)
    case SessionExpire(hit) => c.(pc := Done(Bound(hit, false)))
    case Bind =>
      if reply.Nil? then c.(pc := Reread) else c.(pc := Done(Bound(c.picked.value, true)))
    case Reread =>
      var winner := if reply.Bulk? then reply.value else c.picked.value;
      c.(pc := Done(Bound(winner, winner == c.picked.value)))
    case _ => c.(pc := Done(Finished))
  }

  // ---- The whole system ---------------------------------------------------

  ghost predicate OnSession(cfg: Config, key: string) { exists k: SessionKey :: key == SessionRedisKey(cfg.prefix, k) }

  ghost predicate OnOp(cfg: Config, key: string) { exists op: string :: key == OpRedisKey(cfg.prefix, op) }

  /** A command that some call sends. */
  ghost predicate Issued(cfg: Config, c: Command) {
    match c
    case Get(_) => true
    case Expire(key, ttl) => (OnSession(cfg, key) && ttl == cfg.sessionTtl) || (OnOp(cfg, key) && ttl == cfg.opTtl)
    case SetNx(key, _, ttl) => OnSession(cfg, key) && ttl == cfg.sessionTtl
    case Set(key, _, ttl) => OnOp(cfg, key) && ttl == cfg.opTtl
    case Del(_) => true
  }

  ghost predicate Valid(cfg: Config, s: State) {
    && s.db.Timely()
    && (forall id <- s.calls :: WellFormed(cfg, s.calls[id]))
    && (forall c | c in s.late :: Issued(cfg, c))
  }

  /** The call is in flight and waits on Redis. */
  predicate Waiting(cfg: Config, s: State, id: nat) {
    id in s.calls && WellFormed(cfg, s.calls[id]) && !s.calls[id].pc.Local()
  }

  function Issue(cfg: Config, s: State, id: nat, fault: Fault): (Db, Reply)
    requires Waiting(cfg, s, id)
  {
    Exec(s.db, Pending(cfg, s.calls[id]), fault)
  }

  /** The commands under way after the call has been through with its own. */
  function StillLate(cfg: Config, s: State, id: nat, fault: Fault): multiset<Command>
    requires Waiting(cfg, s, id)
  {
    if fault.Delayed? then s.late + multiset{Pending(cfg, s.calls[id])} else s.late
  }

  ghost predicate Next(cfg: Config, s: State, e: Event, s': State) {
    match e
    case Begin(id, request) =>
      id !in s.calls && s' == s.(calls := s.calls[id := Opened(request)])
    case EnterSession(id) =>
      && id in s.calls && s.calls[id].pc.Enter? && s.calls[id].request.Resolves()
      && s' == s.(calls := s.calls[id := Entered(cfg, s.calls[id])])
    case PickBackend(id, choice) =>
      && id in s.calls && (s.calls[id].pc.Pick? || s.calls[id].pc.UnboundPick?)
      && s.calls[id].request.Resolves() && cfg.tenants.Serves(s.calls[id].request.key.tenant)
      && PickAllowed(s.Members(cfg.tenants.ServingPool(s.calls[id].request.key.tenant)), choice)
      && s' == s.(calls := s.calls[id := AfterPick(s.calls[id], choice)])
    case RunCommand(id, fault) =>
      && Waiting(cfg, s, id)
      && var (db, reply) := Issue(cfg, s, id, fault);
         s' == s.(db := db, late := StillLate(cfg, s, id, fault),
                  calls := s.calls[id := AfterReply(s.calls[id], reply)])
    case Abandon(id, fault) =>
      && id in s.calls && !s.calls[id].pc.Done?
      && s' == s.(db := if Waiting(cfg, s, id) then Issue(cfg, s, id, fault).0 else s.db,
                  late := if Waiting(cfg, s, id) then StillLate(cfg, s, id, fault) else s.late,
                  calls := s.calls[id := s.calls[id].(pc := Done(Abandoned))])
    case Arrive(c) => c in s.late && s' == s.(db := Apply(s.db, c).0, late := s.late - multiset{c})
    case Pass(d) => s' == s.(db := Tick(s.db, d))
    case Resize(pools) => s' == s.(pools := pools)
  }

  ghost predicate IsRun(cfg: Config, ss: seq<State>, es: seq<Event>) {
    && |ss| == |es| + 1
    && (forall i {:trigger es[i]} | 0 <= i < |es| :: Next(cfg, ss[i], es[i], ss[i + 1]))
  }

  /** A run in which nothing is in flight at the start. What Redis holds by then is arbitrary. */
  ghost predicate IsFullRun(cfg: Config, ss: seq<State>, es: seq<Event>) {
    IsRun(cfg, ss, es) && ss[0].calls == map[] && ss[0].late == multiset{} && ss[0].db.Timely()
  }

  /** The event is a step of some call. */
  predicate IsStep(e: Event) { !e.Arrive? && !e.Pass? && !e.Resize? }

  /** The event is a step of call `id`. */
  predicate StepOf(e: Event, id: nat) { IsStep(e) && e.id == id }

  /** Every step of a call leads to a place its request reaches. */
  lemma CallStaysWellFormed(cfg: Config, c: Call, choice: Option<string>, reply: Reply)
    requires WellFormed(cfg, c)
    ensures c.request.Resolves() && c.pc.Enter? ==> WellFormed(cfg, Entered(cfg, c))
    ensures c.pc.Pick? || c.pc.UnboundPick? ==> WellFormed(cfg, AfterPick(c, choice))
    ensures !c.pc.Local() ==> WellFormed(cfg, AfterReply(c, reply))
  {
  }

  lemma PendingIssued(cfg: Config, c: Call)
    requires WellFormed(cfg, c) && !c.pc.Local()
    ensures Issued(cfg, Pending(cfg, c))
  {
    if c.pc.OpGet? || c.pc.OpExpire? || c.pc.OpSet? || c.pc.OpDel? {
      assert OnOp(cfg, OpRedisKey(cfg.prefix, c.request.op));
    } else {
      assert OnSession(cfg, SessionRedisKey(cfg.prefix, c.request.key));
    }
  }

  lemma CommandValid(cfg: Config, s: State, id: nat, fault: Fault)
    requires Valid(cfg, s) && Waiting(cfg, s, id)
    ensures Issue(cfg, s, id, fault).0.Timely()
    ensures forall c | c in StillLate(cfg, s, id, fault) :: Issued(cfg, c)
  {
    PendingIssued(cfg, s.calls[id]);
    ApplyTimely(s.db, Pending(cfg, s.calls[id]));
  }

  lemma StepValid(cfg: Config, s: State, e: Event, s': State)
    requires Valid(cfg, s) && Next(cfg, s, e, s')
    ensures Valid(cfg, s')
  {
    match e
    case EnterSession(id) => CallStaysWellFormed(cfg, s.calls[id], None, Nil);
    case PickBackend(id, choice) => CallStaysWellFormed(cfg, s.calls[id], choice, Nil);
    case RunCommand(id, fault) =>
      CallStaysWellFormed(cfg, s.calls[id], None, Issue(cfg, s, id, fault).1);
      CommandValid(cfg, s, id, fault);
    case Abandon(id, fault) =>
      if Waiting(cfg, s, id) { CommandValid(cfg, s, id, fault); }
    case Arrive(c) => ApplyTimely(s.db, c);
    case _ =>
  }

  lemma {:induction false} RunValid(cfg: Config, ss: seq<State>, es: seq<Event>, n: nat)
    requires IsFullRun(cfg, ss, es) && n < |ss|
    ensures Valid(cfg, ss[n])
  {
    if n == 0 {
    } else {
      RunValid(cfg, ss, es, n - 1);
      StepValid(cfg, ss[n - 1], es[n - 1], ss[n]);
    }
  }

  // ---- What one step can do to a session entry ----------------------------

  /** The call routes (or would route) a session stored under `rk`. */
  predicate RoutesTo(cfg: Config, c: Call, rk: string) {
    c.request.Resolves() && SessionRedisKey(cfg.prefix, c.request.key) == rk
  }

  /** The command that the server executes in this step, if any. */
  function Executed(cfg: Config, s: State, e: Event): Option<Command> {
    match e
    case RunCommand(id, fault) =>
      if Waiting(cfg, s, id) && fault.Runs() then Some(Pending(cfg, s.calls[id])) else None
    case Abandon(id, fault) =>
      if Waiting(cfg, s, id) && fault.Runs() then Some(Pending(cfg, s.calls[id])) else None
    case Arrive(c) => Some(c)
    case _ => None
  }

  /** The server executes a SET NX on `rk`. */
  predicate TriesToBind(cfg: Config, s: State, e: Event, rk: string) {
    var c := Executed(cfg, s, e);
    c.Some? && c.value.SetNx? && c.value.key == rk && c.value.ttl > 0
  }

  predicate Inserts(cfg: Config, s: State, e: Event, rk: string) {
    TriesToBind(cfg, s, e, rk) && !s.db.Has(rk)
  }

  /** The entry under `rk` goes away in this step. */
  predicate Loses(s: State, s': State, rk: string) { s.db.Has(rk) && !s'.db.Has(rk) }

  /** Except for the passing of time, only the executed command changes the store. */
  lemma StoreEffect(cfg: Config, s: State, e: Event, s': State)
    requires Valid(cfg, s) && Next(cfg, s, e, s') && !e.Pass?
    ensures var c := Executed(cfg, s, e);
      && s'.db == (if c.Some? then Apply(s.db, c.value).0 else s.db)
      && (c.Some? ==> Issued(cfg, c.value))
  {
    if (e.RunCommand? || e.Abandon?) && Waiting(cfg, s, e.id) { PendingIssued(cfg, s.calls[e.id]); }
  }

  /** The server executes a command on `key`. */
  predicate Concerns(cfg: Config, s: State, e: Event, key: string) {
    Executed(cfg, s, e).Some? && Executed(cfg, s, e).value.key == key
  }

  /** A step that neither executes a command on `key` nor lets time pass leaves the entry alone. */
  lemma EntryUntouched(cfg: Config, s: State, e: Event, s': State, key: string)
    requires Valid(cfg, s) && Next(cfg, s, e, s') && !e.Pass? && !Concerns(cfg, s, e, key)
    ensures SameAt(s.db, s'.db, key) && s'.db.now == s.db.now
  {
    StoreEffect(cfg, s, e, s');
    if Executed(cfg, s, e).Some? { ApplyElsewhere(s.db, Executed(cfg, s, e).value, key); }
  }

  /** Commands on a session key are never those of the operation index. */
  lemma SessionCommand(cfg: Config, c: Command, k: SessionKey)
    requires Issued(cfg, c) && c.key == SessionRedisKey(cfg.prefix, k)
    ensures !c.Set? && (c.Expire? || c.SetNx? ==> c.ttl == cfg.sessionTtl)
  {
    forall op: string ensures c.key != OpRedisKey(cfg.prefix, op) { SessionAndOpKeysDiffer(cfg.prefix, k, op); }
  }

  /** Session entries appear only through SET NX, with the value it carries, and never change
      value while they exist. */
  lemma SessionEntryEffect(cfg: Config, k: SessionKey, s: State, e: Event, s': State)
    requires Valid(cfg, s) && Next(cfg, s, e, s')
    ensures var rk := SessionRedisKey(cfg.prefix, k);
      && (s.db.Has(rk) && s'.db.Has(rk) ==> s'.db.entries[rk].value == s.db.entries[rk].value)
      && (!s.db.Has(rk) ==> (s'.db.Has(rk) <==> Inserts(cfg, s, e, rk)))
      && (Inserts(cfg, s, e, rk) ==> s'.db.Holds(rk, Executed(cfg, s, e).value.value))
  {
    var rk := SessionRedisKey(cfg.prefix, k);
    if !e.Pass? {
      if Concerns(cfg, s, e, rk) {
        StoreEffect(cfg, s, e, s');
        SessionCommand(cfg, Executed(cfg, s, e).value, k);
      } else {
        EntryUntouched(cfg, s, e, s', rk);
      }
    }
  }
}
