/** The cache of verification keys, looked up by key id and refreshed from the identity provider on
    a miss. Any number of callers share the cache; a refresh runs under one lock, after a second
    look at the cache, and not sooner than a floor after the last successful refresh. */
module KeyCache {
  import opened Wrappers

  type Keys = map<string, string>

  /** What a caller that meets no other leaves behind and gets: the keys, the instant of the last refresh,
      and the answer, when it checks the floor at `now` and its fetch would end at `later`. */
  function KeyForResult(floor: nat, keys: Keys, last: int, kid: string, now: int, fetched: Option<Keys>, later: int):
    (Keys, int, Option<string>)
  {
    if kid in keys then (keys, last, Some(keys[kid]))
    else if now - last >= floor && fetched.Some? then (fetched.value, later, Find(fetched.value, kid))
    else (keys, last, None)
  }

  // ---- One caller ----------------------------------------------------------------

  /** The cache as an object, for a caller that meets no other. */
  class Cache {
    const floor: nat
    var keys: Keys
    var lastRefreshed: int
    ghost var installs: seq<int>

    /** The instants of all successful fetches so far, never closer than the floor. */
    ghost predicate Valid()
      reads this
    {
      && installs != [] && lastRefreshed == installs[|installs| - 1]
      && forall i | 0 <= i && i + 1 < |installs| :: installs[i + 1] - installs[i] >= floor
    }

    constructor (floor: nat, keys: Keys, now: int)
      ensures Valid() && this.floor == floor && this.keys == keys && installs == [now]
    {
      this.floor := floor;
      this.keys := keys;
      lastRefreshed := now;
      installs := [now];
    }

    /** `fetched` is what a fetch started at `now` would bring back by `later`. */
    method KeyFor(kid: string, now: int, fetched: Option<Keys>, later: int) returns (key: Option<string>)
      requires Valid() && now <= later
      modifies this
      ensures Valid()
      ensures (keys, lastRefreshed, key)
           == KeyForResult(floor, old(keys), old(lastRefreshed), kid, now, fetched, later)
      ensures key == Find(keys, kid)
      ensures kid in old(keys) ==> keys == old(keys) && installs == old(installs)
      ensures installs != old(installs) ==>
        && installs == old(installs) + [later] && fetched == Some(keys)
        && now - old(lastRefreshed) >= floor
      ensures installs == old(installs) ==> keys == old(keys)
      ensures kid !in old(keys) && fetched.Some? && now - old(lastRefreshed) >= floor ==> installs != old(installs)
    {
      if kid in keys { return Some(keys[kid]); }
      var elapsed := now - lastRefreshed;
      if elapsed < floor { return None; }
      match fetched {
        case Some(newKeys) =>
          keys, lastRefreshed, installs := newKeys, later, installs + [later];
          return Find(keys, kid);
        case None => return None;
      }
    }
  }

  // ---- Many callers ----------------------------------------------------------------

  datatype Pc =
    | FastRead                       // first look, without the lock
    | AwaitLock
    | Recheck                        // second look, holding the lock
    | FloorCheck
    | Fetching
    | Installed                      // cache overwritten, lock still held
    | FinalRead                      // third look, without the lock
    | Done(answer: Option<string>)
    | Gone                           // the caller was dropped
  {
    predicate HoldsLock() { Recheck? || FloorCheck? || Fetching? || Installed? }

    predicate Over() { Done? || Gone? }
  }

  datatype Caller = Caller(kid: string, pc: Pc)

  datatype State = State(
    floor: nat, keys: Keys, lastRefreshed: int, lock: Option<nat>, now: int, callers: map<nat, Caller>)

  datatype Event =
    | Begin(id: nat, kid: string)
    | Advance(id: nat)                              // a local step, or taking the lock
    | FetchReturns(id: nat, result: Option<Keys>)
    | Drop(id: nat)
    | Pass(d: nat)

  function Release(s: State, id: nat): Option<nat> { if s.lock == Some(id) then None else s.lock }

  function Moved(s: State, id: nat, pc: Pc): State
    requires id in s.callers
  {
    s.(callers := s.callers[id := s.callers[id].(pc := pc)])
  }

  /** Return an answer; a held lock is released. */
  function Answer(s: State, id: nat, a: Option<string>): State
    requires id in s.callers
  {
    Moved(s, id, Done(a)).(lock := Release(s, id))
  }

  /** The caller has a step of its own to take. */
  predicate CanAdvance(s: State, id: nat) {
    id in s.callers && match s.callers[id].pc
                       case AwaitLock => s.lock.None?
                       case Fetching => false
                       case Done(_) => false
                       case Gone => false
                       case _ => true
  }

  function Advanced(s: State, id: nat): State
    requires CanAdvance(s, id)
  {
    var c := s.callers[id];
    var seen := Find(s.keys, c.kid);
    match c.pc
    case FastRead => if seen.Some? then Answer(s, id, seen) else Moved(s, id, AwaitLock)
    case AwaitLock => Moved(s, id, Recheck).(lock := Some(id))
    case Recheck => if seen.Some? then Answer(s, id, seen) else Moved(s, id, FloorCheck)
    case FloorCheck => if s.now - s.lastRefreshed < s.floor then Answer(s, id, None) else Moved(s, id, Fetching)
    case Installed => Moved(s, id, FinalRead).(lock := Release(s, id))
    case FinalRead => Answer(s, id, seen)
  }

  ghost predicate Next(s: State, e: Event, s': State) {
    match e
    case Begin(id, kid) => id !in s.callers && s' == s.(callers := s.callers[id := Caller(kid, FastRead)])
    case Advance(id) => CanAdvance(s, id) && s' == Advanced(s, id)
    case FetchReturns(id, result) =>
      && id in s.callers && s.callers[id].pc.Fetching?
      && s' == if result.Some? then Moved(s, id, Installed).(keys := result.value, lastRefreshed := s.now)
               else Answer(s, id, None)
    case Drop(id) =>
      && id in s.callers && !s.callers[id].pc.Over()
      && s' == Moved(s, id, Gone).(lock := Release(s, id))
    case Pass(d) => s' == s.(now := s.now + d)
  }

  ghost predicate IsRun(ss: seq<State>, es: seq<Event>) {
    && |ss| == |es| + 1
    && ss[0].callers == map[] && ss[0].lock == None && ss[0].lastRefreshed <= ss[0].now
    && (forall i {:trigger es[i]} | 0 <= i < |es| :: Next(ss[i], es[i], ss[i + 1]))
  }

  // ---- One refresh at a time ---------------------------------------------------------

  /** The lock names exactly the caller that holds it, and a fetch runs only past the floor. */
  ghost predicate Valid(s: State) {
    && s.lastRefreshed <= s.now
    && (forall id <- s.callers :: s.callers[id].pc.HoldsLock() <==> s.lock == Some(id))
    && (s.lock.Some? ==> s.lock.value in s.callers)
    && (forall id <- s.callers :: s.callers[id].pc.Fetching? ==> s.now - s.lastRefreshed >= s.floor)
  }

  /** A step of one caller that keeps the lock discipline. */
  lemma MoveValid(s: State, id: nat, s': State)
    requires Valid(s) && id in s.callers && s'.callers.Keys == s.callers.Keys
    requires forall i <- s.callers | i != id :: s'.callers[i] == s.callers[i]
    requires s'.lock == if s'.callers[id].pc.HoldsLock() then Some(id) else Release(s, id)
    requires s.callers[id].pc.HoldsLock() || s'.callers[id].pc.HoldsLock() ==> s.lock.None? || s.lock == Some(id)
    requires s'.now == s.now && s'.floor == s.floor
    requires s'.lastRefreshed != s.lastRefreshed ==>
      s'.lastRefreshed == s.now && s.lock == Some(id) && !s'.callers[id].pc.Fetching?
    requires s'.callers[id].pc.Fetching? ==> s.now - s.lastRefreshed >= s.floor
    ensures Valid(s')
  {
  }

  lemma StepValid(s: State, e: Event, s': State)
    requires Valid(s) && Next(s, e, s')
    ensures Valid(s') && s'.floor == s.floor
  {
    match e
    case Advance(id) => MoveValid(s, id, s');
    case FetchReturns(id, _) => MoveValid(s, id, s');
    case Drop(id) => MoveValid(s, id, s');
    case _ =>
  }

  lemma {:induction false} RunValid(ss: seq<State>, es: seq<Event>, n: nat)
    requires IsRun(ss, es) && n < |ss|
    ensures Valid(ss[n]) && ss[n].floor == ss[0].floor
  {
    if n == 0 {
    } else {
      RunValid(ss, es, n - 1);
      assert Next(ss[n - 1], es[n - 1], ss[n]);
      StepValid(ss[n - 1], es[n - 1], ss[n]);
    }
  }

  /** In every interleaving at most one caller is refreshing, from its second look until it has
      overwritten the cache. */
  lemma AtMostOneRefresh(ss: seq<State>, es: seq<Event>, n: nat, a: nat, b: nat)
    requires IsRun(ss, es) && n < |ss|
    requires a in ss[n].callers && ss[n].callers[a].pc.HoldsLock()
    requires b in ss[n].callers && ss[n].callers[b].pc.HoldsLock()
    ensures a == b
  {
    RunValid(ss, es, n);
  }

  // ---- The floor -----------------------------------------------------------------------

  predicate Installs(e: Event) { e.FetchReturns? && e.result.Some? }

  predicate InstallsAt(es: seq<Event>, i: nat)
    requires i < |es|
  {
    Installs(es[i])
  }

  /** When the cache was last overwritten, counting from the start of the run. */
  ghost function LastInstall(ss: seq<State>, es: seq<Event>, n: nat): int
    requires |ss| == |es| + 1 && n < |ss|
  {
    if n == 0 then ss[0].lastRefreshed
    else if Installs(es[n - 1]) then ss[n - 1].now
    else LastInstall(ss, es, n - 1)
  }

  lemma {:induction false} LastRefreshedIsLastInstall(ss: seq<State>, es: seq<Event>, n: nat)
    requires IsRun(ss, es) && n < |ss|
    ensures ss[n].lastRefreshed == LastInstall(ss, es, n)
  {
    if n == 0 {
    } else {
      LastRefreshedIsLastInstall(ss, es, n - 1);
      assert Next(ss[n - 1], es[n - 1], ss[n]);
    }
  }

  lemma {:induction false} LastInstallGrows(ss: seq<State>, es: seq<Event>, i: nat, j: nat)
    requires IsRun(ss, es) && i < j < |ss| && InstallsAt(es, i)
    ensures LastInstall(ss, es, j) >= ss[i].now
    ensures ss[j].now >= ss[i].now
    decreases j
  {
    RunValid(ss, es, j - 1);
    assert Next(ss[j - 1], es[j - 1], ss[j]);
    if i == j - 1 {
    } else {
      LastInstallGrows(ss, es, i, j - 1);
    }
  }

  /** In every interleaving, successful refreshes are at least the floor apart. */
  lemma RefreshesAreFloorApart(ss: seq<State>, es: seq<Event>, i: nat, j: nat)
    requires IsRun(ss, es) && i < j < |es| && InstallsAt(es, i) && InstallsAt(es, j)
    ensures ss[j].now - ss[i].now >= ss[0].floor
  {
    RunValid(ss, es, j);
    assert Next(ss[j], es[j], ss[j + 1]);
    LastRefreshedIsLastInstall(ss, es, j);
    LastInstallGrows(ss, es, i, j);
  }

  /** The event is a caller's floor check. */
  predicate ChecksFloor(s: State, e: Event) {
    e.Advance? && e.id in s.callers && s.callers[e.id].pc.FloorCheck?
  }

  /** A fetch starts exactly when the floor has passed since the last success; fetches that failed
      in between do not count. */
  lemma FetchStartsIffFloorSinceSuccess(ss: seq<State>, es: seq<Event>, n: nat)
    requires IsRun(ss, es) && n < |es| && ChecksFloor(ss[n], es[n])
    ensures es[n].id in ss[n + 1].callers
    ensures ss[n + 1].callers[es[n].id].pc.Fetching? <==> ss[n].now - LastInstall(ss, es, n) >= ss[0].floor
  {
    RunValid(ss, es, n);
    LastRefreshedIsLastInstall(ss, es, n);
    assert Next(ss[n], es[n], ss[n + 1]);
  }

  /** In the step after state `n` a caller starts a fetch. */
  predicate StartsFetch(ss: seq<State>, es: seq<Event>, n: nat)
    requires |ss| == |es| + 1 && n < |es|
  {
    ChecksFloor(ss[n], es[n]) && es[n].id in ss[n + 1].callers && ss[n + 1].callers[es[n].id].pc.Fetching?
  }

  /** Two fetches start at least the floor apart, even counted from the end of the first, whenever the
      first installs its keys before the second starts. */
  lemma FetchesAreFloorApartAfterSuccess(ss: seq<State>, es: seq<Event>, i: nat, m: nat, j: nat)
    requires IsRun(ss, es) && i < m < j < |es| && InstallsAt(es, m)
    requires StartsFetch(ss, es, i) && StartsFetch(ss, es, j)
    ensures ss[j].now - ss[m].now >= ss[0].floor && ss[m].now >= ss[i].now
  {
    FetchStartsIffFloorSinceSuccess(ss, es, j);
    LastInstallGrows(ss, es, m, j);
    NowGrows(ss, es, i, m);
  }

  lemma {:induction false} NowGrows(ss: seq<State>, es: seq<Event>, i: nat, j: nat)
    requires IsRun(ss, es) && i <= j < |ss|
    ensures ss[i].now <= ss[j].now
    decreases j
  {
    if i == j {
    } else {
      NowGrows(ss, es, i, j - 1);
      assert Next(ss[j - 1], es[j - 1], ss[j]);
    }
  }

  function At(s: State, id: nat, pc: Pc): State {
    s.(lock := if pc.HoldsLock() then Some(id) else None, callers := s.callers[id := Caller("", pc)])
  }

  lemma AtTwice(s: State, id: nat, p: Pc, q: Pc)
    ensures At(At(s, id, p), id, q) == At(s, id, q)
  {
    assert At(s, id, p).callers[id := Caller("", q)] == At(s, id, q).callers;
  }

  /** How a fetch ends without keys: it fails, or its caller is dropped. */
  function EndEvent(id: nat, dropped: bool): Event { if dropped then Drop(id) else FetchReturns(id, None) }

  function EndPc(dropped: bool): Pc { if dropped then Gone else Done(None) }

  /** A lone caller that misses, past the floor, goes straight to the fetch. */
  lemma AttemptSteps(s: State, id: nat, dropped: bool)
    requires id !in s.callers && s.lock.None? && "" !in s.keys && s.now - s.lastRefreshed >= s.floor
    ensures Next(s, Begin(id, ""), At(s, id, FastRead))
    ensures Next(At(s, id, FastRead), Advance(id), At(s, id, AwaitLock))
    ensures Next(At(s, id, AwaitLock), Advance(id), At(s, id, Recheck))
    ensures Next(At(s, id, Recheck), Advance(id), At(s, id, FloorCheck))
    ensures Next(At(s, id, FloorCheck), Advance(id), At(s, id, Fetching))
    ensures Next(At(s, id, Fetching), EndEvent(id, dropped), At(s, id, EndPc(dropped)))
  {
    AtTwice(s, id, FastRead, AwaitLock);
    AtTwice(s, id, AwaitLock, Recheck);
    AtTwice(s, id, Recheck, FloorCheck);
    AtTwice(s, id, FloorCheck, Fetching);
    AtTwice(s, id, Fetching, EndPc(dropped));
  }

  function Attempt(s: State, id: nat): seq<State> {
    [s, At(s, id, FastRead), At(s, id, AwaitLock), At(s, id, Recheck), At(s, id, FloorCheck), At(s, id, Fetching)]
  }

  function AttemptEvents(id: nat): seq<Event> {
    [Begin(id, ""), Advance(id), Advance(id), Advance(id), Advance(id)]
  }

  lemma AttemptRuns(s: State, id: nat, dropped: bool)
    requires id !in s.callers && s.lock.None? && "" !in s.keys && s.now - s.lastRefreshed >= s.floor
    ensures forall i | 0 <= i < 5 :: Next(Attempt(s, id)[i], AttemptEvents(id)[i], Attempt(s, id)[i + 1])
    ensures Next(Attempt(s, id)[5], EndEvent(id, dropped), At(s, id, EndPc(dropped)))
  {
    AttemptSteps(s, id, dropped);
  }

  /** Otherwise attempts are not spaced: after a fetch that failed, or whose caller was dropped, the next
      caller fetches at the same instant, whatever the floor. */
  lemma UnfinishedFetchIsRetriedAtOnce(floor: nat, dropped: bool)
    returns (ss: seq<State>, es: seq<Event>, i: nat, j: nat)
    ensures IsRun(ss, es) && ss[0].floor == floor && i + 1 < j < |es|
    ensures StartsFetch(ss, es, i) && es[i + 1] == EndEvent(es[i].id, dropped)
    ensures StartsFetch(ss, es, j) && ss[i].now == ss[j].now
  {
    var s := State(floor, map[], 0, None, floor, map[]);
    var t := At(s, 0, EndPc(dropped));
    AttemptRuns(s, 0, dropped);
    AttemptRuns(t, 1, dropped);
    ss := Attempt(s, 0) + Attempt(t, 1);
    es := AttemptEvents(0) + [EndEvent(0, dropped)] + AttemptEvents(1);
    forall n | 0 <= n < |es| ensures Next(ss[n], es[n], ss[n + 1]) {
      if n < 5 {
        assert Next(Attempt(s, 0)[n], AttemptEvents(0)[n], Attempt(s, 0)[n + 1]);
      } else if n > 5 {
        assert Next(Attempt(t, 1)[n - 6], AttemptEvents(1)[n - 6], Attempt(t, 1)[n - 5]);
      }
    }
    i, j := 4, 10;
  }

  // ---- Answers -----------------------------------------------------------------------------

  /** `m` is an instant of the call: it has begun, and had not ended one step earlier. */
  predicate During(ss: seq<State>, m: nat, id: nat)
    requires m < |ss|
  {
    id in ss[m].callers && (m > 0 && id in ss[m - 1].callers ==> !ss[m - 1].callers[id].pc.Over())
  }

  /** At some instant of the call up to state `n`, the cache held `a` for the key id. */
  ghost predicate HeldDuring(ss: seq<State>, n: nat, id: nat, kid: string, a: Option<string>)
    requires n < |ss|
  {
    exists m | 0 <= m <= n :: During(ss, m, id) && Find(ss[m].keys, kid) == a
  }

  ghost predicate Explained(ss: seq<State>, n: nat, id: nat)
    requires n < |ss|
  {
    id in ss[n].callers ==>
      var c := ss[n].callers[id];
      match c.pc
      case FloorCheck => During(ss, n, id) && HeldDuring(ss, n, id, c.kid, None)
      case Fetching => During(ss, n, id) && HeldDuring(ss, n, id, c.kid, None)
      case Done(a) => HeldDuring(ss, n, id, c.kid, a)
      case Gone => true
      case _ => During(ss, n, id)
  }

  lemma HeldGrows(ss: seq<State>, n: nat, id: nat, kid: string, a: Option<string>)
    requires n + 1 < |ss|
    ensures HeldDuring(ss, n, id, kid, a) ==> HeldDuring(ss, n + 1, id, kid, a)
  {
  }

  /** A step of the call itself. */
  lemma ExplainOwnStep(ss: seq<State>, es: seq<Event>, n: nat, id: nat)
    requires IsRun(ss, es) && n + 1 < |ss| && Explained(ss, n, id)
    requires id in ss[n].callers && (es[n].Advance? || es[n].FetchReturns?) && es[n].id == id
    ensures Explained(ss, n + 1, id)
  {
    assert Next(ss[n], es[n], ss[n + 1]);
    var kid := ss[n].callers[id].kid;
    assert During(ss, n, id) && During(ss, n + 1, id);
    assert HeldDuring(ss, n, id, kid, Find(ss[n].keys, kid));
    HeldGrows(ss, n, id, kid, Find(ss[n].keys, kid));
    HeldGrows(ss, n, id, kid, None);
  }

  lemma ExplainStep(ss: seq<State>, es: seq<Event>, n: nat, id: nat)
    requires IsRun(ss, es) && n + 1 < |ss| && Explained(ss, n, id)
    ensures Explained(ss, n + 1, id)
  {
    var s, e, s' := ss[n], es[n], ss[n + 1];
    assert Next(s, e, s');
    if id !in s.callers {
      assert id in s'.callers ==> During(ss, n + 1, id);
    } else if (e.Advance? || e.FetchReturns?) && e.id == id {
      ExplainOwnStep(ss, es, n, id);
    } else {
      var c := s.callers[id];
      assert s'.callers[id] == c || s'.callers[id].pc.Gone?;
      HeldGrows(ss, n, id, c.kid, if c.pc.Done? then c.pc.answer else None);
    }
  }

  lemma {:induction false} RunExplained(ss: seq<State>, es: seq<Event>, n: nat, id: nat)
    requires IsRun(ss, es) && n < |ss|
    ensures Explained(ss, n, id)
  {
    if n == 0 {
    } else {
      RunExplained(ss, es, n - 1, id);
      ExplainStep(ss, es, n - 1, id);
    }
  }

  /** In every interleaving each answer, a key or none, is what the cache held for that key id at
      some instant of the call. */
  lemma AnswersAreCacheContents(ss: seq<State>, es: seq<Event>, n: nat, id: nat)
    requires IsRun(ss, es) && n < |ss|
    requires id in ss[n].callers && ss[n].callers[id].pc.Done?
    ensures HeldDuring(ss, n, id, ss[n].callers[id].kid, ss[n].callers[id].pc.answer)
  {
    RunExplained(ss, es, n, id);
  }
}
