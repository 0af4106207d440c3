/** Exactly when a caller of the key cache gets no key, and what a lone caller gets. */
module KeyCacheAnswers {
  import opened Wrappers
  import opened KeyCache

  /** In the step after state `m` caller `id` moves on from `pc`. */
  predicate MovesFrom(ss: seq<State>, es: seq<Event>, m: nat, id: nat, pc: Pc)
    requires |ss| == |es| + 1 && m < |es|
  {
    es[m] == Advance(id) && id in ss[m].callers && ss[m].callers[id].pc == pc
  }

  /** The caller took the lock, looked again, and the cache lacked the key id. */
  ghost predicate MissedUnderLock(ss: seq<State>, es: seq<Event>, n: nat, id: nat, kid: string)
    requires |ss| == |es| + 1 && n < |ss|
  {
    exists b: nat, r: nat | b < r < n ::
      MovesFrom(ss, es, b, id, AwaitLock) && MovesFrom(ss, es, r, id, Recheck) && kid !in ss[r].keys
  }

  /** The floor had not passed since the last install when the caller checked it. */
  ghost predicate TooEarly(ss: seq<State>, es: seq<Event>, f: nat, id: nat)
    requires |ss| == |es| + 1 && f < |es|
  {
    MovesFrom(ss, es, f, id, FloorCheck) && ss[f].now - LastInstall(ss, es, f) < ss[0].floor
  }

  predicate OwnFetchFailed(es: seq<Event>, f: nat, id: nat)
    requires f < |es|
  {
    es[f] == FetchReturns(id, None)
  }

  predicate OwnFetchInstalled(es: seq<Event>, f: nat, id: nat)
    requires f < |es|
  {
    es[f].FetchReturns? && es[f].id == id && es[f].result.Some?
  }

  /** The caller installed keys, read the cache after that, and found the key id lacking. */
  ghost predicate InstalledInVain(ss: seq<State>, es: seq<Event>, n: nat, id: nat, kid: string)
    requires |ss| == |es| + 1 && n < |ss|
  {
    exists f: nat, g: nat | f < g < n ::
      OwnFetchInstalled(es, f, id) && MovesFrom(ss, es, g, id, FinalRead) && kid !in ss[g].keys
  }

  ghost predicate NoKeyBecause(ss: seq<State>, es: seq<Event>, n: nat, id: nat, kid: string)
    requires |ss| == |es| + 1 && n < |ss|
  {
    || (exists f: nat | f < n :: TooEarly(ss, es, f, id))
    || (exists f: nat | f < n :: OwnFetchFailed(es, f, id))
    || InstalledInVain(ss, es, n, id, kid)
  }

  // ---- Necessary -----------------------------------------------------------------------

  /** How far the caller's story is told at each place. */
  ghost predicate Told(ss: seq<State>, es: seq<Event>, n: nat, id: nat)
    requires |ss| == |es| + 1 && n < |ss|
  {
    id in ss[n].callers ==>
      var kid := ss[n].callers[id].kid;
      match ss[n].callers[id].pc
      case Recheck => exists b: nat | b < n :: MovesFrom(ss, es, b, id, AwaitLock)
      case FloorCheck => MissedUnderLock(ss, es, n, id, kid)
      case Fetching => MissedUnderLock(ss, es, n, id, kid)
      case Installed => MissedUnderLock(ss, es, n, id, kid) && exists f: nat | f < n :: OwnFetchInstalled(es, f, id)
      case FinalRead => MissedUnderLock(ss, es, n, id, kid) && exists f: nat | f < n :: OwnFetchInstalled(es, f, id)
      case Done(a) => a.None? ==> MissedUnderLock(ss, es, n, id, kid) && NoKeyBecause(ss, es, n, id, kid)
      case _ => true
  }

  lemma ToldGrows(ss: seq<State>, es: seq<Event>, n: nat, id: nat, kid: string)
    requires |ss| == |es| + 1 && n + 1 < |ss|
    ensures MissedUnderLock(ss, es, n, id, kid) ==> MissedUnderLock(ss, es, n + 1, id, kid)
    ensures NoKeyBecause(ss, es, n, id, kid) ==> NoKeyBecause(ss, es, n + 1, id, kid)
  {
  }

  /** A step of the caller itself. */
  lemma ToldOwnStep(ss: seq<State>, es: seq<Event>, n: nat, id: nat)
    requires IsRun(ss, es) && n + 1 < |ss| && Told(ss, es, n, id)
    requires id in ss[n].callers && (es[n].Advance? || es[n].FetchReturns?) && es[n].id == id
    ensures Told(ss, es, n + 1, id)
  {
    RunValid(ss, es, n);
    LastRefreshedIsLastInstall(ss, es, n);
    assert Next(ss[n], es[n], ss[n + 1]);
    var c := ss[n].callers[id];
    ToldGrows(ss, es, n, id, c.kid);
    match c.pc
    case AwaitLock => assert MovesFrom(ss, es, n, id, AwaitLock);
    case Recheck => assert MovesFrom(ss, es, n, id, Recheck);
    case FloorCheck => assert ss[n].now - ss[n].lastRefreshed < ss[0].floor ==> TooEarly(ss, es, n, id);
    case Fetching => assert OwnFetchFailed(es, n, id) || OwnFetchInstalled(es, n, id);
    case FinalRead => assert MovesFrom(ss, es, n, id, FinalRead);
    case _ =>
  }

  lemma ToldStep(ss: seq<State>, es: seq<Event>, n: nat, id: nat)
    requires IsRun(ss, es) && n + 1 < |ss| && Told(ss, es, n, id)
    ensures Told(ss, es, n + 1, id)
  {
    var s, e, s' := ss[n], es[n], ss[n + 1];
    assert Next(s, e, s');
    if id in s.callers {
      if (e.Advance? || e.FetchReturns?) && e.id == id {
        ToldOwnStep(ss, es, n, id);
      } else {
        assert s'.callers[id] == s.callers[id] || s'.callers[id].pc.Gone?;
        ToldGrows(ss, es, n, id, s.callers[id].kid);
      }
    }
  }

  lemma {:induction false} RunTold(ss: seq<State>, es: seq<Event>, n: nat, id: nat)
    requires IsRun(ss, es) && n < |ss|
    ensures Told(ss, es, n, id)
  {
    if n == 0 {
    } else {
      RunTold(ss, es, n - 1, id);
      ToldStep(ss, es, n - 1, id);
    }
  }

  // ---- Sufficient ------------------------------------------------------------------------

  lemma {:induction false} AnswerStays(ss: seq<State>, es: seq<Event>, i: nat, j: nat, id: nat)
    requires IsRun(ss, es) && i <= j < |ss| && id in ss[i].callers && ss[i].callers[id].pc.Done?
    ensures id in ss[j].callers && ss[j].callers[id] == ss[i].callers[id]
    decreases j
  {
    if i == j {
    } else {
      AnswerStays(ss, es, i, j - 1, id);
      assert Next(ss[j - 1], es[j - 1], ss[j]);
    }
  }

  lemma {:induction false} KidStays(ss: seq<State>, es: seq<Event>, i: nat, j: nat, id: nat)
    requires IsRun(ss, es) && i <= j < |ss| && id in ss[i].callers
    ensures id in ss[j].callers && ss[j].callers[id].kid == ss[i].callers[id].kid
    decreases j
  {
    if i == j {
    } else {
      KidStays(ss, es, i, j - 1, id);
      assert Next(ss[j - 1], es[j - 1], ss[j]);
    }
  }

  /** The step after state `f` ends the call without a key. */
  ghost predicate EndsWithoutKey(ss: seq<State>, es: seq<Event>, f: nat, id: nat, kid: string)
    requires |ss| == |es| + 1 && f < |es|
  {
    || TooEarly(ss, es, f, id)
    || OwnFetchFailed(es, f, id)
    || (MovesFrom(ss, es, f, id, FinalRead) && kid !in ss[f].keys)
  }

  lemma EndsThere(ss: seq<State>, es: seq<Event>, f: nat, id: nat, kid: string)
    requires IsRun(ss, es) && f < |es| && EndsWithoutKey(ss, es, f, id, kid)
    ensures id in ss[f].callers && id in ss[f + 1].callers
    ensures ss[f].callers[id].kid == kid ==> ss[f + 1].callers[id].pc == Done(None)
  {
    RunValid(ss, es, f);
    LastRefreshedIsLastInstall(ss, es, f);
    assert Next(ss[f], es[f], ss[f + 1]);
  }

  /** Each of the causes ends the call without a key. */
  lemma CauseEndsCall(ss: seq<State>, es: seq<Event>, n: nat, id: nat)
    requires IsRun(ss, es) && n < |ss| && id in ss[n].callers && ss[n].callers[id].pc.Done?
    requires NoKeyBecause(ss, es, n, id, ss[n].callers[id].kid)
    ensures ss[n].callers[id].pc.answer.None?
  {
    var kid := ss[n].callers[id].kid;
    assert exists f: nat | f < n :: EndsWithoutKey(ss, es, f, id, kid) by {
      if f: nat :| f < n && TooEarly(ss, es, f, id) {
        assert EndsWithoutKey(ss, es, f, id, kid);
      } else if f: nat :| f < n && OwnFetchFailed(es, f, id) {
        assert EndsWithoutKey(ss, es, f, id, kid);
      } else {
        var f: nat, g: nat :| f < g < n && OwnFetchInstalled(es, f, id)
          && MovesFrom(ss, es, g, id, FinalRead) && kid !in ss[g].keys;
        assert EndsWithoutKey(ss, es, g, id, kid);
      }
    }
    var f: nat :| f < n && EndsWithoutKey(ss, es, f, id, kid);
    EndsThere(ss, es, f, id, kid);
    KidStays(ss, es, f, n, id);
    AnswerStays(ss, es, f + 1, n, id);
  }

  /** In every interleaving an answered caller gets no key if and only if, after it took the lock, the
      cache lacked its key id, and then either the floor had not passed since the last install, or its
      own fetch failed, or it installed keys and the cache lacked the key id when it read it again. */
  lemma NoKeyIff(ss: seq<State>, es: seq<Event>, n: nat, id: nat)
    requires IsRun(ss, es) && n < |ss| && id in ss[n].callers && ss[n].callers[id].pc.Done?
    ensures var kid := ss[n].callers[id].kid;
      ss[n].callers[id].pc.answer.None?
      <==> MissedUnderLock(ss, es, n, id, kid) && NoKeyBecause(ss, es, n, id, kid)
  {
    RunTold(ss, es, n, id);
    if NoKeyBecause(ss, es, n, id, ss[n].callers[id].kid) { CauseEndsCall(ss, es, n, id); }
  }

  /** A caller that finds the key installed when it takes the lock gets it: nobody can change the cache
      until it has looked. */
  lemma {:induction false} InstalledKeyIsFound(ss: seq<State>, es: seq<Event>, b: nat, n: nat, id: nat)
    requires IsRun(ss, es) && b < n < |ss| && MovesFrom(ss, es, b, id, AwaitLock)
    requires ss[b].callers[id].kid in ss[b].keys
    ensures id in ss[n].callers && ss[n].callers[id].kid == ss[b].callers[id].kid
    ensures var kid := ss[b].callers[id].kid;
      match ss[n].callers[id].pc
      case Recheck => Find(ss[n].keys, kid) == Some(ss[b].keys[kid])
      case Done(a) => a == Some(ss[b].keys[kid])
      case Gone => true
      case _ => false
    decreases n
  {
    RunValid(ss, es, n - 1);
    assert Next(ss[n - 1], es[n - 1], ss[n]);
    if b == n - 1 {
    } else {
      InstalledKeyIsFound(ss, es, b, n - 1, id);
    }
  }

  // ---- A lone caller ------------------------------------------------------------------------

  /** Only this caller acts. */
  ghost predicate Alone(es: seq<Event>, id: nat) {
    forall i {:trigger es[i]} | 0 <= i < |es| :: es[i].Pass? || es[i].id == id
  }

  predicate PastFloor(s: State, now: int) { now - s.lastRefreshed >= s.floor }

  predicate SameCache(s: State, t: State) { s.keys == t.keys && s.lastRefreshed == t.lastRefreshed }

  /** The caller that met the cache as in `s` has left it as in `t`, with this answer. */
  ghost predicate LikeKeyFor(s: State, t: State, kid: string, a: Option<string>) {
    exists now, fetched, later | now <= later ::
      KeyForResult(s.floor, s.keys, s.lastRefreshed, kid, now, fetched, later) == (t.keys, t.lastRefreshed, a)
  }

  ghost predicate LoneStory(s: State, t: State, id: nat) {
    if id !in t.callers then SameCache(s, t)
    else
      var kid := t.callers[id].kid;
      match t.callers[id].pc
      case FastRead => SameCache(s, t)
      case AwaitLock => SameCache(s, t) && kid !in s.keys
      case Recheck => SameCache(s, t) && kid !in s.keys
      case FloorCheck => SameCache(s, t) && kid !in s.keys
      case Fetching => SameCache(s, t) && kid !in s.keys && exists now :: PastFloor(s, now) && now <= t.now
      case Installed => kid !in s.keys && exists now :: PastFloor(s, now) && now <= t.lastRefreshed
      case FinalRead => kid !in s.keys && exists now :: PastFloor(s, now) && now <= t.lastRefreshed
      case Done(a) => LikeKeyFor(s, t, kid, a)
      case Gone => true
  }

  lemma LoneStep(s: State, t: State, e: Event, t': State, id: nat)
    requires Valid(t) && t.floor == s.floor && Next(t, e, t') && (e.Pass? || e.id == id) && LoneStory(s, t, id)
    ensures LoneStory(s, t', id)
  {
    if e.Advance? {
      var c := t.callers[id];
      match c.pc
      case FastRead => assert KeyForResult(s.floor, s.keys, s.lastRefreshed, c.kid, t.now, None, t.now).0 == s.keys;
      case FloorCheck =>
        assert KeyForResult(s.floor, s.keys, s.lastRefreshed, c.kid, t.now, None, t.now)
            == (s.keys, s.lastRefreshed, None);
        assert PastFloor(s, t.now) || t.now - s.lastRefreshed < s.floor;
      case FinalRead =>
        var now :| PastFloor(s, now) && now <= t.lastRefreshed;
        assert KeyForResult(s.floor, s.keys, s.lastRefreshed, c.kid, now, Some(t.keys), t.lastRefreshed)
            == (t.keys, t.lastRefreshed, Find(t.keys, c.kid));
      case _ =>
    } else if e.FetchReturns? {
      var c := t.callers[id];
      assert KeyForResult(s.floor, s.keys, s.lastRefreshed, c.kid, t.now, None, t.now)
          == (s.keys, s.lastRefreshed, None);
    }
  }

  lemma {:induction false} LoneRun(ss: seq<State>, es: seq<Event>, n: nat, id: nat)
    requires IsRun(ss, es) && Alone(es, id) && n < |ss|
    ensures LoneStory(ss[0], ss[n], id)
  {
    if n == 0 {
    } else {
      LoneRun(ss, es, n - 1, id);
      RunValid(ss, es, n - 1);
      assert Next(ss[n - 1], es[n - 1], ss[n]);
      LoneStep(ss[0], ss[n - 1], es[n - 1], ss[n], id);
    }
  }

  /** A caller alone in the run answers, and leaves the cache, as `Cache.KeyFor` does. */
  lemma LoneCallerIsKeyFor(ss: seq<State>, es: seq<Event>, n: nat, id: nat)
    requires IsRun(ss, es) && Alone(es, id) && n < |ss| && id in ss[n].callers && ss[n].callers[id].pc.Done?
    ensures LikeKeyFor(ss[0], ss[n], ss[n].callers[id].kid, ss[n].callers[id].pc.answer)
  {
    LoneRun(ss, es, n, id);
  }
}
