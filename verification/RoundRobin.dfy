/** Round-robin picking over a 64-bit cursor. */
module RoundRobin {
  import opened Wrappers
  import opened Arithmetic

  /** The cursor is a u64 and wraps. */
  const WRAP: nat := 0x1_0000_0000_0000_0000

  /** The index chosen by the `k`-th pick from a list of `n` when the cursor starts at `c`. */
  function Position(c: nat, k: nat, n: nat): (p: nat)
    requires n > 0
    ensures p < n
  {
    ((c + k) % WRAP) % n
  }

  lemma PositionNow(c: nat, n: nat)
    requires n > 0 && c < WRAP
    ensures Position(c, 0, n) == c % n
  {
  }

  /** A pool whose members are fixed at startup. */
  class StaticPool {
    const backends: seq<string>
    var cursor: nat

    ghost predicate Valid()
      reads this
    {
      backends != [] && cursor < WRAP
    }

    constructor (addresses: seq<string>)
      requires addresses != []
      ensures Valid() && backends == addresses && cursor == 0
    {
      backends := addresses;
      cursor := 0;
    }

    /** An empty address list is refused. */
    static method Create(addresses: seq<string>) returns (pool: Option<StaticPool>)
      ensures pool.None? <==> addresses == []
      ensures pool.Some? ==> fresh(pool.value) && pool.value.Valid()
      ensures pool.Some? ==> pool.value.backends == addresses && pool.value.cursor == 0
    {
      if addresses == [] { return None; }
      var p := new StaticPool(addresses);
      return Some(p);
    }

    method Pick() returns (addr: Option<string>)
      requires Valid()
      modifies this`cursor
      ensures Valid() && cursor == (old(cursor) + 1) % WRAP
      ensures addr == Some(backends[Position(old(cursor), 0, |backends|)])
    {
      var idx := cursor;
      PositionNow(idx, |backends|);
      cursor := (cursor + 1) % WRAP;
      addr := Some(backends[idx % |backends|]);
    }
  }

  /** The `k`-th pick of a pool whose cursor started at `c` finds the cursor at `(c + k) % 2^64`,
      and so chooses `Position(c, k, n)`. */
  lemma CursorAfterPicks(c: nat, k: nat, n: nat)
    requires n > 0
    ensures Position((c + k) % WRAP, 0, n) == Position(c, k, n)
    ensures ((c + k) % WRAP + 1) % WRAP == (c + k + 1) % WRAP
  {
  }

  // ---- Fairness -----------------------------------------------------------

  /** How many of the next `m` picks choose position `p`. */
  function Count(c: nat, m: nat, n: nat, p: nat): nat
    requires n > 0
  {
    if m == 0 then 0
    else Count(c, m - 1, n, p) + if Position(c, m - 1, n) == p then 1 else 0
  }

  /** Each position is chosen floor(m/n) or ceil(m/n) times. */
  ghost predicate Fair(c: nat, m: nat, n: nat)
    requires n > 0
  {
    forall p: nat | p < n :: m / n <= Count(c, m, n, p) <= (m + n - 1) / n
  }

  /** Numbers below `x` that are `p` modulo `n`. */
  function Rank(x: nat, n: nat, p: nat): int
    requires p < n
  {
    (x + n - 1 - p) / n
  }

  lemma RankAt(x: nat, n: nat, p: nat)
    requires p < n
    ensures Rank(x, n, p) == x / n + if x % n > p then 1 else 0
  {
    var q, r := x / n, x % n;
    assert x == q * n + r;
    if r > p {
      assert x + n - 1 - p == (q + 1) * n + (r - 1 - p);
      DivMod(x + n - 1 - p, n, q + 1, r - 1 - p);
    } else {
      DivMod(x + n - 1 - p, n, q, r + n - 1 - p);
    }
  }

  lemma RankStep(x: nat, n: nat, p: nat)
    requires p < n
    ensures Rank(x + 1, n, p) == Rank(x, n, p) + if x % n == p then 1 else 0
  {
    RankAt(x, n, p);
    RankAt(x + 1, n, p);
    var q, r := x / n, x % n;
    assert x == q * n + r;
    if r + 1 < n {
      DivMod(x + 1, n, q, r + 1);
    } else {
      assert x + 1 == (q + 1) * n;
      DivMod(x + 1, n, q + 1, 0);
    }
  }

  /** The picks go round without a jump. */
  ghost predicate Smooth(c: nat, m: nat, n: nat)
    requires n > 0
  {
    forall k: nat | k < m :: Position(c, k, n) == (c + k) % n
  }

  lemma {:induction false} CountIsRankDifference(c: nat, m: nat, n: nat, p: nat)
    requires p < n && Smooth(c, m, n)
    ensures Count(c, m, n, p) == Rank(c + m, n, p) - Rank(c, n, p)
  {
    if m == 0 {
    } else {
      CountIsRankDifference(c, m - 1, n, p);
      RankStep(c + m - 1, n, p);
    }
  }

  lemma SmoothIsFair(c: nat, m: nat, n: nat)
    requires n > 0 && Smooth(c, m, n)
    ensures Fair(c, m, n)
  {
    forall p: nat | p < n ensures m / n <= Count(c, m, n, p) <= (m + n - 1) / n {
      CountIsRankDifference(c, m, n, p);
      var a, b := c + n - 1 - p, m;
      SumOfQuotients(a, b, n);
    }
  }

  lemma SumOfQuotients(a: nat, m: nat, n: nat)
    requires n > 0
    ensures m / n <= (a + m) / n - a / n <= (m + n - 1) / n
  {
    var qa, ra, qm, rm := a / n, a % n, m / n, m % n;
    assert a + m == (qa + qm) * n + (ra + rm);
    if ra + rm < n {
      DivMod(a + m, n, qa + qm, ra + rm);
    } else {
      assert a + m == (qa + qm + 1) * n + (ra + rm - n);
      DivMod(a + m, n, qa + qm + 1, ra + rm - n);
    }
    if rm == 0 {
      DivMod(m + n - 1, n, qm, n - 1);
    } else {
      assert m + n - 1 == (qm + 1) * n + (rm - 1);
      DivMod(m + n - 1, n, qm + 1, rm - 1);
    }
  }

  /** Any `m` consecutive picks from an unchanged list are fair as long as the cursor does not wrap. */
  lemma FairUntilWrap(c: nat, m: nat, n: nat)
    requires n > 0 && c + m <= WRAP
    ensures Fair(c, m, n)
  {
    forall k: nat | k < m ensures Position(c, k, n) == (c + k) % n {
      DivMod(c + k, WRAP, 0, c + k);
    }
    SmoothIsFair(c, m, n);
  }

  /** The first `m` picks of a pool, as its cursor chooses them. */
  function Picks(backends: seq<string>, c: nat, m: nat): (picks: seq<string>)
    requires backends != []
    ensures |picks| == m
  {
    if m == 0 then [] else Picks(backends, c, m - 1) + [backends[Position(c, m - 1, |backends|)]]
  }

  function Occurrences(picks: seq<string>, addr: string): nat {
    if picks == [] then 0
    else Occurrences(picks[..|picks| - 1], addr) + if picks[|picks| - 1] == addr then 1 else 0
  }

  predicate Distinct(backends: seq<string>) {
    forall i, j | 0 <= i < j < |backends| :: backends[i] != backends[j]
  }

  lemma {:induction false} OccurrencesAreCounts(backends: seq<string>, c: nat, m: nat, p: nat)
    requires Distinct(backends) && p < |backends|
    ensures Occurrences(Picks(backends, c, m), backends[p]) == Count(c, m, |backends|, p)
  {
    if m == 0 {
    } else {
      OccurrencesAreCounts(backends, c, m - 1, p);
      var before, last := Picks(backends, c, m - 1), backends[Position(c, m - 1, |backends|)];
      assert (before + [last])[..|before + [last]| - 1] == before;
    }
  }

  /** Of the picks, each backend gets floor(m/n) or ceil(m/n). */
  ghost predicate EvenlySpread(backends: seq<string>, picks: seq<string>)
    requires backends != []
  {
    forall addr <- backends ::
      |picks| / |backends| <= Occurrences(picks, addr) <= (|picks| + |backends| - 1) / |backends|
  }

  lemma FairPicksAreEven(backends: seq<string>, c: nat, m: nat)
    requires backends != [] && Distinct(backends)
    ensures Fair(c, m, |backends|) ==> EvenlySpread(backends, Picks(backends, c, m))
  {
    forall addr <- backends
      ensures Fair(c, m, |backends|) ==>
        m / |backends| <= Occurrences(Picks(backends, c, m), addr) <= (m + |backends| - 1) / |backends|
    {
      var p :| 0 <= p < |backends| && backends[p] == addr;
      OccurrencesAreCounts(backends, c, m, p);
    }
  }

  /** Any `m` picks in a row from a pool: they are the positions its cursor names, and as long as the
      cursor does not wrap, or the length of the list divides 2^64, they are spread evenly. */
  method PickRepeatedly(pool: StaticPool, m: nat) returns (picks: seq<string>)
    requires pool.Valid()
    modifies pool`cursor
    ensures pool.Valid() && pool.cursor == (old(pool.cursor) + m) % WRAP
    ensures |picks| == m && picks == Picks(pool.backends, old(pool.cursor), m)
    ensures Distinct(pool.backends) && (old(pool.cursor) + m <= WRAP || WRAP % |pool.backends| == 0) ==>
      EvenlySpread(pool.backends, picks)
  {
    picks := [];
    ghost var c, n := pool.cursor, |pool.backends|;
    for k := 0 to m
      invariant pool.Valid() && pool.cursor == (c + k) % WRAP
      invariant |picks| == k && picks == Picks(pool.backends, c, k)
    {
      CursorAfterPicks(c, k, n);
      var addr := pool.Pick();
      picks := picks + [addr.value];
    }
    if Distinct(pool.backends) && (c + m <= WRAP || WRAP % n == 0) {
      if c + m <= WRAP { FairUntilWrap(c, m, n); } else { FairWhenLengthDivides(c, m, n); }
      FairPicksAreEven(pool.backends, c, m);
    }
  }

  lemma ModOfMod(x: nat, n: nat)
    requires n > 0 && WRAP % n == 0
    ensures (x % WRAP) % n == x % n
  {
    var t, q, r := WRAP / n, x / WRAP, x % WRAP;
    var q', r' := r / n, r % n;
    assert WRAP == t * n;
    assert x == (q * t + q') * n + r' by {
      assert x == q * WRAP + r && r == q' * n + r';
      assert q * WRAP == (q * t) * n;
    }
    DivMod(x, n, q * t + q', r');
  }

  lemma FairWhenLengthDivides(c: nat, m: nat, n: nat)
    requires n > 0 && WRAP % n == 0
    ensures Fair(c, m, n)
  {
    forall k: nat | k < m ensures Position(c, k, n) == (c + k) % n { ModOfMod(c + k, n); }
    SmoothIsFair(c, m, n);
  }

  /** Fairness holds for every starting cursor and every number of picks, wrapping included, if
      and only if the length of the list divides 2^64. */
  lemma FairForeverIffLengthDividesWrap(n: nat)
    requires 0 < n <= WRAP
    ensures (forall c: nat, m: nat | c < WRAP :: Fair(c, m, n)) <==> WRAP % n == 0
  {
    if WRAP % n == 0 {
      forall c: nat, m: nat | c < WRAP ensures Fair(c, m, n) { FairWhenLengthDivides(c, m, n); }
    } else {
      var r := WRAP % n;
      var c, m := WRAP - r, r + 1;
      UnfairAtWrap(n);
      assert !Fair(c, m, n);
    }
  }

  /** Starting at the last multiple of `n`, position 0 comes again as soon as the cursor wraps. */
  lemma UnfairAtWrap(n: nat)
    requires 0 < n <= WRAP && WRAP % n != 0
    ensures var r := WRAP % n; !Fair(WRAP - r, r + 1, n)
  {
    var q, r := WRAP / n, WRAP % n;
    var c := WRAP - r;
    assert WRAP == q * n + r;
    DivMod(c, n, q, 0);
    ZeroTwice(c, r, n);
    CountAtLeast(c, r, n);
    assert Count(c, r + 1, n, 0) >= 2;
    DivMod(r + 1 + n - 1, n, 1, r);
    assert !(Count(c, r + 1, n, 0) <= (r + 1 + n - 1) / n);
  }

  lemma ZeroTwice(c: nat, r: nat, n: nat)
    requires n > 0 && c < WRAP && c + r == WRAP && c % n == 0
    ensures Position(c, 0, n) == 0 && Position(c, r, n) == 0
  {
    PositionNow(c, n);
    DivMod(c + r, WRAP, 1, 0);
  }

  lemma {:induction false} CountAtLeast(c: nat, m: nat, n: nat)
    requires n > 0 && m > 0 && Position(c, 0, n) == 0
    ensures Count(c, m, n, 0) >= 1
  {
    if m == 1 {
    } else {
      CountAtLeast(c, m - 1, n);
    }
  }
}
