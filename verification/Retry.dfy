/** The connection retry loop of the gateway's startup. */
module Retry {
  import opened Wrappers
  import opened Arithmetic

  /** What the world does with one attempt: its result, how long it takes, and how long the sleep
      after it takes if it fails. */
  datatype Attempt<T, E> = Attempt(result: Result<T, E>, took: nat, slept: nat)

  /** The time the first `n` attempts take, without the sleeps. */
  function TimeTrying<T, E>(world: nat -> Attempt<T, E>, n: nat): nat {
    if n == 0 then 0 else TimeTrying(world, n - 1) + world(n - 1).took
  }

  /** The time the sleeps after the first `n` attempts take. */
  function TimeAsleep<T, E>(world: nat -> Attempt<T, E>, n: nat): nat {
    if n == 0 then 0 else TimeAsleep(world, n - 1) + world(n - 1).slept
  }

  /** Attempt `k` fails within the budget, counting all attempts up to it and all sleeps before it, so
      another one follows. */
  predicate GoesOn<T, E>(world: nat -> Attempt<T, E>, budget: nat, k: nat) {
    world(k).result.Err? && TimeTrying(world, k + 1) + TimeAsleep(world, k) < budget
  }

  function CeilDiv(a: nat, b: nat): nat
    requires b > 0
  {
    (a + b - 1) / b
  }

  lemma {:induction false} SleepsAddUp<T, E>(world: nat -> Attempt<T, E>, interval: nat, k: nat)
    requires forall i: nat :: world(i).slept >= interval
    ensures TimeAsleep(world, k) >= k * interval
  {
    if k == 0 {
    } else {
      SleepsAddUp(world, interval, k - 1);
      assert k * interval == (k - 1) * interval + interval;
    }
  }

  lemma BelowCeil(k: nat, interval: nat, budget: nat)
    requires interval > 0 && k * interval < budget
    ensures k + 1 <= CeilDiv(budget, interval)
  {
    var c := CeilDiv(budget, interval);
    assert c * interval >= budget by {
      assert budget + interval - 1 == c * interval + (budget + interval - 1) % interval;
    }
    ProductMonotone(k, c, interval);
  }

  /** An attempt that is followed by another is early enough. */
  lemma AttemptsBounded<T, E>(world: nat -> Attempt<T, E>, budget: nat, interval: nat, k: nat)
    requires interval > 0 && forall i: nat :: world(i).slept >= interval
    requires GoesOn(world, budget, k)
    ensures k + 2 <= CeilDiv(budget, interval) + 1
  {
    SleepsAddUp(world, interval, k);
    BelowCeil(k, interval, budget);
  }

  /** A positive interval always brings the loop to its end. */
  lemma PositiveIntervalEnds<T, E>(world: nat -> Attempt<T, E>, budget: nat, interval: nat)
    requires interval > 0 && forall i: nat :: world(i).slept >= interval
    ensures !GoesOn(world, budget, CeilDiv(budget, interval))
  {
    var k := CeilDiv(budget, interval);
    if GoesOn(world, budget, k) { AttemptsBounded(world, budget, interval, k); }
  }

  /** Try until the first success, or until an attempt fails at or after the deadline: exactly the
      attempts before the last one go on. With a positive interval there are at most
      ceil(budget / interval) + 1 attempts; with any interval, zero included, the loop ends if some
      attempt succeeds or outlasts the deadline, and not otherwise. */
  method RetryWithBudget<T, E>(budget: nat, interval: nat, start: nat, world: nat -> Attempt<T, E>)
    returns (r: Result<T, E>, attempts: nat, now: nat)
    requires forall i: nat :: world(i).slept >= interval
    requires exists k: nat :: !GoesOn(world, budget, k)
    ensures 1 <= attempts
    ensures forall k: nat | k < attempts - 1 :: GoesOn(world, budget, k)
    ensures !GoesOn(world, budget, attempts - 1)
    ensures r == world(attempts - 1).result
    ensures now == start + TimeTrying(world, attempts) + TimeAsleep(world, attempts - 1)
    ensures r.Err? ==> TimeTrying(world, attempts) + TimeAsleep(world, attempts - 1) >= budget
    ensures interval > 0 ==> attempts <= CeilDiv(budget, interval) + 1
  {
    var deadline := start + budget;
    attempts, now := 0, start;
    ghost var last: nat :| !GoesOn(world, budget, last);
    while true
      invariant forall k: nat | k < attempts :: GoesOn(world, budget, k)
      invariant now == start + TimeTrying(world, attempts) + TimeAsleep(world, attempts)
      invariant interval > 0 && attempts > 0 ==> attempts + 1 <= CeilDiv(budget, interval) + 1
      invariant attempts <= last
      decreases last - attempts
    {
      attempts := attempts + 1;
      var attempt := world(attempts - 1);
      now := now + attempt.took;
      match attempt.result {
        case Ok(_) =>
          return attempt.result, attempts, now;
        case Err(_) =>
          if now >= deadline { return attempt.result, attempts, now; }
          assert GoesOn(world, budget, attempts - 1);
          if interval > 0 { AttemptsBounded(world, budget, interval, attempts - 1); }
          now := now + attempt.slept;
      }
    }
  }

  const STARTUP_REDIS_RETRY_BUDGET: nat := 60
  const STARTUP_REDIS_RETRY_INTERVAL: nat := 2

  /** At startup: at most 31 attempts, and no giving up before a minute has gone by. */
  method RetryRedisConnect<T, E>(start: nat, world: nat -> Attempt<T, E>) returns (r: Result<T, E>, attempts: nat)
    requires forall i: nat :: world(i).slept >= STARTUP_REDIS_RETRY_INTERVAL
    ensures 1 <= attempts <= 31
    ensures r.Ok? <==> world(attempts - 1).result.Ok?
    ensures forall k: nat | k < attempts - 1 :: world(k).result.Err?
    ensures r.Err? ==> TimeTrying(world, attempts) + TimeAsleep(world, attempts - 1) >= 60
  {
    PositiveIntervalEnds(world, STARTUP_REDIS_RETRY_BUDGET, STARTUP_REDIS_RETRY_INTERVAL);
    var now: nat;
    r, attempts, now := RetryWithBudget(STARTUP_REDIS_RETRY_BUDGET, STARTUP_REDIS_RETRY_INTERVAL, start, world);
    forall k: nat | k < attempts - 1 ensures world(k).result.Err? {
      assert GoesOn(world, STARTUP_REDIS_RETRY_BUDGET, k);
    }
  }
}
