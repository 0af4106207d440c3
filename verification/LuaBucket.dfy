/** The script that Redis runs for one bucket. */
module LuaBucket {
  import opened Wrappers
  import opened TokenBucket
  import opened BucketLives

  /** The fields `tokens` and `ts` of one bucket hash, and the instant at which the hash expires. */
  datatype Hash = Hash(tokens: real, ts: int, deadline: real)

  function Seconds(ms: int): real { ms as real / 1000.0 }

  function AsSlot(h: Hash): Slot { Slot(Balance(h.tokens, Seconds(h.ts)), Some(h.deadline)) }

  function AsSlots(hashes: map<string, Hash>): map<string, Slot> { map k | k in hashes :: AsSlot(hashes[k]) }

  lemma MillisecondsPassed(last: int, now: int)
    ensures (if now >= last then (now - last) as real / 1000.0 else 0.0) == Rise(Seconds(last), Seconds(now))
  {
  }

  /** The script, at instant `on` of the server's clock: HMGET (an expired hash has no fields), refill,
      take, HMSET, EXPIRE. For any clocks it does what one visit to a bucket with several lives does,
      including moving the timestamp back when the caller's clock is behind. */
  method TokenBucketScript(cfg: BucketRate, ttl: nat, stored: Option<Hash>, nowMs: int, on: real)
    returns (hash: Hash, admitted: bool)
    requires cfg.Enabled()
    ensures hash.ts == nowMs && hash.deadline == on + ttl as real
    ensures (AsSlot(hash), admitted)
         == TakeSlot(cfg, Some(ttl), if stored.None? then None else Some(AsSlot(stored.value)),
                     Visit(Seconds(nowMs), on))
  {
    var capacity := cfg.burst as real;
    var data := if stored.Some? && on < stored.value.deadline then stored else None;
    var tokens, lastMs := capacity, nowMs;
    if data.Some? {
      tokens, lastMs := data.value.tokens, data.value.ts;
    }
    var elapsed := if nowMs >= lastMs then (nowMs - lastMs) as real / 1000.0 else 0.0;
    MillisecondsPassed(lastMs, nowMs);
    assert elapsed * cfg.rate == Credit(cfg.rate, Rise(Seconds(lastMs), Seconds(nowMs)));
    assert data.None? ==> elapsed * cfg.rate == 0.0;
    tokens := Min(capacity, tokens + elapsed * cfg.rate);
    admitted := false;
    if tokens >= 1.0 {
      tokens := tokens - 1.0;
      admitted := true;
    }
    hash := Hash(tokens, nowMs, on + ttl as real);
  }
}
