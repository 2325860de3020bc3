/**
A token bucket with lazy refill, as both rate limiters keep it
(freeciv-proxy/api_rate_limiter.py, freeciv-proxy/rate_limiter.py).
*/
module TokenBuckets {
  datatype Rate = Rate(capacity: real, perSecond: real)
  datatype Bucket = Bucket(tokens: real, lastUpdate: real)

  function Min(a: real, b: real): real {
    if a <= b then a else b
  }

  function Full(rt: Rate, now: real): Bucket {
    Bucket(rt.capacity, now)
  }

  /** The tokens a bucket would hold if it were refilled at `now`. */
  function Level(rt: Rate, b: Bucket, now: real): real {
    Min(rt.capacity, b.tokens + (now - b.lastUpdate) * rt.perSecond)
  }

  /** Refill at `now`, then take one token if there is one. */
  function Consume(rt: Rate, b: Bucket, now: real): (bool, Bucket) {
    var level := Level(rt, b, now);
    if level >= 1.0 then (true, Bucket(level - 1.0, now)) else (false, Bucket(level, now))
  }

  /** The tokens earned between `t1` and `t2` are those up to `t2` less those up to `t1`. */
  lemma Earned(r: real, u: real, t1: real, t2: real)
    requires r >= 0.0 && t1 <= t2
    ensures (t2 - u) * r == (t1 - u) * r + (t2 - t1) * r && (t2 - t1) * r >= 0.0
  {
  }

  /** Refilling at `t1` and then at `t2` is refilling at `t2`. */
  lemma RefillComposes(rt: Rate, b: Bucket, t1: real, t2: real)
    requires rt.perSecond >= 0.0 && t1 <= t2
    ensures Level(rt, Bucket(Level(rt, b, t1), t1), t2) == Level(rt, b, t2)
  {
    Earned(rt.perSecond, b.lastUpdate, t1, t2);
  }

  /** A bucket earns at most its rate, and never falls on its own. */
  lemma LevelGrows(rt: Rate, b: Bucket, t1: real, t2: real)
    requires rt.perSecond >= 0.0 && t1 <= t2
    ensures Level(rt, b, t1) <= Level(rt, b, t2) <= Level(rt, b, t1) + (t2 - t1) * rt.perSecond
  {
    Earned(rt.perSecond, b.lastUpdate, t1, t2);
  }

  /** A full bucket stays full. */
  lemma FullStaysFull(rt: Rate, now: real, t: real)
    requires rt.perSecond >= 0.0 && now <= t
    ensures Level(rt, Full(rt, now), t) == rt.capacity
  {
    Earned(rt.perSecond, now, now, t);
  }

  /** Levels stay within none and capacity. */
  lemma LevelInRange(rt: Rate, b: Bucket, t: real)
    requires rt.perSecond >= 0.0 && 0.0 <= b.tokens <= rt.capacity && b.lastUpdate <= t
    ensures 0.0 <= Level(rt, b, t) <= rt.capacity
  {
    Earned(rt.perSecond, b.lastUpdate, b.lastUpdate, t);
  }

  /** An hour fills any bucket that fills in a minute. */
  lemma HourFills(rt: Rate, b: Bucket, t: real)
    requires rt.capacity >= 0.0 && rt.perSecond == rt.capacity / 60.0
    requires 0.0 <= b.tokens <= rt.capacity && b.lastUpdate + 3600.0 <= t
    ensures Level(rt, b, t) == rt.capacity
  {
    var r, u := rt.perSecond, b.lastUpdate;
    Earned(r, u, u + 3600.0, t);
    assert (u + 3600.0 - u) * r == 3600.0 * r;
  }

  lemma OneTokenLess(rt: Rate, tokens: real, now: real, t: real)
    ensures Level(rt, Bucket(tokens - 1.0, now), t) <= Level(rt, Bucket(tokens, now), t)
    ensures tokens <= rt.capacity ==> Level(rt, Bucket(tokens - 1.0, now), now) == tokens - 1.0
  {
    NoTimeNoTokens(rt, Bucket(tokens - 1.0, now));
  }

  lemma NoTimeNoTokens(rt: Rate, b: Bucket)
    ensures Level(rt, b, b.lastUpdate) == Min(rt.capacity, b.tokens)
  {
    var none := b.lastUpdate - b.lastUpdate;
    assert none * rt.perSecond == 0.0;
  }

  /** The tokens earned over `d` seconds. */
  function Gain(rt: Rate, d: real): real {
    d * rt.perSecond
  }

  lemma GainSplits(rt: Rate, u: real, v: real, t: real)
    ensures Gain(rt, t - u) == Gain(rt, v - u) + Gain(rt, t - v)
  {
  }

  lemma GainIsPositive(rt: Rate, d: real)
    requires rt.perSecond >= 0.0 && d >= 0.0
    ensures Gain(rt, d) >= 0.0
  {
  }
}
