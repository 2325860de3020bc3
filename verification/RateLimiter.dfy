/**
The rate limiters of the agent messages (freeciv-proxy/rate_limiter.py).

With Redis, a sorted set per key logs the accepted requests of the last window; the log
forgets what has expired. Without it, a token bucket per key is kept in memory. The log is
shown to decide as the full history would, for one caller at a time.
*/
module RateLimiter {
  import opened TokenBuckets

  // ---------------------------------------------------------------- a Redis sorted set

  /** Scores in ascending order, each at most once; a member is the text of its score. */
  type Scores = seq<real>

  function ZRemRangeByScore(z: Scores, lo: real, hi: real): Scores {
    if z == [] then []
    else (if lo <= z[0] <= hi then [] else [z[0]]) + ZRemRangeByScore(z[1..], lo, hi)
  }

  function ZAdd(z: Scores, x: real): Scores {
    if z == [] || x < z[0] then [x] + z
    else if x == z[0] then z
    else [z[0]] + ZAdd(z[1..], x)
  }

  function ZRem(z: Scores, x: real): Scores {
    if z == [] then [] else (if z[0] == x then [] else [z[0]]) + ZRem(z[1..], x)
  }

  /** A key of the store; it vanishes at `expireAt`. */
  datatype Log = Log(scores: Scores, expireAt: real)

  const NEVER_USED := Log([], 0.0)

  function Load(log: Log, now: real): Scores {
    if log.expireAt <= now then [] else log.scores
  }

  /** `RedisRateLimiter.check_limit` on its key. */
  function LogCheck(log: Log, limit: int, window: int, now: real): (bool, Log) {
    var live := ZRemRangeByScore(Load(log, now), 0.0, now - window as real);
    var added := ZAdd(live, now);
    var ok := |live| < limit;
    (ok, Log(if ok then added else ZRem(added, now), now + (window + 1) as real))
  }

  function LogVerdicts(log: Log, limit: int, window: int, ts: seq<real>): (oks: seq<bool>)
    ensures |oks| == |ts|
    decreases |ts|
  {
    if ts == [] then []
    else
      var (ok, log') := LogCheck(log, limit, window, ts[0]);
      [ok] + LogVerdicts(log', limit, window, ts[1..])
  }

  // ---------------------------------------------------------------- the full history

  /** How many entries are above `cutoff`. */
  function CountAfter(hist: seq<real>, cutoff: real): nat {
    if hist == [] then 0 else (if hist[0] > cutoff then 1 else 0) + CountAfter(hist[1..], cutoff)
  }

  /** The reference: accept if fewer than `limit` were accepted in the last `window` seconds. */
  function HistoryVerdicts(hist: seq<real>, limit: int, window: int, ts: seq<real>): (oks: seq<bool>)
    ensures |oks| == |ts|
    decreases |ts|
  {
    if ts == [] then []
    else
      var ok := CountAfter(hist, ts[0] - window as real) < limit;
      [ok] + HistoryVerdicts(if ok then hist + [ts[0]] else hist, limit, window, ts[1..])
  }

  /** Strictly increasing times after `from`. */
  ghost predicate Increasing(ts: seq<real>, from: real)
    decreases |ts|
  {
    ts != [] ==> from < ts[0] && Increasing(ts[1..], ts[0])
  }

  /** Times that do not go back. */
  ghost predicate Clocked(ts: seq<real>, from: real)
    decreases |ts|
  {
    ts != [] ==> from <= ts[0] && Clocked(ts[1..], ts[0])
  }

  /** No check falls on the very instant of an earlier check that was accepted. */
  ghost predicate NoneRepeats(hist: seq<real>, limit: int, window: int, ts: seq<real>)
    decreases |ts|
  {
    ts != [] ==>
      && ts[0] !in hist
      && var ok := CountAfter(hist, ts[0] - window as real) < limit;
         NoneRepeats(if ok then hist + [ts[0]] else hist, limit, window, ts[1..])
  }

  /** The accepted ones among `ts`. */
  function Accepted(ts: seq<real>, oks: seq<bool>): seq<real>
    requires |ts| == |oks|
  {
    if ts == [] then [] else (if oks[0] then [ts[0]] else []) + Accepted(ts[1..], oks[1..])
  }

  function CountIn(hist: seq<real>, lo: real, hi: real): nat {
    if hist == [] then 0 else (if lo < hist[0] <= hi then 1 else 0) + CountIn(hist[1..], lo, hi)
  }

  // ---------------------------------------------------------------- the log refines the history

  function After(hist: seq<real>, cutoff: real): seq<real> {
    if hist == [] then [] else (if hist[0] > cutoff then [hist[0]] else []) + After(hist[1..], cutoff)
  }

  ghost predicate Within(hist: seq<real>, lo: real, hi: real) {
    forall i | 0 <= i < |hist| :: lo <= hist[i] <= hi
  }

  lemma {:induction false} AfterCounts(hist: seq<real>, cutoff: real)
    ensures |After(hist, cutoff)| == CountAfter(hist, cutoff)
  {
    if hist != [] { AfterCounts(hist[1..], cutoff); }
  }

  lemma {:induction false} AfterSnoc(hist: seq<real>, x: real, cutoff: real)
    ensures After(hist + [x], cutoff) == After(hist, cutoff) + if x > cutoff then [x] else []
  {
    if hist != [] {
      assert (hist + [x])[1..] == hist[1..] + [x];
      AfterSnoc(hist[1..], x, cutoff);
    }
  }

  lemma {:induction false} AfterNone(hist: seq<real>, cutoff: real)
    requires forall i | 0 <= i < |hist| :: hist[i] <= cutoff
    ensures After(hist, cutoff) == []
  {
    if hist != [] { AfterNone(hist[1..], cutoff); }
  }

  lemma {:induction false} AfterBounded(hist: seq<real>, cutoff: real, hi: real)
    requires forall i | 0 <= i < |hist| :: hist[i] < hi
    ensures forall i | 0 <= i < |After(hist, cutoff)| :: After(hist, cutoff)[i] < hi
  {
    if hist != [] { AfterBounded(hist[1..], cutoff, hi); }
  }

  /** Dropping the expired scores of a log that already dropped older ones. */
  lemma {:induction false} TrimAfter(hist: seq<real>, c0: real, c1: real)
    requires c0 <= c1 && forall i | 0 <= i < |hist| :: 0.0 <= hist[i]
    ensures ZRemRangeByScore(After(hist, c0), 0.0, c1) == After(hist, c1)
  {
    if hist != [] {
      TrimAfter(hist[1..], c0, c1);
      var rest := After(hist[1..], c0);
      assert ([hist[0]] + rest)[1..] == rest == [] + rest;
      assert [] + After(hist[1..], c1) == After(hist[1..], c1);
    }
  }

  lemma {:induction false} AddNewest(z: Scores, x: real)
    requires forall i | 0 <= i < |z| :: z[i] < x
    ensures ZAdd(z, x) == z + [x] && ZRem(z, x) == z && ZRem(z + [x], x) == z
  {
    if z == [] {
      assert ZRem([x], x) == [] + ZRem([], x);
    } else {
      AddNewest(z[1..], x);
      assert (z + [x])[1..] == z[1..] + [x];
    }
  }

  /** The log after a check at `last`: the accepted requests of the window that ended there. */
  ghost predicate Refines(log: Log, hist: seq<real>, window: int, last: real) {
    && Within(hist, 0.0, last)
    && log.expireAt == last + (window + 1) as real
    && log.scores == After(hist, last - window as real)
  }

  lemma LoadRefines(log: Log, hist: seq<real>, window: int, last: real, now: real)
    requires Refines(log, hist, window, last) && last <= now && window > 0
    ensures ZRemRangeByScore(Load(log, now), 0.0, now - window as real) == After(hist, now - window as real)
  {
    if log.expireAt <= now {
      AfterNone(hist, now - window as real);
    } else {
      TrimAfter(hist, last - window as real, now - window as real);
    }
  }

  lemma CheckRefines(log: Log, hist: seq<real>, limit: int, window: int, last: real, now: real)
    requires Refines(log, hist, window, last) && 0.0 <= last <= now && now !in hist && window > 0
    ensures
      var (ok, log') := LogCheck(log, limit, window, now);
      && ok == (CountAfter(hist, now - window as real) < limit)
      && Refines(log', if ok then hist + [now] else hist, window, now)
  {
    hide After, CountAfter, ZAdd, ZRem, ZRemRangeByScore, Load;
    var cutoff := now - window as real;
    LoadRefines(log, hist, window, last, now);
    AfterCounts(hist, cutoff);
    AfterBounded(hist, cutoff, now);
    AddNewest(After(hist, cutoff), now);
    AfterSnoc(hist, now, cutoff);
  }

  lemma {:induction false} VerdictsRefine(log: Log, hist: seq<real>, limit: int, window: int, last: real, ts: seq<real>)
    requires Refines(log, hist, window, last) && 0.0 <= last && window > 0
    requires Clocked(ts, last) && NoneRepeats(hist, limit, window, ts)
    ensures LogVerdicts(log, limit, window, ts) == HistoryVerdicts(hist, limit, window, ts)
    decreases |ts|
  {
    hide After, CountAfter, ZAdd, ZRem, ZRemRangeByScore, Load;
    if ts != [] {
      CheckRefines(log, hist, limit, window, last, ts[0]);
      var (ok, log') := LogCheck(log, limit, window, ts[0]);
      VerdictsRefine(log', if ok then hist + [ts[0]] else hist, limit, window, ts[0], ts[1..]);
    }
  }

  /** A key's first check finds the same whether the key is missing or empty. */
  lemma FirstCheck(limit: int, window: int, ts: seq<real>)
    requires window > 0
    ensures Refines(Log([], (window + 1) as real), [], window, 0.0)
    ensures LogVerdicts(NEVER_USED, limit, window, ts) == LogVerdicts(Log([], (window + 1) as real), limit, window, ts)
    ensures ts != [] ==>
              LogCheck(NEVER_USED, limit, window, ts[0])
              == LogCheck(Log([], (window + 1) as real), limit, window, ts[0])
  {
    if ts != [] {
      var first := Log([], (window + 1) as real);
      assert Load(first, ts[0]) == [] == Load(NEVER_USED, ts[0]);
      assert LogCheck(NEVER_USED, limit, window, ts[0]) == LogCheck(first, limit, window, ts[0]);
    }
  }

  /**
  A log that forgets decides as one that remembers everything, on every run of a key in which no
  check falls on the instant of an accepted one.
  */
  lemma LogDecidesAsHistory(limit: int, window: int, ts: seq<real>)
    requires window > 0 && Clocked(ts, 0.0) && NoneRepeats([], limit, window, ts)
    ensures LogVerdicts(NEVER_USED, limit, window, ts) == HistoryVerdicts([], limit, window, ts)
  {
    FirstCheck(limit, window, ts);
    VerdictsRefine(Log([], (window + 1) as real), [], limit, window, 0.0, ts);
  }

  // ---------------------------------------------------------------- checks at one instant

  lemma {:induction false} IncreasingIsClean(hist: seq<real>, limit: int, window: int, last: real, ts: seq<real>)
    requires (forall i | 0 <= i < |hist| :: hist[i] <= last) && Increasing(ts, last)
    ensures Clocked(ts, last) && NoneRepeats(hist, limit, window, ts)
    decreases |ts|
  {
    if ts != [] {
      IncreasingIsClean(hist + [ts[0]], limit, window, ts[0], ts[1..]);
      IncreasingIsClean(hist, limit, window, ts[0], ts[1..]);
    }
  }

  /** From `from` on, every strictly later run gets the same verdicts from the log and the history. */
  ghost predicate Equivalent(log: Log, hist: seq<real>, limit: int, window: int, from: real) {
    forall ts | Increasing(ts, from) :: LogVerdicts(log, limit, window, ts) == HistoryVerdicts(hist, limit, window, ts)
  }

  lemma RefiningIsEquivalent(log: Log, hist: seq<real>, limit: int, window: int, last: real)
    requires Refines(log, hist, window, last) && 0.0 <= last && window > 0
    ensures Equivalent(log, hist, limit, window, last)
  {
    forall ts | Increasing(ts, last)
      ensures LogVerdicts(log, limit, window, ts) == HistoryVerdicts(hist, limit, window, ts)
    {
      IncreasingIsClean(hist, limit, window, last, ts);
      VerdictsRefine(log, hist, limit, window, last, ts);
    }
  }

  /** A limit of zero refuses everything, log or no log. */
  lemma {:induction false} NoneWithoutLimit(log: Log, hist: seq<real>, limit: int, window: int, ts: seq<real>)
    requires limit <= 0
    ensures LogVerdicts(log, limit, window, ts) == HistoryVerdicts(hist, limit, window, ts)
    decreases |ts|
  {
    if ts != [] {
      NoneWithoutLimit(LogCheck(log, limit, window, ts[0]).1, hist, limit, window, ts[1..]);
    }
  }

  lemma {:induction false} CountAfterSnoc(hist: seq<real>, x: real, cutoff: real)
    ensures CountAfter(hist + [x], cutoff) == CountAfter(hist, cutoff) + if x > cutoff then 1 else 0
  {
    if hist != [] {
      assert (hist + [x])[1..] == hist[1..] + [x];
      CountAfterSnoc(hist[1..], x, cutoff);
    }
  }

  lemma {:induction false} AddAgain(z: Scores, x: real)
    requires forall i | 0 <= i < |z| :: z[i] < x
    ensures ZAdd(z + [x], x) == z + [x]
  {
    if z != [] {
      AddAgain(z[1..], x);
      assert (z + [x])[1..] == z[1..] + [x];
    }
  }

  /**
  A second check at an instant already accepted adds no entry if it is accepted, and takes the
  earlier entry away if it is refused: either way the log is one request behind.
  */
  lemma RepeatForgets(log: Log, older: seq<real>, limit: int, window: int, last: real)
    requires Refines(log, older + [last], window, last) && last !in older && window > 0
    ensures
      var (ok, log') := LogCheck(log, limit, window, last);
      && ok == (CountAfter(older + [last], last - window as real) < limit)
      && Refines(log', if ok then older + [last] else older, window, last)
  {
    hide After, CountAfter, ZAdd, ZRem, ZRemRangeByScore, Load;
    var hist, cutoff := older + [last], last - window as real;
    forall i | 0 <= i < |older| ensures 0.0 <= older[i] < last {
      assert hist[i] == older[i];
    }
    LoadRefines(log, hist, window, last, last);
    AfterCounts(hist, cutoff);
    AfterSnoc(older, last, cutoff);
    AfterBounded(older, cutoff, last);
    AddAgain(After(older, cutoff), last);
    AddNewest(After(older, cutoff), last);
  }

  /** For cutoffs between `lo` and `x`, the history `full` counts `n + 1`, one more than `short`. */
  ghost predicate Behind(short: seq<real>, full: seq<real>, lo: real, x: real, n: nat) {
    forall c | lo < c < x :: CountAfter(short, c) == n && CountAfter(full, c) == n + 1
  }

  /** One request behind, with room for `n + 1`: filling up to the limit brings it to light. */
  lemma {:induction false} LagShows(
      short: seq<real>, full: seq<real>, limit: int, window: int, lo: real, x: real, n: nat)
    requires lo < x <= lo + window as real && n < limit && Behind(short, full, lo, x, n)
    ensures exists ts ::
              && Increasing(ts, lo + window as real)
              && HistoryVerdicts(short, limit, window, ts) != HistoryVerdicts(full, limit, window, ts)
    decreases limit - n
  {
    var c := (lo + x) / 2.0;
    var t := c + window as real;
    assert t - window as real == c;
    assert CountAfter(short, c) == n && CountAfter(full, c) == n + 1;
    if n + 1 == limit {
      assert HistoryVerdicts(short, limit, window, [t])[0] && !HistoryVerdicts(full, limit, window, [t])[0];
      assert Increasing([t], lo + window as real);
    } else {
      forall d | c < d < x ensures CountAfter(short + [t], d) == n + 1 && CountAfter(full + [t], d) == n + 2 {
        CountAfterSnoc(short, t, d);
        CountAfterSnoc(full, t, d);
      }
      LagShows(short + [t], full + [t], limit, window, c, x, n + 1);
      var later :| Increasing(later, t) &&
                   HistoryVerdicts(short + [t], limit, window, later)
                   != HistoryVerdicts(full + [t], limit, window, later);
      var ts := [t] + later;
      assert ts[1..] == later;
      assert HistoryVerdicts(short, limit, window, ts)[1..] == HistoryVerdicts(short + [t], limit, window, later);
      assert HistoryVerdicts(full, limit, window, ts)[1..] == HistoryVerdicts(full + [t], limit, window, later);
      assert Increasing(ts, lo + window as real);
    }
  }

  function CountOf(hist: seq<real>, x: real): nat {
    if hist == [] then 0 else (if hist[0] == x then 1 else 0) + CountOf(hist[1..], x)
  }

  lemma {:induction false} CountOfAbsent(hist: seq<real>, x: real)
    requires x !in hist
    ensures CountOf(hist, x) == 0 && CountOf(hist + [x], x) == 1
  {
    if hist == [] {
      assert CountOf([x], x) == 1 + CountOf([], x);
    } else {
      assert (hist + [x])[1..] == hist[1..] + [x];
      CountOfAbsent(hist[1..], x);
    }
  }

  /** Just below the latest time, a cutoff leaves only the entries at that time. */
  lemma {:induction false} OnlyLatestLeft(hist: seq<real>, x: real, from: real) returns (lo: real)
    requires from < x && forall i | 0 <= i < |hist| :: hist[i] <= x
    ensures from <= lo < x && forall c | lo < c < x :: CountAfter(hist, c) == CountOf(hist, x)
  {
    lo := from;
    if hist != [] {
      lo := OnlyLatestLeft(hist[1..], x, from);
      if lo < hist[0] < x {
        lo := hist[0];
      }
    }
  }

  /** One behind for good: some strictly later run is decided otherwise. */
  lemma LaggingIsNotEquivalent(log: Log, short: seq<real>, limit: int, window: int, last: real)
    requires Refines(log, short, window, last) && 0.0 <= last && window > 0 && CountOf(short, last) < limit
    ensures !Equivalent(log, short + [last], limit, window, last)
  {
    var lo := OnlyLatestLeft(short, last, last - window as real);
    forall c | lo < c < last ensures CountAfter(short + [last], c) == CountAfter(short, c) + 1 {
      CountAfterSnoc(short, last, c);
    }
    LagShows(short, short + [last], limit, window, lo, last, CountOf(short, last));
    var ts :| Increasing(ts, lo + window as real) &&
              HistoryVerdicts(short, limit, window, ts) != HistoryVerdicts(short + [last], limit, window, ts);
    RefiningIsEquivalent(log, short, limit, window, last);
    assert Increasing(ts, last);
  }

  ghost predicate Ascending(hist: seq<real>) {
    forall i, j | 0 <= i < j < |hist| :: hist[i] < hist[j]
  }

  /**
  One more check at the instant of the last one is decided rightly; what comes strictly later is,
  too, exactly when that instant was not yet an accepted one (or nothing is ever accepted).
  */
  lemma RepeatIsHarmlessIff(log: Log, hist: seq<real>, limit: int, window: int, last: real)
    requires Refines(log, hist, window, last) && Ascending(hist) && 0.0 <= last && window > 0
    ensures
      var (ok, log') := LogCheck(log, limit, window, last);
      && ok == (CountAfter(hist, last - window as real) < limit)
      && (Equivalent(log', if ok then hist + [last] else hist, limit, window, last) <==> limit <= 0 || last !in hist)
  {
    hide LogCheck, Equivalent;
    var (ok, log') := LogCheck(log, limit, window, last);
    if last !in hist {
      CheckRefines(log, hist, limit, window, last, last);
      RefiningIsEquivalent(log', if ok then hist + [last] else hist, limit, window, last);
    } else {
      var older := hist[..|hist| - 1];
      LatestIsLast(hist, last);
      RepeatForgets(log, older, limit, window, last);
      CountAfterSnoc(older, last, last - window as real);
      CountOfAbsent(older, last);
      if limit <= 0 {
        RefusesAll(log', if ok then hist + [last] else hist, limit, window, last);
      } else {
        LaggingIsNotEquivalent(log', if ok then hist else older, limit, window, last);
      }
    }
  }

  lemma RefusesAll(log: Log, hist: seq<real>, limit: int, window: int, from: real)
    requires limit <= 0
    ensures Equivalent(log, hist, limit, window, from)
  {
    forall ts ensures LogVerdicts(log, limit, window, ts) == HistoryVerdicts(hist, limit, window, ts) {
      NoneWithoutLimit(log, hist, limit, window, ts);
    }
  }

  lemma LatestIsLast(hist: seq<real>, last: real)
    requires Ascending(hist) && last in hist && forall i | 0 <= i < |hist| :: hist[i] <= last
    ensures hist == hist[..|hist| - 1] + [last] && last !in hist[..|hist| - 1]
  {
    assert hist[|hist| - 1] == last;
  }

  /** Log and history agree on every check of the run, and at each point on all that could follow. */
  ghost predicate StaysExact(log: Log, hist: seq<real>, limit: int, window: int, from: real, ts: seq<real>)
    decreases |ts|
  {
    && Equivalent(log, hist, limit, window, from)
    && (ts != [] ==>
          var (ok, log') := LogCheck(log, limit, window, ts[0]);
          && ok == (CountAfter(hist, ts[0] - window as real) < limit)
          && StaysExact(log', if ok then hist + [ts[0]] else hist, limit, window, ts[0], ts[1..]))
  }

  lemma {:induction false} RefusesAllThroughout(
      log: Log, hist: seq<real>, limit: int, window: int, from: real, ts: seq<real>)
    requires limit <= 0
    ensures StaysExact(log, hist, limit, window, from, ts)
    decreases |ts|
  {
    hide Equivalent;
    RefusesAll(log, hist, limit, window, from);
    if ts != [] {
      RefusesAllThroughout(LogCheck(log, limit, window, ts[0]).1, hist, limit, window, ts[0], ts[1..]);
    }
  }

  lemma AscendingSnoc(hist: seq<real>, last: real, x: real)
    requires Ascending(hist) && Within(hist, 0.0, last) && last <= x
    ensures x !in hist ==> Ascending(hist + [x])
    ensures x in hist ==> x == last
  {
  }

  /** A repeat of an accepted instant ends exactness at once. */
  lemma RepeatIsNotExact(log: Log, hist: seq<real>, limit: int, window: int, last: real, ts: seq<real>)
    requires Refines(log, hist, window, last) && Ascending(hist) && 0.0 <= last && window > 0 && limit > 0
    requires ts != [] && ts[0] == last && last in hist
    ensures !StaysExact(log, hist, limit, window, last, ts)
  {
    hide LogCheck, Equivalent, Refines, Ascending;
    RepeatIsHarmlessIff(log, hist, limit, window, last);
  }

  lemma {:induction false} ExactIff(log: Log, hist: seq<real>, limit: int, window: int, last: real, ts: seq<real>)
    requires Refines(log, hist, window, last) && Ascending(hist) && 0.0 <= last && window > 0
    requires limit > 0 && Clocked(ts, last)
    ensures StaysExact(log, hist, limit, window, last, ts) <==> NoneRepeats(hist, limit, window, ts)
    decreases |ts|
  {
    hide LogCheck, Equivalent, CountAfter, Ascending;
    RefiningIsEquivalent(log, hist, limit, window, last);
    if ts != [] {
      AscendingSnoc(hist, last, ts[0]);
      if ts[0] in hist {
        RepeatIsNotExact(log, hist, limit, window, last, ts);
      } else {
        CheckRefines(log, hist, limit, window, last, ts[0]);
        var (ok, log') := LogCheck(log, limit, window, ts[0]);
        ExactIff(log', if ok then hist + [ts[0]] else hist, limit, window, ts[0], ts[1..]);
      }
    }
  }

  /**
  On a clock that does not go back, the log stays exact throughout a run exactly when no check
  falls on the instant of an accepted one (or the limit lets nothing through).
  */
  lemma LogIsExactIff(limit: int, window: int, ts: seq<real>)
    requires window > 0 && Clocked(ts, 0.0)
    ensures StaysExact(NEVER_USED, [], limit, window, 0.0, ts) <==> limit <= 0 || NoneRepeats([], limit, window, ts)
  {
    if limit <= 0 {
      RefusesAllThroughout(NEVER_USED, [], limit, window, 0.0, ts);
    } else {
      hide LogCheck;
      var first := Log([], (window + 1) as real);
      forall more ensures LogVerdicts(NEVER_USED, limit, window, more) == LogVerdicts(first, limit, window, more) {
        FirstCheck(limit, window, more);
      }
      FirstCheck(limit, window, ts);
      ExactIff(first, [], limit, window, 0.0, ts);
    }
  }

  // ---------------------------------------------------------------- what a window holds

  lemma {:induction false} CountInSnoc(hist: seq<real>, x: real, lo: real, hi: real)
    ensures CountIn(hist + [x], lo, hi) == CountIn(hist, lo, hi) + if lo < x <= hi then 1 else 0
  {
    if hist != [] {
      assert (hist + [x])[1..] == hist[1..] + [x];
      CountInSnoc(hist[1..], x, lo, hi);
    }
  }

  lemma {:induction false} CountInAtMostAfter(hist: seq<real>, lo: real, hi: real, cutoff: real)
    requires cutoff <= lo
    ensures CountIn(hist, lo, hi) <= CountAfter(hist, cutoff)
  {
    if hist != [] { CountInAtMostAfter(hist[1..], lo, hi, cutoff); }
  }

  lemma {:induction false} HistoryWindows(hist: seq<real>, limit: int, window: int, ts: seq<real>, lo: real, most: nat)
    requires window > 0 && limit <= most && CountIn(hist, lo, lo + window as real) <= most
    ensures
      var oks := HistoryVerdicts(hist, limit, window, ts);
      CountIn(hist + Accepted(ts, oks), lo, lo + window as real) <= most
    decreases |ts|
  {
    hide CountIn, CountAfter;
    if ts == [] {
      assert hist + [] == hist;
    } else {
      var cutoff, hi := ts[0] - window as real, lo + window as real;
      var ok := CountAfter(hist, cutoff) < limit;
      var hist' := if ok then hist + [ts[0]] else hist;
      CountInSnoc(hist, ts[0], lo, hi);
      if ok && lo < ts[0] <= hi {
        CountInAtMostAfter(hist, lo, hi, cutoff);
      }
      HistoryWindows(hist', limit, window, ts[1..], lo, most);
      var oks := HistoryVerdicts(hist, limit, window, ts);
      assert oks[1..] == HistoryVerdicts(hist', limit, window, ts[1..]);
      assert hist + Accepted(ts, oks) == hist' + Accepted(ts[1..], oks[1..]);
    }
  }

  /** No half-open window of the configured length ever holds more accepted requests than the limit. */
  lemma LogWindowBound(limit: int, window: int, ts: seq<real>, lo: real)
    requires window > 0 && Clocked(ts, 0.0) && NoneRepeats([], limit, window, ts)
    ensures
      CountIn(Accepted(ts, LogVerdicts(NEVER_USED, limit, window, ts)), lo, lo + window as real)
      <= if limit > 0 then limit else 0
  {
    LogDecidesAsHistory(limit, window, ts);
    HistoryWindows([], limit, window, ts, lo, if limit > 0 then limit else 0);
    var oks := HistoryVerdicts([], limit, window, ts);
    assert [] + Accepted(ts, oks) == Accepted(ts, oks);
  }

  /**
  Two checks at one instant share a log entry, so refusing the second erases the first: with a
  limit of one, a third request is then let through although the window is used up.
  */
  lemma EqualTimesForget(window: int, t: real, u: real)
    requires window > 0 && window as real < t < u < t + window as real
    ensures LogVerdicts(NEVER_USED, 1, window, [t, t, u]) == [true, false, true]
    ensures HistoryVerdicts([], 1, window, [t, t, u]) == [true, false, false]
  {
    var w, exp := window as real, t + (window + 1) as real;
    var one := Log([t], exp);
    assert [t] + [] == [t];
    assert LogCheck(NEVER_USED, 1, window, t) == (true, one);
    assert ZRemRangeByScore([t], 0.0, t - w) == [t] + ZRemRangeByScore([], 0.0, t - w);
    assert ZRem([t], t) == [] + ZRem([], t);
    assert LogCheck(one, 1, window, t) == (false, Log([], exp));
    assert LogCheck(Log([], exp), 1, window, u).0;
    assert [t, t, u][1..] == [t, u] && [t, u][1..] == [u] && [u][1..] == [];
    assert LogVerdicts(Log([], exp), 1, window, [u])
        == [true] + LogVerdicts(LogCheck(Log([], exp), 1, window, u).1, 1, window, []);
    assert LogVerdicts(one, 1, window, [t, u]) == [false] + LogVerdicts(Log([], exp), 1, window, [u]);
    assert CountAfter([t], t - w) == 1 + CountAfter([], t - w) && CountAfter([t], u - w) == 1 + CountAfter([], u - w);
    assert [] + [t] == [t];
    assert HistoryVerdicts([t], 1, window, [u]) == [false] + HistoryVerdicts([t], 1, window, []);
    assert HistoryVerdicts([t], 1, window, [t, u]) == [false] + HistoryVerdicts([t], 1, window, [u]);
  }

  // ---------------------------------------------------------------- buckets in memory

  type Buckets = map<string, Bucket>

  function Quota(limit: int, window: int): Rate
    requires window > 0
  {
    Rate(limit as real, limit as real / window as real)
  }

  function KeyOf(agent: string, operation: string): string {
    "rate_limit:" + agent + ":" + operation
  }

  predicate StartsWith(s: string, prefix: string) {
    |prefix| <= |s| && s[..|prefix|] == prefix
  }

  /** `InMemoryRateLimiter.check_limit`. */
  function MemoryCheck(bs: Buckets, rt: Rate, key: string, now: real): (bool, Buckets) {
    var (ok, b) := Consume(rt, if key in bs then bs[key] else Full(rt, now), now);
    (ok, bs[key := b])
  }

  /** `reset_limits`: every key that starts with the agent's prefix is forgotten. */
  function MemoryReset(bs: Buckets, agent: string): Buckets {
    map k | k in bs && !StartsWith(k, KeyOf(agent, "")) :: bs[k]
  }

  datatype Call = Check(key: string, limit: int, window: int, at: real) | Reset(agent: string)

  predicate WellFormed(c: Call) {
    c.Check? ==> c.limit >= 0 && c.window > 0
  }

  function MemoryStep(bs: Buckets, c: Call): (bool, Buckets)
    requires WellFormed(c)
  {
    match c
    case Check(key, limit, window, at) => MemoryCheck(bs, Quota(limit, window), key, at)
    case Reset(agent) => (false, MemoryReset(bs, agent))
  }

  /** How many checks of `key` at times from `s` to `t` are granted. */
  function GrantedIn(bs: Buckets, cs: seq<Call>, key: string, s: real, t: real): nat
    requires forall c <- cs :: WellFormed(c)
    decreases |cs|
  {
    if cs == [] then 0
    else
      var c := cs[0];
      var (ok, bs') := MemoryStep(bs, c);
      (if c.Check? && c.key == key && s <= c.at <= t && ok then 1 else 0) + GrantedIn(bs', cs[1..], key, s, t)
  }

  /** Times do not go back, `key` keeps one quota, and no reset takes its bucket away. */
  ghost predicate Steady(cs: seq<Call>, key: string, rt: Rate, from: real)
    decreases |cs|
  {
    cs != [] ==>
      && WellFormed(cs[0])
      && (match cs[0]
          case Check(k, limit, window, at) =>
            from <= at && (k == key ==> Quota(limit, window) == rt) && Steady(cs[1..], key, rt, at)
          case Reset(agent) => !StartsWith(key, KeyOf(agent, "")) && Steady(cs[1..], key, rt, from))
  }

  function LevelOf(bs: Buckets, key: string, rt: Rate, t: real): real {
    if key in bs then Level(rt, bs[key], t) else rt.capacity
  }

  ghost predicate SoundKey(bs: Buckets, key: string, rt: Rate, now: real) {
    key in bs ==> 0.0 <= bs[key].tokens <= rt.capacity && bs[key].lastUpdate <= now
  }

  function Later(a: real, b: real): real {
    if a <= b then b else a
  }

  lemma LevelRange(bs: Buckets, key: string, rt: Rate, now: real, u: real, t: real)
    requires SoundKey(bs, key, rt, now) && rt.capacity >= 0.0 && rt.perSecond >= 0.0 && now <= u <= t
    ensures 0.0 <= LevelOf(bs, key, rt, u) <= rt.capacity
    ensures LevelOf(bs, key, rt, t) <= LevelOf(bs, key, rt, u) + Gain(rt, t - u)
  {
    GainIsPositive(rt, t - u);
    if key in bs {
      LevelInRange(rt, bs[key], u);
      LevelGrows(rt, bs[key], u, t);
    }
  }

  /** One check of the key itself: what is granted is paid for. */
  lemma MemoryCheckSpends(bs: Buckets, key: string, rt: Rate, now: real, v: real)
    requires SoundKey(bs, key, rt, now) && rt.capacity >= 0.0 && rt.perSecond >= 0.0 && now <= v
    ensures
      var (ok, bs') := MemoryCheck(bs, rt, key, now);
      && SoundKey(bs', key, rt, now)
      && LevelOf(bs', key, rt, v) <= LevelOf(bs, key, rt, v)
      && (ok && v == now ==> LevelOf(bs', key, rt, v) == LevelOf(bs, key, rt, v) - 1.0)
  {
    hide Level;
    var b := if key in bs then bs[key] else Full(rt, now);
    FullStaysFull(rt, now, now);
    FullStaysFull(rt, now, v);
    LevelRange(bs, key, rt, now, now, now);
    RefillComposes(rt, b, now, v);
    OneTokenLess(rt, Level(rt, b, now), now, v);
  }

  lemma MemoryStepSpends(bs: Buckets, c: Call, key: string, rt: Rate, now: real, s: real, t: real)
    requires SoundKey(bs, key, rt, now) && rt.capacity >= 0.0 && rt.perSecond >= 0.0
    requires Steady([c], key, rt, now) && Later(if c.Check? then c.at else now, s) <= t
    ensures
      var (ok, bs') := MemoryStep(bs, c);
      var at := if c.Check? then c.at else now;
      && SoundKey(bs', key, rt, at)
      && (if c.Check? && c.key == key && s <= c.at && ok then 1.0 else 0.0)
         + LevelOf(bs', key, rt, Later(at, s)) + Gain(rt, t - Later(at, s))
         <= LevelOf(bs, key, rt, Later(now, s)) + Gain(rt, t - Later(now, s))
  {
    hide Level, Gain;
    var at := if c.Check? then c.at else now;
    LevelRange(bs, key, rt, now, Later(now, s), Later(at, s));
    GainSplits(rt, Later(now, s), Later(at, s), t);
    if c.Check? && c.key == key {
      MemoryCheckSpends(bs, key, rt, at, Later(at, s));
    }
  }

  lemma {:induction false} NoneGranted(bs: Buckets, cs: seq<Call>, key: string, rt: Rate, now: real, s: real, t: real)
    requires (forall c <- cs :: WellFormed(c)) && Steady(cs, key, rt, now) && t < now
    ensures GrantedIn(bs, cs, key, s, t) == 0
    decreases |cs|
  {
    if cs != [] {
      NoneGranted(MemoryStep(bs, cs[0]).1, cs[1..], key, rt, if cs[0].Check? then cs[0].at else now, s, t);
    }
  }

  lemma {:induction false} GrantedWithinBudget(
      bs: Buckets, cs: seq<Call>, key: string, rt: Rate, now: real, s: real, t: real)
    requires forall c <- cs :: WellFormed(c)
    requires SoundKey(bs, key, rt, now) && rt.capacity >= 0.0 && rt.perSecond >= 0.0
    requires Steady(cs, key, rt, now) && Later(now, s) <= t
    ensures GrantedIn(bs, cs, key, s, t) as real <= LevelOf(bs, key, rt, Later(now, s)) + Gain(rt, t - Later(now, s))
    decreases |cs|
  {
    hide Level, LevelOf, Gain;
    GainIsPositive(rt, t - Later(now, s));
    LevelRange(bs, key, rt, now, Later(now, s), Later(now, s));
    if cs != [] {
      var c, bs' := cs[0], MemoryStep(bs, cs[0]).1;
      if c.Check? && c.at > t {
        NoneGranted(bs', cs[1..], key, rt, c.at, s, t);
      } else {
        MemoryStepSpends(bs, c, key, rt, now, s, t);
        GrantedWithinBudget(bs', cs[1..], key, rt, if c.Check? then c.at else now, s, t);
      }
    }
  }

  lemma QuotaInNumbers(limit: int, window: int, d: real)
    requires window > 0
    ensures Quota(limit, window).capacity == limit as real
    ensures limit >= 0 ==> Quota(limit, window).perSecond >= 0.0
    ensures Gain(Quota(limit, window), d) == limit as real * d / window as real
  {
    var n, w := limit as real, window as real;
    assert d * (n / w) == n * d / w;
  }

  lemma QuotaWindowBound(cs: seq<Call>, key: string, rt: Rate, start: real, s: real, t: real)
    requires forall c <- cs :: WellFormed(c)
    requires rt.capacity >= 0.0 && rt.perSecond >= 0.0 && Steady(cs, key, rt, start) && s <= t
    ensures GrantedIn(map[], cs, key, s, t) as real <= rt.capacity + Gain(rt, t - s)
  {
    hide Level, LevelOf, Gain;
    var u := Later(start, s);
    GainIsPositive(rt, t - s);
    if u <= t {
      GrantedWithinBudget(map[], cs, key, rt, start, s, t);
      LevelRange(map[], key, rt, start, u, u);
      GainSplits(rt, s, u, t);
      GainIsPositive(rt, u - s);
    } else {
      NoneGranted(map[], cs, key, rt, start, s, t);
    }
  }

  /** Between resets, a key is granted at most its limit and what the limit per window yields meanwhile. */
  lemma MemoryWindowBound(cs: seq<Call>, key: string, limit: int, window: int, start: real, s: real, t: real)
    requires forall c <- cs :: WellFormed(c)
    requires limit >= 0 && window > 0 && Steady(cs, key, Quota(limit, window), start) && s <= t
    ensures GrantedIn(map[], cs, key, s, t) as real <= limit as real + limit as real * (t - s) / window as real
  {
    hide Gain, Quota, GrantedIn;
    var d := t - s;
    QuotaInNumbers(limit, window, d);
    QuotaWindowBound(cs, key, Quota(limit, window), start, s, t);
    assert GrantedIn(map[], cs, key, s, t) as real <= limit as real + Gain(Quota(limit, window), d);
  }

  /** The same check over and over, at one instant. */
  function Checks(key: string, limit: int, window: int, now: real, k: nat): seq<Call> {
    if k == 0 then [] else [Check(key, limit, window, now)] + Checks(key, limit, window, now, k - 1)
  }

  lemma {:induction false} BurstGranted(
      bs: Buckets, key: string, limit: nat, window: int, now: real, left: nat, k: nat)
    requires window > 0 && left <= limit && LevelOf(bs, key, Quota(limit, window), now) == left as real
    ensures forall c <- Checks(key, limit, window, now, k) :: WellFormed(c)
    ensures GrantedIn(bs, Checks(key, limit, window, now, k), key, now, now) == if k < left then k else left
    decreases k
  {
    hide LevelOf, Quota, MemoryCheck;
    if k > 0 {
      var c, cs, rt := Check(key, limit, window, now), Checks(key, limit, window, now, k), Quota(limit, window);
      var (ok, bs') := MemoryStep(bs, c);
      assert cs[0] == c && cs[1..] == Checks(key, limit, window, now, k - 1);
      OneChecked(bs, key, limit, window, now, left);
      BurstGranted(bs', key, limit, window, now, if left == 0 then 0 else left - 1, k - 1);
      forall d | d in cs ensures WellFormed(d) {
        assert cs == [c] + cs[1..];
      }
    }
  }

  lemma OneChecked(bs: Buckets, key: string, limit: nat, window: int, now: real, left: nat)
    requires window > 0 && left <= limit && LevelOf(bs, key, Quota(limit, window), now) == left as real
    ensures
      var (ok, bs') := MemoryStep(bs, Check(key, limit, window, now));
      && (ok <==> left > 0)
      && LevelOf(bs', key, Quota(limit, window), now) == if left == 0 then 0.0 else left as real - 1.0
  {
    var rt := Quota(limit, window);
    NoTimeNoTokens(rt, Full(rt, now));
    NoTimeNoTokens(rt, Bucket(left as real, now));
    NoTimeNoTokens(rt, Bucket(left as real - 1.0, now));
  }

  /** And it is granted as many: of any number of checks at one instant, the limit, if there are so many. */
  lemma MemoryGrantsItsLimit(key: string, limit: nat, window: int, now: real, k: nat)
    requires window > 0
    ensures forall c <- Checks(key, limit, window, now, k) :: WellFormed(c)
    ensures GrantedIn(map[], Checks(key, limit, window, now, k), key, now, now) == if k < limit then k else limit
  {
    BurstGranted(map[], key, limit, window, now, limit, k);
  }

  // ---------------------------------------------------------------- resets

  /** The keys of `agent` and of `other` can be mistaken for each other. */
  predicate Clash(agent: string, other: string) {
    other == agent || agent + ":" <= other || other + ":" <= agent
  }

  lemma ResetMeetsIff(agent: string, other: string, operation: string)
    ensures StartsWith(KeyOf(other, operation), KeyOf(agent, "")) <==> agent + ":" <= other + ":" + operation
  {
    var pre, key, text := KeyOf(agent, ""), KeyOf(other, operation), other + ":" + operation;
    assert pre == "rate_limit:" + (agent + ":") && key == "rate_limit:" + text;
    assert key[11..] == text && pre[11..] == agent + ":";
    if agent + ":" <= text {
      assert text == agent + ":" + text[|agent| + 1..];
      assert key == pre + text[|agent| + 1..];
    }
    if StartsWith(key, pre) {
      assert key[..|pre|][11..] == text[..|agent| + 1];
    }
  }

  /**
  A reset takes away some key of another agent exactly when the two ids clash, which ids without
  a colon do only if they are the same.
  */
  lemma ResetTouchesIff(agent: string, other: string)
    ensures (exists operation :: StartsWith(KeyOf(other, operation), KeyOf(agent, ""))) <==> Clash(agent, other)
    ensures ':' !in agent && ':' !in other ==> (Clash(agent, other) <==> other == agent)
  {
    hide StartsWith, KeyOf;
    forall operation | StartsWith(KeyOf(other, operation), KeyOf(agent, "")) ensures Clash(agent, other) {
      ResetMeetsIff(agent, other, operation);
      var text := other + ":" + operation;
      assert |agent| < |other| ==> text[..|agent| + 1] == other[..|agent| + 1];
      assert |agent| == |other| ==> text[..|agent|] == other && (agent + ":")[..|agent|] == agent;
      assert |agent| > |other| ==>
          text[..|other| + 1] == other + ":" && (agent + ":")[..|other| + 1] == agent[..|other| + 1];
    }
    if Clash(agent, other) {
      var operation := if other + ":" <= agent then agent[|other| + 1..] + ":" else "";
      assert other + ":" <= agent ==> other + ":" + operation == agent + ":";
      ResetMeetsIff(agent, other, operation);
    }
    assert agent + ":" <= other ==> other[|agent|] == ':';
    assert other + ":" <= agent ==> agent[|other|] == ':';
  }

  // ---------------------------------------------------------------- the program's methods

  class RedisRateLimiter {
    var available: bool
    var store: map<string, Log>

    constructor ()
      ensures store == map[]
    {
      available, store := true, map[];
    }

    function LogOf(key: string): Log
      reads this
    {
      if key in store then store[key] else NEVER_USED
    }

    /** Trim, count, add, set the expiry, and take the new entry out again if over the limit. */
    method CheckLimit(key: string, limit: int, window: int, now: real) returns (ok: bool)
      modifies this`store
      ensures !available ==> ok && store == old(store)
      ensures available ==>
                && (ok, LogOf(key)) == LogCheck(old(LogOf(key)), limit, window, now)
                && key in store && store[key].expireAt == now + window as real + 1.0
                && forall k | k != key :: LogOf(k) == old(LogOf(k))
    {
      if !available {
        return true;
      }
      var scores := ZRemRangeByScore(Load(LogOf(key), now), 0.0, now - window as real);
      var count := |scores|;
      scores := ZAdd(scores, now);
      var expireAt := now + (window + 1) as real;
      ok := count < limit;
      if !ok {
        scores := ZRem(scores, now);
      }
      store := store[key := Log(scores, expireAt)];
    }
  }

  class InMemoryRateLimiter {
    var buckets: Buckets

    constructor ()
      ensures buckets == map[]
    {
      buckets := map[];
    }

    method CheckLimit(key: string, limit: int, window: int, now: real) returns (ok: bool)
      requires window > 0
      modifies this
      ensures (ok, buckets) == MemoryCheck(old(buckets), Quota(limit, window), key, now)
    {
      var rt := Quota(limit, window);
      if key !in buckets {
        buckets := buckets[key := Full(rt, now)];
      }
      var b := buckets[key];
      var tokens := Level(rt, b, now);
      ok := tokens >= 1.0;
      buckets := buckets[key := Bucket(if ok then tokens - 1.0 else tokens, now)];
      assert buckets == old(buckets)[key := buckets[key]];
    }

    method ResetLimits(agent: string)
      modifies this
      ensures buckets == MemoryReset(old(buckets), agent)
      ensures forall k :: k in buckets <==> k in old(buckets) && !("rate_limit:" + agent + ":" <= k)
      ensures forall k <- buckets :: buckets[k] == old(buckets)[k]
    {
      var doomed := set k | k in buckets && StartsWith(k, KeyOf(agent, ""));
      ghost var all := doomed;
      while doomed != {}
        invariant doomed <= all && buckets == old(buckets) - (all - doomed)
        decreases |doomed|
      {
        var k :| k in doomed;
        assert all - (doomed - {k}) == (all - doomed) + {k};
        buckets := buckets - {k};
        doomed := doomed - {k};
      }
      assert all - doomed == all;
    }
  }
}
