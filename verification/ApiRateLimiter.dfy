/**
The per-player and per-address rate limiter of the API endpoints
(freeciv-proxy/api_rate_limiter.py).

Buckets unused for an hour are deleted. The theorems below are about the limiter that
deletes: it behaves as one that never does, it bounds what any window accepts, and its
retry times are exact. Tokens and times are reals; the clock is read once per request.
*/
module ApiRateLimiter {
  import opened TokenBuckets

  const CLEANUP_INTERVAL := 300.0
  const IDLE_LIMIT := 3600.0

  type Buckets<!K> = map<K, Bucket>

  /** Rates come from a number of requests per minute; a bucket fills in 60 seconds. */
  function PerMinute(rpm: int): Rate {
    Rate(rpm as real, rpm as real / 60.0)
  }

  /** `Crash` is the division by a zero fill rate in `time_until_tokens`. */
  datatype Verdict = Allowed | Denied(retryAfter: real) | Crash

  function Retry(rt: Rate, tokens: real): Verdict {
    if rt.perSecond == 0.0 then Crash else Denied((1.0 - tokens) / rt.perSecond)
  }

  function BucketOf<K>(rt: Rate, bs: Buckets<K>, k: K, now: real): Bucket {
    if k in bs then bs[k] else Full(rt, now)
  }

  /** `check_player_limit` and `check_ip_limit`. */
  function CheckKey<K>(rt: Rate, bs: Buckets<K>, k: K, now: real): (Verdict, Buckets<K>) {
    var (ok, b) := Consume(rt, BucketOf(rt, bs, k, now), now);
    (if ok then Allowed else Retry(rt, b.tokens), bs[k := b])
  }

  function Recent<K>(bs: Buckets<K>, now: real): Buckets<K> {
    map k | k in bs && !(bs[k].lastUpdate < now - IDLE_LIMIT) :: bs[k]
  }

  /** Tokens key `k` would have at `t`: an absent bucket stands for a full one. */
  function LevelOf<K>(rt: Rate, bs: Buckets<K>, k: K, t: real): real {
    if k in bs then Level(rt, bs[k], t) else rt.capacity
  }

  /** Every bucket holds between none and capacity, and was last used at or before `now`. */
  ghost predicate Sound<K(!new)>(rt: Rate, bs: Buckets<K>, now: real) {
    forall k <- bs :: 0.0 <= bs[k].tokens <= rt.capacity && bs[k].lastUpdate <= now
  }

  // ---------------------------------------------------------------- one dictionary of buckets

  lemma LevelRange<K(!new)>(rt: Rate, bs: Buckets<K>, k: K, now: real, t: real)
    requires Sound(rt, bs, now) && rt.capacity >= 0.0 && rt.perSecond >= 0.0 && now <= t
    ensures 0.0 <= LevelOf(rt, bs, k, t) <= rt.capacity
    ensures LevelOf(rt, bs, k, now) <= LevelOf(rt, bs, k, t) <= LevelOf(rt, bs, k, now) + Gain(rt, t - now)
  {
    if k in bs {
      LevelInRange(rt, bs[k], t);
      LevelGrows(rt, bs[k], now, t);
    } else {
      Earned(rt.perSecond, now, now, t);
    }
  }

  /** A request takes a token if there is one, and otherwise leaves every later level as it was. */
  lemma CheckKeyLevels<K(!new)>(rt: Rate, bs: Buckets<K>, k: K, now: real)
    requires Sound(rt, bs, now) && rt.capacity >= 0.0 && rt.perSecond >= 0.0
    ensures
      var (v, bs') := CheckKey(rt, bs, k, now);
      var level := LevelOf(rt, bs, k, now);
      && Sound(rt, bs', now)
      && v == (if level >= 1.0 then Allowed else Retry(rt, level))
      && (forall t | now <= t ::
            LevelOf(rt, bs', k, t) ==
            if level >= 1.0 then Level(rt, Bucket(level - 1.0, now), t) else LevelOf(rt, bs, k, t))
      && (forall k', t | k' != k :: LevelOf(rt, bs', k', t) == LevelOf(rt, bs, k', t))
  {
    var b := BucketOf(rt, bs, k, now);
    FullStaysFull(rt, now, now);
    LevelRange(rt, bs, k, now, now);
    var level := LevelOf(rt, bs, k, now);
    assert Level(rt, b, now) == level;
    if level < 1.0 {
      forall t | now <= t ensures Level(rt, Bucket(level, now), t) == LevelOf(rt, bs, k, t) {
        RefillComposes(rt, b, now, t);
        FullStaysFull(rt, now, t);
      }
    }
  }

  /** A bucket idle for an hour is full again, so deleting it changes no level. */
  lemma RecentLevels<K(!new)>(rpm: int, bs: Buckets<K>, now: real, k: K, t: real)
    requires rpm >= 0 && Sound(PerMinute(rpm), bs, now) && now <= t
    ensures LevelOf(PerMinute(rpm), Recent(bs, now), k, t) == LevelOf(PerMinute(rpm), bs, k, t)
  {
    if k in bs && k !in Recent(bs, now) {
      HourFills(PerMinute(rpm), bs[k], t);
    }
  }

  // ---------------------------------------------------------------- the limiter

  datatype Limiter = Limiter(players: Buckets<int>, ips: Buckets<string>, lastCleanup: real)
  datatype Config = Config(playerRpm: int, ipRpm: int)
  datatype Request = Request(player: int, ip: string, at: real)
  datatype LimitType = NoLimit | IpLimit | PlayerLimit
  datatype Answer = Answer(verdict: Verdict, limit: LimitType)

  function Cleanup(l: Limiter, now: real): Limiter {
    if now - l.lastCleanup < CLEANUP_INTERVAL then l
    else Limiter(Recent(l.players, now), Recent(l.ips, now), now)
  }

  /** The address is checked first; a request it refuses costs the player nothing. */
  function Check(cf: Config, l: Limiter, q: Request): (Answer, Limiter) {
    var (v, ips) := CheckKey(PerMinute(cf.ipRpm), l.ips, q.ip, q.at);
    var l := l.(ips := ips);
    if v != Allowed then (Answer(v, IpLimit), l)
    else
      var (w, players) := CheckKey(PerMinute(cf.playerRpm), l.players, q.player, q.at);
      (Answer(w, if w == Allowed then NoLimit else PlayerLimit), l.(players := players))
  }

  /** `check_limits`, or with `gc` false, the same without ever deleting a bucket. */
  function CheckLimits(cf: Config, l: Limiter, q: Request, gc: bool): (Answer, Limiter) {
    Check(cf, if gc then Cleanup(l, q.at) else l, q)
  }

  function Answers(cf: Config, l: Limiter, qs: seq<Request>, gc: bool): (out: seq<Answer>)
    ensures |out| == |qs|
    decreases |qs|
  {
    if qs == [] then []
    else
      var (a, l') := CheckLimits(cf, l, qs[0], gc);
      [a] + Answers(cf, l', qs[1..], gc)
  }

  function Fresh(now: real): Limiter {
    Limiter(map[], map[], now)
  }

  ghost predicate Clocked(qs: seq<Request>, from: real)
    decreases |qs|
  {
    qs != [] ==> from <= qs[0].at && Clocked(qs[1..], qs[0].at)
  }

  // ---------------------------------------------------------------- seen from one key

  datatype Who = Ip(ip: string) | Player(player: int)

  function RateOf(cf: Config, who: Who): Rate {
    match who case Ip(_) => PerMinute(cf.ipRpm) case Player(_) => PerMinute(cf.playerRpm)
  }

  function TokensOf(cf: Config, l: Limiter, who: Who, t: real): real {
    match who
    case Ip(k) => LevelOf(RateOf(cf, who), l.ips, k, t)
    case Player(p) => LevelOf(RateOf(cf, who), l.players, p, t)
  }

  /** The request reached this key's bucket. */
  predicate Asked(who: Who, q: Request, a: Answer) {
    match who case Ip(k) => q.ip == k case Player(p) => q.player == p && a.limit != IpLimit
  }

  /** ... and took a token from it. */
  predicate Accepted(who: Who, q: Request, a: Answer) {
    Asked(who, q, a) && match who case Ip(_) => a.limit != IpLimit case Player(_) => a.limit == NoLimit
  }

  ghost predicate SoundLimiter(cf: Config, l: Limiter, now: real) {
    Sound(PerMinute(cf.playerRpm), l.players, now) && Sound(PerMinute(cf.ipRpm), l.ips, now)
  }

  lemma CleanupTokens(cf: Config, l: Limiter, now: real)
    requires cf.playerRpm >= 0 && cf.ipRpm >= 0 && SoundLimiter(cf, l, now)
    ensures SoundLimiter(cf, Cleanup(l, now), now)
    ensures forall who, t | now <= t :: TokensOf(cf, Cleanup(l, now), who, t) == TokensOf(cf, l, who, t)
  {
    forall who, t | now <= t ensures TokensOf(cf, Cleanup(l, now), who, t) == TokensOf(cf, l, who, t) {
      match who
      case Ip(k) => RecentLevels(cf.ipRpm, l.ips, now, k, t);
      case Player(p) => RecentLevels(cf.playerRpm, l.players, now, p, t);
    }
  }

  /** What one request does, told in levels alone: deletion does not show. */
  ghost predicate Spends(cf: Config, l: Limiter, q: Request, a: Answer, l': Limiter, who: Who) {
    var rt, level := RateOf(cf, who), TokensOf(cf, l, who, q.at);
    && (Asked(who, q, a) ==> (Accepted(who, q, a) <==> level >= 1.0))
    && (Asked(who, q, a) && !Accepted(who, q, a) ==> a.verdict == Retry(rt, level))
    && (forall t | q.at <= t ::
          TokensOf(cf, l', who, t) ==
          if Accepted(who, q, a) then Level(rt, Bucket(level - 1.0, q.at), t)
          else TokensOf(cf, l, who, t))
  }

  lemma CheckSpends(cf: Config, l: Limiter, q: Request, who: Who)
    requires cf.playerRpm >= 0 && cf.ipRpm >= 0 && SoundLimiter(cf, l, q.at)
    ensures
      var (a, l') := Check(cf, l, q);
      SoundLimiter(cf, l', q.at) && Spends(cf, l, q, a, l', who)
  {
    CheckKeyLevels(PerMinute(cf.ipRpm), l.ips, q.ip, q.at);
    CheckKeyLevels(PerMinute(cf.playerRpm), l.players, q.player, q.at);
  }

  lemma StepSpends(cf: Config, l: Limiter, q: Request, gc: bool, who: Who)
    requires cf.playerRpm >= 0 && cf.ipRpm >= 0 && SoundLimiter(cf, l, q.at)
    ensures
      var (a, l') := CheckLimits(cf, l, q, gc);
      SoundLimiter(cf, l', q.at) && Spends(cf, l, q, a, l', who)
  {
    CleanupTokens(cf, l, q.at);
    CheckSpends(cf, if gc then Cleanup(l, q.at) else l, q, who);
  }

  // ---------------------------------------------------------------- deleting idle buckets does not show

  ghost predicate Alike(cf: Config, l: Limiter, m: Limiter, now: real) {
    forall who, t | now <= t :: TokensOf(cf, l, who, t) == TokensOf(cf, m, who, t)
  }

  lemma SameAnswer(cf: Config, l: Limiter, m: Limiter, q: Request)
    requires cf.playerRpm >= 0 && cf.ipRpm >= 0 && SoundLimiter(cf, l, q.at) && SoundLimiter(cf, m, q.at)
    requires Alike(cf, l, m, q.at)
    ensures Check(cf, l, q).0 == Check(cf, m, q).0
  {
    assert TokensOf(cf, l, Ip(q.ip), q.at) == TokensOf(cf, m, Ip(q.ip), q.at);
    assert TokensOf(cf, l, Player(q.player), q.at) == TokensOf(cf, m, Player(q.player), q.at);
    CheckKeyLevels(PerMinute(cf.ipRpm), l.ips, q.ip, q.at);
    CheckKeyLevels(PerMinute(cf.ipRpm), m.ips, q.ip, q.at);
    CheckKeyLevels(PerMinute(cf.playerRpm), l.players, q.player, q.at);
    CheckKeyLevels(PerMinute(cf.playerRpm), m.players, q.player, q.at);
  }

  /** A limiter that deletes and one that does not, alike so far, stay alike. */
  lemma StepAlike(cf: Config, l: Limiter, m: Limiter, q: Request)
    requires cf.playerRpm >= 0 && cf.ipRpm >= 0 && SoundLimiter(cf, l, q.at) && SoundLimiter(cf, m, q.at)
    requires Alike(cf, l, m, q.at)
    ensures
      var (a, l') := CheckLimits(cf, l, q, true);
      var (b, m') := CheckLimits(cf, m, q, false);
      a == b && SoundLimiter(cf, l', q.at) && SoundLimiter(cf, m', q.at) && Alike(cf, l', m', q.at)
  {
    var (a, l') := CheckLimits(cf, l, q, true);
    var (b, m') := CheckLimits(cf, m, q, false);
    CleanupTokens(cf, l, q.at);
    SameAnswer(cf, Cleanup(l, q.at), m, q);
    forall who, t | q.at <= t ensures TokensOf(cf, l', who, t) == TokensOf(cf, m', who, t) {
      StepSpends(cf, l, q, true, who);
      StepSpends(cf, m, q, false, who);
      assert TokensOf(cf, l, who, q.at) == TokensOf(cf, m, who, q.at);
    }
    StepSpends(cf, l, q, true, Ip(q.ip));
    StepSpends(cf, m, q, false, Ip(q.ip));
  }

  lemma {:induction false} SameAnswers(cf: Config, l: Limiter, m: Limiter, now: real, qs: seq<Request>)
    requires cf.playerRpm >= 0 && cf.ipRpm >= 0 && Clocked(qs, now)
    requires SoundLimiter(cf, l, now) && SoundLimiter(cf, m, now) && Alike(cf, l, m, now)
    ensures Answers(cf, l, qs, true) == Answers(cf, m, qs, false)
    decreases |qs|
  {
    if qs != [] {
      StepAlike(cf, l, m, qs[0]);
      var (a, l') := CheckLimits(cf, l, qs[0], true);
      var (b, m') := CheckLimits(cf, m, qs[0], false);
      SameAnswers(cf, l', m', qs[0].at, qs[1..]);
    }
  }

  /** Negative rates: a bucket loses tokens while idle, and deleting it gives them back. */
  lemma NegativeRateShows(cf: Config, now: real, q: Request)
    requires cf.ipRpm < 0 || (cf.ipRpm > 0 && cf.playerRpm < 0)
    ensures
      var qs := [q.(at := now), q.(at := now + 3601.0)];
      Clocked(qs, now) && Answers(cf, Fresh(now), qs, true) != Answers(cf, Fresh(now), qs, false)
  {
    var q0, q1 := q.(at := now), q.(at := now + 3601.0);
    var qs := [q0, q1];
    assert qs[1..] == [q1] && qs[1..][1..] == [];
    var (a, l) := CheckLimits(cf, Fresh(now), q0, true);
    assert (a, l) == CheckLimits(cf, Fresh(now), q0, false);
    assert Answers(cf, Fresh(now), qs, true)[1] == Answers(cf, l, [q1], true)[0] == CheckLimits(cf, l, q1, true).0;
    assert Answers(cf, Fresh(now), qs, false)[1] == Answers(cf, l, [q1], false)[0] == CheckLimits(cf, l, q1, false).0;
    if cf.ipRpm < 0 {
      IdleLoss(cf.ipRpm, now);
    } else {
      IdleLoss(cf.playerRpm, now);
      FullStaysFull(PerMinute(cf.ipRpm), now, now);
      FullStaysFull(PerMinute(cf.ipRpm), q1.at, q1.at);
      HourFills(PerMinute(cf.ipRpm), Bucket(cf.ipRpm as real - 1.0, now), q1.at);
    }
  }

  lemma IdleLoss(rpm: int, now: real)
    requires rpm < 0
    ensures
      var rt := PerMinute(rpm);
      && Level(rt, Full(rt, now), now) == rt.capacity
      && Level(rt, Full(rt, now + 3601.0), now + 3601.0) == rt.capacity
      && Level(rt, Full(rt, now), now + 3601.0) < rt.capacity
      && Retry(rt, Level(rt, Full(rt, now), now + 3601.0)) != Retry(rt, rt.capacity)
  {
    var rt := PerMinute(rpm);
    assert (now + 3601.0 - now) * rt.perSecond == 3601.0 * rt.perSecond;
    var low := rt.capacity + 3601.0 * rt.perSecond;
    assert Level(rt, Full(rt, now), now + 3601.0) == low;
    DivInjective(1.0 - low, 1.0 - rt.capacity, rt.perSecond);
  }

  lemma DivInjective(x: real, y: real, r: real)
    requires x != y && r != 0.0
    ensures x / r != y / r
  {
    assert x / r * r == x && y / r * r == y;
  }

  lemma {:induction false} ZeroRateHidesPlayers(cf: Config, l: Limiter, qs: seq<Request>, gc: bool)
    requires cf.ipRpm == 0
    ensures Answers(cf, l, qs, gc) == Answers(cf.(playerRpm := 0), l, qs, gc)
    decreases |qs|
  {
    if qs != [] {
      var (a, l') := CheckLimits(cf, l, qs[0], gc);
      assert CheckLimits(cf.(playerRpm := 0), l, qs[0], gc) == (a, l');
      ZeroRateHidesPlayers(cf, l', qs[1..], gc);
    }
  }

  /**
  Deleting idle buckets never shows, in verdicts or retry times, exactly when rates are not
  negative, or when an address rate of zero refuses every request before players are looked at.
  */
  lemma DeletionIsUnobservableIff(cf: Config, now: real)
    ensures
      (forall qs | Clocked(qs, now) :: Answers(cf, Fresh(now), qs, true) == Answers(cf, Fresh(now), qs, false))
      <==> cf.ipRpm == 0 || (cf.ipRpm > 0 && cf.playerRpm >= 0)
  {
    if cf.ipRpm < 0 || (cf.ipRpm > 0 && cf.playerRpm < 0) {
      NegativeRateShows(cf, now, Request(0, "", now));
    } else {
      forall qs | Clocked(qs, now)
        ensures Answers(cf, Fresh(now), qs, true) == Answers(cf, Fresh(now), qs, false)
      {
        if cf.playerRpm >= 0 {
          SameAnswers(cf, Fresh(now), Fresh(now), now, qs);
        } else {
          ZeroRateHidesPlayers(cf, Fresh(now), qs, true);
          ZeroRateHidesPlayers(cf, Fresh(now), qs, false);
          SameAnswers(cf.(playerRpm := 0), Fresh(now), Fresh(now), now, qs);
        }
      }
    }
  }

  // ---------------------------------------------------------------- what a window accepts

  /** How many of the requests at times from `s` to `t` took a token of `who`. */
  function AcceptedIn(who: Who, qs: seq<Request>, ans: seq<Answer>, s: real, t: real): nat
    requires |qs| == |ans|
  {
    if qs == [] then 0
    else
      (if s <= qs[0].at <= t && Accepted(who, qs[0], ans[0]) then 1 else 0)
      + AcceptedIn(who, qs[1..], ans[1..], s, t)
  }

  function Later(a: real, b: real): real {
    if a <= b then b else a
  }

  /** The tokens `who` can spend up to `t`: what it has at `u` and what it earns from then on. */
  function Budget(cf: Config, l: Limiter, who: Who, u: real, t: real): real {
    TokensOf(cf, l, who, u) + Gain(RateOf(cf, who), t - u)
  }

  lemma TokensRange(cf: Config, l: Limiter, who: Who, now: real, u: real, t: real)
    requires cf.playerRpm >= 0 && cf.ipRpm >= 0 && SoundLimiter(cf, l, now) && now <= u <= t
    ensures 0.0 <= TokensOf(cf, l, who, u) <= RateOf(cf, who).capacity
    ensures TokensOf(cf, l, who, u) <= TokensOf(cf, l, who, t) <= Budget(cf, l, who, u, t)
  {
    hide Gain, Level, LevelOf;
    match who
    case Ip(k) =>
      LevelRange(RateOf(cf, who), l.ips, k, u, u);
      LevelRange(RateOf(cf, who), l.ips, k, u, t);
    case Player(p) =>
      LevelRange(RateOf(cf, who), l.players, p, u, u);
      LevelRange(RateOf(cf, who), l.players, p, u, t);
  }

  /** A level at one time determines it at every later time. */
  lemma TokensCompose(cf: Config, l: Limiter, who: Who, t1: real, t2: real)
    requires cf.playerRpm >= 0 && cf.ipRpm >= 0 && t1 <= t2
    ensures TokensOf(cf, l, who, t2) == Level(RateOf(cf, who), Bucket(TokensOf(cf, l, who, t1), t1), t2)
  {
    var rt := RateOf(cf, who);
    FullStaysFull(rt, t1, t2);
    match who
    case Ip(k) => if k in l.ips { RefillComposes(rt, l.ips[k], t1, t2); }
    case Player(p) => if p in l.players { RefillComposes(rt, l.players[p], t1, t2); }
  }

  /** A token taken lowers the level by one at once and never raises it later. */
  lemma TokensSpent(cf: Config, l: Limiter, q: Request, gc: bool, who: Who, v: real)
    requires cf.playerRpm >= 0 && cf.ipRpm >= 0 && SoundLimiter(cf, l, q.at) && q.at <= v
    ensures
      var (a, l') := CheckLimits(cf, l, q, gc);
      && TokensOf(cf, l', who, v) <= TokensOf(cf, l, who, v)
      && (v == q.at && Accepted(who, q, a) ==> TokensOf(cf, l', who, v) == TokensOf(cf, l, who, v) - 1.0)
  {
    hide TokensOf, CheckLimits, Level;
    StepSpends(cf, l, q, gc, who);
    TokensCompose(cf, l, who, q.at, v);
    TokensRange(cf, l, who, q.at, q.at, q.at);
    OneTokenLess(RateOf(cf, who), TokensOf(cf, l, who, q.at), q.at, v);
  }

  lemma BudgetStep(cf: Config, l: Limiter, q: Request, gc: bool, who: Who, now: real, s: real, t: real)
    requires cf.playerRpm >= 0 && cf.ipRpm >= 0 && SoundLimiter(cf, l, now) && now <= q.at
    requires Later(q.at, s) <= t
    ensures
      var (a, l') := CheckLimits(cf, l, q, gc);
      (if s <= q.at && Accepted(who, q, a) then 1.0 else 0.0) + Budget(cf, l', who, Later(q.at, s), t)
      <= Budget(cf, l, who, Later(now, s), t)
  {
    hide TokensOf, CheckLimits, Accepted, RateOf, Gain;
    var u, v := Later(now, s), Later(q.at, s);
    TokensRange(cf, l, who, now, u, v);
    GainSplits(RateOf(cf, who), u, v, t);
    TokensSpent(cf, l, q, gc, who, v);
  }

  lemma {:induction false} AcceptedWithinBudget(
      cf: Config, l: Limiter, qs: seq<Request>, gc: bool, who: Who, now: real, s: real, t: real)
    requires cf.playerRpm >= 0 && cf.ipRpm >= 0 && SoundLimiter(cf, l, now) && Clocked(qs, now)
    requires Later(now, s) <= t
    ensures AcceptedIn(who, qs, Answers(cf, l, qs, gc), s, t) as real <= Budget(cf, l, who, Later(now, s), t)
    decreases |qs|
  {
    TokensRange(cf, l, who, now, Later(now, s), t);
    if qs != [] {
      if qs[0].at > t {
        NoneAccepted(who, qs, Answers(cf, l, qs, gc), s, t);
      } else {
        var (a, l') := CheckLimits(cf, l, qs[0], gc);
        StepSpends(cf, l, qs[0], gc, who);
        BudgetStep(cf, l, qs[0], gc, who, now, s, t);
        AcceptedWithinBudget(cf, l', qs[1..], gc, who, qs[0].at, s, t);
        assert Answers(cf, l, qs, gc)[1..] == Answers(cf, l', qs[1..], gc);
      }
    }
  }

  lemma {:induction false} NoneAccepted(who: Who, qs: seq<Request>, ans: seq<Answer>, s: real, t: real)
    requires |qs| == |ans| && (qs != [] ==> t < qs[0].at && Clocked(qs, qs[0].at))
    ensures AcceptedIn(who, qs, ans, s, t) == 0
    decreases |qs|
  {
    if qs != [] {
      NoneAccepted(who, qs[1..], ans[1..], s, t);
    }
  }

  lemma PositiveWindowBound(cf: Config, start: real, qs: seq<Request>, who: Who, s: real, t: real)
    requires cf.playerRpm >= 0 && cf.ipRpm >= 0 && Clocked(qs, start) && s <= t
    ensures
      AcceptedIn(who, qs, Answers(cf, Fresh(start), qs, true), s, t) as real
      <= RateOf(cf, who).capacity + Gain(RateOf(cf, who), t - s)
  {
    hide TokensOf, AcceptedIn, Answers, RateOf, Gain;
    var rt, u := RateOf(cf, who), Later(start, s);
    RateIsPositive(cf, who);
    if u <= t {
      AcceptedWithinBudget(cf, Fresh(start), qs, true, who, start, s, t);
      TokensRange(cf, Fresh(start), who, start, u, t);
      GainSplits(rt, s, u, t);
      GainIsPositive(rt, u - s);
    } else {
      NoneAccepted(who, qs, Answers(cf, Fresh(start), qs, true), s, t);
      GainIsPositive(rt, t - s);
    }
  }

  /** With a negative rate of its own, or of the addresses it comes from, nothing is granted. */
  lemma {:induction false} NegativeGrantsNone(
      cf: Config, l: Limiter, qs: seq<Request>, gc: bool, who: Who, s: real, t: real)
    requires cf.ipRpm < 0 || (who.Player? && cf.playerRpm < 0)
    ensures AcceptedIn(who, qs, Answers(cf, l, qs, gc), s, t) == 0
    decreases |qs|
  {
    if qs != [] {
      var (a, l') := CheckLimits(cf, l, qs[0], gc);
      assert !Accepted(who, qs[0], a);
      NegativeGrantsNone(cf, l', qs[1..], gc, who, s, t);
      assert Answers(cf, l, qs, gc)[1..] == Answers(cf, l', qs[1..], gc);
    }
  }

  /** The answers agree on which requests the address limit refused. */
  ghost predicate SameRefusals(ans: seq<Answer>, bns: seq<Answer>) {
    |ans| == |bns| && forall i | 0 <= i < |ans| :: ans[i].limit == IpLimit <==> bns[i].limit == IpLimit
  }

  /** What an address is granted has nothing to do with players. */
  lemma {:induction false} AddressesIgnorePlayers(cf: Config, l: Limiter, m: Limiter, qs: seq<Request>, gc: bool)
    requires l.ips == m.ips && l.lastCleanup == m.lastCleanup
    ensures SameRefusals(Answers(cf, l, qs, gc), Answers(cf.(playerRpm := 0), m, qs, gc))
    decreases |qs|
  {
    hide CheckKey;
    var cf' := cf.(playerRpm := 0);
    if qs != [] {
      var (a, l') := CheckLimits(cf, l, qs[0], gc);
      var (b, m') := CheckLimits(cf', m, qs[0], gc);
      AddressesIgnorePlayers(cf, l', m', qs[1..], gc);
      assert Answers(cf, l, qs, gc) == [a] + Answers(cf, l', qs[1..], gc);
      assert Answers(cf', m, qs, gc) == [b] + Answers(cf', m', qs[1..], gc);
    }
  }

  lemma {:induction false} SameRefusalsSameCount(
      ip: string, qs: seq<Request>, ans: seq<Answer>, bns: seq<Answer>, s: real, t: real)
    requires |qs| == |ans| && SameRefusals(ans, bns)
    ensures AcceptedIn(Ip(ip), qs, ans, s, t) == AcceptedIn(Ip(ip), qs, bns, s, t)
    decreases |qs|
  {
    if qs != [] {
      SameRefusalsSameCount(ip, qs[1..], ans[1..], bns[1..], s, t);
    }
  }

  /** The configured number of requests per minute. */
  function Rpm(cf: Config, who: Who): int {
    match who case Ip(_) => cf.ipRpm case Player(_) => cf.playerRpm
  }

  lemma RateInNumbers(cf: Config, who: Who, d: real)
    ensures RateOf(cf, who).capacity == Rpm(cf, who) as real
    ensures Gain(RateOf(cf, who), d) == Rpm(cf, who) as real * d / 60.0
  {
    var n := Rpm(cf, who) as real;
    assert d * (n / 60.0) == n * d / 60.0;
  }

  lemma RateWindowBound(cf: Config, start: real, qs: seq<Request>, who: Who, s: real, t: real)
    requires Clocked(qs, start) && s <= t
    ensures
      var rt, n := RateOf(cf, who), AcceptedIn(who, qs, Answers(cf, Fresh(start), qs, true), s, t);
      n as real <= if rt.capacity < 0.0 then 0.0 else rt.capacity + Gain(rt, t - s)
  {
    hide AcceptedIn, Answers, Gain;
    if RateOf(cf, who).capacity >= 0.0 {
      GainIsPositive(RateOf(cf, who), t - s);
    }
    if cf.ipRpm < 0 || (who.Player? && cf.playerRpm < 0) {
      NegativeGrantsNone(cf, Fresh(start), qs, true, who, s, t);
    } else if cf.playerRpm < 0 {
      var cf' := cf.(playerRpm := 0);
      AddressesIgnorePlayers(cf, Fresh(start), Fresh(start), qs, true);
      SameRefusalsSameCount(
        who.ip, qs, Answers(cf, Fresh(start), qs, true), Answers(cf', Fresh(start), qs, true), s, t);
      PositiveWindowBound(cf', start, qs, who, s, t);
    } else {
      PositiveWindowBound(cf, start, qs, who, s, t);
    }
  }

  /**
  Whatever the configured number of requests per minute, in every run and for every interval, a
  player or an address is granted no more than that number and a sixtieth of it per second; if the
  number is negative, nothing.
  */
  lemma WindowBound(cf: Config, start: real, qs: seq<Request>, who: Who, s: real, t: real)
    requires Clocked(qs, start) && s <= t
    ensures
      var rpm, n := Rpm(cf, who), AcceptedIn(who, qs, Answers(cf, Fresh(start), qs, true), s, t);
      n as real <= if rpm < 0 then 0.0 else rpm as real + rpm as real * (t - s) / 60.0
  {
    hide AcceptedIn, Answers, Gain, RateOf, Rpm;
    var d := t - s;
    RateInNumbers(cf, who, d);
    RateWindowBound(cf, start, qs, who, s, t);
  }

  lemma RateIsPositive(cf: Config, who: Who)
    requires cf.playerRpm >= 0 && cf.ipRpm >= 0
    ensures RateOf(cf, who).perSecond >= 0.0 && RateOf(cf, who).capacity >= 0.0
  {
  }

  // ---------------------------------------------------------------- retry times

  /** From `t0` on, `who` has been earning undisturbed since it had `tokens` left. */
  ghost predicate Waiting(cf: Config, l: Limiter, who: Who, tokens: real, t0: real, now: real) {
    forall t | now <= t :: TokensOf(cf, l, who, t) == Level(RateOf(cf, who), Bucket(tokens, t0), t)
  }

  /** The first moment at which a bucket left with `tokens` at `t0` has a whole token again. */
  lemma WholeTokenAt(rt: Rate, tokens: real, t0: real, t: real)
    requires rt.perSecond > 0.0 && rt.capacity >= 1.0
    ensures Level(rt, Bucket(tokens, t0), t) >= 1.0 <==> t >= t0 + (1.0 - tokens) / rt.perSecond
  {
    var r, w := rt.perSecond, (1.0 - tokens) / rt.perSecond;
    assert w * r == 1.0 - tokens;
    if t >= t0 + w {
      Earned(r, t0, t0 + w, t);
      assert (t0 + w - t0) * r == w * r;
    } else {
      var d := t0 + w - t;
      assert d * r > 0.0;
      assert (t - t0) * r == w * r - d * r;
    }
  }

  /** Nothing asked of `who` before the deadline is granted; the first thing asked after it is. */
  ghost predicate Punctual(who: Who, qs: seq<Request>, ans: seq<Answer>, deadline: real)
    requires |qs| == |ans|
  {
    qs != [] ==>
      && (Asked(who, qs[0], ans[0]) ==> (Accepted(who, qs[0], ans[0]) <==> qs[0].at >= deadline))
      && (!Accepted(who, qs[0], ans[0]) ==> Punctual(who, qs[1..], ans[1..], deadline))
  }

  lemma {:induction false} WaitingIsPunctual(
      cf: Config, l: Limiter, qs: seq<Request>, gc: bool, who: Who, tokens: real, t0: real, now: real)
    requires cf.playerRpm >= 0 && cf.ipRpm >= 0 && SoundLimiter(cf, l, now) && Clocked(qs, now)
    requires RateOf(cf, who).capacity >= 1.0 && Waiting(cf, l, who, tokens, t0, now)
    ensures Punctual(who, qs, Answers(cf, l, qs, gc), t0 + (1.0 - tokens) / RateOf(cf, who).perSecond)
    decreases |qs|
  {
    if qs != [] {
      var (a, l') := CheckLimits(cf, l, qs[0], gc);
      assert SoundLimiter(cf, l, qs[0].at);
      StepSpends(cf, l, qs[0], gc, who);
      WholeTokenAt(RateOf(cf, who), tokens, t0, qs[0].at);
      assert Answers(cf, l, qs, gc)[1..] == Answers(cf, l', qs[1..], gc);
      if !Accepted(who, qs[0], a) {
        assert Waiting(cf, l', who, tokens, t0, qs[0].at);
        WaitingIsPunctual(cf, l', qs[1..], gc, who, tokens, t0, qs[0].at);
      }
    }
  }

  lemma PositiveRetryAfterIsExact(cf: Config, l: Limiter, q: Request, who: Who, qs: seq<Request>)
    requires cf.playerRpm >= 0 && cf.ipRpm >= 0 && SoundLimiter(cf, l, q.at) && Clocked(qs, q.at)
    requires
      var a := CheckLimits(cf, l, q, true).0;
      Asked(who, q, a) && !Accepted(who, q, a) && a.verdict.Denied?
    ensures
      var (a, l') := CheckLimits(cf, l, q, true);
      && a.verdict.retryAfter > 0.0
      && Punctual(who, qs, Answers(cf, l', qs, true), q.at + a.verdict.retryAfter)
  {
    hide TokensOf, CheckLimits, Level, Answers;
    var (a, l') := CheckLimits(cf, l, q, true);
    var rt, tokens := RateOf(cf, who), TokensOf(cf, l, who, q.at);
    StepSpends(cf, l, q, true, who);
    assert rt.perSecond != 0.0 && rt.capacity >= 1.0;
    assert (1.0 - tokens) / rt.perSecond > 0.0;
    forall t | q.at <= t ensures TokensOf(cf, l', who, t) == Level(rt, Bucket(tokens, q.at), t) {
      TokensCompose(cf, l, who, q.at, t);
    }
    WaitingIsPunctual(cf, l', qs, true, who, tokens, q.at, q.at);
  }

  lemma {:induction false} SameRefusalsSamePunctuality(
      ip: string, qs: seq<Request>, ans: seq<Answer>, bns: seq<Answer>, deadline: real)
    requires |qs| == |ans| && SameRefusals(ans, bns)
    ensures Punctual(Ip(ip), qs, ans, deadline) <==> Punctual(Ip(ip), qs, bns, deadline)
    decreases |qs|
  {
    if qs != [] {
      SameRefusalsSamePunctuality(ip, qs[1..], ans[1..], bns[1..], deadline);
    }
  }

  /** Buckets at a rate that is not negative are sound; at a negative rate anything goes. */
  ghost predicate SoundWhereRated(cf: Config, l: Limiter, now: real) {
    && (cf.playerRpm >= 0 ==> Sound(PerMinute(cf.playerRpm), l.players, now))
    && (cf.ipRpm >= 0 ==> Sound(PerMinute(cf.ipRpm), l.ips, now))
  }

  lemma StepSoundWhereRated(cf: Config, l: Limiter, q: Request, gc: bool)
    requires SoundWhereRated(cf, l, q.at)
    ensures SoundWhereRated(cf, CheckLimits(cf, l, q, gc).1, q.at)
  {
    hide CheckKey;
    var m := if gc then Cleanup(l, q.at) else l;
    if cf.ipRpm >= 0 { CheckKeyLevels(PerMinute(cf.ipRpm), m.ips, q.ip, q.at); }
    if cf.playerRpm >= 0 { CheckKeyLevels(PerMinute(cf.playerRpm), m.players, q.player, q.at); }
  }

  /** The limiter after a run. */
  function After(cf: Config, l: Limiter, qs: seq<Request>, gc: bool): Limiter
    decreases |qs|
  {
    if qs == [] then l else After(cf, CheckLimits(cf, l, qs[0], gc).1, qs[1..], gc)
  }

  function LastTime(qs: seq<Request>, from: real): real {
    if qs == [] then from else qs[|qs| - 1].at
  }

  /** Every run leaves the limiter in such a state. */
  lemma {:induction false} RunSoundWhereRated(cf: Config, l: Limiter, now: real, qs: seq<Request>, gc: bool)
    requires SoundWhereRated(cf, l, now) && Clocked(qs, now)
    ensures SoundWhereRated(cf, After(cf, l, qs, gc), LastTime(qs, now))
    decreases |qs|
  {
    hide CheckLimits;
    if qs != [] {
      StepSoundWhereRated(cf, l, qs[0], gc);
      RunSoundWhereRated(cf, CheckLimits(cf, l, qs[0], gc).1, qs[0].at, qs[1..], gc);
    }
  }

  ghost predicate NeverAccepted(who: Who, qs: seq<Request>, ans: seq<Answer>)
    requires |qs| == |ans|
  {
    forall i | 0 <= i < |qs| :: !Accepted(who, qs[i], ans[i])
  }

  /** A bucket with a negative capacity never has a token, and its wait is a negative number. */
  lemma NegativeCheck<K>(rpm: int, bs: Buckets<K>, k: K, now: real)
    requires rpm < 0
    ensures
      var v := CheckKey(PerMinute(rpm), bs, k, now).0;
      v.Denied? && v.retryAfter < 0.0
  {
    var rt := PerMinute(rpm);
    var level := Level(rt, BucketOf(rt, bs, k, now), now);
    NegativeWait(1.0 - level, rt.perSecond);
  }

  lemma NegativeWait(x: real, r: real)
    requires x > 0.0 && r < 0.0
    ensures x / r < 0.0
  {
  }

  lemma {:induction false} NegativeNeverAccepts(cf: Config, l: Limiter, qs: seq<Request>, gc: bool, who: Who)
    requires RateOf(cf, who).capacity < 0.0
    ensures NeverAccepted(who, qs, Answers(cf, l, qs, gc))
    decreases |qs|
  {
    if qs != [] {
      var (a, l') := CheckLimits(cf, l, qs[0], gc);
      assert !Accepted(who, qs[0], a);
      NegativeNeverAccepts(cf, l', qs[1..], gc, who);
      assert Answers(cf, l, qs, gc) == [a] + Answers(cf, l', qs[1..], gc);
    }
  }

  lemma NegativeDenial(cf: Config, l: Limiter, q: Request, who: Who)
    requires RateOf(cf, who).capacity < 0.0
    ensures
      var a := CheckLimits(cf, l, q, true).0;
      Asked(who, q, a) && !Accepted(who, q, a) ==> a.verdict.Denied? && a.verdict.retryAfter < 0.0
  {
    hide CheckKey;
    var m := Cleanup(l, q.at);
    if who.Ip? {
      NegativeCheck(cf.ipRpm, m.ips, q.ip, q.at);
    } else {
      NegativeCheck(cf.playerRpm, m.players, q.player, q.at);
    }
  }

  /** At a negative player rate an address is still answered as at any other. */
  lemma AddressRetryIsExact(cf: Config, l: Limiter, q: Request, ip: string, qs: seq<Request>)
    requires cf.playerRpm < 0 && cf.ipRpm >= 0 && SoundWhereRated(cf, l, q.at) && Clocked(qs, q.at)
    requires
      var a := CheckLimits(cf, l, q, true).0;
      Asked(Ip(ip), q, a) && !Accepted(Ip(ip), q, a) && a.verdict.Denied?
    ensures
      var (a, l') := CheckLimits(cf, l, q, true);
      && a.verdict.retryAfter > 0.0
      && Punctual(Ip(ip), qs, Answers(cf, l', qs, true), q.at + a.verdict.retryAfter)
  {
    hide CheckKey, Punctual, Answers;
    var cf', m := cf.(playerRpm := 0), l.(players := map[]);
    var (a, l') := CheckLimits(cf, l, q, true);
    var (b, m') := CheckLimits(cf', m, q, true);
    assert a == b && l'.ips == m'.ips && l'.lastCleanup == m'.lastCleanup;
    PositiveRetryAfterIsExact(cf', m, q, Ip(ip), qs);
    AddressesIgnorePlayers(cf, l', m', qs, true);
    SameRefusalsSamePunctuality(
      ip, qs, Answers(cf, l', qs, true), Answers(cf', m', qs, true), q.at + a.verdict.retryAfter);
  }

  /**
  A denial's retry time is exact, whatever else the limiter serves or deletes meanwhile: attempts
  before it has passed are refused and do not put it off, and the first one after it is granted.
  At a negative rate the wait is negative and nothing is ever granted.
  */
  lemma RetryAfterIsExact(cf: Config, l: Limiter, q: Request, who: Who, qs: seq<Request>)
    requires SoundWhereRated(cf, l, q.at) && Clocked(qs, q.at)
    requires
      var a := CheckLimits(cf, l, q, true).0;
      Asked(who, q, a) && !Accepted(who, q, a) && a.verdict.Denied?
    ensures
      var (a, l') := CheckLimits(cf, l, q, true);
      var ans, wait := Answers(cf, l', qs, true), a.verdict.retryAfter;
      if RateOf(cf, who).capacity < 0.0 then wait < 0.0 && NeverAccepted(who, qs, ans)
      else wait > 0.0 && Punctual(who, qs, ans, q.at + wait)
  {
    hide CheckKey, Punctual, Answers;
    if RateOf(cf, who).capacity < 0.0 {
      NegativeDenial(cf, l, q, who);
      NegativeNeverAccepts(cf, CheckLimits(cf, l, q, true).1, qs, true, who);
    } else if cf.ipRpm < 0 {
      NegativeCheck(cf.ipRpm, Cleanup(l, q.at).ips, q.ip, q.at);
    } else if cf.playerRpm < 0 {
      AddressRetryIsExact(cf, l, q, who.ip, qs);
    } else {
      PositiveRetryAfterIsExact(cf, l, q, who, qs);
    }
  }

  // ---------------------------------------------------------------- the program's methods

  class APIRateLimiter {
    const playerRpm: int
    const ipRpm: int
    var playerBuckets: Buckets<int>
    var ipBuckets: Buckets<string>
    var lastCleanup: real

    constructor (playerRpm: int, ipRpm: int, now: real)
      ensures this.playerRpm == playerRpm && this.ipRpm == ipRpm && View() == Fresh(now)
    {
      this.playerRpm, this.ipRpm := playerRpm, ipRpm;
      playerBuckets, ipBuckets, lastCleanup := map[], map[], now;
    }

    function View(): Limiter
      reads this
    {
      Limiter(playerBuckets, ipBuckets, lastCleanup)
    }

    /** Delete, one by one, the keys whose bucket has been idle too long. */
    static method DeleteIdle<K(==)>(bs: Buckets<K>, now: real) returns (kept: Buckets<K>)
      ensures kept == Recent(bs, now)
    {
      var inactive := set k | k in bs && bs[k].lastUpdate < now - IDLE_LIMIT;
      ghost var all := inactive;
      kept := bs;
      while inactive != {}
        invariant inactive <= all && kept == bs - (all - inactive)
        decreases |inactive|
      {
        var k :| k in inactive;
        assert all - (inactive - {k}) == (all - inactive) + {k};
        kept := kept - {k};
        inactive := inactive - {k};
      }
      assert all - inactive == all;
    }

    method CleanupOldBuckets(now: real)
      modifies this
      ensures View() == Cleanup(old(View()), now)
      ensures now - old(lastCleanup) < 300.0 ==> View() == old(View())
      ensures now - old(lastCleanup) >= 300.0 ==>
                && (forall k :: k in playerBuckets <==>
                      k in old(playerBuckets) && now - old(playerBuckets)[k].lastUpdate <= 3600.0)
                && (forall k :: k in ipBuckets <==> k in old(ipBuckets) && now - old(ipBuckets)[k].lastUpdate <= 3600.0)
                && (forall k <- playerBuckets :: playerBuckets[k] == old(playerBuckets)[k])
                && (forall k <- ipBuckets :: ipBuckets[k] == old(ipBuckets)[k])
    {
      if now - lastCleanup < CLEANUP_INTERVAL {
        return;
      }
      playerBuckets := DeleteIdle(playerBuckets, now);
      ipBuckets := DeleteIdle(ipBuckets, now);
      lastCleanup := now;
    }

    method CheckPlayerLimit(player: int, now: real) returns (v: Verdict)
      modifies this`playerBuckets
      ensures (v, playerBuckets) == CheckKey(PerMinute(playerRpm), old(playerBuckets), player, now)
    {
      var rt := PerMinute(playerRpm);
      if player !in playerBuckets {
        playerBuckets := playerBuckets[player := Full(rt, now)];
      }
      var (ok, b) := Consume(rt, playerBuckets[player], now);
      playerBuckets := playerBuckets[player := b];
      v := if ok then Allowed else Retry(rt, b.tokens);
      assert playerBuckets == old(playerBuckets)[player := b];
    }

    method CheckIpLimit(ip: string, now: real) returns (v: Verdict)
      modifies this`ipBuckets
      ensures (v, ipBuckets) == CheckKey(PerMinute(ipRpm), old(ipBuckets), ip, now)
    {
      var rt := PerMinute(ipRpm);
      if ip !in ipBuckets {
        ipBuckets := ipBuckets[ip := Full(rt, now)];
      }
      var (ok, b) := Consume(rt, ipBuckets[ip], now);
      ipBuckets := ipBuckets[ip := b];
      v := if ok then Allowed else Retry(rt, b.tokens);
      assert ipBuckets == old(ipBuckets)[ip := b];
    }

    method CheckLimit(q: Request) returns (a: Answer)
      modifies this
      ensures (a, View()) == CheckLimits(Config(playerRpm, ipRpm), old(View()), q, true)
    {
      CleanupOldBuckets(q.at);
      var v := CheckIpLimit(q.ip, q.at);
      if v != Allowed {
        return Answer(v, IpLimit);
      }
      v := CheckPlayerLimit(q.player, q.at);
      a := Answer(v, if v == Allowed then NoLimit else PlayerLimit);
    }
  }
}
