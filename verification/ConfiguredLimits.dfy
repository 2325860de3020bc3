/** The API limits grant exactly the configured numbers: not only no more, but as many. */
module ConfiguredLimits {
  import opened ApiRateLimiter
  import opened TokenBuckets

  /** The same request over and over, at one instant. */
  function Burst(q: Request, k: nat): seq<Request> {
    if k == 0 then [] else [q] + Burst(q, k - 1)
  }

  /** `a` tokens of the address and `b` of the player are left. */
  ghost predicate Left(cf: Config, l: Limiter, q: Request, a: nat, b: nat) {
    && SoundLimiter(cf, l, q.at)
    && TokensOf(cf, l, Ip(q.ip), q.at) == a as real && TokensOf(cf, l, Player(q.player), q.at) == b as real
    && a <= cf.ipRpm && b <= cf.playerRpm
  }

  /** One request: granted if both have a token, else refused by the one that is asked first and has none. */
  lemma OneOfBurst(cf: Config, l: Limiter, q: Request, a: nat, b: nat)
    requires cf.playerRpm >= 0 && cf.ipRpm >= 0 && Left(cf, l, q, a, b)
    ensures
      var (ans, l') := CheckLimits(cf, l, q, true);
      if a == 0 then ans == Answer(Retry(PerMinute(cf.ipRpm), 0.0), IpLimit)
      else if b == 0 then ans == Answer(Retry(PerMinute(cf.playerRpm), 0.0), PlayerLimit)
      else ans == Answer(Allowed, NoLimit) && Left(cf, l', q, a - 1, b - 1)
  {
    hide CheckKey, Level;
    var m := Cleanup(l, q.at);
    CleanupTokens(cf, l, q.at);
    assert TokensOf(cf, m, Ip(q.ip), q.at) == a as real && TokensOf(cf, m, Player(q.player), q.at) == b as real;
    CheckKeyLevels(PerMinute(cf.ipRpm), m.ips, q.ip, q.at);
    CheckKeyLevels(PerMinute(cf.playerRpm), m.players, q.player, q.at);
    OneTokenLess(PerMinute(cf.ipRpm), a as real, q.at, q.at);
    OneTokenLess(PerMinute(cf.playerRpm), b as real, q.at, q.at);
  }

  lemma {:induction false} BurstAnswers(cf: Config, l: Limiter, q: Request, a: nat, b: nat, k: nat)
    requires cf.playerRpm >= 0 && cf.ipRpm >= 0 && Left(cf, l, q, a, b)
    ensures
      var ans := Answers(cf, l, Burst(q, k), true);
      && |ans| == k
      && (forall i | 0 <= i < k && i < a && i < b :: ans[i] == Answer(Allowed, NoLimit))
      && (a <= b && a < k ==> ans[a] == Answer(Retry(PerMinute(cf.ipRpm), 0.0), IpLimit))
      && (b < a && b < k ==> ans[b] == Answer(Retry(PerMinute(cf.playerRpm), 0.0), PlayerLimit))
    decreases k
  {
    hide Left, CheckLimits, Retry;
    assert |Answers(cf, l, Burst(q, k), true)| == |Burst(q, k)| == k by { BurstLength(q, k); }
    if k > 0 {
      OneOfBurst(cf, l, q, a, b);
      var l' := CheckLimits(cf, l, q, true).1;
      assert Burst(q, k)[0] == q && Burst(q, k)[1..] == Burst(q, k - 1);
      if a > 0 && b > 0 {
        BurstAnswers(cf, l', q, a - 1, b - 1, k - 1);
      }
    }
  }

  lemma {:induction false} BurstLength(q: Request, k: nat)
    ensures |Burst(q, k)| == k
    decreases k
  {
    if k > 0 { BurstLength(q, k - 1); }
  }

  /** The time until one token is there again, at `n` a minute; at none a minute it is a division by zero. */
  lemma WaitInNumbers(n: nat)
    ensures Retry(PerMinute(n), 0.0) == if n == 0 then Crash else Denied(60.0 / n as real)
  {
    if n > 0 {
      var x := n as real;
      assert 60.0 / x * (x / 60.0) == 1.0;
    }
  }

  lemma FreshIsFull(cf: Config, start: real, q: Request)
    requires cf.playerRpm >= 0 && cf.ipRpm >= 0
    ensures Left(cf, Fresh(start), q, cf.ipRpm, cf.playerRpm)
  {
  }

  /**
  From the start, an address is granted its configured number at one instant, if the player's is no
  smaller, and the next request is refused for a sixtieth of that number per second.
  */
  lemma AddressGetsItsNumber(cf: Config, start: real, q: Request, k: nat)
    requires 0 <= cf.ipRpm <= cf.playerRpm && k > cf.ipRpm
    ensures
      var n, ans := cf.ipRpm, Answers(cf, Fresh(start), Burst(q, k), true);
      && |ans| == k
      && (forall i | 0 <= i < n :: ans[i] == Answer(Allowed, NoLimit))
      && ans[n] == Answer(if n == 0 then Crash else Denied(60.0 / n as real), IpLimit)
  {
    hide Left, Answers;
    FreshIsFull(cf, start, q);
    BurstAnswers(cf, Fresh(start), q, cf.ipRpm, cf.playerRpm, k);
    WaitInNumbers(cf.ipRpm);
  }

  /** Likewise a player, if the address's number is greater. */
  lemma PlayerGetsItsNumber(cf: Config, start: real, q: Request, k: nat)
    requires 0 <= cf.playerRpm < cf.ipRpm && k > cf.playerRpm
    ensures
      var n, ans := cf.playerRpm, Answers(cf, Fresh(start), Burst(q, k), true);
      && |ans| == k
      && (forall i | 0 <= i < n :: ans[i] == Answer(Allowed, NoLimit))
      && ans[n] == Answer(if n == 0 then Crash else Denied(60.0 / n as real), PlayerLimit)
  {
    hide Left, Answers;
    FreshIsFull(cf, start, q);
    BurstAnswers(cf, Fresh(start), q, cf.ipRpm, cf.playerRpm, k);
    WaitInNumbers(cf.playerRpm);
  }
}
