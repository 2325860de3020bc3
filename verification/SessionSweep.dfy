/**
The sweep that gives back the ports of finished and abandoned games
(freeciv-proxy/game_session_manager.py, `cleanup_stale_paused_sessions`).
*/
module SessionSweep {
  import opened GameSessions
  import opened Options

  type GameId = string
  type Sessions = map<GameId, Session>

  datatype Reason = GameOver | StalePaused
  datatype Candidate = Candidate(game: GameId, reason: Reason)

  // ---------------------------------------------------------------- what a sweep should do

  function Finished(ss: Sessions): set<GameId> {
    set g | g in ss && GameOverClaimable(ss[g])
  }

  function Abandoned(ss: Sessions, now: real, suspension: int): set<GameId> {
    set g | g in ss && StaleClaimable(ss[g], now, suspension)
  }

  function Selected(ss: Sessions, now: real, suspension: int): set<GameId> {
    Finished(ss) + Abandoned(ss, now, suspension)
  }

  /** All of `chosen` are held for release. */
  function ClaimAll(ss: Sessions, chosen: set<GameId>, now: real): Sessions {
    map g | g in ss :: if g in chosen then Claim(ss[g], now) else ss[g]
  }

  /** The released ones are gone, the others of `chosen` are free again. */
  function Settle(ss: Sessions, chosen: set<GameId>, released: set<GameId>): Sessions {
    map g | g in ss && !(g in chosen && g in released) :: if g in chosen then ResetReleasing(ss[g]) else ss[g]
  }

  function Games(cs: seq<Candidate>): set<GameId> {
    set c | c in cs :: c.game
  }

  ghost predicate EachOnce(cs: seq<Candidate>) {
    forall i, j | 0 <= i < j < |cs| :: cs[i].game != cs[j].game
  }

  // ---------------------------------------------------------------- what follows

  /**
  Which sessions are selected: those over, without players and unclaimed; and those paused for as
  long as the limit, not over, with no live socket and no claim younger than a minute.
  */
  lemma SelectedAre(ss: Sessions, now: real, suspension: int, g: GameId)
    ensures g in Finished(ss) <==> g in ss && ss[g].gameIsOver && ss[g].players == map[] && !ss[g].portReleasing
    ensures
      g in Abandoned(ss, now, suspension) <==>
      && g in ss && ss[g].isPaused && !ss[g].gameIsOver
      && now - (if ss[g].pausedAt == None then ss[g].createdAt else ss[g].pausedAt.value) >= suspension as real
      && (forall a <- ss[g].players :: !ss[g].players[a].socketUp)
      && (ss[g].portReleasing ==> ss[g].releasingSince == None || ss[g].releasingSince.value == 0.0
                                  || now - ss[g].releasingSince.value > 60.0)
    ensures Selected(ss, now, suspension) == Finished(ss) + Abandoned(ss, now, suspension)
  {
  }

  /** No session is selected for both reasons. */
  lemma SelectedOnce(ss: Sessions, now: real, suspension: int)
    ensures Finished(ss) !! Abandoned(ss, now, suspension)
  {
  }

  lemma SelectedExist(ss: Sessions, now: real, suspension: int)
    ensures Selected(ss, now, suspension) <= ss.Keys
  {
  }

  lemma ClaimKeys(ss: Sessions, chosen: set<GameId>, now: real)
    ensures ClaimAll(ss, chosen, now).Keys == ss.Keys
  {
  }

  lemma PartsAddUp<T>(whole: set<T>, part: set<T>)
    requires part <= whole
    ensures |whole - part| + |part| == |whole|
  {
    assert whole == (whole - part) + part;
  }

  lemma ClaimFrame(s: Session, now: real)
    ensures ResetReleasing(Claim(s, now)).players == s.players && !ResetReleasing(Claim(s, now)).portReleasing
  {
  }

  /** The sessions kept and those removed are the sessions there were, and each lost one was released. */
  lemma SweepConserves(ss: Sessions, now: real, suspension: int, released: set<GameId>)
    ensures
      var chosen := Selected(ss, now, suspension);
      var kept, removed := Settle(ClaimAll(ss, chosen, now), chosen, released), chosen * released;
      && kept.Keys !! removed && kept.Keys + removed == ss.Keys && |kept| + |removed| == |ss|
      && (forall g <- ss.Keys - chosen :: kept[g] == ss[g])
      && (forall g <- chosen - released :: !kept[g].portReleasing && kept[g].players == ss[g].players)
  {
    hide Finished, Abandoned, Claim;
    var chosen := Selected(ss, now, suspension);
    assert chosen <= ss.Keys by { SelectedExist(ss, now, suspension); }
    var kept, removed := Settle(ClaimAll(ss, chosen, now), chosen, released), chosen * released;
    assert kept.Keys == ss.Keys - removed;
    PartsAddUp(ss.Keys, removed);
    forall g | g in chosen - released ensures kept[g] == ResetReleasing(Claim(ss[g], now)) {}
    forall s: Session
      ensures ResetReleasing(Claim(s, now)).players == s.players && !ResetReleasing(Claim(s, now)).portReleasing
    {
      ClaimFrame(s, now);
    }
  }

  /** A session whose release failed is selected again by any later sweep, for the same reason. */
  lemma FailedReleaseIsRetried(ss: Sessions, now: real, later: real, suspension: int, released: set<GameId>)
    requires now <= later
    ensures
      var chosen := Selected(ss, now, suspension);
      var kept := Settle(ClaimAll(ss, chosen, now), chosen, released);
      && Finished(ss) - released <= Finished(kept)
      && Abandoned(ss, now, suspension) - released <= Abandoned(kept, later, suspension)
  {
  }

  /** While its release is under way a session is not selected a second time. */
  lemma ClaimedIsNotSelected(ss: Sessions, now: real, later: real, suspension: int)
    requires 0.0 < now <= later <= now + PORT_RELEASE_TIMEOUT
    ensures
      var chosen := Selected(ss, now, suspension);
      Selected(ClaimAll(ss, chosen, now), later, suspension) !! chosen
  {
  }

  // ---------------------------------------------------------------- the program's methods

  class GameSessionManager {
    var sessions: Sessions
    var sweeping: bool

    constructor ()
      ensures sessions == map[] && !sweeping
    {
      sessions, sweeping := map[], false;
    }

    /** The first collecting loop: finished games without players are claimed on the spot. */
    method ClaimFinished(now: real) returns (cs: seq<Candidate>)
      modifies this`sessions
      ensures EachOnce(cs) && Games(cs) == Finished(old(sessions))
      ensures forall c <- cs :: c.reason == GameOver
      ensures sessions == ClaimAll(old(sessions), Games(cs), now)
    {
      hide EachOnce, Games, GameOverClaimable, Claim;
      cs := [];
      NoGames();
      var todo := sessions.Keys;
      while todo != {}
        invariant todo <= old(sessions).Keys
        invariant EachOnce(cs) && Games(cs) == Finished(old(sessions)) - todo
        invariant forall c <- cs :: c.reason == GameOver
        invariant sessions == ClaimAll(old(sessions), Games(cs), now)
        decreases |todo|
      {
        var g :| g in todo;
        todo := todo - {g};
        if GameOverClaimable(sessions[g]) {
          OneMore(cs, Candidate(g, GameOver));
          sessions := sessions[g := Claim(sessions[g], now)];
          cs := cs + [Candidate(g, GameOver)];
        }
      }
    }

    /** The second: games paused for too long, unless somebody is back or a young release holds them. */
    method ClaimAbandoned(now: real, suspension: int) returns (cs: seq<Candidate>)
      modifies this`sessions
      ensures EachOnce(cs) && Games(cs) == Abandoned(old(sessions), now, suspension)
      ensures forall c <- cs :: c.reason == StalePaused
      ensures sessions == ClaimAll(old(sessions), Games(cs), now)
    {
      hide EachOnce, Games, StaleClaimable, Claim, ResetReleasing;
      cs := [];
      NoGames();
      var todo := sessions.Keys;
      while todo != {}
        invariant todo <= old(sessions).Keys
        invariant EachOnce(cs) && Games(cs) == Abandoned(old(sessions), now, suspension) - todo
        invariant forall c <- cs :: c.reason == StalePaused
        invariant sessions == ClaimAll(old(sessions), Games(cs), now)
        decreases |todo|
      {
        var g :| g in todo;
        todo := todo - {g};
        if StaleClaimable(sessions[g], now, suspension) {
          OneMore(cs, Candidate(g, StalePaused));
          var s := sessions[g];
          ClaimAfterReset(s, now);
          if s.portReleasing {
            s := ResetReleasing(s);
          }
          sessions := sessions[g := Claim(s, now)];
          cs := cs + [Candidate(g, StalePaused)];
        }
      }
    }

    /** The releasing loop: a session whose port is free is dropped, the others are let go again. */
    method ReleaseCandidates(cs: seq<Candidate>, released: set<GameId>) returns (cleaned: nat)
      requires EachOnce(cs) && Games(cs) <= sessions.Keys
      modifies this`sessions
      ensures sessions == Settle(old(sessions), Games(cs), released)
      ensures cleaned == |Games(cs) * released|
    {
      hide EachOnce, Games;
      cleaned := 0;
      NoGames();
      for i := 0 to |cs|
        invariant sessions == Settle(old(sessions), Games(cs[..i]), released)
        invariant cleaned == |Games(cs[..i]) * released|
      {
        var g := cs[i].game;
        Prefix(cs, i);
        if g in released {
          sessions := sessions - {g};
          cleaned := cleaned + 1;
          assert Games(cs[..i + 1]) * released == Games(cs[..i]) * released + {g};
        } else {
          sessions := sessions[g := ResetReleasing(sessions[g])];
          assert Games(cs[..i + 1]) * released == Games(cs[..i]) * released;
        }
      }
      assert cs[..|cs|] == cs;
    }

    /** The whole sweep; `released` are the ports whose release succeeds. Returns how many sessions went. */
    method CleanupStalePausedSessions(now: real, suspension: int, released: set<GameId>) returns (cleaned: nat)
      modifies this`sessions
      ensures suspension <= 0 || sweeping ==> sessions == old(sessions) && cleaned == 0
      ensures suspension > 0 && !sweeping ==>
                var chosen := Selected(old(sessions), now, suspension);
                && sessions == Settle(ClaimAll(old(sessions), chosen, now), chosen, released)
                && cleaned == |chosen * released| == |old(sessions)| - |sessions|
    {
      hide Finished, Abandoned, Settle, ClaimAll, EachOnce, Games;
      if suspension <= 0 || sweeping {
        return 0;
      }
      var ss := sessions;
      var finished := ClaimFinished(now);
      var abandoned := ClaimAbandoned(now, suspension);
      ClaimsDoNotMix(ss, now, suspension);
      SelectedOnce(ss, now, suspension);
      SelectedExist(ss, now, suspension);
      ClaimKeys(ss, Selected(ss, now, suspension), now);
      BothOnce(finished, abandoned);
      cleaned := ReleaseCandidates(finished + abandoned, released);
      SweepConserves(ss, now, suspension, released);
    }
  }

  // ---------------------------------------------------------------- candidate lists

  lemma ClaimAfterReset(s: Session, now: real)
    ensures Claim(ResetReleasing(s), now) == Claim(s, now)
  {
  }

  lemma NoGames()
    ensures EachOnce([]) && Games([]) == {}
  {
  }

  lemma OneMore(cs: seq<Candidate>, c: Candidate)
    ensures Games(cs + [c]) == Games(cs) + {c.game}
    ensures EachOnce(cs) && c.game !in Games(cs) ==> EachOnce(cs + [c])
  {
    forall i | 0 <= i < |cs| ensures cs[i].game in Games(cs) {
      assert cs[i] in cs;
    }
    var g := Games(cs + [c]);
    assert forall d <- cs + [c] :: d in cs || d == c;
    assert c in cs + [c];
    assert forall d <- cs :: d in cs + [c];
  }

  lemma Prefix(cs: seq<Candidate>, i: nat)
    requires EachOnce(cs) && i < |cs|
    ensures Games(cs[..i + 1]) == Games(cs[..i]) + {cs[i].game} && cs[i].game !in Games(cs[..i])
    ensures cs[i].game in Games(cs)
  {
    assert cs[..i + 1] == cs[..i] + [cs[i]];
    OneMore(cs[..i], cs[i]);
    assert cs[i] in cs;
  }

  lemma BothOnce(a: seq<Candidate>, b: seq<Candidate>)
    requires EachOnce(a) && EachOnce(b) && Games(a) !! Games(b)
    ensures EachOnce(a + b) && Games(a + b) == Games(a) + Games(b)
  {
    forall i | 0 <= i < |a| ensures a[i].game in Games(a) {
      assert a[i] in a;
    }
    forall i | 0 <= i < |b| ensures b[i].game in Games(b) {
      assert b[i] in b;
    }
    assert forall c <- a :: c in a + b;
    assert forall c <- b :: c in a + b;
  }

  /** Claiming the finished games does not change which games count as abandoned. */
  lemma ClaimsDoNotMix(ss: Sessions, now: real, suspension: int)
    ensures
      var ss' := ClaimAll(ss, Finished(ss), now);
      && Abandoned(ss', now, suspension) == Abandoned(ss, now, suspension)
      && ClaimAll(ss', Abandoned(ss, now, suspension), now) == ClaimAll(ss, Selected(ss, now, suspension), now)
  {
  }
}
