/** What each operation of a session does, told in its fields and in numbers. */
module SessionRules {
  import opened GameSessions
  import opened Options

  /** A release holds a session while it is younger than a minute, or without a time. */
  lemma HeldIs(s: Session, now: real)
    ensures
      ReleaseBlocks(s, now) <==>
      && s.portReleasing
      && (s.releasingSince == None || s.releasingSince.value == 0.0 || now - s.releasingSince.value <= 60.0)
  {
  }

  /** A newcomer has no marks, one who is back keeps them, and nobody else changes. */
  lemma AdmittedIs(s: Session, a: Agent)
    ensures
      var s' := Admit(s, a);
      && s'.players == s.players[a :=
           if a in s.players then s.players[a].(civcomUp := true, socketUp := true)
           else PlayerInfo(nationSelected := false, markedReady := false, civcomUp := true, socketUp := true)]
      && s'.portReleasing == s.portReleasing
      && s'.phase == if a !in s.players && s.phase == WaitingForPlayers && |s'.players| >= s.minPlayers
                     then NationsSelecting else s.phase
  {
  }

  /** A joiner is let in exactly when fewer than 30 are in and no such release holds the session. */
  lemma JoinIs(s: Session, a: Agent, now: real)
    ensures
      var (s', added) := AddPlayer(s, a, now);
      && (added <==> !ReleaseBlocks(s, now) && |s.players| < 30)
      && (added ==> s'.players == Admit(s, a).players && s'.phase == Admit(s, a).phase && !s'.portReleasing)
      && (!added ==> s'.players == s.players && s'.phase == s.phase && (ReleaseBlocks(s, now) ==> s' == s))
  {
    hide ReleaseBlocks, Admit;
    var reset := ResetReleasing(s);
    AdmittedIs(s, a);
    AdmittedIs(reset, a);
  }

  /**
  Readiness: only in a session that has not started and is not already waiting for its task, with
  enough players, all of whom chose a nation and are ready, the phase moves on; and then a start task
  is created exactly if none is pending.
  */
  lemma ReadinessIs(s: Session)
    ensures
      var s' := CheckReadyToStart(s);
      var go := && !s.gameStarted && s.phase != Starting && s.phase != Running && s.phase != ReadyToStart
                && |s.players| >= s.minPlayers
                && (forall a <- s.players :: s.players[a].nationSelected && s.players[a].markedReady);
      && (go ==> s'.phase == ReadyToStart)
      && (go && (s.tasks == [] || s.tasks[|s.tasks| - 1] == Done) ==> s'.tasks == s.tasks + [Sleeping])
      && (go && !(s.tasks == [] || s.tasks[|s.tasks| - 1] == Done) ==> s'.tasks == s.tasks)
      && (!go ==> s'.phase == s.phase && s'.tasks == s.tasks)
      && s'.players == s.players && s'.gameStarted == s.gameStarted
  {
    CountsAreAll(s.players);
    hide NationsSelected, MarkedReady;
  }

  /** A mark is set on a registered player, and readiness looked at again; a stranger changes nothing. */
  lemma MarksAre(s: Session, a: Agent)
    ensures a !in s.players ==> MarkNationSelected(s, a) == s && MarkPlayerReady(s, a) == s
    ensures
      a in s.players ==>
        && MarkNationSelected(s, a).players == s.players[a := s.players[a].(nationSelected := true)]
        && MarkPlayerReady(s, a).players == s.players[a := s.players[a].(markedReady := true)]
  {
    hide CheckReadyToStart;
    if a in s.players {
      CheckFrame(s.(players := s.players[a := s.players[a].(nationSelected := true)]));
      CheckFrame(s.(players := s.players[a := s.players[a].(markedReady := true)]));
    }
  }

  /** Idle, with enough players, and no start task pending. */
  predicate Idle(s: Session) {
    && !s.gameStarted && |s.players| >= s.minPlayers
    && (s.phase == WaitingForPlayers || s.phase == NationsSelecting || s.phase == Ended)
    && (s.tasks == [] || s.tasks[|s.tasks| - 1] == Done)
  }

  predicate Complete(i: PlayerInfo) {
    i.nationSelected && i.markedReady
  }

  lemma OneMoreComplete(s: Session, a: Agent, i: PlayerInfo)
    requires Idle(s) && a in s.players && Complete(i)
    requires forall b <- s.players | b != a :: Complete(s.players[b])
    ensures
      var s' := CheckReadyToStart(s.(players := s.players[a := i]));
      s'.phase == ReadyToStart && s'.tasks == s.tasks + [Sleeping]
  {
    hide CheckReadyToStart;
    var next := s.(players := s.players[a := i]);
    assert next.players.Keys == s.players.Keys;
    assert |next.players.Keys| == |next.players| && |s.players.Keys| == |s.players|;
    ReadinessIs(next);
  }

  /** The mark that completes an idle session with enough players moves it on and creates a start task. */
  lemma LastMarkCreatesTask(s: Session, a: Agent)
    requires Idle(s) && a in s.players && forall b <- s.players | b != a :: Complete(s.players[b])
    ensures
      s.players[a].nationSelected ==>
        MarkPlayerReady(s, a).phase == ReadyToStart && MarkPlayerReady(s, a).tasks == s.tasks + [Sleeping]
    ensures
      s.players[a].markedReady ==>
        MarkNationSelected(s, a).phase == ReadyToStart && MarkNationSelected(s, a).tasks == s.tasks + [Sleeping]
  {
    hide CheckReadyToStart, Idle;
    if s.players[a].nationSelected { OneMoreComplete(s, a, s.players[a].(markedReady := true)); }
    if s.players[a].markedReady { OneMoreComplete(s, a, s.players[a].(nationSelected := true)); }
  }

  /** Where the phase goes when a start task wakes, and when it ends. */
  lemma StartPhases(s: Session, i: nat, env: StartEnv, ok: bool)
    requires i < |s.tasks|
    ensures
      var ready := && s.players != map[] && (forall a <- s.players :: s.players[a].markedReady)
                   && !env.registryEmpty && env.registryAlive && env.handlersActive;
      WakeTask(s, i, env).0.phase == if ready then Starting else NationsSelecting
    ensures FinishTask(s, i, ok).phase == (if ok then Running else NationsSelecting)
    ensures FinishTask(s, i, ok).tasks == s.tasks[i := Done] && FinishTask(s, i, ok).gameStarted == s.gameStarted
  {
    CountsAreAll(s.players);
    hide MarkedReady;
  }

  /**
  A pause succeeds exactly for a session that is not paused, with a CivCom, within three attempts. It
  records when, and the first one what timeout to restore.
  */
  lemma PauseIs(s: Session, hasCivcom: bool, view: Option<int>, raising: nat, now: real)
    ensures
      var (s', cmds, ok) := PauseGame(s, hasCivcom, view, raising, now);
      && (ok <==> !s.isPaused && hasCivcom && raising < 3)
      && (ok ==> s'.isPaused && s'.pausedAt == Some(now) && s'.autotoggleDisabled)
      && cmds == (if ok then [SetTimeout(0), SetAutotoggle(false)] else [])
      && (!ok ==> && s'.isPaused == s.isPaused && s'.pausedAt == s.pausedAt
                  && s'.autotoggleDisabled == s.autotoggleDisabled)
      && s'.originalTimeout ==
           (if s.isPaused || !hasCivcom || s.originalTimeout.Some? then s.originalTimeout
            else if view == None then Some(0)
            else if 0 <= view.value <= 3600 then view else Some(60))
      && s'.players == s.players && s'.lastResumedAt == s.lastResumedAt
  {
  }

  /**
  A resume succeeds exactly for a paused session with a CivCom, two seconds or more after the last
  one. It turns autotoggle on if pausing turned it off, then restores the remembered timeout.
  */
  lemma ResumeIs(s: Session, hasCivcom: bool, now: real)
    ensures
      var (s', cmds, ok) := ResumeGame(s, hasCivcom, now);
      var t := if s.originalTimeout == None then 0 else s.originalTimeout.value;
      && (ok <==> && s.isPaused && hasCivcom
                  && (s.lastResumedAt == None || s.lastResumedAt.value == 0.0 || now - s.lastResumedAt.value >= 2.0))
      && (ok ==> && !s'.isPaused && s'.pausedAt == None && !s'.autotoggleDisabled && s'.lastResumedAt == Some(now)
                 && s'.resumeCount == s.resumeCount + 1 && s'.originalTimeout == s.originalTimeout
                 && cmds == (if s.autotoggleDisabled then [SetAutotoggle(true)] else [])
                            + [SetTimeout(if 0 <= t <= 3600 then t else 60)])
      && (!ok ==> s' == s && cmds == [])
      && s'.players == s.players
  {
  }

  /** A reconnect marks its agent connected and resumes exactly if then everybody is. */
  lemma ReconnectIs(s: Session, a: Agent, now: real)
    ensures
      var (s', cmds, ok) := CheckAndResume(s, a, now);
      var ps := if s.isPaused && a in s.players
                then s.players[a := s.players[a].(civcomUp := true, socketUp := true)] else s.players;
      && s'.players == ps
      && (ok <==> && s.isPaused && (forall b <- ps :: ps[b].civcomUp)
                  && (s.lastResumedAt == None || s.lastResumedAt.value == 0.0 || now - s.lastResumedAt.value >= 2.0))
      && (ok <==> s.isPaused && !s'.isPaused)
  {
    hide ResumeGame;
    if s.isPaused {
      var s1 :=
        if a in s.players then s.(players := s.players[a := s.players[a].(civcomUp := true, socketUp := true)]) else s;
      ResumeIs(s1, true, now);
    }
  }

  /** The end of a game is recorded once; leaving takes out the leaver alone and claims an abandoned port. */
  lemma EndingsAre(s: Session, a: Agent, now: real)
    ensures
      var over := MarkGameOver(s, now);
      if s.gameIsOver then over == s
      else over == s.(gameIsOver := true, gameEndedAt := Some(now), phase := Ended)
    ensures
      var (left, claimed) := LeaveAndClaim(s, a, now);
      && left.players == s.players - {a}
      && (claimed <==> (forall b <- s.players :: b == a) && (!s.isPaused || s.gameIsOver))
      && left == s.(players := left.players,
                    portReleasing := if claimed then true else s.portReleasing,
                    releasingSince := if claimed then Some(now) else s.releasingSince)
  {
    assert s.players - {a} == map[] <==> forall b <- s.players :: b == a by {
      if s.players - {a} == map[] {
        forall b | b in s.players ensures b == a {
          assert b != a ==> b in s.players - {a};
        }
      }
    }
  }

  /** A socket that closes leaves its player registered, without socket or CivCom. */
  lemma DropIs(w: World, a: Agent)
    ensures
      var ps := w.session.players;
      Step(w, Drop(a)) ==
      if a in ps then w.(session := w.session.(players := ps[a := ps[a].(civcomUp := false, socketUp := false)])) else w
  {
  }

  /** The clock, and the server's timeout as a CivCom is told of it. */
  lemma TimesAre(w: World, a: Agent, seconds: real)
    ensures Step(w, Tick(seconds)) == w.(now := if seconds > 0.0 then w.now + seconds else w.now)
    ensures
      Step(w, GameInfo(a)) ==
      w.(views := if w.server.timeout > 0 then w.views[a := w.server.timeout] else w.views)
  {
  }

  /** The marks, the end of a start task and the end of the game, as they reach the session. */
  lemma EventsAre(w: World, a: Agent, i: nat, ok: bool)
    ensures Step(w, SelectNation(a)) == w.(session := MarkNationSelected(w.session, a))
    ensures Step(w, GetReady(a)) == w.(session := MarkPlayerReady(w.session, a))
    ensures
      i < |w.session.tasks| && w.session.tasks[i] == Verifying ==>
        Step(w, Finish(i, ok)) == w.(session := FinishTask(w.session, i, ok))
    ensures Step(w, EndGame) == w.(session := MarkGameOver(w.session, w.now))
  {
    hide MarkNationSelected, MarkPlayerReady, FinishTask, MarkGameOver;
  }

  /** The steps that begin a release, all of them. */
  lemma ReleaseBeginsIff(w: World, e: Event)
    ensures
      var s := w.session;
      |Step(w, e).releases| > |w.releases| <==>
      || (e.Leave? && (forall b <- s.players :: b == e.a) && (!s.isPaused || s.gameIsOver))
      || (e.SweepGameOver? && s.gameIsOver && s.players == map[] && !s.portReleasing)
      || (e.SweepStale? && e.suspension > 0 && StaleClaimable(s, w.now, e.suspension))
  {
    hide StaleClaimable, Obey, CheckAndResume, PauseGame, WakeTask, CheckReadyToStart, AddPlayer, LeaveAndClaim;
    if e.Leave? {
      EndingsAre(w.session, e.a, w.now);
    }
  }

  /** What the two sweeps look for. */
  lemma SweptAre(s: Session, now: real, suspension: int)
    ensures GameOverClaimable(s) <==> s.gameIsOver && |s.players| == 0 && !s.portReleasing
    ensures
      StaleClaimable(s, now, suspension) <==>
      && s.isPaused && !s.gameIsOver
      && now - (if s.pausedAt == None then s.createdAt else s.pausedAt.value) >= suspension as real
      && (forall a <- s.players :: !s.players[a].socketUp)
      && (s.portReleasing ==> s.releasingSince == None || s.releasingSince.value == 0.0
                              || now - s.releasingSince.value > 60.0)
  {
  }
}
