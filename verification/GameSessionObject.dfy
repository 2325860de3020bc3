/** The session as the program keeps it: one object whose methods change its fields in place. */
module GameSessionObject {
  import opened Options
  import opened S = GameSessions

  /** The player dictionary, the start tasks and the flags of a session, changed in place. */
  class GameSession {
    const minPlayers: nat
    const createdAt: real
    var phase: Phase
    var players: Players
    var gameStarted: bool
    var tasks: seq<TaskState>
    var originalTimeout: Option<int>
    var isPaused: bool
    var pausedAt: Option<real>
    var lastResumedAt: Option<real>
    var resumeCount: nat
    var autotoggleDisabled: bool
    var gameIsOver: bool
    var gameEndedAt: Option<real>
    var portReleasing: bool
    var releasingSince: Option<real>

    constructor (minPlayers: nat, now: real)
      ensures View() == NewSession(minPlayers, now)
    {
      this.minPlayers, createdAt, phase, players, gameStarted := minPlayers, now, WaitingForPlayers, map[], false;
      tasks, originalTimeout, isPaused, pausedAt, lastResumedAt := [], None, false, None, None;
      resumeCount, autotoggleDisabled, gameIsOver, gameEndedAt := 0, false, false, None;
      portReleasing, releasingSince := false, None;
    }

    function View(): Session
      reads this
    {
      Session(minPlayers, createdAt, phase, players, gameStarted, tasks, originalTimeout, isPaused, pausedAt,
              lastResumedAt, resumeCount, autotoggleDisabled, gameIsOver, gameEndedAt, portReleasing, releasingSince)
    }

    method ResetPortReleasingFlag()
      modifies this`portReleasing, this`releasingSince
      ensures View() == ResetReleasing(old(View()))
    {
      portReleasing := false;
      releasingSince := None;
    }

    /** The gate of `add_player`: a release that has taken too long no longer counts. */
    method PassGate(now: real) returns (open: bool)
      modifies this`portReleasing, this`releasingSince
      ensures open <==> !old(ReleaseBlocks(View(), now))
      ensures open ==> View() == if old(portReleasing) then ResetReleasing(old(View())) else old(View())
      ensures !open ==> View() == old(View())
    {
      if portReleasing {
        if Truthy(releasingSince) {
          if now - releasingSince.value > PORT_RELEASE_TIMEOUT {
            ResetPortReleasingFlag();
          } else {
            return false;
          }
        } else {
          return false;
        }
      }
      open := true;
    }

    /** The rest of `add_player`, for one who is let in. */
    method Admit(a: Agent)
      modifies this`players, this`phase
      ensures View() == S.Admit(old(View()), a)
    {
      if a in players {
        players := players[a := players[a].(civcomUp := true, socketUp := true)];
        return;
      }
      players := players[a := PlayerInfo(false, false, true, true)];
      if |players| >= minPlayers && phase == WaitingForPlayers {
        phase := NationsSelecting;
      }
    }

    method AddPlayer(a: Agent, now: real) returns (added: bool)
      modifies this
      ensures (View(), added) == S.AddPlayer(old(View()), a, now)
      ensures added <==> !old(ReleaseBlocks(View(), now)) && old(|players|) < MAX_PLAYERS
      ensures added ==> players.Keys == old(players.Keys) + {a} && !portReleasing
      ensures !added ==> players == old(players)
    {
      hide ReleaseBlocks, S.Admit;
      AddPlayerAnswers(View(), a, now);
      added := PassGate(now);
      if !added || |players| >= MAX_PLAYERS {
        return false;
      }
      Admit(a);
    }

    method CheckReadyToStart()
      modifies this`phase, this`tasks
      ensures View() == S.CheckReadyToStart(old(View()))
      ensures tasks != old(tasks) ==>
                && tasks == old(tasks) + [Sleeping] && !gameStarted
                && |players| >= minPlayers
                && |NationsSelected(players)| >= |players| && |MarkedReady(players)| >= |players|
    {
      if gameStarted || phase == Starting || phase == Running {
        return;
      }
      if |players| < minPlayers {
        return;
      }
      if |NationsSelected(players)| < |players| {
        return;
      }
      if |MarkedReady(players)| < |players| {
        return;
      }
      if phase != ReadyToStart {
        phase := ReadyToStart;
        if tasks == [] || tasks[|tasks| - 1] == Done {
          tasks := tasks + [Sleeping];
        }
      }
    }

    method MarkNationSelected(a: Agent)
      modifies this`players, this`phase, this`tasks
      ensures View() == S.MarkNationSelected(old(View()), a)
      ensures players.Keys == old(players.Keys) && (a in players ==> players[a].nationSelected)
      ensures forall b <- players | b != a :: players[b] == old(players[b])
    {
      if a in players {
        players := players[a := players[a].(nationSelected := true)];
        CheckReadyToStart();
      }
    }

    method MarkPlayerReady(a: Agent)
      modifies this`players, this`phase, this`tasks
      ensures View() == S.MarkPlayerReady(old(View()), a)
      ensures players.Keys == old(players.Keys) && (a in players ==> players[a].markedReady)
      ensures forall b <- players | b != a :: players[b] == old(players[b])
    {
      if a in players {
        players := players[a := players[a].(markedReady := true)];
        CheckReadyToStart();
      }
    }

    /** `_initiate_game_start` from the end of its sleep to the first await after `/start`. */
    method InitiateGameStart(i: nat, env: StartEnv) returns (sent: bool)
      requires i < |tasks|
      modifies this`tasks, this`phase, this`gameStarted
      ensures (View(), sent) == WakeTask(old(View()), i, env)
      ensures sent <==>
                && players != map[] && (forall a <- players :: players[a].markedReady)
                && !env.registryEmpty && env.registryAlive && env.handlersActive && env.firstCivcom == Some(true)
      ensures gameStarted == (old(gameStarted) || sent) && tasks == old(tasks)[i := if sent then Verifying else Done]
    {
      CountsAreAll(players);
      sent := false;
      tasks := tasks[i := Done];
      if |MarkedReady(players)| < |players| {
        phase := NationsSelecting;
        return;
      }
      phase := Starting;
      if env.registryEmpty || !env.registryAlive || !env.handlersActive || players == map[] {
        phase := NationsSelecting;
        return;
      }
      if env.firstCivcom != Some(true) {
        return;
      }
      sent, gameStarted := true, true;
      tasks := tasks[i := Verifying];
      assert tasks == old(tasks)[i := Verifying];
    }

    method PauseGame(hasCivcom: bool, view: Option<int>, raising: nat, now: real)
      returns (cmds: seq<Command>, ok: bool)
      modifies this`originalTimeout, this`isPaused, this`pausedAt, this`autotoggleDisabled
      ensures (View(), cmds, ok) == S.PauseGame(old(View()), hasCivcom, view, raising, now)
      ensures ok <==> !old(isPaused) && hasCivcom && raising < PAUSE_RETRIES
      ensures ok ==> isPaused && autotoggleDisabled && cmds == [SetTimeout(0), SetAutotoggle(false)]
      ensures !ok ==> isPaused == old(isPaused) && cmds == []
      ensures old(originalTimeout).Some? ==> originalTimeout == old(originalTimeout)
    {
      if isPaused || !hasCivcom {
        return [], false;
      }
      if originalTimeout.None? {
        originalTimeout := Some(Capture(view));
      }
      ghost var captured := View();
      for attempt := 0 to PAUSE_RETRIES
        invariant View() == captured && attempt <= raising
      {
        if attempt >= raising {
          isPaused := true;
          pausedAt := Some(now);
          autotoggleDisabled := true;
          return [SetTimeout(0), SetAutotoggle(false)], true;
        }
      }
      return [], false;
    }

    method ResumeGame(hasCivcom: bool, now: real) returns (cmds: seq<Command>, ok: bool)
      modifies this`isPaused, this`pausedAt, this`autotoggleDisabled, this`lastResumedAt, this`resumeCount
      ensures (View(), cmds, ok) == S.ResumeGame(old(View()), hasCivcom, now)
      ensures ok ==> !isPaused && !autotoggleDisabled && lastResumedAt == Some(now)
      ensures ok ==> cmds != [] && cmds[|cmds| - 1] == SetTimeout(RestoredTimeout(old(View())))
      ensures !ok ==> View() == old(View()) && cmds == []
    {
      if !isPaused {
        return [], false;
      }
      if Truthy(lastResumedAt) && now - lastResumedAt.value < RESUME_DEBOUNCE {
        return [], false;
      }
      if !hasCivcom {
        return [], false;
      }
      cmds := if autotoggleDisabled then [SetAutotoggle(true)] else [];
      cmds := cmds + [SetTimeout(RestoredTimeout(View()))];
      autotoggleDisabled := false;
      isPaused := false;
      pausedAt := None;
      lastResumedAt := Some(now);
      resumeCount := resumeCount + 1;
      ok := true;
    }

    /** `_check_and_resume_game`: every registered player is looked at in turn. */
    method CheckAndResumeGame(a: Agent, now: real) returns (cmds: seq<Command>, ok: bool)
      modifies this
      ensures (View(), cmds, ok) == CheckAndResume(old(View()), a, now)
      ensures ok ==> old(isPaused) && !isPaused && AllConnected(players)
      ensures !ok ==> isPaused == old(isPaused) && cmds == []
    {
      cmds, ok := [], false;
      if !isPaused {
        return;
      }
      if a in players {
        players := players[a := players[a].(civcomUp := true, socketUp := true)];
      }
      var allConnected, todo := true, players.Keys;
      while todo != {}
        invariant todo <= players.Keys
        invariant allConnected <==> forall b <- players.Keys - todo :: players[b].civcomUp
        decreases |todo|
      {
        var b :| b in todo;
        if !players[b].civcomUp {
          allConnected := false;
        }
        todo := todo - {b};
      }
      assert players.Keys - todo == players.Keys;
      if allConnected {
        cmds, ok := ResumeGame(true, now);
      }
    }

    method MarkGameOver(now: real)
      modifies this`gameIsOver, this`gameEndedAt, this`phase
      ensures View() == S.MarkGameOver(old(View()), now)
      ensures gameIsOver && (old(gameIsOver) ==> View() == old(View()))
    {
      if !gameIsOver {
        gameIsOver := true;
        gameEndedAt := Some(now);
        phase := Ended;
      }
    }

    /** The part of `on_close` under the players' lock. */
    method OnClose(a: Agent, now: real) returns (shouldRelease: bool)
      modifies this`players, this`portReleasing, this`releasingSince
      ensures (View(), shouldRelease) == LeaveAndClaim(old(View()), a, now)
      ensures players == old(players) - {a}
      ensures shouldRelease <==> players == map[] && (!isPaused || gameIsOver)
      ensures shouldRelease ==> portReleasing && releasingSince == Some(now)
    {
      players := players - {a};
      shouldRelease := players == map[] && (!isPaused || gameIsOver);
      if shouldRelease {
        portReleasing := true;
        releasingSince := Some(now);
      }
    }
  }
}
