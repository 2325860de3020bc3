/**
Pausing stops the server's turn timer and resuming restores it, over every run in which commands
arrive and nothing else sets the timeout or autotoggle.
*/
module PauseResume {
  import opened GameSessions
  import opened Options

  /** What the session believes about the server; `t0` is the server's own timeout. */
  ghost predicate Inv(w: World, t0: int) {
    var s := w.session;
    && 0.0 < w.now
    && (s.isPaused <==> s.autotoggleDisabled)
    && (s.originalTimeout.None? ==> !s.isPaused && w.firstView.None?)
    && (s.originalTimeout.Some? ==> w.firstView.Some? && s.originalTimeout.value == Capture(w.firstView.value))
    && (s.isPaused ==> w.server.timeout == 0 && !w.server.autotoggle)
    && (!s.isPaused && w.resumes == [] ==> w.server.timeout == t0)
    && (!s.isPaused && w.resumes != [] ==>
          s.originalTimeout.Some? && w.server.timeout == s.originalTimeout.value && w.server.autotoggle)
    && (s.originalTimeout.None? ==> w.resumes == [] && forall a <- w.views :: w.views[a] == t0 > 0)
    && (w.firstView.Some? && w.firstView.value.Some? ==> w.firstView.value.value == t0 > 0)
    && (w.resumes == [] <==> s.lastResumedAt.None?)
    && (w.resumes != [] ==> s.lastResumedAt == Some(w.resumes[|w.resumes| - 1]) && 0.0 < s.lastResumedAt.value <= w.now)
    && Spaced(w.resumes)
  }

  ghost predicate Spaced(ts: seq<real>) {
    forall i | 0 <= i < |ts| - 1 :: ts[i + 1] - ts[i] >= RESUME_DEBOUNCE
  }

  // ---------------------------------------------------------------- what pausing depends on

  predicate Involved(e: Event) {
    e.Tick? || e.GameInfo? || e.Pause? || e.Reconnect?
  }

  /** The event leaves everything `Inv` speaks of as it is. */
  ghost predicate SamePause(w: World, w': World) {
    var s, s' := w.session, w'.session;
    && s'.isPaused == s.isPaused && s'.autotoggleDisabled == s.autotoggleDisabled
    && s'.originalTimeout == s.originalTimeout && s'.lastResumedAt == s.lastResumedAt
    && w'.server.timeout == w.server.timeout && w'.server.autotoggle == w.server.autotoggle
    && w'.now == w.now && w'.views == w.views && w'.firstView == w.firstView && w'.resumes == w.resumes
  }

  lemma WakeLeavesPause(w: World, i: nat, env: StartEnv)
    ensures SamePause(w, Step(w, Wake(i, env)))
  {
    hide Obey, WakeTask;
    if i < |w.session.tasks| {
      WakeFrame(w.session, i, env);
    }
    ObeyOne(w.server, StartGame);
    ObeyNone(w.server);
  }

  lemma MarkLeavesPause(w: World, e: Event)
    requires e.SelectNation? || e.GetReady?
    ensures SamePause(w, Step(w, e))
  {
    hide MarkNationSelected, MarkPlayerReady;
    MarkFrame(w.session, e.a);
  }

  lemma JoinLeavesPause(s: Session, a: Agent, now: real)
    ensures
      var s' := AddPlayer(s, a, now).0;
      && s'.isPaused == s.isPaused && s'.autotoggleDisabled == s.autotoggleDisabled
      && s'.originalTimeout == s.originalTimeout && s'.lastResumedAt == s.lastResumedAt
  {
  }

  lemma MoveLeavesPause(w: World, e: Event)
    requires e.Join? || e.Leave? || e.Drop? || e.Finish?
    ensures SamePause(w, Step(w, e))
  {
    if e.Join? {
      hide AddPlayer, LeaveAndClaim, FinishTask;
      JoinLeavesPause(w.session, e.a, w.now);
    } else if e.Leave? {
      hide AddPlayer, FinishTask;
    } else {
      hide AddPlayer, LeaveAndClaim;
    }
  }

  lemma LeavesPause(w: World, e: Event)
    requires !Involved(e)
    ensures SamePause(w, Step(w, e))
  {
    if e.SelectNation? || e.GetReady? {
      hide Step;
      MarkLeavesPause(w, e);
    } else if e.Wake? {
      hide Step;
      WakeLeavesPause(w, e.task, e.env);
    } else if e.Join? || e.Leave? || e.Drop? || e.Finish? {
      hide Step;
      MoveLeavesPause(w, e);
    } else {
      hide Obey;
    }
  }

  lemma ObeyNone(v: Server)
    ensures Obey(v, []) == v
  {
  }

  /** The server after the commands of a pause, and of a resume. */
  lemma PauseCommands(v: Server)
    ensures Obey(v, [SetTimeout(0), SetAutotoggle(false)]) == v.(timeout := 0, autotoggle := false)
  {
    ObeyTwo(v, SetTimeout(0), SetAutotoggle(false));
    ObeyOne(v, SetTimeout(0));
    ObeyOne(v.(timeout := 0), SetAutotoggle(false));
  }

  lemma ResumeCommands(v: Server, t: int)
    ensures Obey(v, [SetAutotoggle(true)] + [SetTimeout(t)]) == v.(timeout := t, autotoggle := true)
  {
    assert [SetAutotoggle(true)] + [SetTimeout(t)] == [SetAutotoggle(true), SetTimeout(t)];
    ObeyTwo(v, SetAutotoggle(true), SetTimeout(t));
    ObeyOne(v, SetAutotoggle(true));
    ObeyOne(v.(autotoggle := true), SetTimeout(t));
  }

  lemma PauseKeeps(w: World, via: Option<Agent>, raising: nat, t0: int)
    requires Inv(w, t0)
    ensures Inv(Step(w, Pause(via, raising)), t0)
  {
    hide Obey, Spaced;
    ObeyNone(w.server);
    PauseCommands(w.server);
  }

  lemma ReconnectKeeps(w: World, a: Agent, t0: int)
    requires Inv(w, t0)
    ensures Inv(Step(w, Reconnect(a)), t0)
  {
    hide Obey;
    ObeyNone(w.server);
    ResumeCommands(w.server, RestoredTimeout(w.session));
  }

  lemma StepKeeps(w: World, e: Event, t0: int)
    requires Inv(w, t0) && t0 >= 0
    ensures Inv(Step(w, e), t0)
  {
    match e {
      case Pause(via, raising) => hide Step, Inv; PauseKeeps(w, via, raising, t0);
      case Reconnect(a) => hide Step, Inv; ReconnectKeeps(w, a, t0);
      case Tick(_) =>
      case GameInfo(_) =>
      case _ => hide Step; LeavesPause(w, e);
    }
  }

  lemma {:induction false} RunKeeps(w: World, es: seq<Event>, t0: int)
    requires Inv(w, t0) && t0 >= 0
    ensures Inv(Run(w, es), t0)
    decreases |es|
  {
    hide Step, Inv;
    if es != [] {
      StepKeeps(w, es[0], t0);
      RunKeeps(Step(w, es[0]), es[1..], t0);
    }
  }

  // ---------------------------------------------------------------- whole runs

  /** In every paused state the turn timer is off and disconnected players stay human. */
  lemma PausedMeansStopped(minPlayers: nat, server: Server, now: real, es: seq<Event>)
    requires 0.0 < now && server.timeout >= 0
    ensures
      var w := Run(NewWorld(minPlayers, server, now), es);
      w.session.isPaused ==> w.server.timeout == 0 && !w.server.autotoggle
  {
    RunKeeps(NewWorld(minPlayers, server, now), es, server.timeout);
  }

  /** The CivCom asked at the first pause knew the timeout, and it was one the session accepts. */
  predicate Remembered(firstView: Option<Option<int>>, timeout: int) {
    timeout == 0 || (firstView.Some? && firstView.value.Some? && timeout <= MAX_GAME_TIMEOUT)
  }

  /**
  Once resumed, autotoggle is on, and the timeout is the server's own exactly when there was none,
  or the CivCom had seen it by the first pause and it is at most an hour.
  */
  lemma ResumeRestoresIff(minPlayers: nat, server: Server, now: real, es: seq<Event>)
    requires 0.0 < now && server.timeout >= 0
    ensures
      var w := Run(NewWorld(minPlayers, server, now), es);
      w.resumes != [] && !w.session.isPaused ==>
        && w.server.autotoggle
        && (w.server.timeout == server.timeout <==> Remembered(w.firstView, server.timeout))
  {
    RunKeeps(NewWorld(minPlayers, server, now), es, server.timeout);
  }

  /** Resumes are at least two seconds apart, and each finds every registered player connected. */
  lemma ResumesAreSpaced(minPlayers: nat, server: Server, now: real, es: seq<Event>)
    requires 0.0 < now && server.timeout >= 0
    ensures
      var ts := Run(NewWorld(minPlayers, server, now), es).resumes;
      forall i | 0 <= i < |ts| - 1 :: ts[i + 1] - ts[i] >= 2.0
  {
    RunKeeps(NewWorld(minPlayers, server, now), es, server.timeout);
  }

  lemma ResumeNeedsEveryone(w: World, e: Event)
    requires Step(w, e).resumes != w.resumes
    ensures e.Reconnect? && w.session.isPaused && !Step(w, e).session.isPaused
    ensures forall a <- w.session.players :: w.session.players[a].civcomUp || a == e.a
  {
    hide Obey;
    var ps := w.session.players;
    if e.Reconnect? {
      var ps' := if e.a in ps then ps[e.a := ps[e.a].(civcomUp := true, socketUp := true)] else ps;
      assert AllConnected(ps') ==> forall a <- ps :: ps'[a].civcomUp;
    }
  }
}
