/** `/start` is sent at most once per session, and only when every registered player is ready. */
module StartOnce {
  import opened GameSessions
  import opened Options

  /** At most one start task is not done, and `/start` has been sent iff the session says so. */
  ghost predicate Inv(w: World) {
    var s := w.session;
    && OthersDone(s.tasks)
    && w.server.starts == (if s.gameStarted then 1 else 0)
    && (s.gameStarted ==> Sleeping !in s.tasks)
  }

  ghost predicate OthersDone(tasks: seq<TaskState>) {
    forall i | 0 <= i < |tasks| - 1 :: tasks[i] == Done
  }

  predicate AllReady(ps: Players) {
    forall a <- ps :: ps[a].markedReady
  }

  lemma CheckKeeps(s: Session)
    requires OthersDone(s.tasks) && (s.gameStarted ==> Sleeping !in s.tasks)
    ensures
      var s' := CheckReadyToStart(s);
      && OthersDone(s'.tasks)
      && s'.gameStarted == s.gameStarted && (s'.gameStarted ==> Sleeping !in s'.tasks)
  {
  }

  lemma WakeTaskKeeps(s: Session, i: nat, env: StartEnv)
    requires OthersDone(s.tasks) && i < |s.tasks| && s.tasks[i] == Sleeping
    ensures
      var (s', sent) := WakeTask(s, i, env);
      && OthersDone(s'.tasks) && Sleeping !in s'.tasks
      && s'.gameStarted == (s.gameStarted || sent)
  {
    assert i == |s.tasks| - 1;
  }

  lemma WakeKeeps(w: World, i: nat, env: StartEnv)
    requires Inv(w)
    ensures Inv(Step(w, Wake(i, env)))
  {
    hide Obey, WakeTask, OthersDone;
    if i < |w.session.tasks| && w.session.tasks[i] == Sleeping {
      WakeTaskKeeps(w.session, i, env);
    }
    ObeyOne(w.server, StartGame);
    SettingsDoNotStart(w.server, []);
  }

  lemma MarkKeeps(w: World, e: Event)
    requires Inv(w) && (e.SelectNation? || e.GetReady?)
    ensures Inv(Step(w, e))
  {
    hide OthersDone, CheckReadyToStart;
    var s, a := w.session, e.a;
    if a in s.players {
      CheckKeeps(s.(players := s.players[a := s.players[a].(nationSelected := true)]));
      CheckKeeps(s.(players := s.players[a := s.players[a].(markedReady := true)]));
    }
  }

  lemma CommandKeeps(w: World, e: Event)
    requires Inv(w) && (e.Pause? || e.Reconnect?)
    ensures Inv(Step(w, e))
  {
    hide Obey, OthersDone;
    if e.Pause? {
      SettingsDoNotStart(w.server, PauseGame(w.session, e.via.Some?, View(w, e.via), e.raising, w.now).1);
    } else {
      SettingsDoNotStart(w.server, CheckAndResume(w.session, e.a, w.now).1);
    }
  }

  lemma OtherKeeps(w: World, e: Event)
    requires Inv(w) && !(e.SelectNation? || e.GetReady? || e.Pause? || e.Reconnect? || e.Wake?)
    ensures Inv(Step(w, e))
  {
  }

  lemma StepKeeps(w: World, e: Event)
    requires Inv(w)
    ensures Inv(Step(w, e))
  {
    hide Inv, Step;
    match e {
      case SelectNation(_) => MarkKeeps(w, e);
      case GetReady(_) => MarkKeeps(w, e);
      case Wake(i, env) => WakeKeeps(w, i, env);
      case Pause(_, _) => CommandKeeps(w, e);
      case Reconnect(_) => CommandKeeps(w, e);
      case _ => OtherKeeps(w, e);
    }
  }

  lemma {:induction false} RunKeeps(w: World, es: seq<Event>)
    requires Inv(w)
    ensures Inv(Run(w, es))
    decreases |es|
  {
    if es != [] {
      StepKeeps(w, es[0]);
      RunKeeps(Step(w, es[0]), es[1..]);
    }
  }

  /** Under every interleaving `/start` is sent at most once, and it has been sent iff `game_started`. */
  lemma StartSentAtMostOnce(minPlayers: nat, server: Server, now: real, es: seq<Event>)
    requires server.starts == 0
    ensures
      var w := Run(NewWorld(minPlayers, server, now), es);
      && w.server.starts <= 1
      && (w.server.starts == 1 <==> w.session.gameStarted)
      && OthersDone(w.session.tasks)
  {
    RunKeeps(NewWorld(minPlayers, server, now), es);
  }

  /**
  A waking task sends `/start` exactly when there are players, all of them ready, the registry has a
  CivCom and it is alive, every player's handler has a live one, and so has the first player's.
  */
  lemma WakeSendsIff(s: Session, i: nat, env: StartEnv)
    requires i < |s.tasks|
    ensures
      var (s', sent) := WakeTask(s, i, env);
      && (sent <==>
            && s.players != map[] && (forall a <- s.players :: s.players[a].markedReady)
            && !env.registryEmpty && env.registryAlive && env.handlersActive && env.firstCivcom == Some(true))
      && (sent ==> s'.gameStarted && s'.phase == Starting && s'.tasks == s.tasks[i := Verifying])
      && (!sent ==> s'.gameStarted == s.gameStarted && s'.tasks == s.tasks[i := Done])
      && s'.players == s.players
  {
    CountsAreAll(s.players);
    hide MarkedReady;
  }

  /** In any run it is sent by exactly such a step: a start task that sleeps, wakes, and finds all that. */
  lemma StartIsSentIff(w: World, e: Event)
    ensures
      Step(w, e).server.starts != w.server.starts <==>
      && e.Wake? && e.task < |w.session.tasks| && w.session.tasks[e.task] == Sleeping
      && w.session.players != map[] && (forall a <- w.session.players :: w.session.players[a].markedReady)
      && !e.env.registryEmpty && e.env.registryAlive && e.env.handlersActive && e.env.firstCivcom == Some(true)
  {
    hide Obey, WakeTask;
    var s := w.session;
    match e {
      case Wake(i, env) =>
        SettingsDoNotStart(w.server, []);
        ObeyOne(w.server, StartGame);
        if i < |s.tasks| { WakeSendsIff(s, i, env); }
      case Pause(via, raising) =>
        SettingsDoNotStart(w.server, PauseGame(s, via.Some?, View(w, via), raising, w.now).1);
      case Reconnect(a) =>
        SettingsDoNotStart(w.server, CheckAndResume(s, a, w.now).1);
      case _ =>
    }
  }

  /** So the step that sends it finds at least one player registered and every one of them ready. */
  lemma StartNeedsEveryoneReady(w: World, e: Event)
    requires Step(w, e).server.starts != w.server.starts
    ensures e.Wake? && w.session.players != map[] && AllReady(w.session.players)
    ensures Step(w, e).session.players == w.session.players
  {
    StartIsSentIff(w, e);
    WakeFrame(w.session, e.task, e.env);
  }
}
