/**
One game session shared by several agents (freeciv-proxy/game_session_manager.py, and the
parts of freeciv-proxy/llm_handler.py that change it).

The functions give each operation's effect on the session (the class `GameSession` of module
`GameSessionObject` runs them), and `Step` lets every operation of every agent, the start task, the sweeps and the port
releases interleave. A step is the code between two awaits, or under the players' lock.
*/
module GameSessions {
  import opened Options

  type Agent = string

  const MAX_PLAYERS := 30
  const DEFAULT_GAME_TIMEOUT := 60
  const MAX_GAME_TIMEOUT := 3600
  const PORT_RELEASE_TIMEOUT := 60.0
  const RESUME_DEBOUNCE := 2.0
  const PAUSE_RETRIES := 3

  datatype Phase = WaitingForPlayers | NationsSelecting | ReadyToStart | Starting | Running | Ended

  /** `civcomUp`: the handler has a running CivCom; `socketUp`: its WebSocket is open. */
  datatype PlayerInfo = PlayerInfo(nationSelected: bool, markedReady: bool, civcomUp: bool, socketUp: bool)

  type Players = map<Agent, PlayerInfo>

  /** A start task waits half a second, sends `/start`, then watches for the first turn. */
  datatype TaskState = Sleeping | Verifying | Done

  datatype Session = Session(
    minPlayers: nat,
    createdAt: real,
    phase: Phase,
    players: Players,
    gameStarted: bool,
    tasks: seq<TaskState>,            // all start tasks so far; the session refers to the last
    originalTimeout: Option<int>,
    isPaused: bool,
    pausedAt: Option<real>,
    lastResumedAt: Option<real>,
    resumeCount: nat,
    autotoggleDisabled: bool,
    gameIsOver: bool,
    gameEndedAt: Option<real>,
    portReleasing: bool,
    releasingSince: Option<real>)

  function NewSession(minPlayers: nat, now: real): Session {
    Session(minPlayers, now, WaitingForPlayers, map[], false, [],
            None, false, None, None, 0, false, false, None, false, None)
  }

  /** A timestamp counts as set if it is neither missing nor zero. */
  predicate Truthy(t: Option<real>) {
    t.Some? && t.value != 0.0
  }

  // ---------------------------------------------------------------- joining and getting ready

  function ResetReleasing(s: Session): Session {
    s.(portReleasing := false, releasingSince := None)
  }

  /** The release in progress still keeps players out. */
  predicate ReleaseBlocks(s: Session, now: real) {
    s.portReleasing && (Truthy(s.releasingSince) ==> now - s.releasingSince.value <= PORT_RELEASE_TIMEOUT)
  }

  /** A player who is back keeps its marks; enough players move the session on to nation selection. */
  function Admit(s: Session, a: Agent): Session {
    if a in s.players then
      s.(players := s.players[a := s.players[a].(civcomUp := true, socketUp := true)])
    else
      var players := s.players[a := PlayerInfo(false, false, true, true)];
      s.(players := players,
         phase := if |players| >= s.minPlayers && s.phase == WaitingForPlayers then NationsSelecting else s.phase)
  }

  function AddPlayer(s: Session, a: Agent, now: real): (Session, bool) {
    if ReleaseBlocks(s, now) then (s, false)
    else
      var s := if s.portReleasing then ResetReleasing(s) else s;
      if |s.players| >= MAX_PLAYERS then (s, false) else (Admit(s, a), true)
  }

  function NationsSelected(ps: Players): set<Agent> {
    set a | a in ps && ps[a].nationSelected
  }

  function MarkedReady(ps: Players): set<Agent> {
    set a | a in ps && ps[a].markedReady
  }

  function CheckReadyToStart(s: Session): Session {
    if s.gameStarted || s.phase == Starting || s.phase == Running then s
    else if |s.players| < s.minPlayers then s
    else if |NationsSelected(s.players)| < |s.players| then s
    else if |MarkedReady(s.players)| < |s.players| then s
    else if s.phase == ReadyToStart then s
    else
      s.(phase := ReadyToStart,
         tasks := if s.tasks == [] || s.tasks[|s.tasks| - 1] == Done then s.tasks + [Sleeping] else s.tasks)
  }

  function MarkNationSelected(s: Session, a: Agent): Session {
    if a !in s.players then s
    else CheckReadyToStart(s.(players := s.players[a := s.players[a].(nationSelected := true)]))
  }

  function MarkPlayerReady(s: Session, a: Agent): Session {
    if a !in s.players then s
    else CheckReadyToStart(s.(players := s.players[a := s.players[a].(markedReady := true)]))
  }

  // ---------------------------------------------------------------- the start task

  /** What a start task finds when it wakes; `firstCivcom` says whether the first player has one, and alive. */
  datatype StartEnv = StartEnv(
    registryEmpty: bool, registryAlive: bool, handlersActive: bool, firstCivcom: Option<bool>)

  predicate StartBlocked(s: Session, env: StartEnv) {
    || |MarkedReady(s.players)| < |s.players|
    || env.registryEmpty || !env.registryAlive || !env.handlersActive
    || s.players == map[]
  }

  /** From the end of the sleep to the first await after `/start`; says whether `/start` was sent. */
  function WakeTask(s: Session, i: nat, env: StartEnv): (Session, bool)
    requires i < |s.tasks|
  {
    if StartBlocked(s, env) then (s.(tasks := s.tasks[i := Done], phase := NationsSelecting), false)
    else if env.firstCivcom != Some(true) then (s.(tasks := s.tasks[i := Done], phase := Starting), false)
    else (s.(tasks := s.tasks[i := Verifying], phase := Starting, gameStarted := true), true)
  }

  /** The rest of a start task; an error on the way puts the phase back. */
  function FinishTask(s: Session, i: nat, ok: bool): Session
    requires i < |s.tasks|
  {
    s.(tasks := s.tasks[i := Done], phase := if ok then Running else NationsSelecting)
  }

  // ---------------------------------------------------------------- pausing and resuming

  datatype Command = SetTimeout(seconds: int) | SetAutotoggle(on: bool) | StartGame

  /** The timeout remembered at the first pause, from what the CivCom knows of the server's. */
  function Capture(view: Option<int>): int {
    match view
    case None => 0
    case Some(t) => if 0 <= t <= MAX_GAME_TIMEOUT then t else DEFAULT_GAME_TIMEOUT
  }

  /** `raising` is how many attempts fail before one goes through. */
  function PauseGame(s: Session, hasCivcom: bool, view: Option<int>, raising: nat, now: real)
    : (Session, seq<Command>, bool)
  {
    if s.isPaused || !hasCivcom then (s, [], false)
    else
      var s := if s.originalTimeout.None? then s.(originalTimeout := Some(Capture(view))) else s;
      if raising >= PAUSE_RETRIES then (s, [], false)
      else
        (s.(isPaused := true, pausedAt := Some(now), autotoggleDisabled := true),
         [SetTimeout(0), SetAutotoggle(false)], true)
  }

  function RestoredTimeout(s: Session): int {
    var t := s.originalTimeout.GetOr(0);
    if t < 0 || t > MAX_GAME_TIMEOUT then DEFAULT_GAME_TIMEOUT else t
  }

  function ResumeGame(s: Session, hasCivcom: bool, now: real): (Session, seq<Command>, bool) {
    if !s.isPaused then (s, [], false)
    else if Truthy(s.lastResumedAt) && now - s.lastResumedAt.value < RESUME_DEBOUNCE then (s, [], false)
    else if !hasCivcom then (s, [], false)
    else
      (s.(autotoggleDisabled := false, isPaused := false, pausedAt := None,
          lastResumedAt := Some(now), resumeCount := s.resumeCount + 1),
       (if s.autotoggleDisabled then [SetAutotoggle(true)] else []) + [SetTimeout(RestoredTimeout(s))],
       true)
  }

  predicate AllConnected(ps: Players) {
    forall a <- ps :: ps[a].civcomUp
  }

  /** `_check_and_resume_game` of agent `a`, which has just authenticated. */
  function CheckAndResume(s: Session, a: Agent, now: real): (Session, seq<Command>, bool) {
    if !s.isPaused then (s, [], false)
    else
      var s :=
        if a in s.players then s.(players := s.players[a := s.players[a].(civcomUp := true, socketUp := true)]) else s;
      if AllConnected(s.players) then ResumeGame(s, true, now) else (s, [], false)
  }

  // ---------------------------------------------------------------- ending and releasing the port

  function MarkGameOver(s: Session, now: real): Session {
    if s.gameIsOver then s else s.(gameIsOver := true, gameEndedAt := Some(now), phase := Ended)
  }

  function Claim(s: Session, now: real): Session {
    s.(portReleasing := true, releasingSince := Some(now))
  }

  /** `on_close` under the lock: leave, and claim the port if that was the last player. */
  function LeaveAndClaim(s: Session, a: Agent, now: real): (Session, bool) {
    var s := s.(players := s.players - {a});
    if s.players == map[] && (!s.isPaused || s.gameIsOver) then (Claim(s, now), true) else (s, false)
  }

  predicate GameOverClaimable(s: Session) {
    s.gameIsOver && s.players == map[] && !s.portReleasing
  }

  predicate HasActiveReconnect(s: Session) {
    exists a <- s.players :: s.players[a].socketUp
  }

  function PausedFor(s: Session, now: real): real {
    now - s.pausedAt.GetOr(s.createdAt)
  }

  predicate StaleClaimable(s: Session, now: real, suspension: int) {
    && s.isPaused && !s.gameIsOver
    && PausedFor(s, now) >= suspension as real
    && !HasActiveReconnect(s)
    && !(s.portReleasing && Truthy(s.releasingSince) && now - s.releasingSince.value <= PORT_RELEASE_TIMEOUT)
  }

  // ---------------------------------------------------------------- the session and its surroundings

  /** What the civserver has been told; `/set` commands are applied in the order sent. */
  datatype Server = Server(timeout: int, autotoggle: bool, starts: nat)

  function Obey(v: Server, cmds: seq<Command>): Server
    decreases |cmds|
  {
    if cmds == [] then v
    else
      var v := match cmds[0]
        case SetTimeout(t) => v.(timeout := t)
        case SetAutotoggle(on) => v.(autotoggle := on)
        case StartGame => v.(starts := v.starts + 1);
      Obey(v, cmds[1..])
  }

  datatype ClaimKind = ByClose | ByGameOver | ByStalePause
  datatype PortClaim = PortClaim(kind: ClaimKind, at: real)

  /**
  `views` is the last positive timeout each CivCom has seen, `releases` the port releases under
  way. The last four fields only record what happened.
  */
  datatype World = World(
    session: Session,
    server: Server,
    now: real,
    views: map<Agent, int>,
    releases: seq<PortClaim>,
    lastClaim: Option<PortClaim>,
    joins: nat,
    firstView: Option<Option<int>>,
    resumes: seq<real>)

  function NewWorld(minPlayers: nat, server: Server, now: real): World {
    World(NewSession(minPlayers, now), server, now, map[], [], None, 0, None, [])
  }

  datatype Event =
    | Tick(seconds: real)
    | Join(a: Agent)
    | SelectNation(a: Agent)
    | GetReady(a: Agent)
    | Leave(a: Agent)
    | Drop(a: Agent)                        // the socket closes, the player stays for a reconnect
    | Wake(task: nat, env: StartEnv)
    | Finish(task: nat, ok: bool)
    | EndGame
    | GameInfo(a: Agent)                    // the CivCom of `a` is told the server's timeout
    | Pause(via: Option<Agent>, raising: nat)
    | Reconnect(a: Agent)
    | SweepGameOver
    | SweepStale(suspension: int)
    | Released(release: nat)

  function Say(w: World, s: Session, cmds: seq<Command>): World {
    w.(session := s, server := Obey(w.server, cmds))
  }

  function TakePort(w: World, s: Session, kind: ClaimKind): World {
    var claim := PortClaim(kind, w.now);
    w.(session := s, releases := w.releases + [claim], lastClaim := Some(claim))
  }

  function View(w: World, a: Option<Agent>): Option<int> {
    if a.Some? && a.value in w.views then Some(w.views[a.value]) else None
  }

  function Step(w: World, e: Event): World {
    var s := w.session;
    match e
    case Tick(d) => if d > 0.0 then w.(now := w.now + d) else w
    case Join(a) =>
      var (s', ok) := AddPlayer(s, a, w.now);
      w.(session := s', joins := if ok then w.joins + 1 else w.joins)
    case SelectNation(a) => w.(session := MarkNationSelected(s, a))
    case GetReady(a) => w.(session := MarkPlayerReady(s, a))
    case Leave(a) =>
      var (s', claimed) := LeaveAndClaim(s, a, w.now);
      if claimed then TakePort(w, s', ByClose) else w.(session := s')
    case Drop(a) =>
      if a !in s.players then w
      else w.(session := s.(players := s.players[a := s.players[a].(civcomUp := false, socketUp := false)]))
    case Wake(i, env) =>
      if i >= |s.tasks| || s.tasks[i] != Sleeping then w
      else
        var (s', sent) := WakeTask(s, i, env);
        Say(w, s', if sent then [StartGame] else [])
    case Finish(i, ok) =>
      if i >= |s.tasks| || s.tasks[i] != Verifying then w else w.(session := FinishTask(s, i, ok))
    case EndGame => w.(session := MarkGameOver(s, w.now))
    case GameInfo(a) => if w.server.timeout > 0 then w.(views := w.views[a := w.server.timeout]) else w
    case Pause(via, raising) =>
      var (s', cmds, ok) := PauseGame(s, via.Some?, View(w, via), raising, w.now);
      var first := s.originalTimeout.None? && s'.originalTimeout.Some?;
      Say(w, s', cmds).(firstView := if first then Some(View(w, via)) else w.firstView)
    case Reconnect(a) =>
      var (s', cmds, ok) := CheckAndResume(s, a, w.now);
      Say(w, s', cmds).(resumes := if ok then w.resumes + [w.now] else w.resumes)
    case SweepGameOver =>
      if GameOverClaimable(s) then TakePort(w, Claim(s, w.now), ByGameOver) else w
    case SweepStale(suspension) =>
      if suspension > 0 && StaleClaimable(s, w.now, suspension) then TakePort(w, Claim(s, w.now), ByStalePause) else w
    case Released(i) =>
      if i >= |w.releases| then w
      else w.(session := ResetReleasing(s), releases := w.releases[..i] + w.releases[i + 1..])
  }

  function Run(w: World, es: seq<Event>): World
    decreases |es|
  {
    if es == [] then w else Run(Step(w, es[0]), es[1..])
  }

  lemma SubsetOfSameSize<T>(a: set<T>, b: set<T>)
    requires a <= b && |a| >= |b|
    ensures a == b
  {
    assert |b - a| == |b| - |a|;
  }

  /** Counting as many as there are players is finding every one of them. */
  lemma CountsAreAll(ps: Players)
    ensures |MarkedReady(ps)| < |ps| <==> !forall a <- ps :: ps[a].markedReady
    ensures |NationsSelected(ps)| < |ps| <==> !forall a <- ps :: ps[a].nationSelected
  {
    assert |ps.Keys| == |ps|;
    if |MarkedReady(ps)| >= |ps| { SubsetOfSameSize(MarkedReady(ps), ps.Keys); }
    if |NationsSelected(ps)| >= |ps| { SubsetOfSameSize(NationsSelected(ps), ps.Keys); }
    if forall a <- ps :: ps[a].markedReady { assert MarkedReady(ps) == ps.Keys; }
    if forall a <- ps :: ps[a].nationSelected { assert NationsSelected(ps) == ps.Keys; }
    assert forall a <- ps :: ps[a].markedReady <==> a in MarkedReady(ps);
    assert forall a <- ps :: ps[a].nationSelected <==> a in NationsSelected(ps);
  }

  lemma AdmitFrame(s: Session, a: Agent)
    ensures Admit(s, a).players.Keys == s.players.Keys + {a} && Admit(s, a).portReleasing == s.portReleasing
  {
  }

  /** Who is let in, and who is in afterwards. */
  lemma AddPlayerAnswers(s: Session, a: Agent, now: real)
    ensures
      var (s', added) := AddPlayer(s, a, now);
      && (added <==> !ReleaseBlocks(s, now) && |s.players| < MAX_PLAYERS)
      && (added ==> s'.players.Keys == s.players.Keys + {a} && !s'.portReleasing)
      && (!added ==> s'.players == s.players)
  {
    hide Admit, ReleaseBlocks;
    AdmitFrame(s, a);
    AdmitFrame(ResetReleasing(s), a);
  }

  /** Readiness checks touch the phase and the start tasks only. */
  lemma CheckFrame(s: Session)
    ensures var s' := CheckReadyToStart(s); s' == s.(phase := s'.phase, tasks := s'.tasks)
  {
  }

  lemma MarkFrame(s: Session, a: Agent)
    ensures
      var n, r := MarkNationSelected(s, a), MarkPlayerReady(s, a);
      && n == s.(players := n.players, phase := n.phase, tasks := n.tasks) && n.players.Keys == s.players.Keys
      && r == s.(players := r.players, phase := r.phase, tasks := r.tasks) && r.players.Keys == s.players.Keys
  {
    hide CheckReadyToStart;
    if a in s.players {
      CheckFrame(s.(players := s.players[a := s.players[a].(nationSelected := true)]));
      CheckFrame(s.(players := s.players[a := s.players[a].(markedReady := true)]));
    }
  }

  /** Waking touches the phase, the start tasks and the started flag only. */
  lemma WakeFrame(s: Session, i: nat, env: StartEnv)
    requires i < |s.tasks|
    ensures
      var s' := WakeTask(s, i, env).0;
      && s'.players == s.players && s'.portReleasing == s.portReleasing && s'.releasingSince == s.releasingSince
      && s'.isPaused == s.isPaused && s'.autotoggleDisabled == s.autotoggleDisabled
      && s'.originalTimeout == s.originalTimeout && s'.lastResumedAt == s.lastResumedAt
  {
    hide StartBlocked;
  }

  lemma {:induction false} SettingsDoNotStart(v: Server, cmds: seq<Command>)
    requires StartGame !in cmds
    ensures Obey(v, cmds).starts == v.starts
    decreases |cmds|
  {
    if cmds != [] {
      assert cmds[0] in cmds;
      var v' := Obey(v, [cmds[0]]);
      ObeyOne(v, cmds[0]);
      SettingsDoNotStart(v', cmds[1..]);
    }
  }

  lemma ObeyOne(v: Server, c: Command)
    ensures Obey(v, [c]) == match c
            case SetTimeout(t) => v.(timeout := t)
            case SetAutotoggle(on) => v.(autotoggle := on)
            case StartGame => v.(starts := v.starts + 1)
  {
    assert [c][1..] == [];
  }

  lemma ObeyTwo(v: Server, c: Command, d: Command)
    ensures Obey(v, [c, d]) == Obey(Obey(v, [c]), [d])
  {
    assert [c, d][1..] == [d];
    ObeyOne(v, c);
  }
}
