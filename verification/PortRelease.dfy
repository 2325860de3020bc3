/**
While a claimed port release is under way nobody is let into the session, and a release claimed
by the last player leaving, or by the game-over sweep, begins with nobody in it.
*/
module PortRelease {
  import opened GameSessions
  import opened Options

  /** The flag goes with its time stamp, and a claim of an empty session keeps it empty. */
  ghost predicate Inv(w: World) {
    var s := w.session;
    && 0.0 < w.now
    && (s.portReleasing <==> s.releasingSince.Some?)
    && (s.portReleasing ==>
          && w.lastClaim.Some? && s.releasingSince == Some(w.lastClaim.value.at)
          && 0.0 < w.lastClaim.value.at <= w.now
          && (w.lastClaim.value.kind != ByStalePause ==> s.players.Keys == {}))
  }

  // ---------------------------------------------------------------- what the gate depends on

  predicate AtGate(e: Event) {
    e.Tick? || e.Join? || e.Leave? || e.SweepGameOver? || e.SweepStale? || e.Released?
  }

  ghost predicate SameGate(w: World, w': World) {
    && w'.session.players.Keys == w.session.players.Keys
    && w'.session.portReleasing == w.session.portReleasing
    && w'.session.releasingSince == w.session.releasingSince
    && w'.now == w.now && w'.lastClaim == w.lastClaim && w'.releases == w.releases && w'.joins == w.joins
  }

  ghost predicate SameDoor(s: Session, s': Session) {
    s'.players.Keys == s.players.Keys && s'.portReleasing == s.portReleasing && s'.releasingSince == s.releasingSince
  }

  lemma PauseLeavesDoor(s: Session, hasCivcom: bool, view: Option<int>, raising: nat, now: real)
    ensures SameDoor(s, PauseGame(s, hasCivcom, view, raising, now).0)
  {
  }

  lemma ResumeLeavesDoor(s: Session, a: Agent, now: real)
    ensures SameDoor(s, CheckAndResume(s, a, now).0)
  {
  }

  lemma CommandLeavesGate(w: World, e: Event)
    requires e.Pause? || e.Reconnect?
    ensures SameGate(w, Step(w, e))
  {
    hide Obey, PauseGame, CheckAndResume;
    if e.Pause? {
      PauseLeavesDoor(w.session, e.via.Some?, View(w, e.via), e.raising, w.now);
    } else {
      ResumeLeavesDoor(w.session, e.a, w.now);
    }
  }

  lemma LeavesGate(w: World, e: Event)
    requires !AtGate(e)
    ensures SameGate(w, Step(w, e))
  {
    if e.Pause? || e.Reconnect? {
      hide Step;
      CommandLeavesGate(w, e);
    } else if e.SelectNation? || e.GetReady? {
      hide MarkNationSelected, MarkPlayerReady;
      MarkFrame(w.session, e.a);
    } else if e.Wake? {
      hide Obey, WakeTask;
      if e.task < |w.session.tasks| {
        WakeFrame(w.session, e.task, e.env);
      }
    } else {
      hide Obey;
    }
  }

  lemma GateKeeps(w: World, e: Event)
    requires Inv(w) && AtGate(e)
    ensures Inv(Step(w, e)) && w.now <= Step(w, e).now
  {
  }

  lemma StepKeeps(w: World, e: Event)
    requires Inv(w)
    ensures Inv(Step(w, e)) && w.now <= Step(w, e).now
  {
    hide Step;
    if AtGate(e) {
      GateKeeps(w, e);
    } else {
      LeavesGate(w, e);
    }
  }

  lemma {:induction false} RunKeeps(w: World, es: seq<Event>)
    requires Inv(w)
    ensures Inv(Run(w, es)) && w.now <= Run(w, es).now
    decreases |es|
  {
    hide Step, Inv;
    if es != [] {
      StepKeeps(w, es[0]);
      RunKeeps(Step(w, es[0]), es[1..]);
    }
  }

  /** At every point of every run, a session held by such a claim has no players. */
  lemma ClaimedSessionIsEmpty(minPlayers: nat, server: Server, now: real, es: seq<Event>)
    requires 0.0 < now
    ensures
      var w := Run(NewWorld(minPlayers, server, now), es);
      w.session.portReleasing ==>
        w.lastClaim.Some? && (w.lastClaim.value.kind != ByStalePause ==> w.session.players == map[])
  {
    RunKeeps(NewWorld(minPlayers, server, now), es);
  }

  /** A new release finds no players, or is a stale pause; leaving claims no paused game that goes on. */
  lemma ClaimsAreJustified(w: World, e: Event)
    requires |Step(w, e).releases| > |w.releases|
    ensures
      var w' := Step(w, e);
      && w'.session.portReleasing && w'.lastClaim == Some(w'.releases[|w.releases|])
      && (w'.lastClaim.value.kind != ByStalePause ==> w'.session.players == map[])
      && (w'.lastClaim.value.kind == ByClose ==> !w.session.isPaused || w.session.gameIsOver)
      && (w'.lastClaim.value.kind == ByGameOver ==> w.session.gameIsOver && !w.session.portReleasing)
      && (w'.lastClaim.value.kind == ByStalePause ==> w.session.isPaused && !w.session.gameIsOver)
  {
    if !AtGate(e) {
      LeavesGate(w, e);
    }
  }

  // ---------------------------------------------------------------- the exclusion

  /** Since a claim at `t` nobody has been let in, and those in `inside` at most are still there. */
  ghost predicate Held(w: World, t: real, joins: nat, inside: set<Agent>) {
    && Inv(w) && w.session.portReleasing && t <= w.session.releasingSince.value
    && w.joins == joins && w.session.players.Keys <= inside
  }

  lemma StepHolds(w: World, e: Event, t: real, joins: nat, inside: set<Agent>)
    requires Held(w, t, joins, inside) && !e.Released? && w.now <= t + PORT_RELEASE_TIMEOUT
    ensures Held(Step(w, e), t, joins, inside)
  {
    StepKeeps(w, e);
    if !AtGate(e) {
      hide Step, Inv;
      LeavesGate(w, e);
    }
  }

  lemma {:induction false} RunHolds(w: World, es: seq<Event>, t: real, joins: nat, inside: set<Agent>)
    requires Held(w, t, joins, inside)
    requires (forall e <- es :: !e.Released?) && Run(w, es).now <= t + PORT_RELEASE_TIMEOUT
    ensures Held(Run(w, es), t, joins, inside)
    decreases |es|
  {
    hide Step, Inv;
    if es != [] {
      RunKeeps(w, es);
      StepHolds(w, es[0], t, joins, inside);
      RunHolds(Step(w, es[0]), es[1..], t, joins, inside);
    }
  }

  /**
  From a claim on, until a release reports back or sixty seconds are over, nobody is let in,
  whatever joins, closes and sweeps interleave: an empty session stays empty.
  */
  lemma NobodyJoinsDuringRelease(w: World, e: Event, es: seq<Event>)
    requires Inv(w) && |Step(w, e).releases| > |w.releases|
    requires forall e <- es :: !e.Released?
    ensures
      var w1 := Step(w, e);
      var w2 := Run(w1, es);
      w2.now <= w1.now + PORT_RELEASE_TIMEOUT ==>
        && w2.session.portReleasing && w2.joins == w1.joins
        && w2.session.players.Keys <= w1.session.players.Keys
        && (w1.lastClaim.value.kind != ByStalePause ==> w2.session.players == map[])
  {
    var w1 := Step(w, e);
    ClaimsAreJustified(w, e);
    StepKeeps(w, e);
    assert w1.lastClaim.value.at == w1.now by {
      if !AtGate(e) { LeavesGate(w, e); }
    }
    if Run(w1, es).now <= w1.now + PORT_RELEASE_TIMEOUT {
      hide Step;
      RunHolds(w1, es, w1.now, w1.joins, w1.session.players.Keys);
    }
  }

  // ---------------------------------------------------------------- releases that overlap

  predicate Young(w: World, c: PortClaim) {
    w.now <= c.at + PORT_RELEASE_TIMEOUT
  }

  /** A release that must not meet a player: not of a stale pause, and not too old. */
  predicate Strict(w: World, c: PortClaim) {
    c.kind != ByStalePause && Young(w, c)
  }

  /** A strict release is the only one under way, and the flag stands for it. */
  ghost predicate Lone(w: World) {
    forall i | 0 <= i < |w.releases| && Strict(w, w.releases[i]) ::
      |w.releases| == 1 && w.session.portReleasing && w.lastClaim == Some(w.releases[i])
  }

  /** The step begins a release, not of a stale pause, while another is under way. */
  predicate Overlaps(w: World, e: Event) {
    var rs := Step(w, e).releases;
    |rs| > |w.releases| > 0 && rs[|w.releases|].kind != ByStalePause
  }

  predicate NeverOverlaps(w: World, es: seq<Event>)
    decreases |es|
  {
    es != [] ==> !Overlaps(w, es[0]) && NeverOverlaps(Step(w, es[0]), es[1..])
  }

  /** No stale pause is claimed while a strict release holds the session. */
  lemma StaleWaitsForStrict(w: World, suspension: int)
    requires Inv(w) && Lone(w) && StaleClaimable(w.session, w.now, suspension)
    ensures forall i | 0 <= i < |w.releases| :: !Strict(w, w.releases[i])
  {
    hide HasActiveReconnect;
  }

  lemma StepLone(w: World, e: Event)
    requires Inv(w) && Lone(w) && !Overlaps(w, e)
    ensures Lone(Step(w, e))
  {
    if !AtGate(e) {
      hide Step;
      LeavesGate(w, e);
    } else {
      hide StaleClaimable, Admit;
      if e.SweepStale? && e.suspension > 0 && StaleClaimable(w.session, w.now, e.suspension) {
        StaleWaitsForStrict(w, e.suspension);
      }
    }
  }

  lemma {:induction false} RunLone(w: World, es: seq<Event>)
    requires Inv(w) && Lone(w) && NeverOverlaps(w, es)
    ensures Inv(Run(w, es)) && Lone(Run(w, es))
    decreases |es|
  {
    hide Step, Inv, Overlaps;
    if es != [] {
      StepKeeps(w, es[0]);
      StepLone(w, es[0]);
      RunLone(Step(w, es[0]), es[1..]);
    }
  }

  /** No player is in the session while a strict release of it is under way. */
  predicate Exclusive(w: World) {
    forall c <- w.releases :: Strict(w, c) ==> w.session.players == map[]
  }

  lemma LoneIsExclusive(w: World)
    requires Inv(w) && Lone(w)
    ensures Exclusive(w)
  {
  }

  /** If releases never overlap, that holds at the end of the run. */
  lemma LoneReleaseIsExclusive(minPlayers: nat, server: Server, now: real, es: seq<Event>)
    requires 0.0 < now && NeverOverlaps(NewWorld(minPlayers, server, now), es)
    ensures Exclusive(Run(NewWorld(minPlayers, server, now), es))
  {
    RunLone(NewWorld(minPlayers, server, now), es);
    LoneIsExclusive(Run(NewWorld(minPlayers, server, now), es));
  }

  // ---------------------------------------------------------------- exactly when releases exclude players

  lemma RunTwo(w: World, a: Event, b: Event)
    ensures Run(w, [a, b]) == Step(Step(w, a), b)
  {
    hide Step;
    assert [a, b][1..] == [b] && [b][1..] == [];
    assert Run(w, [a, b]) == Run(Step(w, a), [b]) == Run(Step(Step(w, a), b), []);
  }

  /** One release reports back and then somebody joins. */
  function Probe(w: World, i: nat, a: Agent): World {
    Run(w, [Released(i), Join(a)])
  }

  lemma ProbeIs(w: World, i: nat, a: Agent)
    requires i < |w.releases| && |w.session.players| < MAX_PLAYERS
    ensures
      var w' := Probe(w, i, a);
      && a in w'.session.players && w'.now == w.now
      && w'.releases == w.releases[..i] + w.releases[i + 1..]
  {
    RunTwo(w, Released(i), Join(a));
  }

  /** Whoever joins after a report meets no other release exactly when there was only the one. */
  lemma ReportOpensGateIff(w: World, a: Agent)
    requires |w.session.players| < MAX_PLAYERS
    ensures
      |w.releases| <= 1 <==>
      forall i: nat | i < |w.releases| :: a in Probe(w, i, a).session.players ==> Probe(w, i, a).releases == []
  {
    forall i: nat | i < |w.releases|
      ensures a in Probe(w, i, a).session.players && |Probe(w, i, a).releases| == |w.releases| - 1
    {
      ProbeIs(w, i, a);
    }
    if |w.releases| > 1 {
      assert Probe(w, 0, a).releases != [];
    }
  }

  /** Players are kept out now, and would be if any release reported back and anybody then joined. */
  ghost predicate Safe(w: World) {
    Exclusive(w) && forall i: nat, a :: Exclusive(Probe(w, i, a))
  }

  ghost predicate SafeThroughout(w: World, es: seq<Event>)
    decreases |es|
  {
    Safe(w) && (es != [] ==> SafeThroughout(Step(w, es[0]), es[1..]))
  }

  lemma ProbeIsNoClaim(w: World, i: nat, a: Agent)
    ensures !Overlaps(w, Released(i)) && !Overlaps(w, Join(a))
  {
    hide AddPlayer;
  }

  lemma LoneIsSafe(w: World)
    requires Inv(w) && Lone(w)
    ensures Safe(w)
  {
    hide Step, Inv, Lone, Overlaps, Exclusive;
    LoneIsExclusive(w);
    forall i: nat, a ensures Exclusive(Probe(w, i, a)) {
      RunTwo(w, Released(i), Join(a));
      var w1 := Step(w, Released(i));
      ProbeIsNoClaim(w, i, a);
      ProbeIsNoClaim(w1, i, a);
      StepKeeps(w, Released(i));
      StepLone(w, Released(i));
      StepKeeps(w1, Join(a));
      StepLone(w1, Join(a));
      LoneIsExclusive(Step(w1, Join(a)));
    }
  }

  /** A new release begins now, is the last, and unless it is of a stale pause, finds no players. */
  lemma NewReleaseIsLast(w: World, e: Event)
    requires Overlaps(w, e)
    ensures
      var w' := Step(w, e);
      && w'.releases[..|w.releases|] == w.releases && |w'.releases| == |w.releases| + 1
      && w'.releases[|w.releases|].at == w'.now && w'.releases[|w.releases|].kind != ByStalePause
      && w'.session.players == map[]
  {
    if !AtGate(e) { LeavesGate(w, e); }
  }

  /** A release that begins while another is under way is unsafe at once. */
  lemma OverlapIsUnsafe(w: World, e: Event)
    requires Overlaps(w, e)
    ensures !Safe(Step(w, e))
  {
    var w1 := Step(w, e);
    NewReleaseIsLast(w, e);
    hide Step, Probe;
    ProbeIs(w1, 0, "");
    var c := w1.releases[|w.releases|];
    assert (w1.releases[..0] + w1.releases[1..])[|w.releases| - 1] == c;
    assert c in Probe(w1, 0, "").releases && "" in Probe(w1, 0, "").session.players;
  }

  /** A step leaves the session safe exactly when it does not overlap. */
  lemma StepIsSafeIff(w: World, e: Event)
    requires Inv(w) && Lone(w)
    ensures Safe(Step(w, e)) <==> !Overlaps(w, e)
  {
    hide Step, Inv, Lone, Overlaps, Safe;
    if Overlaps(w, e) {
      OverlapIsUnsafe(w, e);
    } else {
      StepKeeps(w, e);
      StepLone(w, e);
      LoneIsSafe(Step(w, e));
    }
  }

  lemma {:induction false} SafeIffNeverOverlaps(w: World, es: seq<Event>)
    requires Inv(w) && Lone(w)
    ensures SafeThroughout(w, es) <==> NeverOverlaps(w, es)
    decreases |es|
  {
    hide Step, Inv, Lone, Safe, Overlaps;
    LoneIsSafe(w);
    if es != [] {
      StepIsSafeIff(w, es[0]);
      if !Overlaps(w, es[0]) {
        StepKeeps(w, es[0]);
        StepLone(w, es[0]);
        SafeIffNeverOverlaps(Step(w, es[0]), es[1..]);
      }
    }
  }

  /**
  Players are kept out of young releases at every point of a run, and stay out whichever reports
  back first, exactly when neither the last player leaving nor the game-over sweep begins a release
  while one is under way. Releases of stale pauses may begin at any time.
  */
  lemma ReleaseIsExclusiveIff(minPlayers: nat, server: Server, now: real, es: seq<Event>)
    requires 0.0 < now
    ensures
      var w := NewWorld(minPlayers, server, now);
      SafeThroughout(w, es) <==> NeverOverlaps(w, es)
  {
    SafeIffNeverOverlaps(NewWorld(minPlayers, server, now), es);
  }

  /** Releases do begin while another is under way: an agent that is refused entry still claims on leaving. */
  lemma RefusedAgentClaimsAgain(w: World, b: Agent)
    requires ReleaseBlocks(w.session, w.now) && w.session.players == map[]
    requires !w.session.isPaused || w.session.gameIsOver
    ensures
      var w' := Run(w, [Join(b), Leave(b)]);
      && w'.joins == w.joins && w'.session.players == map[] && w'.session.portReleasing
      && w'.now == w.now && w'.releases == w.releases + [PortClaim(ByClose, w.now)]
  {
    RunTwo(w, Join(b), Leave(b));
  }

  lemma {:induction false} RunConcat(w: World, a: seq<Event>, b: seq<Event>)
    ensures Run(w, a + b) == Run(Run(w, a), b)
    decreases |a|
  {
    hide Step;
    if a == [] {
      assert a + b == b;
    } else {
      assert (a + b)[1..] == a[1..] + b;
      RunConcat(Step(w, a[0]), a[1..], b);
    }
  }

  lemma LastOneClaims(minPlayers: nat, server: Server, now: real, a: Agent)
    ensures
      var w := Run(NewWorld(minPlayers, server, now), [Join(a), Leave(a)]);
      && w.joins == 1 && w.session.players == map[] && !w.session.isPaused
      && w.now == now && w.releases == [PortClaim(ByClose, now)]
      && w.session.portReleasing && w.session.releasingSince == Some(now)
  {
    RunTwo(NewWorld(minPlayers, server, now), Join(a), Leave(a));
  }

  /**
  So from the start: `a` joins and leaves, `b` is refused and leaves, the first release reports
  back, and `c` is let in while the second is under way.
  */
  lemma OverlappingReleaseMeetsPlayer(minPlayers: nat, server: Server, now: real, a: Agent, b: Agent, c: Agent)
    requires 0.0 < now
    ensures
      var es := [Join(a), Leave(a)] + [Join(b), Leave(b)] + [Released(0), Join(c)];
      var w := Run(NewWorld(minPlayers, server, now), es);
      c in w.session.players && w.releases == [PortClaim(ByClose, now)] && !Exclusive(w)
  {
    hide Step, NewWorld, AddPlayer;
    var w0 := NewWorld(minPlayers, server, now);
    var w1 := Run(w0, [Join(a), Leave(a)]);
    LastOneClaims(minPlayers, server, now, a);
    var w2 := Run(w1, [Join(b), Leave(b)]);
    RefusedAgentClaimsAgain(w1, b);
    ProbeIs(w2, 0, c);
    var w3 := Probe(w2, 0, c);
    assert w2.releases[..0] + w2.releases[1..] == [PortClaim(ByClose, now)];
    assert w3.releases[0] in w3.releases;
    RunConcat(w0, [Join(a), Leave(a)], [Join(b), Leave(b)]);
    RunConcat(w0, [Join(a), Leave(a)] + [Join(b), Leave(b)], [Released(0), Join(c)]);
  }
}
