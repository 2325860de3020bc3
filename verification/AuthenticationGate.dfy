/** What an agent can be sent before `auth_success`, over any number of attempts on one connection. */
module AuthenticationGate {
  import opened Delivery

  /**
  The failures that let civserver packets through to an agent that was never told it is in: an
  exception while packets wait to be batched, and a fresh CivCom on an unexpected turn.
  */
  predicate Leaks(c: Channel, e: Event) {
    && e.Fails? && c.stage == Trying && c.open && c.attached && c.sent == []
    && (e.how.FreshMismatch? || (e.how.Error? && c.sendBuffer != []))
  }

  predicate NothingLeaks(c: Channel, es: seq<Event>)
    decreases |es|
  {
    es == [] || (!Leaks(c, es[0]) && NothingLeaks(Step(c, es[0]), es[1..]))
  }

  /** An agent that has been sent nothing will not be, except by an attempt that succeeds. */
  ghost predicate Guarded(c: Channel) {
    && AuthFirst(c.sent)
    && (c.open && c.stage == Trying ==> c.bufferEnabled)
    && (c.open && c.sent == [] ==> c.callbacks == [] && c.delayed == [] && (c.attached ==> c.bufferEnabled))
  }

  lemma FailGuarded(c: Channel, how: Failure)
    requires Guarded(c) && !Leaks(c, Fails(how)) && c.stage == Trying
    ensures Guarded(FailAttempt(c, how))
  {
  }

  lemma AuthenticateGuarded(c: Channel)
    requires Guarded(c)
    ensures Guarded(Authenticate(c))
  {
  }

  lemma StepGuarded(c: Channel, e: Event)
    requires Guarded(c) && !Leaks(c, e)
    ensures Guarded(Step(c, e))
  {
    hide FailAttempt, Authenticate, Leaks;
    if e.Fails? && c.stage == Trying {
      FailGuarded(c, e.how);
    } else if e.AuthSucceeds? {
      AuthenticateGuarded(c);
    }
  }

  lemma {:induction false} RunGuarded(c: Channel, es: seq<Event>)
    requires Guarded(c) && NothingLeaks(c, es)
    ensures Guarded(Run(c, es))
    decreases |es|
  {
    hide Step, Guarded, Leaks;
    if es != [] {
      StepGuarded(c, es[0]);
      RunGuarded(Step(c, es[0]), es[1..]);
    }
  }

  /** Whatever interleaves and however often the agent tries, if nothing leaks, `auth_success` comes first. */
  lemma AuthSuccessComesFirst(waiting: seq<Packet>, es: seq<Event>)
    requires NothingLeaks(Begin(waiting), es)
    ensures AuthFirst(Run(Begin(waiting), es).sent)
  {
    RunGuarded(Begin(waiting), es);
  }

  // ---------------------------------------------------------------- exactly when

  /** Whatever follows, unless a further failure leaks, `auth_success` comes first. */
  ghost predicate AlwaysAuthFirst(c: Channel) {
    forall es | NothingLeaks(c, es) :: AuthFirst(Run(c, es).sent)
  }

  lemma GuardedIsAuthFirst(c: Channel)
    requires Guarded(c)
    ensures AlwaysAuthFirst(c)
  {
    forall es | NothingLeaks(c, es) ensures AuthFirst(Run(c, es).sent) {
      RunGuarded(c, es);
    }
  }

  /** Once a batch is scheduled for an agent that has been sent nothing, it is the first thing sent. */
  lemma ScheduledComesFirst(c: Channel, e: Event)
    requires c.open && c.sent == []
    requires (e == Callback && c.callbacks != []) || (e == Timer(0) && c.delayed != [])
    ensures NothingLeaks(c, [e]) && !AuthFirst(Run(c, [e]).sent)
  {
    RunOne(c, [e]);
  }

  lemma LeakShows(c: Channel, e: Event)
    requires Guarded(c) && Leaks(c, e)
    ensures !AlwaysAuthFirst(Step(c, e))
  {
    hide Critical;
    var c1 := Step(c, e);
    if e.how.Error? {
      ScheduledComesFirst(c1, if Critical(c.sendBuffer) then Timer(0) else Callback);
    } else {
      var p: Packet := [];
      var c2 := Step(c1, Decoded(p));
      var c3 := Step(c2, Flush);
      var last := if Critical(c2.sendBuffer) then Timer(0) else Callback;
      ScheduledComesFirst(c3, last);
      var es := [Decoded(p), Flush, last];
      assert es[1..] == [Flush, last] && [Flush, last][1..] == [last];
      assert Run(c1, es) == Run(c2, [Flush, last]) == Run(c3, [last]);
      assert NothingLeaks(c2, [Flush, last]);
      assert NothingLeaks(c1, es);
    }
  }

  /** A step keeps packets behind `auth_success` exactly when it does not leak. */
  lemma StepKeepsAuthFirstIff(c: Channel, e: Event)
    requires Guarded(c)
    ensures AlwaysAuthFirst(Step(c, e)) <==> !Leaks(c, e)
  {
    hide Step, Guarded, Leaks, AlwaysAuthFirst;
    if Leaks(c, e) {
      LeakShows(c, e);
    } else {
      StepGuarded(c, e);
      GuardedIsAuthFirst(Step(c, e));
    }
  }

  ghost predicate AuthFirstThroughout(c: Channel, es: seq<Event>)
    decreases |es|
  {
    AlwaysAuthFirst(c) && (es != [] ==> AuthFirstThroughout(Step(c, es[0]), es[1..]))
  }

  lemma {:induction false} ThroughoutIff(c: Channel, es: seq<Event>)
    requires Guarded(c)
    ensures AuthFirstThroughout(c, es) <==> NothingLeaks(c, es)
    decreases |es|
  {
    hide Step, Guarded, Leaks, AlwaysAuthFirst;
    GuardedIsAuthFirst(c);
    if es != [] {
      StepKeepsAuthFirstIff(c, es[0]);
      if !Leaks(c, es[0]) {
        StepGuarded(c, es[0]);
        ThroughoutIff(Step(c, es[0]), es[1..]);
      }
    }
  }

  /**
  At every point of every run the agent has, and will have, `auth_success` before any civserver
  packet, exactly when no attempt fails in a way that leaks.
  */
  lemma AuthSuccessComesFirstIff(waiting: seq<Packet>, es: seq<Event>)
    ensures AuthFirstThroughout(Begin(waiting), es) <==> NothingLeaks(Begin(waiting), es)
  {
    ThroughoutIff(Begin(waiting), es);
  }

  /**
  An agent that is refused, never having been let in, can be sent packets although nothing leaks
  afterwards exactly when its CivCom stays attached without buffering, or when an exception finds
  packets that are not yet batched.
  */
  lemma RefusedAgentGetsPacketsIff(c: Channel, how: Failure)
    requires Guarded(c) && c.stage == Trying && c.open && c.attached && c.sent == []
    ensures
      var c' := FailAttempt(c, how);
      && (!AlwaysAuthFirst(c') <==> (c'.attached && !c'.bufferEnabled) || (how.Error? && c.sendBuffer != []))
      && c'.stage == Refused
  {
    StepKeepsAuthFirstIff(c, Fails(how));
  }
}
