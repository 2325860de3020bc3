/**
When a connection stays open, and what one flush does with the packets that wait: stated in
octets and numbers, without the functions the connection is made of.
*/
module ConnectionLife {
  import opened Delivery

  // ---------------------------------------------------------------- sizes

  function Sum(ps: seq<Packet>): nat {
    if ps == [] then 0 else |ps[0]| + Sum(ps[1..])
  }

  /** A batch goes out in brackets, with a comma between packets. */
  function Octets(b: Batch): nat {
    2 + Sum(b) + if b == [] then 0 else |b| - 1
  }

  function HeldOctets(bs: seq<Batch>): nat {
    if bs == [] then 0 else Octets(bs[0]) + HeldOctets(bs[1..])
  }

  lemma {:induction false} JoinLength(ps: seq<Packet>)
    ensures |Join(ps)| == Sum(ps) + if ps == [] then 0 else |ps| - 1
  {
    if |ps| == 1 {
      assert ps[1..] == [];
    } else if |ps| > 1 {
      JoinLength(ps[1..]);
    }
  }

  /** A batch of JSON packets in brackets, with commas, is as long as its packets and its punctuation. */
  lemma RenderedLength(b: Batch)
    ensures |Render(b)| == Octets(b) && Render(b)[0] == 91 && Render(b)[|Render(b)| - 1] == 93
  {
    JoinLength(b);
  }

  lemma {:induction false} TotalSizeFromFront(bs: seq<Batch>)
    requires bs != []
    ensures TotalSize(bs) == |Render(bs[0])| + TotalSize(bs[1..])
    decreases |bs|
  {
    var n := |bs| - 1;
    if n == 0 {
      assert bs[..0] == [] && bs[1..] == [];
    } else {
      TotalSizeFromFront(bs[..n]);
      assert bs[..n][1..] == bs[1..][..n - 1];
    }
  }

  lemma {:induction false} TotalSizeIsHeld(bs: seq<Batch>)
    ensures TotalSize(bs) == HeldOctets(bs)
  {
    if bs != [] {
      TotalSizeFromFront(bs);
      RenderedLength(bs[0]);
      TotalSizeIsHeld(bs[1..]);
    }
  }

  // ---------------------------------------------------------------- one flush

  /** There are packets to hold back, and 200 batches or 5 MB would be exceeded by holding them. */
  predicate NoRoom(c: Channel) {
    && c.attached && c.bufferEnabled && c.sendBuffer != []
    && (|c.packetBuffer| >= 200 || HeldOctets(c.packetBuffer) + Octets(c.sendBuffer) > 5 * 1024 * 1024)
  }

  /** Everything a flush does to an open connection, case by case. */
  lemma FlushIs(c: Channel)
    requires c.open
    ensures
      var c', b := Step(c, Flush), c.sendBuffer;
      && c'.sendBuffer == [] && c'.sent == c.sent && c'.stage == c.stage && c'.attached == c.attached
      && (c'.open <==> !NoRoom(c))
      && (!c.attached || b == [] ==> c' == c.(sendBuffer := []))
      && (c.attached && b != [] && c.bufferEnabled && !NoRoom(c) ==>
            c' == c.(sendBuffer := [], packetBuffer := c.packetBuffer + [b]))
      && (NoRoom(c) ==> c' == c.(sendBuffer := [], packetBuffer := [], bufferEnabled := false, open := false))
      && (c.attached && b != [] && !c.bufferEnabled ==>
            c' == if Octets(b) > 2 * 1024 * 1024 then c.(sendBuffer := [], delayed := c.delayed + [b])
                  else c.(sendBuffer := [], callbacks := c.callbacks + [b]))
  {
    hide Octets, HeldOctets, TotalSize, Render;
    RenderedLength(c.sendBuffer);
    TotalSizeIsHeld(c.packetBuffer);
  }

  /** A success sends `auth_success` and then every held batch, each once and in order, and lets the agent in. */
  lemma SuccessIs(c: Channel)
    requires c.open && c.stage == Trying
    ensures
      var c' := Step(c, AuthSucceeds);
      && c' == c.(sent := c'.sent, stage := Accepted, bufferEnabled := false, packetBuffer := [])
      && |c'.sent| == |c.sent| + 1 + |c.packetBuffer| && c'.sent[..|c.sent|] == c.sent
      && c'.sent[|c.sent|] == AuthSuccess
      && forall i | 0 <= i < |c.packetBuffer| :: c'.sent[|c.sent| + 1 + i] == Frame(c.packetBuffer[i])
  {
    hide SendToClient, Undo;
    var fs := Frames(c.packetBuffer);
    assert Step(c, AuthSucceeds).sent == c.sent + [AuthSuccess] + fs;
    forall i | 0 <= i < |c.packetBuffer|
      ensures (c.sent + [AuthSuccess] + fs)[|c.sent| + 1 + i] == Frame(c.packetBuffer[i])
    {
      assert (c.sent + [AuthSuccess] + fs)[|c.sent| + 1 + i] == fs[i];
    }
  }

  /** A success on a closed connection is a failure: nothing is sent, and the CivCom is let go. */
  lemma SuccessOnClosedIs(c: Channel)
    requires !c.open && c.stage == Trying
    ensures
      var c' := Step(c, AuthSucceeds);
      c'.stage == Refused && !c'.attached && !c'.open && !c'.bufferEnabled && c'.packetBuffer == [] && c'.sent == c.sent
  {
  }

  /** What each failure leaves: who is still attached, whether packets are held, and what is closed. */
  lemma FailureIs(c: Channel, how: Failure)
    requires c.open && c.attached && c.bufferEnabled && c.stage == Trying
    ensures
      var c' := Step(c, Fails(how));
      && c'.stage == Refused && c'.sent == c.sent
      && (c'.attached <==> how.FreshMismatch? || how.ConnectError?)
      && (how.ConnectError? || how.Rejected? ==> c'.packetBuffer == c.packetBuffer && c'.bufferEnabled)
      && (how.Error? || how.FreshMismatch? || how.ReusedMismatch? ==> c'.packetBuffer == [] && !c'.bufferEnabled)
      && (c'.open <==> !(how.Rejected? || (how.ReusedMismatch? && NoRoom(c))))
      && (c'.callbacks + c'.delayed != c.callbacks + c.delayed ==> how.Error? && c.sendBuffer != [])
      && (how.FreshMismatch? || how.ConnectError? || how.Rejected? ==> c'.sendBuffer == c.sendBuffer)
  {
    hide NoRoom, SendToClient;
    FlushIs(c);
    var c1 := c.(bufferEnabled := false, packetBuffer := []);
    FlushIs(c1);
    UnbufferedHasRoom(c1);
    assert SendToClient(c) == Step(c, Flush) && SendToClient(c1) == Step(c1, Flush);
    if NoRoom(c) { NoRoomBuffers(c); }
  }

  lemma NoRoomBuffers(c: Channel)
    requires NoRoom(c)
    ensures c.attached && c.bufferEnabled && c.sendBuffer != []
  {
  }

  /** Another attempt holds packets back again and has a CivCom: the one still attached, or a fresh one. */
  lemma RetryIs(c: Channel)
    requires c.open && c.stage != Trying
    ensures
      Step(c, Retries) == c.(stage := Trying, bufferEnabled := true, attached := true,
                             sendBuffer := if c.attached then c.sendBuffer else [])
  {
  }

  /** Giving up a CivCom during an attempt loses what it had not batched, and nothing else. */
  lemma ReplacementIs(c: Channel)
    requires c.stage == Trying
    ensures
      var c' := Step(c, Replaced);
      c'.sendBuffer == [] && c'.attached && c' == c.(sendBuffer := c'.sendBuffer, attached := c'.attached)
  {
  }

  /** Closing detaches the CivCom: packets decoded from then on reach nobody, whatever follows in the attempt. */
  lemma ClosingIs(c: Channel)
    ensures
      var c' := Step(c, Closed);
      && !c'.open && !c'.attached && c' == c.(open := false, attached := false)
      && Step(c', Flush) == c'.(sendBuffer := [])
  {
  }

  /** A callback writes the batch scheduled first, a timer the one it was set for, if anybody is there. */
  lemma WritesAre(c: Channel, i: nat)
    ensures
      c.callbacks != [] ==>
        var c' := Step(c, Callback);
        && c'.callbacks == c.callbacks[1..] && c'.delayed == c.delayed
        && c'.sent == c.sent + if c.open then [Frame(c.callbacks[0])] else []
    ensures
      i < |c.delayed| ==>
        var c' := Step(c, Timer(i));
        && c'.delayed == c.delayed[..i] + c.delayed[i + 1..] && c'.callbacks == c.callbacks
        && c'.sent == c.sent + if c.open then [Frame(c.delayed[i])] else []
  {
  }

  // ---------------------------------------------------------------- whole runs

  /** The step closes an open connection. */
  predicate Closes(c: Channel, e: Event) {
    || e.Closed?
    || (e.Flush? && NoRoom(c))
    || (e.Fails? && c.stage == Trying && (e.how.Rejected? || (e.how.ReusedMismatch? && NoRoom(c))))
  }

  predicate NothingCloses(c: Channel, es: seq<Event>)
    decreases |es|
  {
    es == [] || (!Closes(c, es[0]) && NothingCloses(Step(c, es[0]), es[1..]))
  }

  lemma StepOpenIff(c: Channel, e: Event)
    requires c.open
    ensures Step(c, e).open <==> !Closes(c, e)
  {
    hide NoRoom, SendToClient, RunDelayed;
    FlushIs(c);
    assert SendToClient(c) == Step(c, Flush);
    if e.Fails? && e.how.Error? {
      var c1 := c.(bufferEnabled := false, packetBuffer := []);
      FlushIs(c1);
      assert SendToClient(c1) == Step(c1, Flush);
      UnbufferedHasRoom(c1);
    }
    if e.Timer? { TimerKeepsOpen(c, e.i); }
  }

  lemma UnbufferedHasRoom(c: Channel)
    requires !c.bufferEnabled
    ensures !NoRoom(c)
  {
  }

  lemma TimerKeepsOpen(c: Channel, i: nat)
    ensures RunDelayed(c, i).open == c.open
  {
  }

  lemma {:induction false} ClosedStaysClosed(c: Channel, es: seq<Event>)
    requires !c.open
    ensures !Run(c, es).open
    decreases |es|
  {
    if es != [] {
      ClosedStaysClosed(Step(c, es[0]), es[1..]);
    }
  }

  /**
  A connection is open at the end of a run exactly when nothing closed it: the agent, a join
  rejected twice, or a flush without room.
  */
  lemma {:induction false} StaysOpenIff(c: Channel, es: seq<Event>)
    requires c.open
    ensures Run(c, es).open <==> NothingCloses(c, es)
    decreases |es|
  {
    hide Step, Closes;
    if es != [] {
      StepOpenIff(c, es[0]);
      if Closes(c, es[0]) {
        ClosedStaysClosed(Step(c, es[0]), es[1..]);
      } else {
        StaysOpenIff(Step(c, es[0]), es[1..]);
      }
    }
  }

  /**
  So packets do arrive: in a run in which no attempt fails, nothing overtakes and nothing closes the
  connection, once the agent is let in, one more flush and the callbacks then scheduled complete
  what it receives to all that was decoded, in order.
  */
  lemma EverythingArrives(waiting: seq<Packet>, es: seq<Event>)
    requires Undisturbed(es) && NothingOvertakes(Begin(waiting), es) && NothingCloses(Begin(waiting), es)
    requires
      var c := Run(Begin(waiting), es);
      c.stage == Accepted && Octets(c.sendBuffer) <= 2 * 1024 * 1024
    ensures
      var c1 := Step(Run(Begin(waiting), es), Flush);
      var c2 := Run(c1, Drain(|c1.callbacks|));
      c2.open && Received(c2.sent) == waiting + Forwarded(es)
  {
    hide Octets;
    var c := Run(Begin(waiting), es);
    RunKeepsOrder(Begin(waiting), es, waiting);
    StaysOpenIff(Begin(waiting), es);
    FlushIs(c);
    var c1, fw := Step(c, Flush), waiting + Forwarded(es);
    FlushAfterSuccess(c, fw);
    DrainWrites(c1);
    ReceivedAppend(c1.sent, Frames(c1.callbacks));
    ReceivedFrames(c1.callbacks);
  }

  lemma FlushAfterSuccess(c: Channel, fw: seq<Packet>)
    requires Phased(c) && InOrder(c, fw) && c.open && c.stage == Accepted && Octets(c.sendBuffer) <= 2 * 1024 * 1024
    ensures
      var c1 := Step(c, Flush);
      c1.open && Received(c1.sent) + Flat(c1.callbacks) == fw
  {
    hide Octets, Received, Flat;
    FlushIs(c);
    FlatNothing();
    FlatSnoc(c.callbacks, c.sendBuffer);
    UnbufferedHasRoom(c);
    var c1, got := Step(c, Flush), Received(c.sent);
    assert fw == got + ((Flat(c.callbacks) + []) + c.sendBuffer);
    assert fw == got + (Flat(c.callbacks) + c.sendBuffer);
  }
}
