/**
Delivery of civserver packets to an agent across authentication
(freeciv-proxy/civcom.py, freeciv-proxy/llm_handler.py).

A CivCom thread batches decoded packets and hands them to the agent's connection. The
connection holds batches back until it has sent `auth_success`, then writes them out. An
attempt to authenticate can fail in several ways, and the agent may try again on the same
connection. Each method of the program is one atomic step.
*/
module Delivery {
  type Packet = seq<bv8>
  /** A non-empty list of packets that goes out as one JSON array. */
  type Batch = seq<Packet>

  const MAX_PACKET_BUFFER_SIZE := 200
  const MAX_PACKET_BUFFER_BYTES := 5 * 1024 * 1024
  const CRITICAL_PACKET_SIZE := 2 * 1024 * 1024

  function Join(ps: seq<Packet>): seq<bv8> {
    if ps == [] then [] else if |ps| == 1 then ps[0] else ps[0] + [44] + Join(ps[1..])
  }

  /** The bytes of a batch on the WebSocket: `[p0,p1,...]`. */
  function Render(b: Batch): seq<bv8> {
    [91] + Join(b) + [93]
  }

  function TotalSize(bs: seq<Batch>): nat {
    if bs == [] then 0 else TotalSize(bs[..|bs| - 1]) + |Render(bs[|bs| - 1])|
  }

  predicate Critical(b: Batch) {
    |Render(b)| > CRITICAL_PACKET_SIZE
  }

  datatype Message = AuthSuccess | Frame(batch: Batch)

  /** How far the latest `llm_connect` has come. */
  datatype Stage = Trying | Accepted | Refused

  datatype Channel = Channel(
    sendBuffer: seq<Packet>,      // packets decoded but not yet batched
    attached: bool,               // the CivCom still refers to this connection
    bufferEnabled: bool,
    packetBuffer: seq<Batch>,
    callbacks: seq<Batch>,        // scheduled with add_callback, run in order
    delayed: seq<Batch>,          // scheduled with call_later, run in any order
    open: bool,                   // writes reach the agent
    stage: Stage,
    sent: seq<Message>)           // what the agent received

  /** The connection just before the civserver is contacted; a CivCom that is reused may have packets waiting. */
  function Begin(waiting: seq<Packet>): Channel {
    Channel(waiting, true, true, [], [], [], true, Trying, [])
  }

  // ---------------------------------------------------------------- the steps

  function Queue(c: Channel, p: Packet): Channel {
    c.(sendBuffer := c.sendBuffer + [p])
  }

  function Overflow(c: Channel): Channel {
    c.(bufferEnabled := false, packetBuffer := [], open := false)
  }

  function SendToClient(c: Channel): Channel {
    var batch := c.sendBuffer;
    var c := c.(sendBuffer := []);
    if batch == [] || !c.attached then c
    else if c.bufferEnabled then
      if |c.packetBuffer| >= MAX_PACKET_BUFFER_SIZE then Overflow(c)
      else if TotalSize(c.packetBuffer) + |Render(batch)| > MAX_PACKET_BUFFER_BYTES then Overflow(c)
      else c.(packetBuffer := c.packetBuffer + [batch])
    else if Critical(batch) then c.(delayed := c.delayed + [batch])
    else c.(callbacks := c.callbacks + [batch])
  }

  function Write(c: Channel, m: Message): Channel {
    if c.open then c.(sent := c.sent + [m]) else c
  }

  function Frames(bs: seq<Batch>): (ms: seq<Message>)
    ensures |ms| == |bs| && forall i | 0 <= i < |bs| :: ms[i] == Frame(bs[i])
  {
    seq(|bs|, i requires 0 <= i < |bs| => Frame(bs[i]))
  }

  /**
  The ways an attempt ends without `auth_success`: an exception after the civserver was reached; a
  fresh CivCom on an unexpected turn; a reused one on an unexpected turn; an exception while
  connecting; a civserver that rejects the join twice.
  */
  datatype Failure = Error | FreshMismatch | ReusedMismatch | ConnectError | Rejected

  function Undo(c: Channel, how: Failure): Channel {
    match how
    // buffering goes off before the CivCom is closed, which flushes
    case Error => SendToClient(c.(bufferEnabled := false, packetBuffer := [])).(attached := false)
    // the CivCom is neither closed nor detached
    case FreshMismatch => c.(bufferEnabled := false, packetBuffer := [])
    // the CivCom is closed before buffering goes off
    case ReusedMismatch => SendToClient(c).(attached := false, bufferEnabled := false, packetBuffer := [])
    case ConnectError => c
    case Rejected => c.(attached := false, open := false)
  }

  function FailAttempt(c: Channel, how: Failure): Channel {
    Undo(c, how).(stage := Refused)
  }

  /** `auth_success` followed by the held batches; on a closed connection the write raises instead. */
  function Authenticate(c: Channel): Channel {
    if !c.open then FailAttempt(c, Error)
    else c.(sent := c.sent + [AuthSuccess] + Frames(c.packetBuffer),
            stage := Accepted, bufferEnabled := false, packetBuffer := [])
  }

  /** A further `llm_connect`: the CivCom still attached is reused, else a fresh one is made. */
  function TryAgain(c: Channel): Channel {
    c.(stage := Trying, bufferEnabled := true, attached := true, sendBuffer := if c.attached then c.sendBuffer else [])
  }

  /** A rejected join during a reconnect: the CivCom is given up and a fresh one made. */
  function ReplaceCivCom(c: Channel): Channel {
    c.(attached := true, sendBuffer := [])
  }

  function RunCallback(c: Channel): Channel {
    if c.callbacks == [] then c
    else Write(c, Frame(c.callbacks[0])).(callbacks := c.callbacks[1..])
  }

  function RunDelayed(c: Channel, i: nat): Channel {
    if i >= |c.delayed| then c
    else Write(c, Frame(c.delayed[i])).(delayed := c.delayed[..i] + c.delayed[i + 1..])
  }

  function Close(c: Channel): Channel {
    c.(open := false, attached := false)
  }

  datatype Event =
    | Decoded(p: Packet)
    | Flush
    | AuthSucceeds
    | Fails(how: Failure)
    | Retries
    | Replaced
    | Callback
    | Timer(i: nat)
    | Closed

  /** An attempt ends once, and the next message of the agent is read only after that. */
  function Step(c: Channel, e: Event): Channel {
    match e
    case Decoded(p) => Queue(c, p)
    case Flush => SendToClient(c)
    case AuthSucceeds => if c.stage == Trying then Authenticate(c) else c
    case Fails(how) => if c.stage == Trying then FailAttempt(c, how) else c
    case Retries => if c.stage != Trying && c.open then TryAgain(c) else c
    case Replaced => if c.stage == Trying then ReplaceCivCom(c) else c
    case Callback => RunCallback(c)
    case Timer(i) => RunDelayed(c, i)
    case Closed => Close(c)
  }

  function Run(c: Channel, es: seq<Event>): Channel
    decreases |es|
  {
    if es == [] then c else Run(Step(c, es[0]), es[1..])
  }

  /** The packets decoded in the course of a run, in order. */
  function Forwarded(es: seq<Event>): seq<Packet> {
    if es == [] then [] else (if es[0].Decoded? then [es[0].p] else []) + Forwarded(es[1..])
  }

  // ---------------------------------------------------------------- what must hold

  function Flat(bs: seq<Batch>): seq<Packet> {
    if bs == [] then [] else bs[0] + Flat(bs[1..])
  }

  /** The packets the agent has received, in order. */
  function Received(ms: seq<Message>): seq<Packet> {
    if ms == [] then []
    else (match ms[0] case AuthSuccess => [] case Frame(b) => b) + Received(ms[1..])
  }

  /** No civserver packet comes before `auth_success`. */
  ghost predicate AuthFirst(ms: seq<Message>) {
    ms == [] || ms[0] == AuthSuccess
  }

  /** Everything on its way to the agent, in the order in which it will arrive. */
  function InFlight(c: Channel): seq<Packet> {
    Flat(c.callbacks) + Flat(c.packetBuffer) + c.sendBuffer
  }

  ghost predicate Bounded(c: Channel) {
    |c.packetBuffer| <= 200 && TotalSize(c.packetBuffer) <= 5 * 1024 * 1024
  }

  /** Where a channel can be while no attempt has failed. */
  ghost predicate Phased(c: Channel) {
    && AuthFirst(c.sent)
    && (c.open ==> c.attached && c.stage != Refused && (c.bufferEnabled <==> c.stage == Trying))
    && (c.open && c.stage == Accepted ==> c.packetBuffer == [])
    && (c.open && c.sent == [] ==> c.stage == Trying && c.callbacks == [] && c.delayed == [])
  }

  ghost predicate InOrder(c: Channel, forwarded: seq<Packet>) {
    && Received(c.sent) <= forwarded
    && (c.open ==> c.delayed == [] && Received(c.sent) + InFlight(c) == forwarded)
  }

  /** All packets that are somewhere on the way or have arrived, however often. */
  ghost function Held(c: Channel): multiset<Packet> {
    multiset(Received(c.sent)) + multiset(Flat(c.delayed)) + multiset(Flat(c.callbacks))
    + multiset(Flat(c.packetBuffer)) + multiset(c.sendBuffer)
  }

  ghost predicate Conserved(c: Channel, forwarded: seq<Packet>) {
    c.open ==> Held(c) == multiset(forwarded)
  }

  /** The step gives up a CivCom or what it sent. */
  predicate Disturbs(e: Event) {
    e.Fails? || e.Replaced?
  }

  predicate Undisturbed(es: seq<Event>) {
    forall i | 0 <= i < |es| :: !Disturbs(es[i])
  }

  /** The step sends a batch above the critical size to the agent through a timer. */
  predicate UsesTimer(c: Channel, e: Event) {
    e.Flush? && c.open && c.attached && !c.bufferEnabled && c.sendBuffer != [] && Critical(c.sendBuffer)
  }

  /** Held batches are written while batches from before are still scheduled, and the difference shows. */
  predicate JumpsQueue(c: Channel, e: Event) {
    && e.AuthSucceeds? && c.open && c.stage == Trying
    && Flat(c.callbacks) + Flat(c.packetBuffer) != Flat(c.packetBuffer) + Flat(c.callbacks)
  }

  predicate Overtakes(c: Channel, e: Event) {
    UsesTimer(c, e) || JumpsQueue(c, e)
  }

  predicate NothingOvertakes(c: Channel, es: seq<Event>)
    decreases |es|
  {
    es == [] || (!Overtakes(c, es[0]) && NothingOvertakes(Step(c, es[0]), es[1..]))
  }

  // ---------------------------------------------------------------- list facts

  lemma {:induction false} ReceivedAppend(a: seq<Message>, b: seq<Message>)
    ensures Received(a + b) == Received(a) + Received(b)
  {
    if a == [] {
      assert a + b == b;
    } else {
      assert (a + b)[1..] == a[1..] + b;
      ReceivedAppend(a[1..], b);
    }
  }

  lemma {:induction false} ReceivedFrames(bs: seq<Batch>)
    ensures Received(Frames(bs)) == Flat(bs)
  {
    if bs != [] {
      assert Frames(bs)[1..] == Frames(bs[1..]);
      ReceivedFrames(bs[1..]);
    }
  }

  lemma {:induction false} FlatAppend(a: seq<Batch>, b: seq<Batch>)
    ensures Flat(a + b) == Flat(a) + Flat(b)
  {
    if a == [] {
      assert a + b == b;
    } else {
      assert (a + b)[1..] == a[1..] + b;
      FlatAppend(a[1..], b);
    }
  }

  lemma FlatOne(b: Batch)
    ensures Flat([b]) == b
  {
    assert [b][1..] == [];
    assert Flat([b]) == b + Flat([]);
  }

  lemma FlatSnoc(a: seq<Batch>, b: Batch)
    ensures Flat(a + [b]) == Flat(a) + b
  {
    FlatAppend(a, [b]);
    FlatOne(b);
  }

  lemma ReceivedFrame(ms: seq<Message>, b: Batch)
    ensures Received(ms + [Frame(b)]) == Received(ms) + b
  {
    ReceivedAppend(ms, [Frame(b)]);
    assert [Frame(b)][1..] == [];
    assert Received([Frame(b)]) == b + Received([]);
  }

  lemma ReceivedAuth(ms: seq<Message>, bs: seq<Batch>)
    ensures Received(ms + [AuthSuccess] + Frames(bs)) == Received(ms) + Flat(bs)
  {
    ReceivedAppend(ms + [AuthSuccess], Frames(bs));
    ReceivedAppend(ms, [AuthSuccess]);
    assert [AuthSuccess][1..] == [];
    assert Received([AuthSuccess]) == [] + Received([]);
    ReceivedFrames(bs);
  }

  // ---------------------------------------------------------------- one step keeps it

  lemma StepPhased(c: Channel, e: Event)
    requires Phased(c) && !Disturbs(e)
    ensures Phased(Step(c, e))
  {
  }

  lemma StepBounded(c: Channel, e: Event)
    requires Bounded(c)
    ensures Bounded(Step(c, e))
  {
    var bs, b := c.packetBuffer, c.sendBuffer;
    assert (bs + [b])[..|bs|] == bs;
  }

  lemma FlushInOrder(c: Channel)
    requires c.open && c.attached && c.sendBuffer != [] && !UsesTimer(c, Flush) && SendToClient(c).open
    requires c.bufferEnabled || c.packetBuffer == []
    ensures InFlight(SendToClient(c)) == InFlight(c)
  {
    if c.bufferEnabled {
      FlatSnoc(c.packetBuffer, c.sendBuffer);
    } else {
      FlatSnoc(c.callbacks, c.sendBuffer);
    }
  }

  lemma CallbackInOrder(c: Channel)
    requires c.open && c.callbacks != []
    ensures
      var c' := RunCallback(c);
      Received(c'.sent) + InFlight(c') == Received(c.sent) + InFlight(c)
  {
    ReceivedFrame(c.sent, c.callbacks[0]);
    var got, b, rest := Received(c.sent), c.callbacks[0], Flat(c.callbacks[1..]);
    var z := Flat(c.packetBuffer) + c.sendBuffer;
    assert Flat(c.callbacks) == b + rest;
    assert (got + b) + (rest + z) == got + ((b + rest) + z);
    assert InFlight(c) == (b + rest) + z && InFlight(RunCallback(c)) == rest + z;
  }

  lemma OneMoreInOrder<T>(a: seq<T>, b: seq<T>, c: seq<T>, d: seq<T>)
    ensures a + (b + (c + d)) == (a + (b + c)) + d
  {
  }

  lemma AuthInOrder(c: Channel)
    requires c.open && c.stage == Trying && !JumpsQueue(c, AuthSucceeds)
    ensures
      var c' := Authenticate(c);
      Received(c'.sent) + InFlight(c') == Received(c.sent) + InFlight(c)
  {
    ReceivedAuth(c.sent, c.packetBuffer);
    var got, a, b, z := Received(c.sent), Flat(c.callbacks), Flat(c.packetBuffer), c.sendBuffer;
    assert (got + b) + ((a + []) + z) == got + ((b + a) + z);
  }

  lemma StepInOrder(c: Channel, e: Event, fw: seq<Packet>)
    requires Phased(c) && InOrder(c, fw) && !Disturbs(e) && !Overtakes(c, e)
    ensures InOrder(Step(c, e), fw + if e.Decoded? then [e.p] else [])
  {
    if c.open {
      hide RunDelayed, JumpsQueue;
      match e {
        case Decoded(p) =>
          hide SendToClient;
          OneMoreInOrder(Received(c.sent), Flat(c.callbacks) + Flat(c.packetBuffer), c.sendBuffer, [p]);
        case Flush =>
          hide Authenticate;
          if c.sendBuffer != [] && SendToClient(c).open { FlushInOrder(c); }
        case AuthSucceeds =>
          hide SendToClient;
          if c.stage == Trying { AuthInOrder(c); }
        case Retries => hide SendToClient, Authenticate;
        case Callback =>
          hide SendToClient, Authenticate;
          if c.callbacks != [] { CallbackInOrder(c); }
        case Timer(i) => TimerIdle(c, i);
        case Closed =>
      }
    }
  }

  lemma TimerIdle(c: Channel, i: nat)
    requires c.delayed == []
    ensures RunDelayed(c, i) == c
  {
  }

  lemma FlushConserves(c: Channel)
    requires c.open && c.attached && c.sendBuffer != [] && SendToClient(c).open
    ensures Held(SendToClient(c)) == Held(c)
  {
    hide Flat, Received, TotalSize, Join;
    var b := c.sendBuffer;
    FlatSnoc(c.packetBuffer, b);
    FlatSnoc(c.delayed, b);
    FlatSnoc(c.callbacks, b);
    MoveLast(multiset(Received(c.sent)), multiset(Flat(c.delayed)), multiset(Flat(c.callbacks)),
             multiset(Flat(c.packetBuffer)), multiset(b));
  }

  lemma MoveLast<T>(a: multiset<T>, b: multiset<T>, c: multiset<T>, d: multiset<T>, x: multiset<T>)
    ensures a + b + c + (d + x) + multiset{} == a + b + c + d + x
    ensures a + b + (c + x) + d + multiset{} == a + b + c + d + x
    ensures a + (b + x) + c + d + multiset{} == a + b + c + d + x
  {
  }

  lemma DecodedConserves(c: Channel, p: Packet)
    ensures Held(Queue(c, p)) == Held(c) + multiset{p}
  {
  }

  lemma AuthConserves(c: Channel)
    requires c.open
    ensures Held(Authenticate(c)) == Held(c)
  {
    ReceivedAuth(c.sent, c.packetBuffer);
  }

  lemma TimerConserves(c: Channel, i: nat)
    requires c.open && i < |c.delayed|
    ensures Held(RunDelayed(c, i)) == Held(c)
  {
    hide Flat, Received;
    ReceivedFrame(c.sent, c.delayed[i]);
    var a, b, z := c.delayed[..i], c.delayed[i], c.delayed[i + 1..];
    assert c.delayed == (a + [b]) + z;
    FlatAppend(a + [b], z);
    FlatSnoc(a, b);
    FlatAppend(a, z);
  }

  lemma CallbackConserves(c: Channel)
    requires c.open && c.callbacks != []
    ensures Held(RunCallback(c)) == Held(c)
  {
    ReceivedFrame(c.sent, c.callbacks[0]);
  }

  lemma StepConserved(c: Channel, e: Event, fw: seq<Packet>)
    requires Phased(c) && Conserved(c, fw) && !Disturbs(e)
    ensures Conserved(Step(c, e), fw + if e.Decoded? then [e.p] else [])
  {
    assert fw + [] == fw;
    if Step(c, e).open {
      match e {
        case Decoded(p) => DecodedConserves(c, p);
        case Flush => if c.sendBuffer != [] { FlushConserves(c); }
        case AuthSucceeds => if c.stage == Trying { AuthConserves(c); }
        case Retries =>
        case Callback => if c.callbacks != [] { CallbackConserves(c); }
        case Timer(i) => if i < |c.delayed| { TimerConserves(c, i); }
        case Closed =>
      }
    }
  }

  // ---------------------------------------------------------------- whole runs

  lemma {:induction false} RunKeepsOrder(c: Channel, es: seq<Event>, fw: seq<Packet>)
    requires Phased(c) && Undisturbed(es) && InOrder(c, fw) && NothingOvertakes(c, es)
    ensures Phased(Run(c, es)) && InOrder(Run(c, es), fw + Forwarded(es))
    decreases |es|
  {
    hide Step, Phased, InOrder, Overtakes;
    if es == [] {
      assert fw + Forwarded(es) == fw;
    } else {
      var c', fw' := Step(c, es[0]), fw + if es[0].Decoded? then [es[0].p] else [];
      StepPhased(c, es[0]);
      StepInOrder(c, es[0], fw);
      assert fw' + Forwarded(es[1..]) == fw + Forwarded(es);
      RunKeepsOrder(c', es[1..], fw');
      assert Run(c, es) == Run(c', es[1..]);
    }
  }

  lemma {:induction false} RunConserves(c: Channel, es: seq<Event>, fw: seq<Packet>)
    requires Phased(c) && Undisturbed(es) && Conserved(c, fw)
    ensures Conserved(Run(c, es), fw + Forwarded(es))
    decreases |es|
  {
    hide Step, Phased, Conserved;
    if es == [] {
      assert fw + Forwarded(es) == fw;
    } else {
      var c', fw' := Step(c, es[0]), fw + if es[0].Decoded? then [es[0].p] else [];
      StepPhased(c, es[0]);
      StepConserved(c, es[0], fw);
      assert fw' + Forwarded(es[1..]) == fw + Forwarded(es);
      RunConserves(c', es[1..], fw');
      assert Run(c, es) == Run(c', es[1..]);
    }
  }

  /**
  If nothing overtakes, the agent gets a prefix of what was decoded, and while the connection stands
  the rest is still on its way in order: once nothing is, it got it all.
  */
  lemma DeliveredInOrder(waiting: seq<Packet>, es: seq<Event>)
    requires Undisturbed(es) && NothingOvertakes(Begin(waiting), es)
    ensures
      var c := Run(Begin(waiting), es);
      && Received(c.sent) <= waiting + Forwarded(es)
      && (c.open ==> Received(c.sent) + InFlight(c) == waiting + Forwarded(es))
  {
    RunKeepsOrder(Begin(waiting), es, waiting);
  }

  /** With batches of any size, no packet is lost or repeated while the connection stands. */
  lemma NothingLostOrRepeated(waiting: seq<Packet>, es: seq<Event>)
    requires Undisturbed(es)
    ensures
      var c := Run(Begin(waiting), es);
      c.open ==> Held(c) == multiset(waiting + Forwarded(es))
  {
    RunConserves(Begin(waiting), es, waiting);
  }

  lemma {:induction false} BufferStaysBounded(c: Channel, es: seq<Event>)
    requires Bounded(c)
    ensures Bounded(Run(c, es))
    decreases |es|
  {
    if es != [] {
      StepBounded(c, es[0]);
      BufferStaysBounded(Step(c, es[0]), es[1..]);
    }
  }

  // ---------------------------------------------------------------- exactly when the order holds

  lemma RunOne(c: Channel, es: seq<Event>)
    requires es != []
    ensures Run(c, es) == Run(Step(c, es[0]), es[1..])
  {
  }

  lemma {:induction false} ForwardedConcat(a: seq<Event>, b: seq<Event>)
    ensures Forwarded(a + b) == Forwarded(a) + Forwarded(b)
  {
    if a == [] {
      assert a + b == b;
    } else {
      var first := if a[0].Decoded? then [a[0].p] else [];
      assert (a + b)[1..] == a[1..] + b && (a + b)[0] == a[0];
      ForwardedConcat(a[1..], b);
      assert Forwarded(a + b) == first + Forwarded(a[1..] + b);
      assert Forwarded(a) == first + Forwarded(a[1..]);
    }
  }

  lemma {:induction false} RunConcat(c: Channel, a: seq<Event>, b: seq<Event>)
    ensures Run(c, a + b) == Run(Run(c, a), b)
    ensures NothingOvertakes(c, a + b) <==> NothingOvertakes(c, a) && NothingOvertakes(Run(c, a), b)
    decreases |a|
  {
    hide Step, Overtakes;
    if a == [] {
      assert a + b == b;
    } else {
      assert (a + b)[1..] == a[1..] + b;
      RunConcat(Step(c, a[0]), a[1..], b);
    }
  }

  function Drain(n: nat): seq<Event> {
    if n == 0 then [] else [Callback] + Drain(n - 1)
  }

  lemma CallbackWrites(c: Channel)
    requires c.open && c.callbacks != []
    ensures Step(c, Callback) == c.(callbacks := c.callbacks[1..], sent := c.sent + [Frame(c.callbacks[0])])
    ensures !Overtakes(c, Callback)
  {
  }

  /** As many callbacks as are scheduled write them all and do nothing else. */
  lemma {:induction false} DrainWrites(c: Channel)
    requires c.open
    ensures
      var es := Drain(|c.callbacks|);
      && Undisturbed(es) && Forwarded(es) == [] && NothingOvertakes(c, es)
      && Run(c, es) == c.(callbacks := [], sent := c.sent + Frames(c.callbacks))
    decreases |c.callbacks|
  {
    hide Step, Overtakes;
    if c.callbacks != [] {
      var c', es := Step(c, Callback), Drain(|c.callbacks|);
      CallbackWrites(c);
      DrainWrites(c');
      assert es[1..] == Drain(|c'.callbacks|);
      assert c.sent + Frames(c.callbacks) == (c.sent + [Frame(c.callbacks[0])]) + Frames(c.callbacks[1..]);
    }
  }

  /** The scheduled callbacks run, then `x` is decoded, flushed and written. */
  function Overtaking(n: nat, x: Packet): seq<Event> {
    Drain(n) + [Decoded(x), Flush, Callback]
  }

  lemma SmallBatchGoesThrough(c: Channel, x: Packet)
    requires c.open && c.attached && !c.bufferEnabled && c.callbacks == [] && c.sendBuffer == [] && !Critical([x])
    ensures
      var es := [Decoded(x), Flush, Callback];
      && Forwarded(es) == [x] && NothingOvertakes(c, es)
      && Run(c, es) == c.(sent := c.sent + [Frame([x])])
  {
    hide Critical;
    var es := [Decoded(x), Flush, Callback];
    assert es[1..] == [Flush, Callback] && [Flush, Callback][1..] == [Callback] && [Callback][1..] == [];
    var c1 := Step(c, Decoded(x));
    assert c1.sendBuffer == [x];
    var c2 := Step(c1, Flush);
    assert c2.callbacks == [[x]];
    assert Run(c, es) == Run(c1, [Flush, Callback]) == Run(c2, [Callback]) == Step(c2, Callback);
    assert Forwarded([Callback]) == [] + Forwarded([]);
    assert Forwarded([Flush, Callback]) == [] + Forwarded([Callback]);
    assert Forwarded(es) == [x] + Forwarded([Flush, Callback]);
    assert NothingOvertakes(c2, [Callback]);
    assert NothingOvertakes(c1, [Flush, Callback]);
  }

  /** After a batch above the critical size is flushed, a small packet reaches the agent before it. */
  lemma SmallOvertakes(c: Channel, x: Packet)
    requires UsesTimer(c, Flush) && c.delayed == [] && !Critical([x])
    ensures
      var c1, es := Step(c, Flush), Overtaking(|c.callbacks|, x);
      var c2 := Run(c1, es);
      && Undisturbed(es) && Forwarded(es) == [x] && NothingOvertakes(c1, es)
      && Received(c2.sent) == Received(c.sent) + Flat(c.callbacks) + [x]
      && c2.open && c2.delayed == [c.sendBuffer]
  {
    hide Critical;
    var c1, drain := Step(c, Flush), Drain(|c.callbacks|);
    assert c1 == c.(sendBuffer := [], delayed := [c.sendBuffer]);
    DrainWrites(c1);
    SmallBatchGoesThrough(Run(c1, drain), x);
    RunConcat(c1, drain, [Decoded(x), Flush, Callback]);
    ForwardedConcat(drain, [Decoded(x), Flush, Callback]);
    ReceivedFrame(c.sent + Frames(c.callbacks), [x]);
    ReceivedAppend(c.sent, Frames(c.callbacks));
    ReceivedFrames(c.callbacks);
  }

  /** Above the critical size the next small batch overtakes, and the large one comes after it. */
  lemma CriticalBatchIsOvertaken(c: Channel, x: Packet)
    requires UsesTimer(c, Flush) && c.delayed == [] && !Critical([x])
    ensures
      var c' := Run(c, [Flush] + Overtaking(|c.callbacks|, x) + [Timer(0)]);
      Received(c'.sent) == Received(c.sent) + Flat(c.callbacks) + [x] + c.sendBuffer
  {
    hide Step, UsesTimer, Critical;
    var es := Overtaking(|c.callbacks|, x);
    var c1 := Step(c, Flush);
    var c2 := Run(c1, es);
    SmallOvertakes(c, x);
    RunOne(c, [Flush]);
    RunConcat(c, [Flush], es);
    RunConcat(c, [Flush] + es, [Timer(0)]);
    RunOne(c2, [Timer(0)]);
    ReceivedFrame(c2.sent, c.sendBuffer);
    assert Step(c2, Timer(0)).sent == c2.sent + [Frame(c.sendBuffer)] by { TimerWrites(c2); }
  }

  lemma TimerWrites(c: Channel)
    requires c.open && c.delayed != []
    ensures Step(c, Timer(0)).sent == c.sent + [Frame(c.delayed[0])]
  {
  }

  /** Whatever follows, unless something overtakes, the agent gets a prefix of what was decoded. */
  ghost predicate AlwaysPrefix(c: Channel, fw: seq<Packet>) {
    forall es | Undisturbed(es) && NothingOvertakes(c, es) :: Received(Run(c, es).sent) <= fw + Forwarded(es)
  }

  lemma OrderedIsPrefix(c: Channel, fw: seq<Packet>)
    requires Phased(c) && InOrder(c, fw)
    ensures AlwaysPrefix(c, fw)
  {
    forall es | Undisturbed(es) && NothingOvertakes(c, es) ensures Received(Run(c, es).sent) <= fw + Forwarded(es) {
      RunKeepsOrder(c, es, fw);
    }
  }

  lemma TimerBreaksOrder(c: Channel, fw: seq<Packet>)
    requires Phased(c) && InOrder(c, fw) && UsesTimer(c, Flush)
    ensures !AlwaysPrefix(Step(c, Flush), fw)
  {
    hide Step, Run, Received, Flat, Critical;
    var b := c.sendBuffer;
    var x: Packet := if b[0] == [] then [0] else [];
    ShortIsNotCritical(x);
    SmallOvertakes(c, x);
    assert c.packetBuffer == [] && Flat([]) == [] by { FlatNothing(); }
    var es, head := Overtaking(|c.callbacks|, x), Received(c.sent) + Flat(c.callbacks);
    assert fw == head + b;
    assert (head + [x])[|head|] == x && (head + b + [x])[|head|] == b[0];
  }

  lemma JumpingBreaksOrder(c: Channel, fw: seq<Packet>)
    requires Phased(c) && InOrder(c, fw) && JumpsQueue(c, AuthSucceeds)
    ensures !AlwaysPrefix(Step(c, AuthSucceeds), fw)
  {
    hide Run, Received, Flat;
    var c1, es := Step(c, AuthSucceeds), Drain(|c.callbacks|);
    DrainWrites(c1);
    ReceivedAuth(c.sent, c.packetBuffer);
    ReceivedAppend(c1.sent, Frames(c.callbacks));
    ReceivedFrames(c.callbacks);
    var got, a, b := Received(c.sent), Flat(c.callbacks), Flat(c.packetBuffer);
    assert Received(Run(c1, es).sent) == (got + b) + a && fw + Forwarded(es) == (got + a + b) + c.sendBuffer;
    assert (got + b) + a == got + (b + a) && (got + a + b) + c.sendBuffer == got + ((a + b) + c.sendBuffer);
    SameLengthPrefix(got, b + a, a + b, c.sendBuffer);
  }

  lemma SameLengthPrefix<T>(got: seq<T>, x: seq<T>, y: seq<T>, rest: seq<T>)
    requires |x| == |y|
    ensures got + x <= got + (y + rest) ==> x == y
  {
    if got + x <= got + (y + rest) {
      forall i | 0 <= i < |x| ensures x[i] == y[i] {
        assert (got + x)[|got| + i] == (got + (y + rest))[|got| + i];
      }
    }
  }

  /** A step keeps the order exactly when it does not overtake. */
  lemma StepKeepsOrderIff(c: Channel, e: Event, fw: seq<Packet>)
    requires Phased(c) && InOrder(c, fw) && !Disturbs(e)
    ensures AlwaysPrefix(Step(c, e), fw + if e.Decoded? then [e.p] else []) <==> !Overtakes(c, e)
  {
    hide Step, Phased, InOrder, AlwaysPrefix, UsesTimer, JumpsQueue;
    assert fw + [] == fw;
    if UsesTimer(c, e) {
      assert e == Flush by { TimerIsFlush(c, e); }
      TimerBreaksOrder(c, fw);
    } else if JumpsQueue(c, e) {
      assert e == AuthSucceeds by { JumpIsSuccess(c, e); }
      JumpingBreaksOrder(c, fw);
    } else {
      StepPhased(c, e);
      StepInOrder(c, e, fw);
      OrderedIsPrefix(Step(c, e), fw + if e.Decoded? then [e.p] else []);
    }
  }

  lemma TimerIsFlush(c: Channel, e: Event)
    requires UsesTimer(c, e)
    ensures e == Flush
  {
  }

  lemma JumpIsSuccess(c: Channel, e: Event)
    requires JumpsQueue(c, e)
    ensures e == AuthSucceeds
  {
  }

  lemma FlatNothing()
    ensures Flat([]) == []
  {
  }

  lemma ShortIsNotCritical(x: Packet)
    requires |x| <= 1
    ensures !Critical([x])
  {
  }

  ghost predicate PrefixThroughout(c: Channel, fw: seq<Packet>, es: seq<Event>)
    decreases |es|
  {
    && AlwaysPrefix(c, fw)
    && (es != [] ==> PrefixThroughout(Step(c, es[0]), fw + if es[0].Decoded? then [es[0].p] else [], es[1..]))
  }

  lemma {:induction false} ThroughoutIff(c: Channel, fw: seq<Packet>, es: seq<Event>)
    requires Phased(c) && InOrder(c, fw) && Undisturbed(es)
    ensures PrefixThroughout(c, fw, es) <==> NothingOvertakes(c, es)
    decreases |es|
  {
    hide Step, Phased, InOrder, AlwaysPrefix, Overtakes;
    OrderedIsPrefix(c, fw);
    if es != [] {
      StepKeepsOrderIff(c, es[0], fw);
      if !Overtakes(c, es[0]) {
        StepPhased(c, es[0]);
        StepInOrder(c, es[0], fw);
        ThroughoutIff(Step(c, es[0]), fw + if es[0].Decoded? then [es[0].p] else [], es[1..]);
      }
    }
  }

  /**
  At every point of a run the agent has, and will have, a prefix of what was decoded, exactly when
  no flush sends a batch above the critical size and no success jumps the queue of scheduled ones.
  */
  lemma DeliveredInOrderIff(waiting: seq<Packet>, es: seq<Event>)
    requires Undisturbed(es)
    ensures PrefixThroughout(Begin(waiting), waiting, es) <==> NothingOvertakes(Begin(waiting), es)
  {
    ThroughoutIff(Begin(waiting), waiting, es);
  }

  // ---------------------------------------------------------------- the program's methods

  class LlmConnection {
    var sendBuffer: seq<Packet>
    var attached: bool
    var bufferEnabled: bool
    var packetBuffer: seq<Batch>
    var callbacks: seq<Batch>
    var delayed: seq<Batch>
    var open: bool
    var stage: Stage
    var sent: seq<Message>

    function View(): Channel
      reads this
    {
      Channel(sendBuffer, attached, bufferEnabled, packetBuffer, callbacks, delayed, open, stage, sent)
    }

    constructor (waiting: seq<Packet>)
      ensures View() == Begin(waiting)
    {
      sendBuffer, packetBuffer, callbacks, delayed, sent := waiting, [], [], [], [];
      attached, bufferEnabled, open, stage := true, true, true, Trying;
    }

    method SendBufferAppend(p: Packet)
      modifies this
      ensures View() == Queue(old(View()), p)
    {
      sendBuffer := sendBuffer + [p];
    }

    /** `get_client_result_string`: the batch of all waiting packets, which are then forgotten. */
    method GetClientResult() returns (batch: Batch)
      modifies this`sendBuffer
      ensures batch == old(sendBuffer) && sendBuffer == []
    {
      batch := sendBuffer;
      sendBuffer := [];
    }

    method BufferedBytes() returns (n: nat)
      ensures n == TotalSize(packetBuffer)
    {
      n := 0;
      for i := 0 to |packetBuffer|
        invariant n == TotalSize(packetBuffer[..i])
      {
        assert packetBuffer[..i + 1][..i] == packetBuffer[..i];
        n := n + |Render(packetBuffer[i])|;
      }
      assert packetBuffer[..|packetBuffer|] == packetBuffer;
    }

    method DropBufferAndClose()
      modifies this`bufferEnabled, this`packetBuffer, this`open
      ensures View() == Overflow(old(View()))
    {
      bufferEnabled := false;
      packetBuffer := [];
      open := false;
    }

    method SendPacketsToClient()
      modifies this
      ensures View() == SendToClient(old(View()))
    {
      var batch := GetClientResult();
      if batch == [] || !attached {
        return;
      }
      if bufferEnabled {
        var size := BufferedBytes();
        if |packetBuffer| >= MAX_PACKET_BUFFER_SIZE {
          DropBufferAndClose();
        } else if size + |Render(batch)| > MAX_PACKET_BUFFER_BYTES {
          DropBufferAndClose();
        } else {
          packetBuffer := packetBuffer + [batch];
        }
      } else if |Render(batch)| > CRITICAL_PACKET_SIZE {
        delayed := delayed + [batch];
      } else {
        callbacks := callbacks + [batch];
      }
    }

    /** `_flush_packet_buffer`: held batches are written in order, failed writes skipped, the buffer emptied. */
    method FlushPacketBuffer()
      modifies this`sent, this`packetBuffer
      ensures sent == old(sent) + (if open then Frames(old(packetBuffer)) else []) && packetBuffer == []
    {
      for i := 0 to |packetBuffer|
        invariant packetBuffer == old(packetBuffer)
        invariant sent == old(sent) + if open then Frames(packetBuffer)[..i] else []
      {
        if open {
          sent := sent + [Frame(packetBuffer[i])];
        }
      }
      packetBuffer := [];
    }

    /** The exception exits of the connect handler. */
    method AbortAuthentication()
      modifies this
      ensures View() == FailAttempt(old(View()), Error)
      ensures !attached && !bufferEnabled && packetBuffer == [] && sendBuffer == []
    {
      bufferEnabled := false;
      packetBuffer := [];
      SendPacketsToClient();
      attached := false;
      stage := Refused;
    }

    /** `_abort_with_state_mismatch`, where a reused CivCom has been closed first. */
    method AbortWithStateMismatch(reused: bool)
      modifies this
      ensures View() == FailAttempt(old(View()), if reused then ReusedMismatch else FreshMismatch)
      ensures !bufferEnabled && packetBuffer == [] && attached == (old(attached) && !reused)
    {
      if reused {
        SendPacketsToClient();
        attached := false;
      }
      bufferEnabled := false;
      packetBuffer := [];
      stage := Refused;
    }

    /** The part of a further `llm_connect` that readies the connection. */
    method ConnectAgain()
      modifies this`stage, this`bufferEnabled, this`attached, this`sendBuffer
      ensures View() == TryAgain(old(View()))
      ensures stage == Trying && bufferEnabled && attached && packetBuffer == old(packetBuffer)
      ensures sendBuffer == if old(attached) then old(sendBuffer) else []
    {
      stage := Trying;
      bufferEnabled := true;
      if !attached {
        sendBuffer := [];
        attached := true;
      }
    }

    /** The success exit of the connect handler. */
    method CompleteAuthentication()
      modifies this
      ensures View() == Authenticate(old(View()))
      ensures old(open) ==> sent == old(sent) + [AuthSuccess] + Frames(old(packetBuffer)) && stage == Accepted
      ensures old(open) ==> !bufferEnabled && packetBuffer == []
      ensures !old(open) ==> sent == old(sent) && stage == Refused && !attached
    {
      if !open {
        AbortAuthentication();
        return;
      }
      sent := sent + [AuthSuccess];
      stage := Accepted;
      bufferEnabled := false;
      FlushPacketBuffer();
    }

    /** One scheduled write reaches the front of the event loop. */
    method RunNextCallback()
      modifies this`sent, this`callbacks
      ensures View() == RunCallback(old(View()))
      ensures old(callbacks) != [] ==> callbacks == old(callbacks)[1..]
      ensures old(open && callbacks != []) ==> sent == old(sent) + [Frame(old(callbacks)[0])]
    {
      if callbacks != [] {
        if open {
          sent := sent + [Frame(callbacks[0])];
        }
        callbacks := callbacks[1..];
      }
    }
  }
}
