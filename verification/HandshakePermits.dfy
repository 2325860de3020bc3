/**
The permits that limit concurrent handshakes with a civserver
(freeciv-proxy/freeciv-proxy.py, freeciv-proxy/civcom.py).

A permit is acquired when a connection is made and given back through whichever comes first of
thread-creation failure, connect failure, crash, join reply or close. A semaphore serves a port
until the port is returned; connections keep the object they acquired from. Each method of the
program is one atomic step.
*/
module HandshakePermits {
  import opened Options

  const MAX_CONCURRENT_HANDSHAKES := 6

  type SemId = nat
  type ConnId = nat
  type Key = string

  /** A CivCom; `sem` is its `port_semaphore`, `attached` says it still knows its WebSocket. */
  datatype Conn = Conn(key: Key, port: int, sem: Option<SemId>, attached: bool)

  /**
  `free[s]` is the count of semaphore object `s`, `portSems` the dictionary of the current ones,
  `civcoms` that of the connections; `acquired` and `returned` count per semaphore.
  */
  datatype Permits = Permits(
    free: seq<nat>,
    portSems: map<int, SemId>,
    conns: seq<Conn>,
    civcoms: map<Key, ConnId>,
    acquired: seq<nat>,
    returned: seq<nat>)

  const START := Permits([], map[], [], map[], [], [])

  /** `get_port_semaphore`. */
  function PortSemaphore(p: Permits, port: int): (Permits, SemId) {
    if port in p.portSems then (p, p.portSems[port])
    else
      (p.(free := p.free + [MAX_CONCURRENT_HANDSHAKES], portSems := p.portSems[port := |p.free|],
          acquired := p.acquired + [0], returned := p.returned + [0]),
       |p.free|)
  }

  /** `cleanup_port_semaphore`. */
  function CleanupPort(p: Permits, port: int): Permits {
    p.(portSems := p.portSems - {port})
  }

  function Acquire(p: Permits, s: SemId): Permits
    requires s < |p.free| == |p.acquired| && p.free[s] > 0
  {
    p.(free := p.free[s := p.free[s] - 1], acquired := p.acquired[s := p.acquired[s] + 1])
  }

  function GiveBack(p: Permits, s: SemId): Permits
    requires s < |p.free| == |p.returned|
  {
    p.(free := p.free[s := p.free[s] + 1], returned := p.returned[s := p.returned[s] + 1])
  }

  ghost predicate Shaped(p: Permits) {
    && |p.acquired| == |p.returned| == |p.free|
    && (forall port <- p.portSems :: p.portSems[port] < |p.free|)
    && (forall c | 0 <= c < |p.conns| :: p.conns[c].sem.Some? ==> p.conns[c].sem.value < |p.free|)
    && (forall k <- p.civcoms :: p.civcoms[k] < |p.conns|)
  }

  /** `Refused` is the program's `None`; `MustWait` is a caller blocked on the semaphore. */
  datatype Outcome = Connected(c: ConnId) | Refused | MustWait

  /** `get_civcom`; `starts` says whether the thread can be created. A caller that must wait changes nothing. */
  function GetCivcom(p: Permits, key: Key, port: int, starts: bool): (r: (Permits, Outcome))
    requires Shaped(p)
    ensures Shaped(r.0)
  {
    if key in p.civcoms then (p, Connected(p.civcoms[key]))
    else if port < 5000 then (p, Refused)
    else
      var (q, s) := PortSemaphore(p, port);
      if q.free[s] == 0 then (p, MustWait)
      else
        var q := Acquire(q, s);
        if !starts then (GiveBack(q, s), Refused)
        else
          (q.(conns := q.conns + [Conn(key, port, Some(s), true)], civcoms := q.civcoms[key := |q.conns|]),
           Connected(|q.conns|))
  }

  /** `_release_handshake_semaphore`, which every exit of a connection reaches. */
  function Release(p: Permits, c: ConnId): (q: Permits)
    requires Shaped(p) && c < |p.conns|
    ensures Shaped(q) && |q.conns| == |p.conns|
  {
    if p.conns[c].sem.None? then p
    else GiveBack(p, p.conns[c].sem.value).(conns := p.conns[c := p.conns[c].(sem := None)])
  }

  /** `close_connection`: an attached connection also takes its key out of the dictionary. */
  function Close(p: Permits, c: ConnId): (q: Permits)
    requires Shaped(p) && c < |p.conns|
    ensures Shaped(q) && |q.conns| == |p.conns|
  {
    var q := Release(p, c);
    q.(civcoms := if q.conns[c].attached then q.civcoms - {q.conns[c].key} else q.civcoms,
       conns := q.conns[c := q.conns[c].(attached := false)])
  }

  /** What can happen to a connection that exists: all but the join reply end it. */
  datatype Exit = ConnectFails | Crashes | JoinReply | Closes | SocketCloses

  datatype Event =
    | Connect(key: Key, port: int, starts: bool)
    | Leave(c: ConnId, how: Exit)
    | PortReturned(port: int)

  function Exits(p: Permits, c: ConnId, how: Exit): (q: Permits)
    requires Shaped(p) && c < |p.conns|
    ensures Shaped(q) && |q.conns| == |p.conns|
  {
    match how
    case ConnectFails => Close(Release(p, c), c)
    case Crashes => Close(Release(p, c), c)
    case JoinReply => Release(p, c)
    case Closes => Close(p, c)
    case SocketCloses => var q := Close(p, c); q.(civcoms := q.civcoms - {q.conns[c].key})
  }

  function Step(p: Permits, e: Event): (q: Permits)
    requires Shaped(p)
    ensures Shaped(q)
  {
    match e
    case Connect(key, port, starts) => GetCivcom(p, key, port, starts).0
    case Leave(c, how) => if c < |p.conns| then Exits(p, c, how) else p
    case PortReturned(port) => CleanupPort(p, port)
  }

  function Run(p: Permits, es: seq<Event>): (q: Permits)
    requires Shaped(p)
    ensures Shaped(q)
    decreases |es|
  {
    if es == [] then p else Run(Step(p, es[0]), es[1..])
  }

  // ---------------------------------------------------------------- conservation

  /** How many connections hold a permit of `s`. */
  function Holders(cs: seq<Conn>, s: SemId): nat {
    if cs == [] then 0 else (if cs[0].sem == Some(s) then 1 else 0) + Holders(cs[1..], s)
  }

  ghost predicate Inv(p: Permits) {
    && Shaped(p)
    && (forall s | 0 <= s < |p.free| :: p.free[s] + Holders(p.conns, s) == MAX_CONCURRENT_HANDSHAKES)
    && (forall s | 0 <= s < |p.free| :: p.acquired[s] == p.returned[s] + Holders(p.conns, s))
  }

  lemma {:induction false} HoldersSnoc(cs: seq<Conn>, c: Conn, s: SemId)
    ensures Holders(cs + [c], s) == Holders(cs, s) + if c.sem == Some(s) then 1 else 0
  {
    if cs == [] {
      assert cs + [c] == [c] && [c][1..] == [];
    } else {
      assert (cs + [c])[1..] == cs[1..] + [c];
      HoldersSnoc(cs[1..], c, s);
    }
  }

  lemma {:induction false} HoldersUpdate(cs: seq<Conn>, i: nat, c: Conn, s: SemId)
    requires i < |cs|
    ensures Holders(cs[i := c], s) + (if cs[i].sem == Some(s) then 1 else 0)
         == Holders(cs, s) + (if c.sem == Some(s) then 1 else 0)
  {
    if i == 0 {
      assert cs[i := c][1..] == cs[1..];
    } else {
      assert cs[i := c][1..] == cs[1..][i - 1 := c];
      HoldersUpdate(cs[1..], i - 1, c, s);
    }
  }

  lemma {:induction false} NewSemaphoreHasNoHolders(cs: seq<Conn>, s: SemId)
    requires forall c | 0 <= c < |cs| :: cs[c].sem.Some? ==> cs[c].sem.value < s
    ensures Holders(cs, s) == 0
  {
    if cs != [] { NewSemaphoreHasNoHolders(cs[1..], s); }
  }

  lemma ReleaseKeeps(p: Permits, c: ConnId)
    requires Inv(p) && c < |p.conns|
    ensures Inv(Release(p, c)) && Release(p, c).conns[c].sem == None
  {
    forall s: SemId
      ensures Holders(Release(p, c).conns, s) + (if p.conns[c].sem == Some(s) then 1 else 0) == Holders(p.conns, s)
    {
      HoldersUpdate(p.conns, c, p.conns[c].(sem := None), s);
    }
  }

  lemma CloseKeeps(p: Permits, c: ConnId)
    requires Inv(p) && c < |p.conns|
    ensures Inv(Close(p, c)) && Close(p, c).conns[c].sem == None && |Close(p, c).conns| == |p.conns|
  {
    ReleaseKeeps(p, c);
    var q := Release(p, c);
    forall s: SemId ensures Holders(Close(p, c).conns, s) == Holders(q.conns, s) {
      HoldersUpdate(q.conns, c, q.conns[c].(attached := false), s);
    }
  }

  /** Whatever the exit, the permit is back afterwards, once. */
  lemma ExitKeeps(p: Permits, c: ConnId, how: Exit)
    requires Inv(p) && c < |p.conns|
    ensures Inv(Exits(p, c, how)) && Exits(p, c, how).conns[c].sem == None
  {
    hide Release, Close;
    ReleaseKeeps(p, c);
    CloseKeeps(p, c);
    CloseKeeps(Release(p, c), c);
  }

  lemma PortSemaphoreKeeps(p: Permits, port: int)
    requires Inv(p)
    ensures var (q, s) := PortSemaphore(p, port); Inv(q) && s < |q.free| && q.conns == p.conns && q.civcoms == p.civcoms
  {
    NewSemaphoreHasNoHolders(p.conns, |p.free|);
  }

  lemma ConnectKeeps(p: Permits, key: Key, port: int, starts: bool)
    requires Inv(p)
    ensures Inv(GetCivcom(p, key, port, starts).0)
  {
    hide PortSemaphore;
    PortSemaphoreKeeps(p, port);
    var (q, s) := PortSemaphore(p, port);
    var c := Conn(key, port, Some(s), true);
    forall t: SemId ensures Holders(q.conns + [c], t) == Holders(q.conns, t) + if t == s then 1 else 0 {
      HoldersSnoc(q.conns, c, t);
    }
  }

  lemma StepKeeps(p: Permits, e: Event)
    requires Inv(p)
    ensures Inv(Step(p, e))
  {
    match e {
      case Connect(key, port, starts) => hide GetCivcom; ConnectKeeps(p, key, port, starts);
      case Leave(c, how) => hide Exits; if c < |p.conns| { ExitKeeps(p, c, how); }
      case PortReturned(_) =>
    }
  }

  lemma {:induction false} RunKeeps(p: Permits, es: seq<Event>)
    requires Inv(p)
    ensures Inv(Run(p, es))
    decreases |es|
  {
    if es != [] {
      StepKeeps(p, es[0]);
      RunKeeps(Step(p, es[0]), es[1..]);
    }
  }

  /**
  For every semaphore ever made, free permits and connections holding one always total six, and
  what was acquired is what was returned plus what is still held.
  */
  lemma PermitsAreConserved(es: seq<Event>, s: SemId)
    requires s < |Run(START, es).free|
    ensures
      var p := Run(START, es);
      && |p.acquired| == |p.returned| == |p.free|
      && p.free[s] + Holders(p.conns, s) == 6
      && p.acquired[s] == p.returned[s] + Holders(p.conns, s)
  {
    RunKeeps(START, es);
  }

  // ---------------------------------------------------------------- whose connection it is

  /** Each key in the dictionary leads to a connection made for that key. */
  ghost predicate Keyed(p: Permits) {
    forall k <- p.civcoms :: p.civcoms[k] < |p.conns| && p.conns[p.civcoms[k]].key == k
  }

  /** The answers of `get_civcom`, all of them, and what each changes. */
  lemma ConnectIs(p: Permits, key: Key, port: int, starts: bool)
    requires Shaped(p)
    ensures
      var (q, r) := GetCivcom(p, key, port, starts);
      var permits := if port in p.portSems then p.free[p.portSems[port]] else 6;
      && (key in p.civcoms ==> r == Connected(p.civcoms[key]) && q == p)
      && (key !in p.civcoms ==>
            && (r == Refused <==> port < 5000 || (permits > 0 && !starts))
            && (r == MustWait <==> port >= 5000 && permits == 0)
            && (r != Refused && r != MustWait ==>
                  && r == Connected(|p.conns|) && port in q.portSems && q.civcoms == p.civcoms[key := |p.conns|]
                  && q.conns == p.conns + [Conn(key, port, Some(q.portSems[port]), true)])
            && (r == Refused || r == MustWait ==> q.conns == p.conns && q.civcoms == p.civcoms))
  {
  }

  /** What each exit does to the dictionary: a join reply nothing, the others take out the leaver's key. */
  lemma ExitIs(p: Permits, c: ConnId, how: Exit)
    requires Shaped(p) && c < |p.conns|
    ensures
      var q := Step(p, Leave(c, how));
      && (how == JoinReply ==> q.civcoms == p.civcoms && q.conns[c].attached == p.conns[c].attached)
      && (how != JoinReply ==> !q.conns[c].attached)
      && (how != JoinReply && (p.conns[c].attached || how == SocketCloses) ==>
            q.civcoms == p.civcoms - {p.conns[c].key})
      && (how != JoinReply && !p.conns[c].attached && how != SocketCloses ==> q.civcoms == p.civcoms)
      && |q.conns| == |p.conns| && forall d | 0 <= d < |p.conns| ::
           && q.conns[d].key == p.conns[d].key && q.conns[d].port == p.conns[d].port
           && (d != c ==> q.conns[d] == p.conns[d])
  {
  }

  lemma StepKeyed(p: Permits, e: Event)
    requires Shaped(p) && Keyed(p)
    ensures Keyed(Step(p, e))
  {
    match e {
      case Connect(key, port, starts) =>
        hide GetCivcom;
        ConnectIs(p, key, port, starts);
      case Leave(c, how) =>
        hide Exits;
        if c < |p.conns| { ExitIs(p, c, how); }
      case PortReturned(_) =>
    }
  }

  lemma {:induction false} RunKeyed(p: Permits, es: seq<Event>)
    requires Shaped(p) && Keyed(p)
    ensures Keyed(Run(p, es))
    decreases |es|
  {
    hide Step, Keyed;
    if es != [] {
      StepKeyed(p, es[0]);
      RunKeyed(Step(p, es[0]), es[1..]);
    }
  }

  /** In every run, who asks for a connection is given one made for its own key. */
  lemma ConnectedToOwn(es: seq<Event>, key: Key, port: int, starts: bool)
    ensures
      var (q, r) := GetCivcom(Run(START, es), key, port, starts);
      r.Connected? ==> r.c < |q.conns| && q.conns[r.c].key == key && key in q.civcoms && q.civcoms[key] == r.c
  {
    hide GetCivcom;
    RunKeyed(START, es);
    ConnectIs(Run(START, es), key, port, starts);
  }

  // ---------------------------------------------------------------- the limit per port

  function OnPort(cs: seq<Conn>, port: int): nat {
    if cs == [] then 0 else (if cs[0].sem.Some? && cs[0].port == port then 1 else 0) + OnPort(cs[1..], port)
  }

  /** Every handshake under way is on a proper port and holds a permit of its current semaphore. */
  ghost predicate Current(p: Permits) {
    forall c | 0 <= c < |p.conns| && p.conns[c].sem.Some? ::
      && p.conns[c].port >= 5000 && p.conns[c].port in p.portSems
      && p.portSems[p.conns[c].port] == p.conns[c].sem.value
  }

  /** Ports are returned only when no handshake on them is under way. */
  ghost predicate ReturnsIdle(p: Permits, es: seq<Event>)
    requires Shaped(p)
    decreases |es|
  {
    es != [] ==>
      && (es[0].PortReturned? ==> OnPort(p.conns, es[0].port) == 0)
      && ReturnsIdle(Step(p, es[0]), es[1..])
  }

  lemma {:induction false} NobodyOnPort(cs: seq<Conn>, port: int)
    requires OnPort(cs, port) == 0
    ensures forall c | 0 <= c < |cs| :: cs[c].sem.Some? ==> cs[c].port != port
  {
    if cs != [] { NobodyOnPort(cs[1..], port); }
  }

  lemma {:induction false} OnPortHold(cs: seq<Conn>, port: int, s: SemId)
    requires forall c | 0 <= c < |cs| :: cs[c].sem.Some? && cs[c].port == port ==> cs[c].sem.value == s
    ensures OnPort(cs, port) <= Holders(cs, s)
  {
    if cs != [] { OnPortHold(cs[1..], port, s); }
  }

  lemma {:induction false} NoneOnPort(cs: seq<Conn>, port: int)
    requires forall c | 0 <= c < |cs| :: cs[c].sem.Some? ==> cs[c].port != port
    ensures OnPort(cs, port) == 0
  {
    if cs != [] { NoneOnPort(cs[1..], port); }
  }

  lemma ReleaseCurrent(p: Permits, c: ConnId)
    requires Shaped(p) && Current(p) && c < |p.conns|
    ensures Current(Release(p, c))
  {
  }

  lemma CloseCurrent(p: Permits, c: ConnId)
    requires Shaped(p) && Current(p) && c < |p.conns|
    ensures Current(Close(p, c))
  {
    hide Release;
    ReleaseCurrent(p, c);
  }

  lemma StepCurrent(p: Permits, e: Event)
    requires Shaped(p) && Current(p) && (e.PortReturned? ==> OnPort(p.conns, e.port) == 0)
    ensures Current(Step(p, e))
  {
    if e.PortReturned? {
      hide GetCivcom, Exits;
      NobodyOnPort(p.conns, e.port);
    } else if e.Leave? {
      hide GetCivcom, CleanupPort, Release, Close;
      if e.c < |p.conns| {
        ReleaseCurrent(p, e.c);
        CloseCurrent(p, e.c);
        CloseCurrent(Release(p, e.c), e.c);
      }
    } else {
      hide Exits, CleanupPort;
    }
  }

  lemma {:induction false} RunCurrent(p: Permits, es: seq<Event>)
    requires Shaped(p) && Current(p) && ReturnsIdle(p, es)
    ensures Current(Run(p, es))
    decreases |es|
  {
    hide Step;
    if es != [] {
      StepCurrent(p, es[0]);
      RunCurrent(Step(p, es[0]), es[1..]);
    }
  }

  lemma LimitFrom(p: Permits, es: seq<Event>, port: int)
    requires Inv(p) && Current(p) && ReturnsIdle(p, es)
    ensures OnPort(Run(p, es).conns, port) <= 6
  {
    var q := Run(p, es);
    RunKeeps(p, es);
    RunCurrent(p, es);
    if port in q.portSems {
      OnPortHold(q.conns, port, q.portSems[port]);
    } else {
      NoneOnPort(q.conns, port);
    }
  }

  /** Then no port ever has more than six handshakes under way. */
  lemma PortLimitHolds(es: seq<Event>, port: int)
    requires ReturnsIdle(START, es)
    ensures OnPort(Run(START, es).conns, port) <= 6
  {
    LimitFrom(START, es, port);
  }

  // ---------------------------------------------------------------- returning a port too early

  lemma {:induction false} OnPortSnoc(cs: seq<Conn>, c: Conn, port: int)
    ensures OnPort(cs + [c], port) == OnPort(cs, port) + if c.sem.Some? && c.port == port then 1 else 0
  {
    if cs == [] {
      assert cs + [c] == [c] && [c][1..] == [];
    } else {
      assert (cs + [c])[1..] == cs[1..] + [c];
      OnPortSnoc(cs[1..], c, port);
    }
  }

  function Connects(port: int, keys: seq<Key>): seq<Event> {
    if keys == [] then [] else [Connect(keys[0], port, true)] + Connects(port, keys[1..])
  }

  /** The keys are distinct and none of them is connected. */
  ghost predicate Unused(p: Permits, keys: seq<Key>) {
    && (forall i | 0 <= i < |keys| :: keys[i] !in p.civcoms)
    && (forall i, j | 0 <= i < j < |keys| :: keys[i] != keys[j])
  }

  /** The permits left to the port's current semaphore, or to the one it would get. */
  function Room(p: Permits, port: int): nat
    requires Shaped(p)
  {
    if port in p.portSems then p.free[p.portSems[port]] else MAX_CONCURRENT_HANDSHAKES
  }

  lemma OneConnects(p: Permits, port: int, key: Key)
    requires Shaped(p) && port >= 5000 && key !in p.civcoms && Room(p, port) > 0
    ensures
      var q := Step(p, Connect(key, port, true));
      && q.civcoms.Keys == p.civcoms.Keys + {key} && Room(q, port) == Room(p, port) - 1
      && OnPort(q.conns, port) == OnPort(p.conns, port) + 1
  {
    OnPortSnoc(p.conns, Conn(key, port, Some(PortSemaphore(p, port).1), true), port);
  }

  /** As many unused keys as there is room for all connect. */
  lemma {:induction false} AllConnect(p: Permits, port: int, keys: seq<Key>)
    requires Shaped(p) && port >= 5000 && Unused(p, keys) && |keys| <= Room(p, port)
    ensures ReturnsIdle(p, Connects(port, keys))
    ensures OnPort(Run(p, Connects(port, keys)).conns, port) == OnPort(p.conns, port) + |keys|
    ensures Run(p, Connects(port, keys)).civcoms.Keys == p.civcoms.Keys + set k | k in keys
    decreases |keys|
  {
    hide Step, Room, OnPort;
    if keys != [] {
      var es, q := Connects(port, keys), Step(p, Connect(keys[0], port, true));
      OneConnects(p, port, keys[0]);
      AllConnect(q, port, keys[1..]);
      assert es[0] == Connect(keys[0], port, true) && es[1..] == Connects(port, keys[1..]);
      assert keys == [keys[0]] + keys[1..];
    }
  }

  /** A key longer than all those in a set. */
  lemma {:induction false} LongerThanAll(ks: set<Key>) returns (n: nat)
    ensures forall k <- ks :: |k| < n
    decreases |ks|
  {
    n := 0;
    if ks != {} {
      var k :| k in ks;
      n := LongerThanAll(ks - {k});
      n := if |k| < n then n else |k| + 1;
      assert forall l <- ks :: l == k || l in ks - {k};
    }
  }

  function KeyOfLength(n: nat): (key: Key)
    ensures |key| == n
  {
    seq(n, _ => 'k')
  }

  function KeysFrom(n: nat, count: nat): (keys: seq<Key>)
    ensures |keys| == count && forall i | 0 <= i < count :: |keys[i]| == n + i
  {
    var keys := seq(count, i requires 0 <= i < count => KeyOfLength(n + i));
    assert forall i | 0 <= i < count :: keys[i] == KeyOfLength(n + i);
    keys
  }

  lemma UnusedKeys(p: Permits, count: nat) returns (keys: seq<Key>)
    ensures |keys| == count && Unused(p, keys)
  {
    var n := LongerThanAll(p.civcoms.Keys);
    keys := KeysFrom(n, count);
  }

  /** From `p` on, no run that returns only idle ports puts more than six handshakes on `port`. */
  ghost predicate LimitHoldsFrom(p: Permits, port: int)
    requires Shaped(p)
  {
    forall es | ReturnsIdle(p, es) :: OnPort(Run(p, es).conns, port) <= 6
  }

  /** The limit survives the return of a port exactly when no handshake on it is under way. */
  lemma EarlyReturnBreaksPortLimitIff(p: Permits, port: int)
    requires Inv(p) && Current(p)
    ensures LimitHoldsFrom(Step(p, PortReturned(port)), port) <==> OnPort(p.conns, port) == 0
  {
    var q := Step(p, PortReturned(port));
    StepKeeps(p, PortReturned(port));
    if OnPort(p.conns, port) == 0 {
      StepCurrent(p, PortReturned(port));
      forall es | ReturnsIdle(q, es) ensures OnPort(Run(q, es).conns, port) <= 6 {
        LimitFrom(q, es, port);
      }
    } else {
      if port < 5000 { NoneOnPort(p.conns, port); }
      var keys := UnusedKeys(q, 6);
      AllConnect(q, port, keys);
      assert OnPort(Run(q, Connects(port, keys)).conns, port) > 6;
    }
  }

  ghost predicate LimitHoldsThroughout(p: Permits, es: seq<Event>)
    requires Shaped(p)
    decreases |es|
  {
    (forall port :: LimitHoldsFrom(p, port)) && (es != [] ==> LimitHoldsThroughout(Step(p, es[0]), es[1..]))
  }

  lemma {:induction false} ThroughoutIff(p: Permits, es: seq<Event>)
    requires Inv(p) && Current(p)
    ensures LimitHoldsThroughout(p, es) <==> ReturnsIdle(p, es)
    decreases |es|
  {
    assert Shaped(p);
    hide Step, OnPort, Current, Inv;
    forall port, more | ReturnsIdle(p, more) ensures OnPort(Run(p, more).conns, port) <= 6 {
      LimitFrom(p, more, port);
    }
    if es != [] {
      var e := es[0];
      if e.PortReturned? && OnPort(p.conns, e.port) != 0 {
        EarlyReturnBreaksPortLimitIff(p, e.port);
      } else {
        StepKeeps(p, e);
        StepCurrent(p, e);
        ThroughoutIff(Step(p, e), es[1..]);
      }
    }
  }

  /** The limit is safe at every point of a run exactly when the run returns only idle ports. */
  lemma PortLimitHoldsIff(es: seq<Event>)
    ensures LimitHoldsThroughout(START, es) <==> ReturnsIdle(START, es)
  {
    ThroughoutIff(START, es);
  }

  lemma {:induction false} RunConcat(p: Permits, a: seq<Event>, b: seq<Event>)
    requires Shaped(p)
    ensures Run(p, a + b) == Run(Run(p, a), b)
    decreases |a|
  {
    hide Step;
    if a == [] {
      assert a + b == b;
    } else {
      assert (a + b)[1..] == a[1..] + b;
      RunConcat(Step(p, a[0]), a[1..], b);
    }
  }

  /** Seven from the start, in eight steps: six connections, the return, one more. */
  lemma SevenOnOnePort(port: int)
    requires port >= 5000
    ensures
      var keys := KeysFrom(0, 7);
      OnPort(Run(START, Connects(port, keys[..6]) + [PortReturned(port)] + Connects(port, keys[6..])).conns, port) == 7
  {
    hide Connects, OnPort, GetCivcom, Exits;
    var keys := KeysFrom(0, 7);
    var six, back, last := Connects(port, keys[..6]), [PortReturned(port)], Connects(port, keys[6..]);
    assert OnPort(START.conns, port) == 0 by { NoneOnPort([], port); }
    AllConnect(START, port, keys[..6]);
    var p := Run(START, six);
    var q := Step(p, PortReturned(port));
    assert back[1..] == [] && Run(p, back) == Run(q, []) == q;
    RunConcat(START, six, back);
    RunConcat(START, six + back, last);
    assert Unused(q, keys[6..]) by {
      assert keys[6] !in set k | k in keys[..6];
    }
    AllConnect(q, port, keys[6..]);
  }
}
