/** The proxy's dictionaries and the semaphore field of each CivCom, changed in place. */
module HandshakeObjects {
  import opened Options
  import opened S = HandshakePermits

  class Proxy {
    var free: seq<nat>
    var portSems: map<int, SemId>
    var conns: seq<Conn>
    var civcoms: map<Key, ConnId>
    ghost var acquired: seq<nat>
    ghost var returned: seq<nat>

    ghost function View(): Permits
      reads this
    {
      Permits(free, portSems, conns, civcoms, acquired, returned)
    }

    constructor ()
      ensures View() == START
    {
      free, portSems, conns, civcoms, acquired, returned := [], map[], [], map[], [], [];
    }

    method GetPortSemaphore(port: int) returns (s: SemId)
      requires Shaped(View())
      modifies this`free, this`portSems, this`acquired, this`returned
      ensures (View(), s) == PortSemaphore(old(View()), port)
    {
      if port !in portSems {
        portSems := portSems[port := |free|];
        free := free + [MAX_CONCURRENT_HANDSHAKES];
        acquired, returned := acquired + [0], returned + [0];
      }
      s := portSems[port];
    }

    method CleanupPortSemaphore(port: int)
      modifies this`portSems
      ensures View() == CleanupPort(old(View()), port)
    {
      portSems := portSems - {port};
    }

    method ReleasePermit(s: SemId)
      requires s < |free| == |returned|
      modifies this`free, this`returned
      ensures View() == GiveBack(old(View()), s)
    {
      free := free[s := free[s] + 1];
      returned := returned[s := returned[s] + 1];
    }

    /** Acquire before the thread is made; a thread that cannot start gives the permit back at once. */
    method GetCivcom(key: Key, port: int, starts: bool) returns (r: Outcome)
      requires Shaped(View())
      modifies this
      ensures (View(), r) == S.GetCivcom(old(View()), key, port, starts)
      ensures r.MustWait? ==> old(key !in civcoms && port in portSems && free[portSems[port]] == 0)
      ensures r.Connected? && key !in old(civcoms) ==> conns[r.c] == Conn(key, port, Some(portSems[port]), true)
      ensures key in civcoms <==> r.Connected?
      ensures r.Connected? ==> r.c == civcoms[key] && (key in old(civcoms) ==> r.c == old(civcoms)[key])
      ensures r.Connected? && old(Keyed(View())) ==> conns[r.c].key == key
      ensures old(Keyed(View())) ==> Keyed(View())
    {
      if key in civcoms {
        return Connected(civcoms[key]);
      }
      if port < 5000 {
        return Refused;
      }
      var s := GetPortSemaphore(port);
      if free[s] == 0 {
        return MustWait;
      }
      free := free[s := free[s] - 1];
      acquired := acquired[s := acquired[s] + 1];
      if !starts {
        ReleasePermit(s);
        return Refused;
      }
      r := Connected(|conns|);
      civcoms := civcoms[key := |conns|];
      conns := conns + [Conn(key, port, Some(s), true)];
    }

    /** `_release_handshake_semaphore`: a second call finds nothing to give back. */
    method ReleaseHandshakeSemaphore(c: ConnId)
      requires Shaped(View()) && c < |conns|
      modifies this`free, this`returned, this`conns
      ensures View() == Release(old(View()), c)
      ensures conns[c].sem == None && (old(conns[c].sem) == None ==> View() == old(View()))
    {
      if conns[c].sem.Some? {
        ReleasePermit(conns[c].sem.value);
        conns := conns[c := conns[c].(sem := None)];
      }
    }

    method CloseConnection(c: ConnId)
      requires Shaped(View()) && c < |conns|
      modifies this`free, this`returned, this`conns, this`civcoms
      ensures View() == Close(old(View()), c)
      ensures conns[c].sem == None && !conns[c].attached
      ensures old(conns[c].attached) ==> conns[c].key !in civcoms
    {
      ReleaseHandshakeSemaphore(c);
      if conns[c].attached {
        civcoms := civcoms - {conns[c].key};
      }
      conns := conns[c := conns[c].(attached := false)];
    }
  }
}
