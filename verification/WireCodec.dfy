/**
The framing between the proxy and the civserver (freeciv-proxy/civcom.py).

A frame is a two-byte big-endian length (counting itself), the payload, and a NUL.
`Decode` reads a whole byte stream frame by frame and is the reference. `Feed` is the
receiver as a state machine over single bytes. The class `CivCom` is the receiver as
the program runs it, over whatever pieces `recv` happens to return.
*/
module WireCodec {
  import opened Options

  newtype byte = x: int | 0 <= x < 256
  type Bytes = seq<byte>

  const MAX_PAYLOAD := 65532

  function U16(hi: byte, lo: byte): int {
    hi as int * 256 + lo as int
  }

  // ---------------------------------------------------------------- printing

  /** `pack('>H', n)` fails on a length above 65535; such a payload has no frame. */
  predicate Fits(p: Bytes) {
    |p| <= MAX_PAYLOAD
  }

  function EncodeFrame(p: Bytes): Bytes
    requires Fits(p)
  {
    var n := |p| + 3;
    [(n / 256) as byte, (n % 256) as byte] + p + [0]
  }

  ghost predicate AllFit(ps: seq<Bytes>) {
    forall p <- ps :: Fits(p)
  }

  function EncodeAll(ps: seq<Bytes>): Bytes
    requires AllFit(ps)
  {
    if ps == [] then [] else EncodeFrame(ps[0]) + EncodeAll(ps[1..])
  }

  /** The messages that reach the socket: all those before the first that has no frame. */
  function Sendable(ms: seq<Bytes>): (ps: seq<Bytes>)
    ensures ps <= ms && AllFit(ps)
    ensures ps != ms ==> !Fits(ms[|ps|])
  {
    if ms == [] || !Fits(ms[0]) then [] else [ms[0]] + Sendable(ms[1..])
  }

  // ---------------------------------------------------------------- reference parser

  /**
  The payloads in a byte stream. A length of 1 is skipped (its "packet size" is the
  marker -1), a length of 0 or 2, or a frame without its NUL, ends all reading.
  */
  function Decode(bs: Bytes): seq<Bytes> {
    if |bs| < 2 then []
    else
      var size := U16(bs[0], bs[1]) - 2;
      if size == -1 then Decode(bs[2..])
      else if size <= 0 || |bs| < 2 + size || bs[1 + size] != 0 then []
      else [bs[2..1 + size]] + Decode(bs[2 + size..])
  }

  // ---------------------------------------------------------------- one byte at a time

  datatype Rx = Rx(header: Bytes, size: int, body: Bytes, out: seq<Bytes>)

  ghost predicate WF(r: Rx) {
    && |r.header| < 2
    && -2 <= r.size
    && (r.size != -1 ==> r.header == [])
    && (r.size <= 0 ==> r.body == [])
    && (r.size > 0 ==> |r.body| <= r.size)
  }

  /** The receiver can still take a byte: it is in a header or inside a body. */
  predicate Live(r: Rx) {
    r.size == -1 || |r.body| < r.size
  }

  function Feed(r: Rx, b: byte): (r': Rx)
    requires WF(r)
    ensures WF(r')
  {
    if !Live(r) then r
    else if r.size == -1 then
      if |r.header| == 1 then r.(header := [], size := U16(r.header[0], b) - 2)
      else r.(header := [b])
    else if |r.body| + 1 == r.size && b == 0 then
      Rx([], -1, [], r.out + [r.body])
    else r.(body := r.body + [b])
  }

  function FeedAll(r: Rx, bs: Bytes): (r': Rx)
    requires WF(r)
    ensures WF(r')
    decreases |bs|
  {
    if bs == [] then r else FeedAll(Feed(r, bs[0]), bs[1..])
  }

  lemma AppendAssoc<T>(a: seq<T>, b: seq<T>, c: seq<T>)
    ensures a + b + c == a + (b + c)
  {
  }

  const START := Rx([], -1, [], [])

  lemma {:induction false} FeedAllConcat(r: Rx, a: Bytes, b: Bytes)
    requires WF(r)
    ensures FeedAll(r, a + b) == FeedAll(FeedAll(r, a), b)
    decreases |a|
  {
    if a == [] {
      assert a + b == b;
    } else {
      assert (a + b)[1..] == a[1..] + b;
      FeedAllConcat(Feed(r, a[0]), a[1..], b);
    }
  }

  lemma {:induction false} FeedDead(r: Rx, bs: Bytes)
    requires WF(r) && !Live(r)
    ensures FeedAll(r, bs) == r
  {
    if bs != [] {
      FeedDead(r, bs[1..]);
    }
  }

  /** What a body does with a piece that does not go past its end. */
  function TakeBody(r: Rx, bs: Bytes): Rx
    requires WF(r) && r.size > 0 && |r.body| + |bs| <= r.size
  {
    var body := r.body + bs;
    if |body| == r.size && body[r.size - 1] == 0
    then Rx([], -1, [], r.out + [body[..r.size - 1]])
    else r.(body := body)
  }

  lemma {:induction false} FeedBody(r: Rx, bs: Bytes)
    requires WF(r) && r.size > 0 && |r.body| < r.size && 0 < |bs| <= r.size - |r.body|
    ensures FeedAll(r, bs) == TakeBody(r, bs)
    decreases |bs|
  {
    var r' := Feed(r, bs[0]);
    if |bs| == 1 {
      assert bs == [bs[0]] && FeedAll(r', bs[1..]) == r';
      assert (r.body + bs)[..|r.body|] == r.body;
    } else {
      assert r' == r.(body := r.body + [bs[0]]);
      FeedBody(r', bs[1..]);
      assert r'.body + bs[1..] == r.body + bs;
    }
  }

  /** What a header does with a piece that does not go past its end. */
  function TakeHeader(r: Rx, bs: Bytes): Rx
    requires WF(r) && r.size == -1 && |r.header| + |bs| <= 2
  {
    var header := r.header + bs;
    if |header| == 2 then r.(header := [], size := U16(header[0], header[1]) - 2) else r.(header := header)
  }

  lemma FeedHeader(r: Rx, bs: Bytes)
    requires WF(r) && r.size == -1 && |r.header| + |bs| <= 2
    ensures FeedAll(r, bs) == TakeHeader(r, bs)
  {
    if |bs| == 1 {
      assert FeedAll(r, bs) == FeedAll(Feed(r, bs[0]), []);
    } else if |bs| == 2 {
      assert bs[1..] == [bs[1]] && bs[1..][1..] == [];
      assert FeedAll(r, bs) == FeedAll(Feed(r, bs[0]), bs[1..]) == FeedAll(Feed(Feed(r, bs[0]), bs[1]), []);
    }
  }

  /** One whole frame of a stream, from boundary to boundary. */
  lemma FeedFrame(r: Rx, bs: Bytes)
    requires WF(r) && r.size == -1 && r.header == [] && |bs| >= 2
    requires U16(bs[0], bs[1]) - 2 > 0 && |bs| >= U16(bs[0], bs[1])
    ensures
      var n := U16(bs[0], bs[1]);
      var after := if bs[n - 1] == 0 then r.(out := r.out + [bs[2..n - 1]]) else r.(size := n - 2, body := bs[2..n]);
      WF(after) && FeedAll(r, bs) == FeedAll(after, bs[n..])
  {
    hide FeedAll;
    var n := U16(bs[0], bs[1]);
    var r1 := r.(size := n - 2);
    var head, body, tail := bs[..2], bs[2..n], bs[n..];
    assert bs == head + (body + tail);
    FeedAllConcat(r, head, body + tail);
    FeedHeader(r, head);
    FeedAllConcat(r1, body, tail);
    FeedBody(r1, body);
    assert r1.body + body == body && body[..n - 3] == bs[2..n - 1];
  }

  /** A length below 3, or a body that is cut short: no frame comes out of this header. */
  lemma FeedNoFrame(r: Rx, bs: Bytes)
    requires WF(r) && r.size == -1 && r.header == [] && |bs| >= 2
    requires U16(bs[0], bs[1]) < 3 || |bs| < U16(bs[0], bs[1])
    ensures U16(bs[0], bs[1]) == 1 ==> FeedAll(r, bs) == FeedAll(r, bs[2..])
    ensures U16(bs[0], bs[1]) != 1 ==> FeedAll(r, bs).out == r.out
  {
    var r1, rest := r.(size := U16(bs[0], bs[1]) - 2), bs[2..];
    assert bs == bs[..2] + rest;
    FeedAllConcat(r, bs[..2], rest);
    FeedHeader(r, bs[..2]);
    if r1.size > 0 {
      if rest != [] { FeedBody(r1, rest); }
    } else if r1.size != -1 {
      FeedDead(r1, rest);
    }
  }

  /** The byte machine emits exactly what the reference parser reads, from any frame boundary. */
  lemma {:induction false} FeedDecodes(r: Rx, bs: Bytes)
    requires WF(r) && r.size == -1 && r.header == []
    ensures FeedAll(r, bs).out == r.out + Decode(bs)
    decreases |bs|
  {
    if |bs| == 0 {
    } else if |bs| == 1 {
      assert FeedAll(Feed(r, bs[0]), bs[1..]) == Feed(r, bs[0]);
    } else {
      var n := U16(bs[0], bs[1]);
      if n >= 3 && |bs| >= n {
        FeedFrame(r, bs);
        if bs[n - 1] == 0 {
          FeedDecodes(r.(out := r.out + [bs[2..n - 1]]), bs[n..]);
          AppendAssoc(r.out, [bs[2..n - 1]], Decode(bs[n..]));
        } else {
          FeedDead(r.(size := n - 2, body := bs[2..n]), bs[n..]);
        }
      } else {
        FeedNoFrame(r, bs);
        if n == 1 {
          FeedDecodes(r, bs[2..]);
        }
      }
    }
  }

  /** The frame on the wire: length with its own two bytes, high byte first; the payload; a NUL. */
  lemma FrameIs(p: Bytes)
    requires |p| <= 65532
    ensures
      var f := EncodeFrame(p);
      && |f| == |p| + 3 && 256 * (f[0] as int) + (f[1] as int) == |f|
      && f[2..|p| + 2] == p && f[|p| + 2] == 0
  {
  }

  /** Streams that begin with no frame: a length of 1 is passed over, the others end all reading. */
  lemma MalformedIs(bs: Bytes)
    requires |bs| >= 2
    ensures
      var n := 256 * (bs[0] as int) + (bs[1] as int);
      && (n == 1 ==> Decode(bs) == Decode(bs[2..]))
      && (n != 1 && (n < 3 || |bs| < n || bs[n - 1] != 0) ==> Decode(bs) == [])
      && (n >= 3 && |bs| >= n && bs[n - 1] == 0 ==> Decode(bs) == [bs[2..n - 1]] + Decode(bs[n..]))
  {
  }

  // ---------------------------------------------------------------- round trip

  lemma DecodeFrame(p: Bytes, rest: Bytes)
    requires Fits(p)
    ensures Decode(EncodeFrame(p) + rest) == [p] + Decode(rest)
  {
    var bs := EncodeFrame(p) + rest;
    var n := |p| + 3;
    assert U16(bs[0], bs[1]) == n;
    assert bs[2..n - 1] == p;
    assert bs[n - 1] == 0;
    assert bs[n..] == rest;
  }

  /** Printing then parsing gives back every payload in order, whatever follows on the wire. */
  lemma {:induction false} RoundTrip(ps: seq<Bytes>, rest: Bytes)
    requires AllFit(ps)
    ensures Decode(EncodeAll(ps) + rest) == ps + Decode(rest)
  {
    if ps == [] {
      assert EncodeAll(ps) + rest == rest;
    } else {
      var tail := EncodeAll(ps[1..]);
      calc {
        Decode(EncodeAll(ps) + rest);
        { AppendAssoc(EncodeFrame(ps[0]), tail, rest); }
        Decode(EncodeFrame(ps[0]) + (tail + rest));
        { DecodeFrame(ps[0], tail + rest); }
        [ps[0]] + Decode(tail + rest);
        { RoundTrip(ps[1..], rest); }
        [ps[0]] + (ps[1..] + Decode(rest));
        { AppendAssoc([ps[0]], ps[1..], Decode(rest)); }
        ps + Decode(rest);
      }
    }
  }

  lemma RoundTripAlone(ps: seq<Bytes>)
    requires AllFit(ps)
    ensures Decode(EncodeAll(ps)) == ps
  {
    RoundTrip(ps, []);
    assert EncodeAll(ps) + [] == EncodeAll(ps) && ps + Decode([]) == ps;
  }

  /** A queue of messages arrives complete exactly when each of them is small enough to be framed. */
  lemma ArrivesCompleteIffAllFit(ms: seq<Bytes>)
    ensures Decode(EncodeAll(Sendable(ms))) == ms <==> forall m <- ms :: |m| <= 65532
  {
    var ps := Sendable(ms);
    RoundTripAlone(ps);
    if ps != ms {
      assert ms[|ps|] in ms;
    }
  }

  // ---------------------------------------------------------------- the running receiver

  /** The pieces in which bytes become readable; an empty piece is a `recv` that times out. */
  function Flat(chunks: seq<Bytes>): Bytes {
    if chunks == [] then [] else chunks[0] + Flat(chunks[1..])
  }

  /** The byte machine fed piece after piece. */
  function FeedChunks(r: Rx, chunks: seq<Bytes>): (r': Rx)
    requires WF(r)
    ensures WF(r')
    decreases |chunks|
  {
    if chunks == [] then r else FeedChunks(FeedAll(r, chunks[0]), chunks[1..])
  }

  lemma {:induction false} CutsDoNotMatter(r: Rx, chunks: seq<Bytes>)
    requires WF(r)
    ensures FeedChunks(r, chunks) == FeedAll(r, Flat(chunks))
    decreases |chunks|
  {
    if chunks != [] {
      FeedAllConcat(r, chunks[0], Flat(chunks[1..]));
      CutsDoNotMatter(FeedAll(r, chunks[0]), chunks[1..]);
    }
  }

  /** Framed payloads come out whole and in order, and leave nothing behind, however the stream is cut. */
  lemma AnyCutsRoundTrip(ps: seq<Bytes>, chunks: seq<Bytes>)
    requires AllFit(ps) && Flat(chunks) == EncodeAll(ps)
    ensures FeedChunks(START, chunks) == START.(out := ps)
  {
    CutsDoNotMatter(START, chunks);
    FeedFrames(START, ps);
    assert [] + ps == ps;
  }

  /** Frames fed at a frame boundary end at one. */
  lemma {:induction false} FeedFrames(r: Rx, ps: seq<Bytes>)
    requires WF(r) && r.size == -1 && r.header == [] && AllFit(ps)
    ensures FeedAll(r, EncodeAll(ps)) == r.(out := r.out + ps)
    decreases |ps|
  {
    if ps == [] {
      assert r.out + ps == r.out;
    } else {
      var p, rest := ps[0], EncodeAll(ps[1..]);
      var bs := EncodeFrame(p) + rest;
      var n := |p| + 3;
      assert U16(bs[0], bs[1]) == n && bs[2..n - 1] == p && bs[n - 1] == 0 && bs[n..] == rest;
      FeedFrame(r, bs);
      FeedFrames(r.(out := r.out + [p]), ps[1..]);
      AppendAssoc(r.out, [p], ps[1..]);
    }
  }

  datatype RecvResult = Data(bytes: Bytes) | Timeout

  class CivCom {
    var headerBuf: Bytes
    var packetSize: int
    var netBuf: Bytes
    var sendBuffer: seq<Bytes>
    var stopped: bool
    var civserverMessages: seq<Bytes>
    // the socket: what will become readable, whether the peer then closes, what was written
    var chunks: seq<Bytes>
    var peerCloses: bool
    var wire: Bytes

    constructor (chunks: seq<Bytes>, peerCloses: bool)
      ensures View() == START && !stopped
      ensures this.chunks == chunks && this.peerCloses == peerCloses && wire == [] && civserverMessages == []
    {
      headerBuf, packetSize, netBuf, sendBuffer := [], -1, [], [];
      stopped, civserverMessages, wire := false, [], [];
      this.chunks, this.peerCloses := chunks, peerCloses;
    }

    function View(): Rx
      reads this
    {
      Rx(headerBuf, packetSize, netBuf, sendBuffer)
    }

    function Unread(): Bytes
      reads this
    {
      Flat(chunks)
    }

    function Fuel(): nat
      reads this
    {
      |Unread()| + |chunks|
    }

    /** `recv(n)`: at most `n` bytes of the next piece; nothing for `n == 0` or after the peer closed. */
    method Recv(n: nat) returns (r: RecvResult)
      modifies this`chunks
      ensures r.Data? ==> |r.bytes| <= n && r.bytes + Unread() == old(Unread())
      ensures r.Timeout? ==> Unread() == old(Unread())
      ensures |chunks| <= old(|chunks|)
      ensures n == 0 ==> r == Data([]) && chunks == old(chunks)
      ensures n > 0 && old(chunks) != [] ==> Fuel() < old(Fuel()) && (r.Data? ==> r.bytes != [])
      ensures n > 0 && old(chunks) == [] ==>
                chunks == old(chunks) && r == if peerCloses then Data([]) else Timeout
    {
      if n == 0 {
        return Data([]);
      }
      if chunks == [] {
        return if peerCloses then Data([]) else Timeout;
      }
      var first := chunks[0];
      if first == [] {
        chunks := chunks[1..];
        return Timeout;
      }
      if |first| <= n {
        chunks := chunks[1..];
        return Data(first);
      }
      var before := chunks;
      chunks := [first[n..]] + chunks[1..];
      assert first == first[..n] + first[n..];
      assert Flat(before) == first[..n] + (first[n..] + Flat(before[1..]));
      return Data(first[..n]);
    }

    /** A closed peer is noticed only between frames or inside a body, not after half a header. */
    predicate SeesEof()
      reads this
    {
      packetSize > 0 || (packetSize == -1 && headerBuf == [])
    }

    /** A body is complete but lacks its NUL, so the next `recv(0)` looks like a closed peer. */
    predicate Unterminated()
      reads this
    {
      packetSize > 0 && |netBuf| == packetSize
    }

    /** A length of 0 or 2 left a size that neither reading branch serves. */
    predicate Stuck()
      reads this
    {
      packetSize != -1 && packetSize <= 0
    }

    method CloseConnection()
      modifies this`stopped
      ensures stopped
    {
      stopped := true;
    }

    /** The header half of `read_from_connection`; `used` is what it took off the socket. */
    method ReadHeader() returns (ghost used: Bytes)
      requires WF(View()) && !stopped && packetSize == -1
      modifies this`headerBuf, this`packetSize, this`chunks, this`stopped
      ensures WF(View()) && View() == FeedAll(old(View()), used)
      ensures used + Unread() == old(Unread())
      ensures Fuel() <= old(Fuel()) && (old(chunks) != [] ==> Fuel() < old(Fuel()))
      ensures stopped ==> chunks == []
      ensures old(chunks) == [] ==>
                chunks == [] && View() == old(View()) && (stopped <==> peerCloses && SeesEof())
    {
      used := [];
      var r := Recv(2 - |headerBuf|);
      if r.Timeout? {
        return;
      }
      FeedHeader(View(), r.bytes);
      used := r.bytes;
      headerBuf := headerBuf + r.bytes;
      if |headerBuf| == 0 {
        CloseConnection();
      } else if |headerBuf| == 2 {
        packetSize := U16(headerBuf[0], headerBuf[1]) - 2;
        headerBuf := [];
      }
    }

    /** `read_from_connection`. `used` is what it took off the socket besides the data it returns. */
    method ReadFromConnection() returns (data: Option<Bytes>, ghost used: Bytes)
      requires WF(View()) && !stopped
      modifies this`headerBuf, this`packetSize, this`chunks, this`stopped
      ensures WF(View()) && View() == FeedAll(old(View()), used)
      ensures used + data.GetOr([]) + Unread() == old(Unread())
      ensures data.Some? ==>
                !stopped && packetSize > 0 && data.value != [] && |netBuf| + |data.value| <= packetSize
      ensures stopped ==> data == None
      ensures Fuel() <= old(Fuel()) && (old(Live(View()) && chunks != []) ==> Fuel() < old(Fuel()))
      ensures old(Unterminated()) ==> stopped
      ensures stopped ==> old(Unterminated()) || chunks == []
      ensures old(chunks == [] && !Unterminated()) ==>
                data == None && View() == old(View()) && (stopped <==> peerCloses && SeesEof())
    {
      used, data := [], None;
      if packetSize == -1 {
        used := ReadHeader();
        if stopped || packetSize == -1 {
          return;
        }
      }
      if packetSize > 0 {
        var r := Recv(packetSize - |netBuf|);
        if r.Timeout? {
          return;
        }
        if r.bytes == [] {
          CloseConnection();
          return;
        }
        data := Some(r.bytes);
      }
    }

    /** The received piece joins the body; a body that is full and ends in NUL is handed on. */
    method AppendToBody(data: Bytes)
      requires WF(View()) && packetSize > 0 && data != [] && |netBuf| + |data| <= packetSize
      modifies this`packetSize, this`netBuf, this`sendBuffer
      ensures WF(View()) && View() == FeedAll(old(View()), data)
    {
      FeedBody(View(), data);
      netBuf := netBuf + data;
      if |netBuf| == packetSize && netBuf[|netBuf| - 1] == 0 {
        sendBuffer := sendBuffer + [netBuf[..|netBuf| - 1]];
        packetSize := -1;
        netBuf := [];
      }
    }

    /** One turn of the loop in `run`; `used` is all it took off the socket. */
    method Turn() returns (ghost used: Bytes)
      requires WF(View()) && !stopped
      modifies this`headerBuf, this`packetSize, this`netBuf, this`sendBuffer, this`chunks, this`stopped
      ensures WF(View()) && View() == FeedAll(old(View()), used)
      ensures used + Unread() == old(Unread())
      ensures Fuel() <= old(Fuel()) && (old(Live(View()) && chunks != []) ==> Fuel() < old(Fuel()))
      ensures old(Unterminated()) ==> stopped
      ensures stopped ==> old(Unterminated()) || chunks == []
      ensures old(chunks == [] && !Unterminated()) ==>
                View() == old(View()) && (stopped <==> peerCloses && SeesEof())
    {
      ghost var r0 := View();
      var data;
      data, used := ReadFromConnection();
      if !stopped && data.Some? {
        FeedAllConcat(r0, used, data.value);
        AppendToBody(data.value);
        used := used + data.value;
      }
    }

    /**
    `run` until nothing more is readable, the connection is closed, or the receiver is stuck:
    whatever the pieces were, the packets handed on are those of the byte stream as a whole.
    */
    method Run()
      requires View() == START && !stopped
      modifies this`headerBuf, this`packetSize, this`netBuf, this`sendBuffer, this`chunks, this`stopped
      ensures sendBuffer == Decode(old(Unread()))
      ensures forall ps | AllFit(ps) && EncodeAll(ps) == old(Unread()) :: sendBuffer == ps
      ensures View() == FeedAll(START, old(Unread()))
      ensures stopped || Stuck() || chunks == []
    {
      ghost var all := Unread();
      ghost var eaten: Bytes := [];
      assert eaten + Unread() == all;
      while !stopped && !Stuck() && chunks != []
        invariant WF(View())
        invariant eaten + Unread() == all && View() == FeedAll(START, eaten)
        invariant stopped ==> !Live(View()) || chunks == []
        decreases !stopped, Fuel()
      {
        ghost var r0 := View();
        ghost var used := Turn();
        FeedAllConcat(START, eaten, used);
        AppendAssoc(eaten, used, Unread());
        eaten := eaten + used;
        if !Live(r0) { FeedDead(r0, used); }
      }
      FeedRest(eaten, Unread());
      FeedDecodes(START, all);
      forall ps | AllFit(ps) && EncodeAll(ps) == all ensures Decode(all) == ps {
        RoundTripAlone(ps);
      }
    }

    /**
    `send_packets_to_civserver`: one unframeable message drops itself and all behind it. Without a
    socket, which closing takes away, nothing happens.
    */
    method SendPacketsToCivserver() returns (failed: bool)
      modifies this`civserverMessages, this`wire
      ensures stopped ==> wire == old(wire) && civserverMessages == old(civserverMessages) && !failed
      ensures !stopped ==>
                && wire == old(wire) + EncodeAll(Sendable(old(civserverMessages)))
                && (failed <==> Sendable(old(civserverMessages)) != old(civserverMessages))
                && civserverMessages == []
    {
      failed := false;
      if stopped {
        return;
      }
      var i := 0;
      while i < |civserverMessages| && !failed
        invariant i <= |civserverMessages| && civserverMessages == old(civserverMessages)
        invariant AllFit(civserverMessages[..i])
        invariant wire == old(wire) + EncodeAll(civserverMessages[..i])
        invariant failed ==> i < |civserverMessages| && !Fits(civserverMessages[i])
        decreases |civserverMessages| - i, !failed
      {
        if Fits(civserverMessages[i]) {
          EncodeSnoc(civserverMessages[..i], civserverMessages[i]);
          assert civserverMessages[..i + 1] == civserverMessages[..i] + [civserverMessages[i]];
          wire := wire + EncodeFrame(civserverMessages[i]);
          i := i + 1;
        } else {
          failed := true;
        }
      }
      SendableIs(civserverMessages, i);
      civserverMessages := [];
    }
  }

  /** A receiver that cannot take a byte has already done all the rest of its stream does. */
  lemma FeedRest(eaten: Bytes, rest: Bytes)
    requires !Live(FeedAll(START, eaten)) || rest == []
    ensures FeedAll(START, eaten) == FeedAll(START, eaten + rest)
  {
    FeedAllConcat(START, eaten, rest);
    if rest != [] {
      FeedDead(FeedAll(START, eaten), rest);
    }
  }

  lemma {:induction false} EncodeSnoc(ps: seq<Bytes>, p: Bytes)
    requires AllFit(ps) && Fits(p)
    ensures AllFit(ps + [p]) && EncodeAll(ps + [p]) == EncodeAll(ps) + EncodeFrame(p)
  {
    if ps != [] {
      EncodeSnoc(ps[1..], p);
      assert (ps + [p])[1..] == ps[1..] + [p];
    }
  }

  lemma {:induction false} SendableIs(ms: seq<Bytes>, n: nat)
    requires n <= |ms| && AllFit(ms[..n]) && (n < |ms| ==> !Fits(ms[n]))
    ensures Sendable(ms) == ms[..n]
  {
    if n > 0 {
      assert ms[..n][0] in ms[..n] && ms[..n][1..] == ms[1..][..n - 1];
      SendableIs(ms[1..], n - 1);
    }
  }
}
