/** The small TCP receiver of components/tailscale/tailscale.cpp: a table of connections, and in-order delivery. */
module Tcp {
  import opened Bytes
  import opened Checksum

  const MAX_CONNECTIONS: nat := 4

  datatype State = SynReceived | Established | Closed

  datatype Conn = Conn(srcIp: nat, srcPort: nat, dstPort: nat, seqNo: nat, ackNo: nat, state: State, rx: bytes)

  function Next(n: nat, k: nat): nat { (n + k) % TWO32 }

  // Flags.

  predicate Fin(f: byte) { f % 2 == 1 }
  predicate Syn(f: byte) { f / 2 % 2 == 1 }
  predicate Ack(f: byte) { f / 16 % 2 == 1 }

  /** A packet that is sent, and to which address. */
  datatype Reply = Reply(ip: nat, segment: Segment)

  /** A packet without payload to the other side of a connection. */
  function Bare(c: Conn, flags: byte): Reply { Reply(c.srcIp, Segment(c.dstPort, c.srcPort, c.seqNo, c.ackNo, flags, [])) }

  // One connection.

  /** What handling a segment leaves: the connection, the bytes the socket has taken, the packets sent, and whether
      handling stopped early. */
  datatype Outcome = Outcome(conn: Conn, taken: bytes, sent: seq<Reply>, early: bool)

  /** on_data: the socket says how much of the buffer it has consumed; a count beyond the buffer is ignored. */
  function Consume(c: Conn, consumed: nat): (Conn, bytes) {
    if 0 < consumed <= |c.rx| then (c.(rx := c.rx[consumed..]), c.rx[..consumed]) else (c, [])
  }

  function OnSyn(c: Conn, seqNo: nat): Outcome {
    var c' := c.(ackNo := Next(seqNo, 1), state := SynReceived);
    Outcome(c'.(seqNo := Next(c'.seqNo, 1)), [], [Bare(c', 0x12)], true)
  }

  function OnData(c: Conn, g: Segment, consumed: nat): Outcome {
    if g.payload == [] || c.state != Established then Outcome(c, [], [], false)
    else if g.seqNo == c.ackNo then
      var (c', taken) := Consume(c.(rx := c.rx + g.payload, ackNo := Next(g.seqNo, |g.payload|)), consumed);
      Outcome(c', taken, [], false)
    else if g.seqNo < c.ackNo then Outcome(c, [], [Bare(c, 0x10)], true)
    else Outcome(c, [], [], true)
  }

  function OnFin(c: Conn, g: Segment, consumed: nat): Outcome {
    var (c1, taken) := if c.rx != [] then Consume(c, consumed) else (c, []);
    var c2 := c1.(rx := [], ackNo := if g.seqNo >= c1.ackNo then Next(g.seqNo, 1) else c1.ackNo);
    Outcome(c2.(state := Closed), taken, [Bare(c2, 0x11)], false)
  }

  /** An acknowledgement completes the handshake. */
  function Acknowledged(c: Conn, g: Segment): Conn {
    if Ack(g.flags) && c.state == SynReceived then c.(state := Established) else c
  }

  /** A segment for a connection that is open. */
  function OnSegment(c: Conn, g: Segment, consumed: nat, atClose: nat): Outcome {
    if Syn(g.flags) && !Ack(g.flags) then OnSyn(c, g.seqNo)
    else
      var c0 := Acknowledged(c, g);
      var d := OnData(c0, g, consumed);
      if d.early || !Fin(g.flags) then d
      else
        var f := OnFin(d.conn, g, atClose);
        Outcome(f.conn, d.taken + f.taken, d.sent + f.sent, false)
  }

  // In-order delivery.

  /** The peer's stream, its initial sequence number, and everything received of it so far. */
  datatype Flow = Flow(conn: Conn, taken: bytes)

  function Received(f: Flow): bytes { f.taken + f.conn.rx }

  /** What has been received is a prefix of what the peer sent, after the close as before it; while open, the next byte is
      the one acknowledged. */
  predicate InOrder(f: Flow, stream: bytes, isn: nat) {
    Received(f) <= stream && (f.conn.state == Closed || f.conn.ackNo == Next(isn, 1 + |Received(f)|))
  }

  predicate Opening(g: Segment) { Syn(g.flags) && !Ack(g.flags) }

  /** Any piece of the peer's stream, numbered by its place, wherever it lies within four gigabytes of what is expected;
      or the opening again, before any data. */
  predicate FromPeer(f: Flow, stream: bytes, isn: nat, g: Segment, off: nat) {
    if Opening(g) then g.seqNo == isn && Received(f) == []
    else
      && off + |g.payload| <= |stream| && g.payload == stream[off..off + |g.payload|] && g.seqNo == Next(isn, 1 + off)
      && off < |Received(f)| + TWO32 && |Received(f)| < off + TWO32
  }

  /** The connection is, or is just being, established. */
  predicate Ready(f: Flow, g: Segment) { f.conn.state == Established || (Ack(g.flags) && f.conn.state == SynReceived) }

  /** Data is taken exactly when it is the next. */
  predicate Takes(f: Flow, g: Segment, off: nat) { !Opening(g) && g.payload != [] && off == |Received(f)| && Ready(f, g) }

  function Got(f: Flow, g: Segment, off: nat): bytes { if Takes(f, g, off) then Received(f) + g.payload else Received(f) }

  /** A close: a FIN, unless it comes with data that is not the next. */
  predicate Closes(f: Flow, g: Segment, off: nat) {
    Fin(g.flags) && !Opening(g) && (g.payload != [] && Ready(f, g) ==> off == |Received(f)|)
  }

  /** What is in the buffer once the socket has been told of new data, and what a last call at the close leaves there. */
  function Unread(f: Flow, g: Segment, off: nat, consumed: nat): nat {
    if Takes(f, g, off) then Left(|f.conn.rx| + |g.payload|, consumed) else |f.conn.rx|
  }

  function Left(n: nat, consumed: nat): (r: nat) ensures r <= n { if consumed <= n then n - consumed else n }

  function Advance(f: Flow, g: Segment, consumed: nat, atClose: nat): Flow {
    var o := OnSegment(f.conn, g, consumed, atClose);
    Flow(o.conn, f.taken + o.taken)
  }

  lemma SameNumberSamePlace(isn: nat, a: nat, b: nat)
    requires Next(isn, 1 + a) == Next(isn, 1 + b) && a < b + TWO32 && b < a + TWO32
    ensures a == b
  {
    var x, y := isn + (1 + a), isn + (1 + b);
    var qx, qy := x / TWO32, y / TWO32;
    assert x == qx * TWO32 + x % TWO32 && y == qy * TWO32 + y % TWO32;
    assert a - b == (qx - qy) * TWO32;
  }

  lemma SameNumberIff(isn: nat, a: nat, b: nat)
    requires a < b + TWO32 && b < a + TWO32
    ensures Next(isn, 1 + a) == Next(isn, 1 + b) <==> a == b
  {
    if Next(isn, 1 + a) == Next(isn, 1 + b) {
      SameNumberSamePlace(isn, a, b);
    }
  }

  /** One segment: duplicated, reordered or new, it keeps the order.  What is received afterwards is what was there and
      the data, if it is the next; a close takes off what the socket leaves in the buffer. */
  lemma SegmentKeepsOrder(f: Flow, stream: bytes, isn: nat, g: Segment, off: nat, consumed: nat, atClose: nat)
    requires InOrder(f, stream, isn) && f.conn.state != Closed && FromPeer(f, stream, isn, g, off)
    ensures var f' := Advance(f, g, consumed, atClose);
            var got := Got(f, g, off);
            && InOrder(f', stream, isn)
            && (f'.conn.state == Closed <==> Closes(f, g, off))
            && Received(f') == if Closes(f, g, off) then got[..|got| - Left(Unread(f, g, off, consumed), atClose)] else got
  {
    if Opening(g) {
      assert f.taken + [] == f.taken;
    } else {
      hide OnData, OnFin, Next, Opening, Takes, Unread, Left, FromPeer, Ready, InOrder;
      var c := Acknowledged(f.conn, g);
      var d := OnData(c, g, consumed);
      DataPart(f, stream, isn, g, off, consumed);
      if Closes(f, g, off) {
        FinKeepsOrder(f, stream, isn, d.taken, d.conn, g, atClose);
      }
    }
  }

  /** The part of a segment before its FIN. */
  lemma DataPart(f: Flow, stream: bytes, isn: nat, g: Segment, off: nat, consumed: nat)
    requires InOrder(f, stream, isn) && f.conn.state != Closed && FromPeer(f, stream, isn, g, off) && !Opening(g)
    ensures var d := OnData(Acknowledged(f.conn, g), g, consumed);
            var f' := Flow(d.conn, f.taken + d.taken);
            && InOrder(f', stream, isn) && Received(f') == Got(f, g, off) && d.conn.state != Closed
            && |d.conn.rx| == Unread(f, g, off, consumed) && (d.early || !Fin(g.flags) <==> !Closes(f, g, off))
  {
    hide OnData;
    var c := Acknowledged(f.conn, g);
    if g.seqNo == c.ackNo {
      SameNumberSamePlace(isn, off, |Received(f)|);
    }
    DataKeepsOrder(Flow(c, f.taken), stream, isn, g, off, consumed);
  }

  /** The last hand-over gives the socket the front of the buffer. */
  lemma FinTakes(c: Conn, g: Segment, atClose: nat)
    ensures var o := OnFin(c, g, atClose);
            o.taken == c.rx[..|c.rx| - Left(|c.rx|, atClose)] && o.conn.rx == [] && o.conn.state == Closed
  {
  }

  lemma FinKeepsOrder(f: Flow, stream: bytes, isn: nat, taken: bytes, c: Conn, g: Segment, atClose: nat)
    requires InOrder(Flow(c, f.taken + taken), stream, isn)
    ensures var o := OnFin(c, g, atClose);
            var f' := Flow(o.conn, f.taken + (taken + o.taken));
            var all := f.taken + taken + c.rx;
            && Received(f') == all[..|all| - Left(|c.rx|, atClose)] && o.conn.state == Closed && InOrder(f', stream, isn)
  {
    hide OnFin;
    FinTakes(c, g, atClose);
  }

  lemma DataKeepsOrder(f: Flow, stream: bytes, isn: nat, g: Segment, off: nat, consumed: nat)
    requires InOrder(f, stream, isn) && f.conn.state != Closed && g.seqNo == Next(isn, 1 + off)
    requires off + |g.payload| <= |stream| && g.payload == stream[off..off + |g.payload|]
    requires g.seqNo == f.conn.ackNo ==> off == |Received(f)|
    ensures var o := OnData(f.conn, g, consumed);
            var f' := Flow(o.conn, f.taken + o.taken);
            var takes := f.conn.state == Established && g.payload != [] && off == |Received(f)|;
            && InOrder(f', stream, isn) && o.conn.state == f.conn.state
            && (o.early <==> f.conn.state == Established && g.payload != [] && off != |Received(f)|)
            && Received(f') == (if takes then Received(f) + g.payload else Received(f))
            && |o.conn.rx| == if takes then Left(|f.conn.rx| + |g.payload|, consumed) else |f.conn.rx|
  {
    if f.conn.state == Established && g.payload != [] && g.seqNo == f.conn.ackNo {
      var rx := f.conn.rx + g.payload;
      assert f.taken + rx == Received(f) + g.payload == stream[..off + |g.payload|];
      if 0 < consumed <= |rx| {
        assert f.taken + rx[..consumed] + rx[consumed..] == f.taken + rx;
      } else {
        assert f.taken + [] + rx == f.taken + rx;
      }
      NextTwice(isn, 1 + off, |g.payload|);
    } else {
      assert f.taken + [] == f.taken;
    }
  }

  lemma NextTwice(n: nat, a: nat, b: nat)
    ensures Next(Next(n, a), b) == Next(n, a + b)
  {
    var x := n + a;
    var q := x / TWO32;
    assert x == q * TWO32 + x % TWO32;
    ModShift(x % TWO32 + b, q);
  }

  lemma {:induction false} ModShift(x: nat, q: nat)
    ensures (x + q * TWO32) % TWO32 == x % TWO32
  {
    if q > 0 {
      ModShift(x, q - 1);
      assert x + q * TWO32 == (x + (q - 1) * TWO32) + TWO32;
    }
  }

  /** A connection starts in order, with the number that opened it. */
  lemma OpeningInOrder(c: Conn, stream: bytes, isn: nat)
    requires c.rx == []
    ensures InOrder(Flow(OnSyn(c, isn).conn, []), stream, isn)
  {
    assert [] + c.rx == [];
  }

  datatype Arrival = Arrival(g: Segment, off: nat, consumed: nat, atClose: nat)

  /** A run of segments, up to the close. */
  function Run(f: Flow, arrivals: seq<Arrival>): Flow
    decreases |arrivals|
  {
    if arrivals == [] || f.conn.state == Closed then f
    else Run(Advance(f, arrivals[0].g, arrivals[0].consumed, arrivals[0].atClose), arrivals[1..])
  }

  predicate AllFromPeer(f: Flow, stream: bytes, isn: nat, arrivals: seq<Arrival>)
    decreases |arrivals|
  {
    arrivals == [] || f.conn.state == Closed ||
    (var a := arrivals[0];
     FromPeer(f, stream, isn, a.g, a.off) && AllFromPeer(Advance(f, a.g, a.consumed, a.atClose), stream, isn, arrivals[1..]))
  }

  /** Whatever is duplicated, reordered or lost on the way, and however the run ends, a prefix of the stream has been
      received, and no byte of it twice or out of place. */
  lemma {:induction false} RunInOrder(f: Flow, stream: bytes, isn: nat, arrivals: seq<Arrival>)
    requires InOrder(f, stream, isn) && AllFromPeer(f, stream, isn, arrivals)
    ensures InOrder(Run(f, arrivals), stream, isn)
    decreases |arrivals|
  {
    if arrivals != [] && f.conn.state != Closed {
      var a := arrivals[0];
      SegmentKeepsOrder(f, stream, isn, a.g, a.off, a.consumed, a.atClose);
      RunInOrder(Advance(f, a.g, a.consumed, a.atClose), stream, isn, arrivals[1..]);
    }
  }

  /** A repeated opening keeps the order exactly when its number is the one before the byte that is expected. */
  lemma RepeatedSynIff(f: Flow, stream: bytes, isn: nat, g: Segment, consumed: nat, atClose: nat)
    requires InOrder(f, stream, isn) && f.conn.state != Closed && Syn(g.flags) && !Ack(g.flags)
    ensures InOrder(Advance(f, g, consumed, atClose), stream, isn) <==> Next(g.seqNo, 1) == f.conn.ackNo
    ensures Advance(f, g, consumed, atClose).conn.seqNo == Next(f.conn.seqNo, 1)
  {
    assert f.taken + [] == f.taken;
  }

  // The close.

  /** When the FIN behind the last byte closes the connection, the whole stream has reached the socket if and only if the
      FIN's place is just behind what has been received, its own data included, and the socket then takes all that is
      left in the buffer. */
  lemma CloseLosesNothingIff(f: Flow, stream: bytes, isn: nat, g: Segment, off: nat, consumed: nat, atClose: nat)
    requires InOrder(f, stream, isn) && f.conn.state != Closed && FromPeer(f, stream, isn, g, off)
    requires Closes(f, g, off) && off + |g.payload| == |stream|
    ensures Advance(f, g, consumed, atClose).taken == stream
            <==> off + |g.payload| == |Got(f, g, off)| && Left(Unread(f, g, off, consumed), atClose) == 0
  {
    SegmentKeepsOrder(f, stream, isn, g, off, consumed, atClose);
    var f' := Advance(f, g, consumed, atClose);
    CloseEmpties(f, g, consumed, atClose);
    assert Received(f') == f'.taken;
  }

  lemma CloseEmpties(f: Flow, g: Segment, consumed: nat, atClose: nat)
    requires f.conn.state != Closed && Advance(f, g, consumed, atClose).conn.state == Closed
    ensures Advance(f, g, consumed, atClose).conn.rx == []
  {
  }

  /** A FIN in its place is acknowledged if and only if it comes without data: behind data of its own its number is
      below the one expected by then. */
  lemma FinAcknowledgedIff(f: Flow, stream: bytes, isn: nat, g: Segment, off: nat, consumed: nat, atClose: nat)
    requires InOrder(f, stream, isn) && f.conn.state != Closed && FromPeer(f, stream, isn, g, off)
    requires Closes(f, g, off) && off == |Received(f)| && (g.payload == [] || Ready(f, g)) && |g.payload| < TWO32
    ensures Advance(f, g, consumed, atClose).conn.ackNo == Next(isn, 2 + off + |g.payload|) <==> g.payload == []
  {
    NextTwice(isn, 1 + off, 1);
    NextTwice(isn, 1 + off, |g.payload|);
    SameNumberIff(isn, 1 + off, 1 + off + |g.payload|);
    SameNumberIff(isn, off + |g.payload|, 1 + off + |g.payload|);
  }

  // A FIN without data.  It closes the connection wherever it comes, and is compared with the number expected only as
  // one integer with another.

  /** A bare FIN at this place, anywhere the peer may have it. */
  predicate BareFin(f: Flow, stream: bytes, isn: nat, g: Segment, off: nat) {
    && InOrder(f, stream, isn) && f.conn.state != Closed && FromPeer(f, stream, isn, g, off)
    && Fin(g.flags) && !Opening(g) && g.payload == []
  }

  /** The place up to which it makes the connection acknowledge. */
  lemma BareFinNumber(f: Flow, stream: bytes, isn: nat, g: Segment, off: nat, consumed: nat, atClose: nat)
    requires BareFin(f, stream, isn, g, off)
    ensures var n := if g.seqNo >= f.conn.ackNo then off + 1 else |Received(f)|;
            Advance(f, g, consumed, atClose).conn.ackNo == Next(isn, 1 + n)
  {
    NextTwice(isn, 1 + off, 1);
  }

  /** The acknowledgement is for what has been received, with or without a FIN behind it. */
  predicate AcksReceived(n: nat, isn: nat, received: nat) { n == Next(isn, 1 + received) || n == Next(isn, 2 + received) }

  /** It is, after a bare FIN, if and only if the FIN's number is below the one expected, or is that or the one before. */
  lemma BareFinAcknowledgesIff(f: Flow, stream: bytes, isn: nat, g: Segment, off: nat, consumed: nat, atClose: nat)
    requires BareFin(f, stream, isn, g, off)
    ensures AcksReceived(Advance(f, g, consumed, atClose).conn.ackNo, isn, |Received(f)|)
            <==> g.seqNo < f.conn.ackNo || g.seqNo == f.conn.ackNo || Next(g.seqNo, 1) == f.conn.ackNo
    ensures g.seqNo == f.conn.ackNo <==> off == |Received(f)|
    ensures Next(g.seqNo, 1) == f.conn.ackNo <==> off + 1 in {|Received(f)|, |Received(f)| + TWO32}
  {
    hide Advance, BareFin, Received;
    var r := |Received(f)|;
    BareFinPlace(f, stream, isn, g, off);
    BareFinNumber(f, stream, isn, g, off, consumed, atClose);
    NextTwice(isn, 1 + off, 1);
    SameNumberIff(isn, off, r);
    if off + 1 < r + TWO32 {
      SameNumberIff(isn, off + 1, r);
    } else {
      OnceAround(isn, r);
    }
    SameNumberIff(isn, off + 1, r + 1);
  }

  lemma OnceAround(isn: nat, r: nat)
    ensures Next(isn, 1 + (r + TWO32)) == Next(isn, 1 + r)
  {
  }

  lemma BareFinPlace(f: Flow, stream: bytes, isn: nat, g: Segment, off: nat)
    requires BareFin(f, stream, isn, g, off)
    ensures g.seqNo == Next(isn, 1 + off) && f.conn.ackNo == Next(isn, 1 + |Received(f)|)
    ensures off <= |stream| && off < |Received(f)| + TWO32 && |Received(f)| < off + TWO32
  {
  }

  /** As long as no number of the stream wraps: it acknowledges too much if and only if it is ahead of a byte that has
      not been received. */
  lemma UnwrappedFinIff(f: Flow, stream: bytes, isn: nat, g: Segment, off: nat, consumed: nat, atClose: nat)
    requires BareFin(f, stream, isn, g, off) && isn + 2 + |stream| < TWO32
    ensures Advance(f, g, consumed, atClose).conn.ackNo <= isn + 2 + |Received(f)| <==> off <= |Received(f)|
  {
    hide Advance, BareFin, Received;
    BareFinPlace(f, stream, isn, g, off);
    BareFinNumber(f, stream, isn, g, off, consumed, atClose);
  }

  /** The FIN behind the last byte, ahead of some that have not been received, closes the connection all the same.  It
      acknowledges every one of them if and only if its number is not below the one expected, as it never is unless the
      numbers wrap in between; or, a full round ahead, if both come to the same. */
  lemma EarlyFinAcknowledgesAll(f: Flow, stream: bytes, isn: nat, g: Segment, consumed: nat, atClose: nat)
    requires BareFin(f, stream, isn, g, |stream|) && |Received(f)| < |stream|
    ensures var f' := Advance(f, g, consumed, atClose);
            && f'.conn.state == Closed && f'.taken < stream
            && (f'.conn.ackNo == Next(isn, 2 + |stream|) <==> g.seqNo >= f.conn.ackNo || Next(g.seqNo, 1) == f.conn.ackNo)
            && (f'.conn.ackNo == f.conn.ackNo <==> g.seqNo < f.conn.ackNo || Next(g.seqNo, 1) == f.conn.ackNo)
    ensures isn + 1 + |stream| < TWO32 ==> g.seqNo >= f.conn.ackNo
  {
    hide Advance, BareFin, Received, Next;
    BareFinPlace(f, stream, isn, g, |stream|);
    FinTakesSome(f, stream, isn, g, consumed, atClose);
    BareFinNumber(f, stream, isn, g, |stream|, consumed, atClose);
    NextTwice(isn, 1 + |stream|, 1);
    Unwrapped(isn, |Received(f)|, |stream|);
  }

  lemma Unwrapped(isn: nat, a: nat, b: nat)
    requires a <= b
    ensures isn + 1 + b < TWO32 ==> Next(isn, 1 + a) <= Next(isn, 1 + b)
  {
  }

  lemma FinTakesSome(f: Flow, stream: bytes, isn: nat, g: Segment, consumed: nat, atClose: nat)
    requires BareFin(f, stream, isn, g, |stream|) && |Received(f)| < |stream|
    ensures var f' := Advance(f, g, consumed, atClose); f'.conn.state == Closed && f'.taken < stream
  {
    SegmentKeepsOrder(f, stream, isn, g, |stream|, consumed, atClose);
    CloseEmpties(f, g, consumed, atClose);
    hide Advance;
    var f' := Advance(f, g, consumed, atClose);
    assert Received(f') == f'.taken && |Received(f')| <= |Received(f)|;
  }

  /** For one: none of a thousand bytes received, and all of them acknowledged. */
  lemma ThousandLost()
    ensures var stream := seq(1000, _ => 7);
            var f := Flow(Conn(1, 2, 3, 10000, 1, Established, []), []);
            var g := Segment(2, 3, 1001, 10000, 0x11, []);
            var f' := Advance(f, g, 0, 0);
            && InOrder(f, stream, 0) && FromPeer(f, stream, 0, g, 1000)
            && f'.conn.state == Closed && f'.conn.ackNo == 1002 && f'.taken == []
  {
  }

  /** And for another: the same with the numbers wrapped after the first, and nothing is acknowledged. */
  lemma ThousandKept()
    ensures var stream := seq(1000, _ => 7);
            var isn := TWO32 - 2;
            var f := Flow(Conn(1, 2, 3, 10000, TWO32 - 1, Established, []), []);
            var g := Segment(2, 3, 999, 10000, 0x11, []);
            var f' := Advance(f, g, 0, 0);
            BareFin(f, stream, isn, g, 1000) && f'.conn.state == Closed && f'.conn.ackNo == TWO32 - 1
  {
  }

  // The table.

  predicate Open(c: Conn) { c.state != Closed }
  predicate Same(c: Conn, ip: nat, port: nat) { c.srcIp == ip && c.srcPort == port && Open(c) }

  /** The place of the first open connection with this peer, or the length. */
  function Place(conns: seq<Conn>, ip: nat, port: nat): (i: nat)
    ensures i <= |conns| && (i < |conns| ==> Same(conns[i], ip, port)) && forall j :: 0 <= j < i ==> !Same(conns[j], ip, port)
  {
    if conns == [] || Same(conns[0], ip, port) then 0
    else
      var i := 1 + Place(conns[1..], ip, port);
      assert forall j :: 1 <= j < i ==> conns[j] == conns[1..][j - 1];
      i
  }

  function OpenOnes(conns: seq<Conn>): seq<Conn> {
    if conns == [] then [] else (if Open(conns[0]) then [conns[0]] else []) + OpenOnes(conns[1..])
  }

  datatype Table = Table(conns: seq<Conn>, sent: seq<Reply>)

  datatype Inputs = Inputs(random: nat, consumed: nat, atClose: nat)

  /** One packet off the tunnel.  Closed connections are swept out, unless handling stopped early. */
  function Handle(bound: set<nat>, t: Table, p: Parsed, e: Inputs): Table {
    var g := p.segment;
    var i := Place(t.conns, p.srcIp, g.srcPort);
    if g.dstPort !in bound then t
    else if i < |t.conns| then
      var o := OnSegment(t.conns[i], g, e.consumed, e.atClose);
      var conns := t.conns[i := o.conn];
      Table(if o.early then conns else OpenOnes(conns), t.sent + o.sent)
    else if Syn(g.flags) && !Ack(g.flags) then
      if |t.conns| >= MAX_CONNECTIONS then t
      else
        var o := OnSyn(Conn(p.srcIp, g.srcPort, g.dstPort, e.random % 90000 + 10000, 0, Closed, []), g.seqNo);
        Table(t.conns + [o.conn], t.sent + o.sent)
    else t
  }

  /** At most four connections, and no two open ones with one peer. */
  predicate TableOk(conns: seq<Conn>) {
    && |conns| <= MAX_CONNECTIONS
    && forall i, j :: 0 <= i < j < |conns| && Open(conns[i]) ==> !Same(conns[j], conns[i].srcIp, conns[i].srcPort)
  }

  lemma SegmentKeepsPeer(c: Conn, g: Segment, consumed: nat, atClose: nat)
    ensures var c' := OnSegment(c, g, consumed, atClose).conn; c'.srcIp == c.srcIp && c'.srcPort == c.srcPort
  {
  }

  lemma {:induction false} SweepKeeps(conns: seq<Conn>)
    requires TableOk(conns)
    ensures TableOk(OpenOnes(conns)) && forall k :: 0 <= k < |OpenOnes(conns)| ==> OpenOnes(conns)[k] in conns && Open(OpenOnes(conns)[k])
    ensures |OpenOnes(conns)| <= |conns|
    decreases |conns|
  {
    if conns != [] {
      assert TableOk(conns[1..]);
      SweepKeeps(conns[1..]);
      var rest := OpenOnes(conns[1..]);
      if Open(conns[0]) {
        forall k | 0 <= k < |rest| ensures !Same(rest[k], conns[0].srcIp, conns[0].srcPort) {
          var j :| 0 <= j < |conns[1..]| && conns[1..][j] == rest[k];
          assert conns[j + 1] == rest[k];
        }
      }
    }
  }

  lemma HandleKeeps(bound: set<nat>, t: Table, p: Parsed, e: Inputs)
    requires TableOk(t.conns)
    ensures TableOk(Handle(bound, t, p, e).conns)
  {
    var g := p.segment;
    var i := Place(t.conns, p.srcIp, g.srcPort);
    if i < |t.conns| {
      var o := OnSegment(t.conns[i], g, e.consumed, e.atClose);
      SegmentKeepsPeer(t.conns[i], g, e.consumed, e.atClose);
      assert TableOk(t.conns[i := o.conn]);
      SweepKeeps(t.conns[i := o.conn]);
    }
  }

  datatype Event = Event(p: Parsed, e: Inputs)

  function HandleAll(bound: set<nat>, t: Table, events: seq<Event>): Table
    decreases |events|
  {
    if events == [] then t else HandleAll(bound, Handle(bound, t, events[0].p, events[0].e), events[1..])
  }

  lemma {:induction false} TableAlwaysOk(bound: set<nat>, events: seq<Event>, t: Table)
    requires TableOk(t.conns)
    ensures TableOk(HandleAll(bound, t, events).conns)
    decreases |events|
  {
    if events != [] {
      HandleKeeps(bound, t, events[0].p, events[0].e);
      TableAlwaysOk(bound, events[1..], Handle(bound, t, events[0].p, events[0].e));
    }
  }

  // The object.

  class TcpService {
    const bound: set<nat>         // ports with a socket
    var conns: seq<Conn>
    var sent: seq<Reply>

    ghost function Value(): Table reads this { Table(conns, sent) }

    constructor (bound: set<nat>)
      ensures this.bound == bound && conns == [] && sent == [] && TableOk(conns)
    {
      this.bound, conns, sent := bound, [], [];
    }

    method FindConnection(ip: nat, port: nat) returns (i: nat)
      ensures i == Place(conns, ip, port)
    {
      i := 0;
      while i < |conns| && !(conns[i].srcIp == ip && conns[i].srcPort == port && conns[i].state != Closed)
        invariant i <= |conns| && i + Place(conns[i..], ip, port) == Place(conns, ip, port)
      {
        assert conns[i..][1..] == conns[i + 1..];
        i := i + 1;
      }
    }

    method SendPacket(c: Conn, flags: byte)
      modifies this`sent
      ensures sent == old(sent) + [Bare(c, flags)]
    {
      sent := sent + [Bare(c, flags)];
    }

    method HandleSyn(i: nat, seqNo: nat)
      requires i < |conns|
      modifies this
      ensures conns == old(conns)[i := OnSyn(old(conns[i]), seqNo).conn] && sent == old(sent) + OnSyn(old(conns[i]), seqNo).sent
    {
      conns := conns[i := conns[i].(ackNo := Next(seqNo, 1), state := SynReceived)];
      SendPacket(conns[i], 0x12);
      conns := conns[i := conns[i].(seqNo := Next(conns[i].seqNo, 1))];
    }

    method OnSocketData(i: nat, consumed: nat)
      requires i < |conns|
      modifies this`conns
      ensures conns == old(conns)[i := Consume(old(conns[i]), consumed).0]
    {
      if consumed > 0 && consumed <= |conns[i].rx| {
        conns := conns[i := conns[i].(rx := conns[i].rx[consumed..])];
      }
    }

    method HandleData(i: nat, g: Segment, consumed: nat) returns (early: bool)
      requires i < |conns|
      modifies this
      ensures var o := OnData(old(conns[i]), g, consumed);
              conns == old(conns)[i := o.conn] && sent == old(sent) + o.sent && early == o.early
    {
      early := false;
      if |g.payload| > 0 && conns[i].state == Established {
        if g.seqNo == conns[i].ackNo {
          conns := conns[i := conns[i].(rx := conns[i].rx + g.payload, ackNo := Next(g.seqNo, |g.payload|))];
          OnSocketData(i, consumed);
        } else if g.seqNo < conns[i].ackNo {
          SendPacket(conns[i], 0x10);
          early := true;
        } else {
          early := true;
        }
      }
    }

    method HandleFin(i: nat, g: Segment, consumed: nat)
      requires i < |conns|
      modifies this
      ensures var o := OnFin(old(conns[i]), g, consumed);
              conns == old(conns)[i := o.conn] && sent == old(sent) + o.sent
    {
      if conns[i].rx != [] {
        OnSocketData(i, consumed);
      }
      conns := conns[i := conns[i].(rx := [])];
      if g.seqNo >= conns[i].ackNo {
        conns := conns[i := conns[i].(ackNo := Next(g.seqNo, 1))];
      }
      SendPacket(conns[i], 0x11);
      conns := conns[i := conns[i].(state := Closed)];
    }

    method Sweep()
      modifies this`conns
      ensures conns == OpenOnes(old(conns))
    {
      var kept := [];
      var i := 0;
      while i < |conns|
        invariant i <= |conns| && kept + OpenOnes(conns[i..]) == OpenOnes(old(conns)) && conns == old(conns)
      {
        assert conns[i..][1..] == conns[i + 1..];
        if conns[i].state != Closed {
          assert kept + ([conns[i]] + OpenOnes(conns[i + 1..])) == (kept + [conns[i]]) + OpenOnes(conns[i + 1..]);
          kept := kept + [conns[i]];
        }
        i := i + 1;
      }
      conns := kept;
    }

    /** A segment of an open connection that is not an opening. */
    method HandleOpen(i: nat, g: Segment, e: Inputs)
      requires i < |conns| && !(Syn(g.flags) && !Ack(g.flags))
      modifies this
      ensures var o := OnSegment(old(conns[i]), g, e.consumed, e.atClose);
              var updated := old(conns)[i := o.conn];
              conns == (if o.early then updated else OpenOnes(updated)) && sent == old(sent) + o.sent
    {
      hide OnData, OnFin, OpenOnes;
      ghost var was := conns;
      if Ack(g.flags) && conns[i].state == SynReceived {
        conns := conns[i := conns[i].(state := Established)];
      }
      var early := HandleData(i, g, e.consumed);
      assert conns == was[i := conns[i]];
      if early {
        return;
      }
      if Fin(g.flags) {
        HandleFin(i, g, e.atClose);
        assert conns == was[i := conns[i]];
      }
      Sweep();
    }

    method HandleOpening(p: Parsed, random: nat)
      requires |conns| < MAX_CONNECTIONS
      modifies this
      ensures var g := p.segment;
              var o := OnSyn(Conn(p.srcIp, g.srcPort, g.dstPort, random % 90000 + 10000, 0, Closed, []), g.seqNo);
              conns == old(conns) + [o.conn] && sent == old(sent) + o.sent
    {
      var g := p.segment;
      conns := conns + [Conn(p.srcIp, g.srcPort, g.dstPort, random % 90000 + 10000, 0, Closed, [])];
      HandleSyn(|conns| - 1, g.seqNo);
    }

    method HandleTcpPacket(p: Parsed, e: Inputs)
      requires TableOk(conns)
      modifies this
      ensures Value() == Handle(bound, old(Value()), p, e) && TableOk(conns)
    {
      hide OnData, OnFin, OnSyn, OpenOnes;
      HandleKeeps(bound, Value(), p, e);
      var g := p.segment;
      if g.dstPort !in bound {
        return;
      }
      var i := FindConnection(p.srcIp, g.srcPort);
      if Syn(g.flags) && !Ack(g.flags) {
        if i < |conns| {
          HandleSyn(i, g.seqNo);
          SynStopsEarly(old(conns[i]), g.seqNo);
        } else if |conns| < MAX_CONNECTIONS {
          HandleOpening(p, e.random);
        }
      } else if i < |conns| {
        HandleOpen(i, g, e);
      }
    }

    static lemma SynStopsEarly(c: Conn, seqNo: nat)
      ensures OnSyn(c, seqNo).early
    {
    }
  }
}
