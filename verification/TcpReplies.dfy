/** What the TCP receiver of components/tailscale/tailscale.cpp answers: to whom, from which port, with which numbers. */
module TcpReplies {
  import opened Bytes
  import opened Checksum
  import opened Tcp

  const SYN_ACK: byte := 0x12
  const ACK: byte := 0x10
  const FIN_ACK: byte := 0x11

  // One connection.

  /** The numbers of an answer: what has been sent with SYNs so far, and how far the peer's stream is acknowledged. */
  function Answer(c: Conn, openings: nat, isn: nat, received: nat, flags: byte): seq<Reply> {
    [Reply(c.srcIp, Segment(c.dstPort, c.srcPort, Next(c.seqNo, openings), Next(isn, 1 + received), flags, []))]
  }

  /** The answer to a segment at this place, when so much has been received and so many openings have been answered, in
      terms of places in the peer's stream: an opening is answered by a SYN-ACK; data at another place by an ACK if its
      number is below the one expected, and otherwise not at all; a FIN by a FIN-ACK; anything else is not answered. */
  function Expected(c: Conn, openings: nat, isn: nat, received: nat, ready: bool, g: Segment, off: nat): seq<Reply> {
    var data := g.payload != [] && ready;
    if Opening(g) then Answer(c, openings, isn, 0, SYN_ACK)
    else if data && off != received then (if g.seqNo < Next(isn, 1 + received) then Answer(c, openings, isn, received, ACK) else [])
    else if Fin(g.flags) then
      var n := if data then received + |g.payload| else received;
      Answer(c, openings, isn, if g.seqNo >= Next(isn, 1 + n) then off + 1 else n, FIN_ACK)
    else []
  }

  predicate Origin(c: Conn, now: Conn, openings: nat) {
    now.srcIp == c.srcIp && now.srcPort == c.srcPort && now.dstPort == c.dstPort && now.seqNo == Next(c.seqNo, openings)
  }

  function Opened(g: Segment): nat { if Opening(g) then 1 else 0 }

  /** A segment is answered as expected, and the connection keeps its ends and counts its openings. */
  lemma AnsweredAs(c: Conn, openings: nat, f: Flow, stream: bytes, isn: nat, g: Segment, off: nat, consumed: nat, atClose: nat)
    requires InOrder(f, stream, isn) && f.conn.state != Closed && FromPeer(f, stream, isn, g, off) && Origin(c, f.conn, openings)
    ensures OnSegment(f.conn, g, consumed, atClose).sent == Expected(c, openings, isn, |Received(f)|, Ready(f, g), g, off)
    ensures Origin(c, Advance(f, g, consumed, atClose).conn, openings + Opened(g))
  {
    KeepsEnds(c, openings, f, g, consumed, atClose);
    if Opening(g) {
      assert f.taken + [] == f.taken;
    } else {
      SameNumberIff(isn, off, |Received(f)|);
      hide InOrder, FromPeer, Next;
      InOrderNumber(f, stream, isn, g, off);
      NextTwice(isn, 1 + off, |g.payload|);
      NextTwice(isn, 1 + off, 1);
      PartsAnswered(f, g, consumed, atClose);
    }
  }

  lemma InOrderNumber(f: Flow, stream: bytes, isn: nat, g: Segment, off: nat)
    requires InOrder(f, stream, isn) && f.conn.state != Closed && FromPeer(f, stream, isn, g, off) && !Opening(g)
    ensures f.conn.ackNo == Next(isn, 1 + |Received(f)|) && g.seqNo == Next(isn, 1 + off)
  {
  }

  lemma KeepsEnds(c: Conn, openings: nat, f: Flow, g: Segment, consumed: nat, atClose: nat)
    requires Origin(c, f.conn, openings)
    ensures Origin(c, Advance(f, g, consumed, atClose).conn, openings + Opened(g))
  {
    NextTwice(c.seqNo, openings, 1);
  }

  /** What each part of handling adds. */
  lemma PartsAnswered(f: Flow, g: Segment, consumed: nat, atClose: nat)
    requires !Opening(g) && f.conn.state != Closed
    ensures var c := f.conn;
            var data := g.payload != [] && Ready(f, g);
            var ack := if data then Next(g.seqNo, |g.payload|) else c.ackNo;
            OnSegment(c, g, consumed, atClose).sent
            == if data && g.seqNo != c.ackNo
               then (if g.seqNo < c.ackNo then [Reply(c.srcIp, Segment(c.dstPort, c.srcPort, c.seqNo, c.ackNo, ACK, []))] else [])
               else if Fin(g.flags)
               then [Reply(c.srcIp, Segment(c.dstPort, c.srcPort, c.seqNo, if g.seqNo >= ack then Next(g.seqNo, 1) else ack, FIN_ACK, []))]
               else []
  {
  }

  /** How many of the segments before were openings. */
  function Openings(arrivals: seq<Arrival>): nat {
    if arrivals == [] then 0 else Opened(arrivals[0].g) + Openings(arrivals[1..])
  }

  /** Over any run of duplicated, reordered or lost segments: each is answered as expected from what has been received by
      then, with the ends and the number the connection began with and one more for each opening before it. */
  lemma {:induction false} RunAnswered(c: Conn, openings: nat, f: Flow, stream: bytes, isn: nat, arrivals: seq<Arrival>, k: nat)
    requires InOrder(f, stream, isn) && AllFromPeer(f, stream, isn, arrivals) && Origin(c, f.conn, openings) && k < |arrivals|
    requires Run(f, arrivals[..k]).conn.state != Closed
    ensures var now, a := Run(f, arrivals[..k]), arrivals[k];
            OnSegment(now.conn, a.g, a.consumed, a.atClose).sent
            == Expected(c, openings + Openings(arrivals[..k]), isn, |Received(now)|, Ready(now, a.g), a.g, a.off)
    decreases k
  {
    hide InOrder, FromPeer, Expected, OnSegment, Origin;
    var a := arrivals[0];
    assert f.conn.state != Closed by { StaysClosed(f, arrivals[..k]); }
    AnsweredAs(c, openings, f, stream, isn, a.g, a.off, a.consumed, a.atClose);
    if k > 0 {
      SegmentKeepsOrder(f, stream, isn, a.g, a.off, a.consumed, a.atClose);
      assert arrivals[1..][..k - 1] == arrivals[..k][1..];
      RunAnswered(c, openings + Opened(a.g), Advance(f, a.g, a.consumed, a.atClose), stream, isn, arrivals[1..], k - 1);
    }
  }

  lemma StaysClosed(f: Flow, arrivals: seq<Arrival>)
    ensures f.conn.state == Closed ==> Run(f, arrivals).conn.state == Closed
  {
  }

  // The table.

  /** A reply to this packet: it goes back where the packet came from. */
  predicate Returns(r: Reply, p: Parsed) { r.ip == p.srcIp && r.segment.dstPort == p.segment.srcPort && r.segment.payload == [] }

  lemma SentReturns(c: Conn, g: Segment, consumed: nat, atClose: nat)
    ensures forall r :: r in OnSegment(c, g, consumed, atClose).sent ==>
              r.ip == c.srcIp && r.segment.dstPort == c.srcPort && r.segment.srcPort == c.dstPort && r.segment.payload == []
    ensures OnSegment(c, g, consumed, atClose).conn.dstPort == c.dstPort
  {
    if !Opening(g) {
      hide OnData, OnFin;
      var c0 := Acknowledged(c, g);
      DataReturns(c0, g, consumed);
      FinReturns(OnData(c0, g, consumed).conn, g, atClose);
    }
  }

  predicate Ends(c: Conn, o: Outcome) {
    && o.conn.srcIp == c.srcIp && o.conn.srcPort == c.srcPort && o.conn.dstPort == c.dstPort
    && forall r :: r in o.sent ==> r.ip == c.srcIp && r.segment.dstPort == c.srcPort && r.segment.srcPort == c.dstPort && r.segment.payload == []
  }

  lemma DataReturns(c: Conn, g: Segment, consumed: nat)
    ensures Ends(c, OnData(c, g, consumed))
  {
  }

  lemma FinReturns(c: Conn, g: Segment, atClose: nat)
    ensures Ends(c, OnFin(c, g, atClose))
  {
  }

  /** Whatever is sent for a packet goes back to its sender.  It comes from the port the connection was opened on, which
      is the packet's own port if and only if that is the one: the lookup takes no account of it. */
  lemma HandleReturns(bound: set<nat>, t: Table, p: Parsed, e: Inputs)
    ensures t.sent <= Handle(bound, t, p, e).sent
    ensures var i := Place(t.conns, p.srcIp, p.segment.srcPort);
            forall r :: r in Handle(bound, t, p, e).sent[|t.sent|..] ==>
              && Returns(r, p) && p.segment.dstPort in bound
              && (i < |t.conns| ==> r.segment.srcPort == t.conns[i].dstPort
                                    && (r.segment.srcPort == p.segment.dstPort <==> t.conns[i].dstPort == p.segment.dstPort))
              && (i == |t.conns| ==> r.segment.srcPort == p.segment.dstPort && Opening(p.segment) && r.segment.flags == SYN_ACK
                                     && r.segment.ackNo == Next(p.segment.seqNo, 1) && 10000 <= r.segment.seqNo < 100000)
  {
    hide OnSegment;
    var g := p.segment;
    var i := Place(t.conns, p.srcIp, g.srcPort);
    if g.dstPort in bound && i < |t.conns| {
      SentReturns(t.conns[i], g, e.consumed, e.atClose);
      assert Handle(bound, t, p, e).sent[|t.sent|..] == OnSegment(t.conns[i], g, e.consumed, e.atClose).sent;
    } else if Handle(bound, t, p, e) != t {
      var c := Conn(p.srcIp, g.srcPort, g.dstPort, e.random % 90000 + 10000, 0, Closed, []);
      assert Handle(bound, t, p, e).sent[|t.sent|..] == OnSyn(c, g.seqNo).sent;
    } else {
      assert t.sent[|t.sent|..] == [];
    }
  }

  /** A connection to port 80 that is open takes what is meant for port 22 from the same port of the same peer. */
  lemma OtherPortTaken()
    ensures var c := Conn(1, 50000, 80, 10000, 5, Established, []);
            var g := Segment(50000, 22, 5, 10000, 0x10, [7]);
            var t := Handle({22, 80}, Table([c], []), Parsed(1, g), Inputs(0, 0, 0));
            t == Table([c.(ackNo := 6, rx := [7])], [])
  {
    var c := Conn(1, 50000, 80, 10000, 5, Established, []);
    assert [][..0] + [7] == [7];
    assert Place([c], 1, 50000) == 0;
    var d := c.(ackNo := 6, rx := [7]);
    assert [c][0 := d] == [d];
    assert OpenOnes([d]) == [d] + OpenOnes([]);
  }

  /** One of the packets opened a connection between these ends. */
  predicate WasOpened(bound: set<nat>, ip: nat, theirs: nat, ours: nat, events: seq<Event>) {
    ours in bound && exists v :: v in events && Opens(v.p, ip, theirs, ours)
  }

  predicate Opens(p: Parsed, ip: nat, theirs: nat, ours: nat) {
    Opening(p.segment) && p.srcIp == ip && p.segment.srcPort == theirs && p.segment.dstPort == ours
  }

  /** So were all the connections in the table, and all that has been sent went to such an end from the other. */
  predicate AllOpened(bound: set<nat>, t: Table, events: seq<Event>) {
    && (forall c :: c in t.conns ==> WasOpened(bound, c.srcIp, c.srcPort, c.dstPort, events))
    && (forall r :: r in t.sent ==> WasOpened(bound, r.ip, r.segment.dstPort, r.segment.srcPort, events))
  }

  lemma StillOpened(bound: set<nat>, ip: nat, theirs: nat, ours: nat, events: seq<Event>, v: Event)
    requires WasOpened(bound, ip, theirs, ours, events) || (ours in bound && Opens(v.p, ip, theirs, ours))
    ensures WasOpened(bound, ip, theirs, ours, events + [v])
  {
    if WasOpened(bound, ip, theirs, ours, events) {
      var u :| u in events && Opens(u.p, ip, theirs, ours);
      assert u in events + [v];
    } else {
      assert v in events + [v];
    }
  }

  lemma Swept(conns: seq<Conn>)
    ensures forall c :: c in OpenOnes(conns) ==> c in conns
  {
  }

  /** The connections after a packet are those before it, or one that it has opened. */
  lemma ConnsAfter(bound: set<nat>, t: Table, p: Parsed, e: Inputs, c: Conn)
    requires c in Handle(bound, t, p, e).conns
    ensures (exists b :: b in t.conns && b.srcIp == c.srcIp && b.srcPort == c.srcPort && b.dstPort == c.dstPort)
            || (c.dstPort in bound && Opens(p, c.srcIp, c.srcPort, c.dstPort))
  {
    hide OnSegment;
    var g := p.segment;
    var i := Place(t.conns, p.srcIp, g.srcPort);
    if g.dstPort in bound && i < |t.conns| {
      var o := OnSegment(t.conns[i], g, e.consumed, e.atClose);
      SegmentKeepsPeer(t.conns[i], g, e.consumed, e.atClose);
      SentReturns(t.conns[i], g, e.consumed, e.atClose);
      SweptFrom(t.conns, i, o.conn, c);
    }
  }

  lemma SweptFrom(conns: seq<Conn>, i: nat, d: Conn, c: Conn)
    requires i < |conns| && (c in conns[i := d] || c in OpenOnes(conns[i := d]))
    requires d.srcIp == conns[i].srcIp && d.srcPort == conns[i].srcPort && d.dstPort == conns[i].dstPort
    ensures exists b :: b in conns && b.srcIp == c.srcIp && b.srcPort == c.srcPort && b.dstPort == c.dstPort
  {
    var now := conns[i := d];
    Swept(now);
    var k :| 0 <= k < |now| && now[k] == c;
    assert conns[k] in conns;
  }

  lemma OneMoreEvent(bound: set<nat>, t: Table, events: seq<Event>, v: Event)
    requires AllOpened(bound, t, events)
    ensures AllOpened(bound, Handle(bound, t, v.p, v.e), events + [v])
  {
    hide Handle, Place, Opens, WasOpened;
    var t' := Handle(bound, t, v.p, v.e);
    forall c | c in t'.conns ensures WasOpened(bound, c.srcIp, c.srcPort, c.dstPort, events + [v]) {
      ConnsAfter(bound, t, v.p, v.e, c);
      StillOpened(bound, c.srcIp, c.srcPort, c.dstPort, events, v);
    }
    HandleReturns(bound, t, v.p, v.e);
    forall r | r in t'.sent ensures WasOpened(bound, r.ip, r.segment.dstPort, r.segment.srcPort, events + [v]) {
      if r !in t.sent {
        NewlySent(t.sent, t'.sent, r);
        SenderOpened(bound, t, events, v, r);
      }
      StillOpened(bound, r.ip, r.segment.dstPort, r.segment.srcPort, events, v);
    }
  }

  lemma NewlySent(before: seq<Reply>, after: seq<Reply>, r: Reply)
    requires before <= after && r in after && r !in before
    ensures r in after[|before|..]
  {
    var n :| 0 <= n < |after| && after[n] == r;
    assert n >= |before| ==> after[|before|..][n - |before|] == r;
  }

  lemma SenderOpened(bound: set<nat>, t: Table, events: seq<Event>, v: Event, r: Reply)
    requires AllOpened(bound, t, events) && t.sent <= Handle(bound, t, v.p, v.e).sent
    requires r in Handle(bound, t, v.p, v.e).sent[|t.sent|..]
    ensures WasOpened(bound, r.ip, r.segment.dstPort, r.segment.srcPort, events)
            || (r.segment.srcPort in bound && Opens(v.p, r.ip, r.segment.dstPort, r.segment.srcPort))
  {
    hide Handle, WasOpened;
    HandleReturns(bound, t, v.p, v.e);
    var i := Place(t.conns, v.p.srcIp, v.p.segment.srcPort);
    if i < |t.conns| {
      assert t.conns[i] in t.conns;
    }
  }

  /** Over any run of packets from an empty table, whatever ports, flags and numbers they have: each packet sent goes to
      an end that has opened a connection, from the very port that it opened it on. */
  lemma {:induction false} AllGoesBack(bound: set<nat>, events: seq<Event>)
    ensures AllOpened(bound, HandleAll(bound, Table([], []), events), events)
    decreases |events|
  {
    hide Handle, AllOpened;
    if events == [] {
      NothingOpened(bound);
    } else {
      var n := |events| - 1;
      AllGoesBack(bound, events[..n]);
      HandledLast(bound, Table([], []), events[..n], events[n]);
      assert events[..n] + [events[n]] == events;
      OneMoreEvent(bound, HandleAll(bound, Table([], []), events[..n]), events[..n], events[n]);
    }
  }

  lemma NothingOpened(bound: set<nat>)
    ensures AllOpened(bound, Table([], []), [])
  {
  }

  lemma {:induction false} HandledLast(bound: set<nat>, t: Table, events: seq<Event>, v: Event)
    ensures HandleAll(bound, t, events + [v]) == Handle(bound, HandleAll(bound, t, events), v.p, v.e)
    decreases |events|
  {
    hide Handle;
    if events == [] {
      assert ([] + [v])[1..] == [] && ([] + [v])[0] == v;
    } else {
      assert (events + [v])[1..] == events[1..] + [v];
      HandledLast(bound, Handle(bound, t, events[0].p, events[0].e), events[1..], v);
    }
  }
}
