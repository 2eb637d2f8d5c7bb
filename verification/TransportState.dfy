/** The stages of components/tailscale/ts2021_transport.cpp: the handshake messages in their controlbase framing,
    then encrypted records, over one channel. */
module TransportState {
  import opened Bytes
  import opened NoiseBase
  import opened HashState
  import opened CipherState
  import opened SymmetricState
  import opened DhState
  import opened Handshake
  import opened HandshakeState
  import opened Agreement
  import opened Progress
  import opened WebSocket
  import opened Channel
  import opened Transport

  datatype Stage = StageIdle | ClientInit | AwaitingServerResponse | TransportReady | StageFailed

  const HANDSHAKE_ROOM: nat := 512

  // Handshake messages.

  function Initiation(m: bytes): bytes { [0, 1, 1] + Be16(|m|) + m }   // version, type, length
  function Response(m: bytes): bytes { [2, |m| / 256 % 256, |m| % 256] + m }

  datatype Initiating = Initiating(version: nat, message: bytes, rest: bytes)

  /** What a server makes of the beginning of its input: version and length have two bytes each, the higher first. */
  function ReadInitiation(data: bytes): Option<Initiating> {
    if |data| < 5 || data[2] != 1 then None
    else
      var version, len := 256 * data[0] as nat + data[1] as nat, 256 * data[3] as nat + data[4] as nat;
      if |data| < 5 + len then None else Some(Initiating(version, data[5..5 + len], data[5 + len..]))
  }

  /** It reads version 1 and the message, whatever follows, and nothing before all of it has come. */
  lemma InitiationReads(m: bytes, tail: bytes, k: nat)
    requires |m| < TWO16 && k < |Initiation(m)|
    ensures ReadInitiation(Initiation(m) + tail) == Some(Initiating(1, m, tail)) && ReadInitiation(Initiation(m)[..k]) == None
  {
    var b := Initiation(m) + tail;
    assert b[5..5 + |m|] == m && b[5 + |m|..] == tail;
    assert b[3] as nat == |m| / 256 && b[4] as nat == |m| % 256;
    var front := Initiation(m)[..k];
    assert k > 4 ==> front[3] == Initiation(m)[3] && front[4] == Initiation(m)[4];
  }

  /** What the client builds is read by the server, and fits its room. */
  lemma BuildReads(z: Noise, p: Party, gen: nat -> bytes)
    requires LawfulNoise(z) && Build(z, p, gen).Some?
    ensures var b := Build(z, p, gen).value.1;
            && ReadInitiation(b).Some? && ReadInitiation(b).value.version == 1 && ReadInitiation(b).value.rest == []
            && b == Initiation(ReadInitiation(b).value.message) && |b| <= 5 + HANDSHAKE_ROOM
  {
    hide WriteTokens, Start, LawfulNoise;
    var q := if p.action == Idle then Start(z, p).value else p;
    var m := Write(z, q, gen, HANDSHAKE_ROOM, []).value.1;
    WriteFits(z, q, gen, HANDSHAKE_ROOM, []);
    InitiationReads(m, [], 0);
    assert Initiation(m) + [] == Initiation(m);
  }

  lemma WriteFits(z: Noise, p: Party, gen: nat -> bytes, room: nat, payload: bytes)
    requires LawfulNoise(z) && Write(z, p, gen, room, payload).Ok?
    ensures |Write(z, p, gen, room, payload).value.1| <= room
  {
    hide WriteTokens;
    var v := WriteTokens(z, p, gen, room).value;
    EncryptThenDecrypt(z.sym, v.0.sym, payload, room - |v.1|);
  }

  /** The client's next message, after starting the handshake if it has not been started. */
  ghost function Build(z: Noise, p: Party, gen: nat -> bytes): Option<(Party, bytes)>
    requires LawfulNoise(z)
  {
    match if p.action == Idle then Start(z, p) else Result.Ok(p)
    case Err(_) => None
    case Ok(q) =>
      if q.action != WriteMessage then None
      else match Write(z, q, gen, HANDSHAKE_ROOM, [])
        case Err(_) => None
        case Ok(v) => Some((v.0, Initiation(v.1)))
  }

  /** The Noise message inside a response, if it is one and all of it is there. */
  function Unframed(data: bytes): Option<bytes> {
    if |data| < 3 || data[0] != 2 || |data| < 3 + FromBe16(data[1..]) then None
    else Some(data[3..3 + FromBe16(data[1..])])
  }

  ghost function Accept(z: Noise, p: Party, data: bytes): Option<Party>
    requires LawfulNoise(z)
  {
    if Unframed(data).None? || p.action != ReadMessage then None
    else match Read(z, p, Unframed(data).value, None)
      case Err(_) => None
      case Ok(v) => Some(v.0)
  }

  lemma ResponseUnframes(m: bytes)
    requires |m| < TWO16
    ensures Unframed(Response(m)) == Some(m)
  {
    assert Response(m)[1..][..2] == Be16(|m|);
    Be16RoundTrip(|m|);
    assert Response(m)[3..3 + |m|] == m;
  }

  /** A client and a server configured for one two-message pattern: the server reads what the client built, the client
      accepts what the server answered, and from then on every run of sends in either direction arrives intact. */
  lemma SessionEndToEnd(z: Noise, i: Party, r: Party, gi: nat -> bytes, gr: nat -> bytes, room: nat, payload: bytes,
                        sent: seq<Sent>, incoming: seq<bytes>)
    requires LawfulNoise(z) && Configured(z, i, r) && Start(z, r).Ok? && GoodGen(z, gi) && GoodGen(z, gr)
    requires Legal(i.tokens, i.pos, Initiator, Premsgs(i), i.reqs.localRequired, r.reqs.localRequired)
    requires Build(z, i, gi).Some? && Build(z, i, gi).value.0.action == ReadMessage
    ensures var (i1, b) := Build(z, i, gi).value;
            && ReadInitiation(b).Some? && ReadInitiation(b).value.version == 1
            && var m := ReadInitiation(b).value.message;
            && Read(z, Start(z, r).value, m, None).Ok?
            && var r1 := Read(z, Start(z, r).value, m, None).value.0;
            Write(z, r1, gr, room, payload).Ok? ==>
              var (r2, m2) := Write(z, r1, gr, room, payload).value;
              |m2| < TWO16 ==>
                && Accept(z, i1, Response(m2)).Some?
                && var i2 := Accept(z, i1, Response(m2)).value;
                Delivers(z, i2, r2, sent, incoming) && Delivers(z, r2, i2, sent, incoming)
  {
    hide InStep, LegalFor, Write, Read, Legal, LearnAll, Configured, Start, LawfulNoise, SplitFor;
    ghost var k, i1, m1, r1 := FirstMessage(z, i, r, gi);
    if Write(z, r1, gr, room, payload).Ok? {
      var (r2, m2) := Write(z, r1, gr, room, payload).value;
      if |m2| < TWO16 {
        MessageAgrees(z, r1, i1, k, gr, room, payload, None);
        ResponseUnframes(m2);
        var i2 := Read(z, i1, m2, None).value.0;
        DeliversBoth(z, r2, i2, LearnAll(k, r1.role, r1.tokens, r1.pos), sent, incoming);
      }
    }
  }

  /** And nothing of it fails: with keys, PSK and nonces for a pattern of two messages, and room for each of them, the
      client builds its message, the server reads and answers it, the client accepts the answer, and both carry data. */
  lemma SessionReaches(z: Noise, i: Party, r: Party, gi: nat -> bytes, gr: nat -> bytes, room: nat, payload: bytes,
                       sent: seq<Sent>, incoming: seq<bytes>)
    requires LawfulNoise(z) && Progress.Total(z.dh) && Configured(z, i, r) && Start(z, i).Ok? && Start(z, r).Ok? && GoodGen(z, gi) && GoodGen(z, gr)
    requires Legal(i.tokens, i.pos, Initiator, Premsgs(i), i.reqs.localRequired, r.reqs.localRequired)
    requires Supplied(i.tokens, i.pos, Initiator, i.le.Some?, r.le.Some?, i.psk != []) && NoncesLeft(i) && Turns(i.tokens, i.pos) == 2
    requires Ample(z, i.tokens, Delivery(gi, HANDSHAKE_ROOM, [], None)) && Ample(z, i.tokens, Delivery(gr, room, payload, None))
    requires room < TWO16
    ensures Build(z, i, gi).Some?
    ensures var (i1, b) := Build(z, i, gi).value;
            && ReadInitiation(b).Some? && Read(z, Start(z, r).value, ReadInitiation(b).value.message, None).Ok?
            && var r1 := Read(z, Start(z, r).value, ReadInitiation(b).value.message, None).value.0;
            && Write(z, r1, gr, room, payload).Ok?
            && var (r2, m2) := Write(z, r1, gr, room, payload).value;
            && Accept(z, i1, Response(m2)).Some?
            && var i2 := Accept(z, i1, Response(m2)).value;
            && i2.action == r2.action == SplitReady
            && Delivers(z, i2, r2, sent, incoming) && Delivers(z, r2, i2, sent, incoming)
  {
    hide InStep, LegalFor, Write, Read, Legal, LearnAll, Configured, Start, LawfulNoise, SplitFor, Supplied, SuppliedFor, Turns, Ample,
      NoncesLeft, Progress.Total, Delivers, GoodGen;
    BuildGoes(z, i, r, gi);
    ghost var k, i1, m, r1 := FirstMessage(z, i, r, gi);
    FirstLeft(z, i, r, gi, k, i1, m, r1);
    MessageGoes(z, r1, i1, k, Delivery(gr, room, payload, None));
    WriteFits(z, r1, gr, room, payload);
    MessageAgrees(z, r1, i1, k, gr, room, payload, None);
    ResponseUnframes(Write(z, r1, gr, room, payload).value.1);
    SessionEndToEnd(z, i, r, gi, gr, room, payload, sent, incoming);
  }

  lemma BuildGoes(z: Noise, i: Party, r: Party, gi: nat -> bytes)
    requires LawfulNoise(z) && Progress.Total(z.dh) && Configured(z, i, r) && Start(z, i).Ok? && Start(z, r).Ok? && GoodGen(z, gi)
    requires Legal(i.tokens, i.pos, Initiator, Premsgs(i), i.reqs.localRequired, r.reqs.localRequired)
    requires Supplied(i.tokens, i.pos, Initiator, i.le.Some?, r.le.Some?, i.psk != []) && NoncesLeft(i) && Turns(i.tokens, i.pos) == 2
    requires Ample(z, i.tokens, Delivery(gi, HANDSHAKE_ROOM, [], None))
    ensures Build(z, i, gi).Some? && Build(z, i, gi).value.0.action == ReadMessage
  {
    hide InStep, LegalFor, Write, Legal, LawfulNoise, Supplied, SuppliedFor, Turns, Ample, Start, NoncesLeft;
    StartAgrees(z, i, r);
    StartKeeps(z, i, r);
    MessageGoes(z, Start(z, i).value, Start(z, r).value, Premsgs(i), Delivery(gi, HANDSHAKE_ROOM, [], None));
    Fresh(z, i, r);
  }

  lemma Fresh(z: Noise, i: Party, r: Party)
    requires Configured(z, i, r)
    ensures i.action == Idle && i.role == Initiator && r.role == Responder
  {
  }

  /** What is left to the server after the first message. */
  lemma FirstLeft(z: Noise, i: Party, r: Party, gi: nat -> bytes, k: Known, i1: Party, m: bytes, r1: Party)
    requires LawfulNoise(z) && Progress.Total(z.dh) && Configured(z, i, r) && Start(z, i).Ok? && Start(z, r).Ok? && GoodGen(z, gi)
    requires Legal(i.tokens, i.pos, Initiator, Premsgs(i), i.reqs.localRequired, r.reqs.localRequired)
    requires Supplied(i.tokens, i.pos, Initiator, i.le.Some?, r.le.Some?, i.psk != []) && NoncesLeft(i) && Turns(i.tokens, i.pos) == 2
    requires Ample(z, i.tokens, Delivery(gi, HANDSHAKE_ROOM, [], None))
    requires Build(z, i, gi).Some? && Build(z, i, gi).value == (i1, Initiation(m)) && InStep(z, r1, i1, k) && i1.action == ReadMessage
    ensures SuppliedFor(r1, r1.role) && NoncesLeft(r1) && Turns(r1.tokens, r1.pos) == 1 && r1.tokens == i.tokens
  {
    hide LegalFor, Write, Legal, LawfulNoise, Supplied, SuppliedFor, Turns, Ample, Start, NoncesLeft, InStep;
    StartAgrees(z, i, r);
    StartKeeps(z, i, r);
    Fresh(z, i, r);
    MessageGoes(z, Start(z, i).value, Start(z, r).value, Premsgs(i), Delivery(gi, HANDSHAKE_ROOM, [], None));
    InStepSymmetric(z, r1, i1, k);
    SuppliedBoth(z, i1, r1, k, Other(i1.role));
  }

  lemma FirstMessage(z: Noise, i: Party, r: Party, gen: nat -> bytes) returns (k: Known, i1: Party, m: bytes, r1: Party)
    requires LawfulNoise(z) && Configured(z, i, r) && Start(z, r).Ok? && GoodGen(z, gen)
    requires Legal(i.tokens, i.pos, Initiator, Premsgs(i), i.reqs.localRequired, r.reqs.localRequired)
    requires Build(z, i, gen).Some? && Build(z, i, gen).value.0.action == ReadMessage
    ensures Build(z, i, gen).value == (i1, Initiation(m)) && ReadInitiation(Initiation(m)) == Some(Initiating(1, m, []))
    ensures Read(z, Start(z, r).value, m, None).Ok? && r1 == Read(z, Start(z, r).value, m, None).value.0
    ensures InStep(z, r1, i1, k) && LegalFor(r1, i1, k) && i1.action == ReadMessage && r1.action == WriteMessage
  {
    hide InStep, Write, Read, Legal, LearnAll, LawfulNoise;
    var p, q := Start(z, i).value, Start(z, r).value;
    StartAgrees(z, i, r);
    i1, m := Write(z, p, gen, HANDSHAKE_ROOM, []).value.0, Write(z, p, gen, HANDSHAKE_ROOM, []).value.1;
    MessageAgrees(z, p, q, Premsgs(i), gen, HANDSHAKE_ROOM, [], None);
    r1 := Read(z, q, m, None).value.0;
    k := LearnAll(Premsgs(i), p.role, p.tokens, p.pos);
    InStepSymmetric(z, i1, r1, k);
    WriteFits(z, p, gen, HANDSHAKE_ROOM, []);
    InitiationReads(m, [], 0);
    assert Initiation(m) + [] == Initiation(m);
  }

  /** Sends by one side under its first transport cipher are what the other receives under its second. */
  ghost predicate Delivers(z: Noise, a: Party, b: Party, sent: seq<Sent>, incoming: seq<bytes>)
    requires LawfulNoise(z)
  {
    var aead := z.sym.aead;
    a.action == SplitReady
    && (forall n :: 0 <= n < |sent| ==> Sendable(sent[n]) && |sent[n].payload| <= MaxPayload(aead, SplitFor(z, a).0))
    && Wire(aead, SplitFor(z, a).0, sent) == Some(Concat(incoming))
    ==> Deliver(aead, SplitFor(z, b).1, [], incoming) == Payloads(sent)
  }

  lemma DeliversBoth(z: Noise, a: Party, b: Party, k: Known, sent: seq<Sent>, incoming: seq<bytes>)
    requires LawfulNoise(z) && InStep(z, a, b, k)
    ensures Delivers(z, a, b, sent, incoming) && Delivers(z, b, a, sent, incoming)
  {
    InStepSymmetric(z, a, b, k);
    DeliversOne(z, a, b, k, sent, incoming);
    DeliversOne(z, b, a, k, sent, incoming);
  }

  lemma DeliversOne(z: Noise, a: Party, b: Party, k: Known, sent: seq<Sent>, incoming: seq<bytes>)
    requires LawfulNoise(z) && InStep(z, a, b, k)
    ensures Delivers(z, a, b, sent, incoming)
  {
    hide InStep, Wire, Deliver, Payloads;
    SplitMatches(z, a, b, k);
    if a.action == SplitReady
       && (forall n :: 0 <= n < |sent| ==> Sendable(sent[n]) && |sent[n].payload| <= MaxPayload(z.sym.aead, SplitFor(z, a).0))
       && Wire(z.sym.aead, SplitFor(z, a).0, sent) == Some(Concat(incoming)) {
      assert [] + Concat(incoming) == Concat(incoming);
      EndToEnd(z.sym.aead, SplitFor(z, a).0, sent, [], incoming);
    }
  }

  // The objects.

  ghost function Parts(hs: HandshakeState): set<object> {
    {hs, hs.symmetric, hs.localStatic, hs.localEphemeral, hs.remoteStatic, hs.remoteEphemeral}
  }

  class NoiseSession {
    const suite: Noise
    var handshake: HandshakeState?
    var send: CipherState?
    var recv: CipherState?

    constructor (suite: Noise, handshake: HandshakeState?)
      ensures this.suite == suite && this.handshake == handshake && send == null && recv == null
    {
      this.suite, this.handshake, send, recv := suite, handshake, null, null;
    }

    ghost predicate Live()
      reads this, if handshake == null then {} else Parts(handshake)
    {
      handshake != null && handshake.suite == suite && handshake.Live()
    }

    ghost predicate HasCiphers()
      reads this
    {
      && LawfulNoise(suite) && send != null && recv != null && send != recv
      && send.aead == suite.sym.aead && recv.aead == suite.sym.aead
    }

    /** What the handshake may write to. */
    ghost function Footprint(): set<object>
      reads this, handshake, if handshake == null then {} else {handshake.symmetric}
    {
      if handshake == null then {this}
      else {this, handshake.symmetric.hash, handshake.symmetric.ck, handshake.symmetric.h} + Parts(handshake)
           + (if handshake.symmetric.cipher == null then {} else {handshake.symmetric.cipher})
    }

    method SplitTransport() returns (ok: bool)
      requires Live()
      modifies Footprint()
      ensures ok <==> old(handshake.action) == SplitReady
      ensures ok ==> HasCiphers() && (send.Value(), recv.Value()) == SplitFor(suite, old(handshake.Value()))
    {
      hide LawfulNoise, LawfulDh, LawfulSuite, Fits, SplitFor;
      send, recv := null, null;
      var err, c1, c2 := handshake.SplitTransport();
      if err != NoError {
        return false;
      }
      send, recv := c1, c2;
      return true;
    }

    /** Starts the handshake if need be and writes its next message into a fresh buffer. */
    method NextMessage(gen: nat -> bytes) returns (ok: bool, m: bytes)
      requires Live() && forall i: nat :: |gen(i)| == suite.dh.privateLen
      modifies Footprint()
      ensures Live() && handshake == old(handshake) && Footprint() == old(Footprint())
      ensures match Build(suite, old(handshake.Value()), gen)
              case None => !ok
              case Some(v) => ok && handshake.Value() == v.0 && Initiation(m) == v.1
    {
      hide LawfulNoise, LawfulDh, LawfulSuite, Fits, Start, Write;
      m := [];
      if handshake.action == Idle {
        var err := handshake.StartHandshake();
        if err != NoError {
          return false, m;
        }
      }
      if handshake.action != WriteMessage {
        return false, m;
      }
      ok, m := WriteNext(gen);
    }

    method WriteNext(gen: nat -> bytes) returns (ok: bool, m: bytes)
      requires Live() && handshake.action == WriteMessage && forall i: nat :: |gen(i)| == suite.dh.privateLen
      modifies Footprint()
      ensures Live() && handshake == old(handshake) && Footprint() == old(Footprint())
      ensures match Write(suite, old(handshake.Value()), gen, HANDSHAKE_ROOM, [])
              case Err(_) => !ok
              case Ok(v) => ok && handshake.Value() == v.0 && m == v.1
    {
      hide LawfulNoise, LawfulDh, LawfulSuite, Fits, Write;
      ghost var r := Write(suite, handshake.Value(), gen, HANDSHAKE_ROOM, []);
      var data := new byte[HANDSHAKE_ROOM];
      var message := new NoiseBuffer(data, 0, 0, HANDSHAKE_ROOM);
      assert message.Contents() == [];
      var err := handshake.WriteHandshakeMessage(message, null, gen);
      assert r.Ok? <==> err == NoError;
      m := message.data[message.at..message.at + message.size];
      return err == NoError, m;
    }

    /** Reads a Noise message that has been taken out of its frame. */
    method TakeMessage(m: bytes) returns (ok: bool)
      requires Live()
      modifies Footprint()
      ensures Live() && handshake == old(handshake) && Footprint() == old(Footprint())
      ensures var p := old(handshake.Value());
              if p.action != ReadMessage then !ok
              else match Read(suite, p, m, None)
                case Err(_) => !ok
                case Ok(v) => ok && handshake.Value() == v.0
    {
      hide LawfulNoise, LawfulDh, LawfulSuite, Fits, Read;
      var data := new byte[|m|](i requires 0 <= i < |m| => m[i]);
      var message := new NoiseBuffer(data, 0, |m|, |m|);
      assert message.Contents() == m;
      var err, plain := handshake.ReadHandshakeMessage(message, null);
      return err == NoError;
    }
  }

  class Ts2021Transport {
    var stage: Stage
    var session: NoiseSession?
    var upgrade: Ts2021Upgrade?
    var txCount: nat
    var rxCount: nat

    constructor ()
      ensures stage == StageIdle && session == null && upgrade == null && txCount == 0 && rxCount == 0
    {
      stage, session, upgrade, txCount, rxCount := StageIdle, null, null, 0, 0;
    }

    method BeginHandshake(s: NoiseSession) returns (ok: bool)
      modifies this`stage, this`session
      ensures ok <==> s.handshake != null
      ensures if ok then stage == ClientInit && session == s else stage == StageFailed && session == old(session)
    {
      if s.handshake == null {
        stage := StageFailed;
        return false;
      }
      session := s;
      stage := ClientInit;
      return true;
    }

    /** Where the handshake leaves the transport: ready with the session's ciphers, or waiting for the other side. */
    ghost predicate Settled(p: Party, otherwise: Stage)
      reads this, session, if session == null then {} else {session.send, session.recv}
      reads if session == null || session.handshake == null then {} else Parts(session.handshake)
      reads if session == null || session.handshake == null then {}
            else {session.handshake.symmetric.ck, session.handshake.symmetric.h, session.handshake.symmetric.cipher}
    {
      if p.action == SplitReady then
        && stage == TransportReady && session != null && session.HasCiphers()
        && (session.send.Value(), session.recv.Value()) == SplitFor(session.suite, p)
      else stage == otherwise && session != null && session.Live() && session.handshake.Value() == p
    }

    method BuildHandshakeMessage(gen: nat -> bytes) returns (ok: bool, out: bytes)
      requires session != null ==> session.Live() && forall i: nat :: |gen(i)| == session.suite.dh.privateLen
      modifies this`stage, if session == null then {} else session.Footprint()
      ensures old(stage) != ClientInit || session == null ==> !ok && stage == old(stage)
      ensures old(stage) == ClientInit && session != null ==>
        match Build(session.suite, old(session.handshake.Value()), gen)
        case None => !ok && stage == StageFailed
        case Some(v) => ok && out == v.1 && Settled(v.0, AwaitingServerResponse)
    {
      hide LawfulNoise, LawfulDh, LawfulSuite, Fits, Build, SplitFor;
      out := [];
      if stage != ClientInit || session == null {
        return false, out;
      }
      var m;
      ok, m := session.NextMessage(gen);
      if !ok {
        stage := StageFailed;
        return;
      }
      out := Initiation(m);
      ok := Settle(AwaitingServerResponse);
    }

    /** After a message: split if the handshake says so. */
    method Settle(otherwise: Stage) returns (ok: bool)
      requires session != null && session.Live()
      modifies this`stage, session.Footprint()
      ensures ok && Settled(old(session.handshake.Value()), otherwise)
    {
      hide LawfulNoise, LawfulDh, LawfulSuite, Fits, SplitFor;
      if session.handshake.action == SplitReady {
        ok := session.SplitTransport();
        stage := TransportReady;
      } else {
        ok := true;
        stage := otherwise;
      }
    }

    method AcceptHandshakeMessage(data: bytes) returns (ok: bool)
      requires session != null ==> session.Live()
      modifies this`stage, if session == null then {} else session.Footprint()
      ensures old(stage) != AwaitingServerResponse || session == null ==> !ok && stage == old(stage)
      ensures old(stage) == AwaitingServerResponse && session != null ==>
        match Accept(session.suite, old(session.handshake.Value()), data)
        case None => !ok && stage == StageFailed
        case Some(p) => ok && Settled(p, ClientInit)
    {
      hide LawfulNoise, LawfulDh, LawfulSuite, Fits, Read, SplitFor;
      if stage != AwaitingServerResponse || session == null {
        return false;
      }
      if |data| < 3 || data[0] != 2 {
        stage := StageFailed;
        return false;
      }
      var len := data[1] as nat * 256 + data[2] as nat;
      if |data| < 3 + len {
        stage := StageFailed;
        return false;
      }
      ok := TakeAndSettle(data[3..3 + len]);
    }

    method TakeAndSettle(m: bytes) returns (ok: bool)
      requires session != null && session.Live()
      modifies this`stage, session.Footprint()
      ensures var p := old(session.handshake.Value());
              if p.action != ReadMessage || Read(session.suite, p, m, None).Err? then !ok && stage == StageFailed
              else ok && Settled(Read(session.suite, p, m, None).value.0, ClientInit)
    {
      hide LawfulNoise, LawfulDh, LawfulSuite, Fits, Read, SplitFor;
      ok := session.TakeMessage(m);
      if !ok {
        stage := StageFailed;
        return;
      }
      ok := Settle(ClientInit);
    }

    /** Counted before it is known to succeed. */
    method EncryptPayload(plain: bytes) returns (ok: bool, ct: bytes)
      requires stage == TransportReady && session != null ==> session.HasCiphers()
      modifies this`stage, this`txCount, if session == null || session.send == null then {} else {session.send}
      ensures old(stage) != TransportReady || session == null ==> !ok && stage == old(stage) && txCount == old(txCount)
      ensures old(stage) == TransportReady && session != null ==> txCount == old(txCount) + 1
      ensures old(stage) == TransportReady && session != null ==>
        match SealRecord(session.suite.sym.aead, old(session.send.Value()), plain)
        case Err(_) => !ok && stage == StageFailed
        case Ok(v) => ok && stage == TransportReady && session.send.Value() == v.0 && ct == v.1
    {
      ct := [];
      if stage != TransportReady || session == null {
        return false, ct;
      }
      var room := |plain| + session.send.aead.macLen;
      var data := new byte[room];
      Blit(data, 0, plain);
      txCount := txCount + 1;
      var buffer := new NoiseBuffer(data, 0, |plain|, room);
      assert buffer.Contents() == plain;
      var err := session.send.EncryptWithAd([], buffer);
      if err != NoError {
        stage := StageFailed;
        return false, ct;
      }
      ct := buffer.data[buffer.at..buffer.at + buffer.size];
      return true, ct;
    }

    /** Counted once it has succeeded. */
    method DecryptPayload(ct: bytes) returns (ok: bool, plain: bytes)
      requires stage == TransportReady && session != null ==> session.HasCiphers()
      modifies this`stage, this`rxCount, if session == null || session.recv == null then {} else {session.recv}
      ensures old(stage) != TransportReady || session == null ==> !ok && stage == old(stage)
      ensures rxCount == old(rxCount) + if ok then 1 else 0
      ensures old(stage) == TransportReady && session != null ==>
        match Open(session.suite.sym.aead, old(session.recv.Value()), [], ct)
        case Err(_) => !ok && stage == StageFailed && session.recv.Value() == old(session.recv.Value())
        case Ok(v) => ok && stage == TransportReady && session.recv.Value() == v.0 && plain == v.1
    {
      plain := [];
      if stage != TransportReady || session == null {
        return false, plain;
      }
      var data := new byte[|ct|](i requires 0 <= i < |ct| => ct[i]);
      var buffer := new NoiseBuffer(data, 0, |ct|, |ct|);
      assert buffer.Contents() == ct;
      var err := session.recv.DecryptWithAd([], buffer);
      if err != NoError {
        stage := StageFailed;
        return false, plain;
      }
      rxCount := rxCount + 1;
      plain := buffer.data[buffer.at..buffer.at + buffer.size];
      return true, plain;
    }

    /** Ready to carry records: everything the two methods below look up is there. */
    ghost predicate ChannelUp()
      reads this, session, upgrade
    {
      && stage == TransportReady && session != null && session.HasCiphers()
      && upgrade != null && upgrade.Valid() && upgrade.tls != null
    }

    /** The ciphers of a transport that is ready, and the connection. */
    ghost function Carriers(): set<object?>
      reads this, session, upgrade
    {
      (if session == null then {} else {session.send, session.recv})
      + (if upgrade == null then {} else {upgrade, upgrade.payloadBuffer, upgrade.tls})
    }

    /** Puts one record on the wire, in one frame once upgraded, or leaves the transport failed or the connection
        broken off with less. */
    method SendPlaintext(data: bytes, mask: bytes) returns (ok: bool)
      requires stage == TransportReady && session != null ==> session.HasCiphers()
      requires (upgrade != null ==> upgrade.Valid()) && |mask| == 4
      modifies this`stage, this`txCount, Carriers()
      ensures old(stage) != TransportReady || session == null || upgrade == null || data == [] ==>
        !ok && stage == old(stage) && txCount == old(txCount)
      ensures upgrade != null ==> upgrade.recvBuffer == old(upgrade.recvBuffer)
      ensures upgrade != null && upgrade.tls != null ==> upgrade.tls.incoming == old(upgrade.tls.incoming)
      ensures old(ChannelUp()) && data != [] ==>
        match SealRecord(session.suite.sym.aead, old(session.send.Value()), data)
        case Err(_) => !ok && stage == StageFailed && upgrade.tls.written == old(upgrade.tls.written)
        case Ok(v) =>
          && stage == TransportReady && session.send.Value() == v.0 && old(upgrade.tls.written) <= upgrade.tls.written
          && (ok <==> upgrade.tls.written == old(upgrade.tls.written)
                      + if upgrade.upgradeComplete then Frame(Record(v.1), mask, true) else Record(v.1))
    {
      hide SealRecord, Frame;
      if upgrade == null || data == [] {
        return false;
      }
      var ct;
      ok, ct := EncryptPayload(data);
      if !ok {
        return;
      }
      SealedLength(session.suite.sym.aead, old(session.send.Value()), data);
      var framed := [4, |ct| / 256 % 256, |ct| % 256] + ct;
      assert framed == Record(ct);
      ok := upgrade.WriteRaw(framed, mask);
    }

    /** One message off the channel, opened; a record that cannot be opened leaves the transport failed. */
    method ReceivePlaintext() returns (ok: bool, out: bytes)
      requires stage == TransportReady && session != null ==> session.HasCiphers()
      requires upgrade != null ==> upgrade.Valid() && (upgrade.tls != null ==> ReadsWithin(upgrade.tls.incoming, PAYLOAD_BUFFER))
      modifies this`stage, this`rxCount, Carriers()
      ensures upgrade == null || upgrade.tls == null ==> !ok && stage == old(stage)
      ensures old(stage) != TransportReady || session == null ==> !ok
      ensures upgrade != null && upgrade.tls != null ==>
        upgrade.tls.written == old(upgrade.tls.written) && ReadsWithin(upgrade.tls.incoming, PAYLOAD_BUFFER)
      ensures old(ChannelUp()) && upgrade.upgradeComplete ==>
        var r := Receive(session.suite.sym.aead, old(session.recv.Value()), old(upgrade.recvBuffer), old(upgrade.tls.incoming));
        && ok == r.ok && out == r.out && (stage == StageFailed <==> r.failed)
        && upgrade.recvBuffer == r.buffer && upgrade.tls.incoming == r.incoming
        && (ok ==> ChannelUp() && upgrade.upgradeComplete && session.recv.Value() == r.c)
    {
      hide Open, ReadFrame, ReadPlain;
      out := [];
      if upgrade == null {
        return false, [];
      }
      var framed;
      ok, framed := upgrade.ReadRaw(PAYLOAD_BUFFER);
      if !ok || framed == [] {
        return false, [];
      }
      if |framed| < 3 || framed[0] != 4 {
        stage := StageFailed;
        return false, [];
      }
      var len := framed[1] as nat * 256 + framed[2] as nat;
      if |framed| < 3 + len {
        stage := StageFailed;
        return false, [];
      }
      ok, out := DecryptPayload(framed[3..3 + len]);
      if !ok {
        out := [];
      }
    }
  }

  lemma SealedLength(a: Aead, c: Cipher, p: bytes)
    requires LawfulAead(a) && SealRecord(a, c, p).Ok?
    ensures |SealRecord(a, c, p).value.1| < TWO16
  {
  }
}
