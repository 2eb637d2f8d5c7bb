/** Two parties over any token list: every message one side manages to write, the other reads back,
    and both hold the same symmetric state throughout. */
module Agreement {
  import opened Bytes
  import opened NoiseBase
  import opened HashState
  import opened CipherState
  import opened SymmetricState
  import opened DhState
  import opened Handshake

  /** Which public keys the other side has learned: initiator and responder, ephemeral and static. */
  datatype Known = Known(ie: bool, ist: bool, re: bool, rs: bool)

  function Learn(k: Known, w: Role, t: Token): Known {
    if t == E then (if w == Initiator then k.(ie := true) else k.(re := true))
    else if t == S then (if w == Initiator then k.(ist := true) else k.(rs := true))
    else k
  }

  predicate CanMix(k: Known, t: Token) {
    && (t == EE ==> k.ie && k.re)
    && (t == ES ==> k.ie && k.rs)
    && (t == SE ==> k.ist && k.re)
    && (t == SS ==> k.ist && k.rs)
  }

  function Other(r: Role): Role { if r == Initiator then Responder else Initiator }

  /** From pos on, with w writing: static keys are sent only by a side that must have one, and every
      Diffie-Hellman token comes after both of its public keys.  A check on the pattern alone. */
  predicate Legal(tokens: seq<Token>, pos: nat, w: Role, k: Known, iStatic: bool, rStatic: bool)
    decreases |tokens| - pos
  {
    if pos >= |tokens| || tokens[pos] == End then true
    else if tokens[pos] == FlipDir then Legal(tokens, pos + 1, Other(w), k, iStatic, rStatic)
    else
      && (tokens[pos] == S ==> if w == Initiator then iStatic else rStatic)
      && CanMix(k, tokens[pos])
      && Legal(tokens, pos + 1, w, Learn(k, w, tokens[pos]), iStatic, rStatic)
  }

  predicate LegalFor(w: Party, r: Party, k: Known) {
    if w.role == Initiator
    then Legal(w.tokens, w.pos, w.role, k, w.reqs.localRequired, r.reqs.localRequired)
    else Legal(w.tokens, w.pos, w.role, k, r.reqs.localRequired, w.reqs.localRequired)
  }

  /** Own keypairs are genuine, and a required static keypair is present. */
  ghost predicate OwnKeys(z: Noise, p: Party) {
    && (HasKeypair(p.ls) ==> GoodPair(z.dh, p.ls.value))
    && (HasKeypair(p.le) ==> GoodPair(z.dh, p.le.value))
    && (p.reqs.localRequired ==> HasKeypair(p.ls))
  }

  /** Whatever public key one side holds for the other is the other's own. */
  predicate Linked(own: Option<Dh>, view: Option<Dh>) {
    && own.Some? == view.Some?
    && (HasPublic(view) ==> HasKeypair(own) && view.value.pub == own.value.pub)
  }

  predicate Knows(k: Known, i: Party, r: Party) {
    && (k.ie ==> HasPublic(r.re)) && (k.ist ==> HasPublic(r.rs))
    && (k.re ==> HasPublic(i.re)) && (k.rs ==> HasPublic(i.rs))
  }

  /** The two parties are at the same place of the same pattern with the same secrets. */
  ghost predicate InStep(z: Noise, a: Party, b: Party, k: Known) {
    && a.role != b.role
    && a.tokens == b.tokens && a.pos == b.pos && a.sym == b.sym
    && a.psk == b.psk && a.reqs.psk == b.reqs.psk
    && OwnKeys(z, a) && OwnKeys(z, b)
    && Linked(a.ls, b.rs) && Linked(a.le, b.re) && Linked(b.ls, a.rs) && Linked(b.le, a.re)
    && (if a.role == Initiator then Knows(k, a, b) else Knows(k, b, a))
  }

  /** The private keys drawn for ephemerals have the right length and no null public key. */
  ghost predicate GoodGen(z: Noise, gen: nat -> bytes) {
    forall i: nat :: |gen(i)| == z.dh.privateLen && !NullPublic(z.dh, z.dh.publicOf(gen(i)))
  }

  // One token.

  lemma EphemeralAgrees(z: Noise, w: Party, r: Party, k: Known, gen: nat -> bytes, room: nat, tail: bytes)
    requires LawfulNoise(z) && InStep(z, w, r, k) && GoodGen(z, gen)
    requires w.pos < |w.tokens| && w.tokens[w.pos] == E && WriteToken(z, w, gen, room).Ok?
    ensures var (w', m) := WriteToken(z, w, gen, room).value;
            && ReadToken(z, r, m + tail).Ok?
            && var (r', n) := ReadToken(z, r, m + tail).value;
            && n == |m| && InStep(z, w', r', Learn(k, w.role, E))
  {
    var (w', m) := WriteToken(z, w, gen, room).value;
    var pair := PairOf(z.dh, gen(w.pos));
    assert m == pair.pub && |m| == z.dh.publicLen;
    assert (m + tail)[..|m|] == m;
    WriteAdvances(z, w, gen, room);
    ReadAdvances(z, r, m + tail);
  }

  lemma StaticAgrees(z: Noise, w: Party, r: Party, k: Known, gen: nat -> bytes, room: nat, tail: bytes)
    requires LawfulNoise(z) && InStep(z, w, r, k) && w.reqs.localRequired
    requires w.pos < |w.tokens| && w.tokens[w.pos] == S && WriteToken(z, w, gen, room).Ok?
    ensures var (w', m) := WriteToken(z, w, gen, room).value;
            && ReadToken(z, r, m + tail).Ok?
            && var (r', n) := ReadToken(z, r, m + tail).value;
            && n == |m| && InStep(z, w', r', Learn(k, w.role, S))
  {
    var (w', m) := WriteToken(z, w, gen, room).value;
    EncryptThenDecrypt(z.sym, w.sym, w.ls.value.pub, room);
    assert (m + tail)[..|m|] == m;
    WriteAdvances(z, w, gen, room);
    ReadAdvances(z, r, m + tail);
  }

  lemma DhAgrees(z: Noise, w: Party, r: Party, k: Known, t: Token)
    requires LawfulNoise(z) && InStep(z, w, r, k) && IsDh(t) && CanMix(k, t)
    ensures Local(w, t).Some? && Remote(w, t).Some? && Local(r, t).Some? && Remote(r, t).Some?
    ensures Calculate(z.dh, Local(w, t).value, Remote(w, t).value)
         == Calculate(z.dh, Local(r, t).value, Remote(r, t).value)
  {
    CalculateAgrees(z.dh, Local(w, t).value, Local(r, t).value, Remote(r, t).value, Remote(w, t).value);
  }

  lemma MixAgrees(z: Noise, w: Party, r: Party, k: Known, gen: nat -> bytes, room: nat, msg: bytes)
    requires LawfulNoise(z) && InStep(z, w, r, k)
    requires w.pos < |w.tokens| && CanMix(k, w.tokens[w.pos]) && w.tokens[w.pos] != E && w.tokens[w.pos] != S
    requires WriteToken(z, w, gen, room).Ok?
    ensures ReadToken(z, r, msg).Ok?
    ensures var (w', m) := WriteToken(z, w, gen, room).value;
            var (r', n) := ReadToken(z, r, msg).value;
            n == |m| && InStep(z, w', r', k)
  {
    var t := w.tokens[w.pos];
    if IsDh(t) {
      DhAgrees(z, w, r, k, t);
    }
    WriteAdvances(z, w, gen, room);
    ReadAdvances(z, r, msg);
  }

  lemma LegalSteps(w: Party, r: Party, k: Known, w': Party, r': Party)
    requires LegalFor(w, r, k) && w.pos < |w.tokens| && !AtBoundary(w)
    requires w'.tokens == w.tokens && w'.pos == w.pos + 1 && w'.role == w.role
    requires w'.reqs == w.reqs && r'.reqs == r.reqs
    ensures LegalFor(w', r', Learn(k, w.role, w.tokens[w.pos])) && CanMix(k, w.tokens[w.pos])
    ensures w.tokens[w.pos] == S ==> w.reqs.localRequired
  {
  }

  lemma TokenAgrees(z: Noise, w: Party, r: Party, k: Known, gen: nat -> bytes, room: nat, tail: bytes)
    requires LawfulNoise(z) && InStep(z, w, r, k) && GoodGen(z, gen) && LegalFor(w, r, k)
    requires w.pos < |w.tokens| && !AtBoundary(w) && WriteToken(z, w, gen, room).Ok?
    ensures ReadToken(z, r, WriteToken(z, w, gen, room).value.1 + tail).Ok?
    ensures var (w', m) := WriteToken(z, w, gen, room).value;
            var (r', n) := ReadToken(z, r, m + tail).value;
            n == |m| && InStep(z, w', r', Learn(k, w.role, w.tokens[w.pos]))
  {
    var t := w.tokens[w.pos];
    LegalSteps(w, r, k, w.(pos := w.pos + 1), r);
    if t == E {
      EphemeralAgrees(z, w, r, k, gen, room, tail);
    } else if t == S {
      StaticAgrees(z, w, r, k, gen, room, tail);
    } else {
      MixAgrees(z, w, r, k, gen, room, WriteToken(z, w, gen, room).value.1 + tail);
    }
  }

  // One message.

  function LearnAll(k: Known, w: Role, tokens: seq<Token>, pos: nat): Known
    decreases |tokens| - pos
  {
    if pos >= |tokens| || tokens[pos] == End || tokens[pos] == FlipDir then k
    else LearnAll(Learn(k, w, tokens[pos]), w, tokens, pos + 1)
  }

  /** Both are done with the handshake, or it is the reader's turn to write. */
  predicate Handover(w: Party, r: Party, k: Known) {
    || (w.action == SplitReady && r.action == SplitReady)
    || (w.action == ReadMessage && r.action == WriteMessage && LegalFor(r, w, k))
  }

  lemma WriteUnfolds(z: Noise, w: Party, gen: nat -> bytes, room: nat)
    requires LawfulNoise(z) && !AtBoundary(w) && WriteTokens(z, w, gen, room).Ok?
    ensures w.pos < |w.tokens| && WriteToken(z, w, gen, room).Ok?
    ensures var (w1, m1) := WriteToken(z, w, gen, room).value;
            && WriteTokens(z, w1, gen, room - |m1|).Ok?
            && var (w2, m2) := WriteTokens(z, w1, gen, room - |m1|).value;
            WriteTokens(z, w, gen, room) == Ok((w2, m1 + m2))
  {
    hide WriteToken, LawfulNoise;
    WriteAdvances(z, w, gen, room);
  }

  lemma ReadUnfolds(z: Noise, r: Party, m1: bytes, rest: bytes)
    requires LawfulNoise(z) && r.pos < |r.tokens| && !AtBoundary(r)
    requires ReadToken(z, r, m1 + rest).Ok? && ReadToken(z, r, m1 + rest).value.1 == |m1|
    ensures ReadTokens(z, r, m1 + rest) == ReadTokens(z, ReadToken(z, r, m1 + rest).value.0, rest)
  {
    ReadAdvances(z, r, m1 + rest);
    assert (m1 + rest)[|m1|..] == rest;
  }

  lemma LegalTurns(w: Party, r: Party, k: Known)
    requires LegalFor(w, r, k) && AtBoundary(w) && w.tokens[w.pos] == FlipDir
    requires r.role == Other(w.role) && r.tokens == w.tokens && r.pos == w.pos
    ensures LegalFor(Turn(r, WriteMessage), Turn(w, ReadMessage), k)
  {
  }

  /** Reader and writer reach the same message boundary. */
  lemma TurnsAgree(z: Noise, w: Party, r: Party, k: Known)
    requires LawfulNoise(z) && InStep(z, w, r, k) && LegalFor(w, r, k) && AtBoundary(w)
    ensures InStep(z, Turn(w, ReadMessage), Turn(r, WriteMessage), k)
    ensures Handover(Turn(w, ReadMessage), Turn(r, WriteMessage), k)
  {
    hide LegalFor;
    if w.tokens[w.pos] == FlipDir {
      LegalTurns(w, r, k);
    }
  }

  lemma SamePlace(z: Noise, a: Party, b: Party, k: Known)
    requires InStep(z, a, b, k)
    ensures a.pos == b.pos && a.tokens == b.tokens && a.sym == b.sym
  {
  }

  /** One token on each side of a longer message. */
  lemma TokenUnfolds(z: Noise, w: Party, r: Party, k: Known, gen: nat -> bytes, room: nat, tail: bytes)
    returns (w1: Party, m1: bytes, m2: bytes, r1: Party)
    requires LawfulNoise(z) && InStep(z, w, r, k) && GoodGen(z, gen) && LegalFor(w, r, k)
    requires !AtBoundary(w) && WriteTokens(z, w, gen, room).Ok?
    ensures InStep(z, w1, r1, Learn(k, w.role, w.tokens[w.pos])) && w1.role == w.role
    ensures w1.tokens == w.tokens && w1.pos == w.pos + 1 && w1.reqs == w.reqs && r1.reqs == r.reqs
    ensures w.pos < |w.tokens| && |m1| <= room && WriteTokens(z, w1, gen, room - |m1|).Ok?
    ensures WriteTokens(z, w, gen, room) == Ok((WriteTokens(z, w1, gen, room - |m1|).value.0, m1 + m2))
    ensures m2 == WriteTokens(z, w1, gen, room - |m1|).value.1
    ensures ReadTokens(z, r, m1 + (m2 + tail)) == ReadTokens(z, r1, m2 + tail)
    ensures WriteToken(z, w, gen, room) == Ok((w1, m1)) && ReadToken(z, r, m1 + (m2 + tail)) == Ok((r1, |m1|))
  {
    hide WriteTokens, ReadTokens, WriteToken, ReadToken, InStep, LegalFor;
    SamePlace(z, w, r, k);
    WriteUnfolds(z, w, gen, room);
    WriteAdvances(z, w, gen, room);
    w1, m1 := WriteToken(z, w, gen, room).value.0, WriteToken(z, w, gen, room).value.1;
    m2 := WriteTokens(z, w1, gen, room - |m1|).value.1;
    TokenAgrees(z, w, r, k, gen, room, m2 + tail);
    ReadAdvances(z, r, m1 + (m2 + tail));
    ReadUnfolds(z, r, m1, m2 + tail);
    r1 := ReadToken(z, r, m1 + (m2 + tail)).value.0;
  }

  /** What reading the tokens of a written message comes to. */
  ghost predicate TokensRead(z: Noise, w: Party, r: Party, k: Known, gen: nat -> bytes, room: nat, tail: bytes)
    requires LawfulNoise(z) && WriteTokens(z, w, gen, room).Ok?
  {
    var (w', m) := WriteTokens(z, w, gen, room).value;
    var k' := LearnAll(k, w.role, w.tokens, w.pos);
    && ReadTokens(z, r, m + tail).Ok?
    && var (r', rest) := ReadTokens(z, r, m + tail).value;
    rest == tail && InStep(z, w', r', k') && Handover(w', r', k')
  }

  lemma BoundaryRead(z: Noise, w: Party, r: Party, k: Known, gen: nat -> bytes, room: nat, tail: bytes)
    requires LawfulNoise(z) && InStep(z, w, r, k) && LegalFor(w, r, k) && AtBoundary(w)
    requires WriteTokens(z, w, gen, room).Ok?
    ensures TokensRead(z, w, r, k, gen, room, tail)
  {
    assert WriteTokens(z, w, gen, room).value.1 + tail == tail;
    TurnsAgree(z, w, r, k);
  }

  lemma {:induction false} TokensAgree(z: Noise, w: Party, r: Party, k: Known, gen: nat -> bytes, room: nat, tail: bytes)
    requires LawfulNoise(z) && InStep(z, w, r, k) && GoodGen(z, gen) && LegalFor(w, r, k)
    requires WriteTokens(z, w, gen, room).Ok?
    ensures TokensRead(z, w, r, k, gen, room, tail)
    decreases |w.tokens| - w.pos
  {
    hide WriteTokens, ReadTokens, WriteToken, ReadToken, InStep, LegalFor, Handover, LawfulNoise, GoodGen;
    if AtBoundary(w) {
      BoundaryRead(z, w, r, k, gen, room, tail);
    } else {
      var w1, m1, m2, r1 := TokenUnfolds(z, w, r, k, gen, room, tail);
      LegalSteps(w, r, k, w1, r1);
      TokensAgree(z, w1, r1, Learn(k, w.role, w.tokens[w.pos]), gen, room - |m1|, tail);
      assert (m1 + m2) + tail == m1 + (m2 + tail);
    }
  }

  lemma InStepSymmetric(z: Noise, a: Party, b: Party, k: Known)
    requires InStep(z, a, b, k)
    ensures InStep(z, b, a, k)
  {
  }

  lemma SymIsAll(z: Noise, a: Party, b: Party, k: Known, y: Sym)
    requires InStep(z, a, b, k)
    ensures InStep(z, a.(sym := y), b.(sym := y), k)
  {
  }

  /** A message that was written is read: the payload comes back and the parties stay in step. */
  lemma MessageAgrees(z: Noise, w: Party, r: Party, k: Known, gen: nat -> bytes, room: nat, payload: bytes, payloadMax: Option<nat>)
    requires LawfulNoise(z) && InStep(z, w, r, k) && GoodGen(z, gen) && LegalFor(w, r, k)
    requires Write(z, w, gen, room, payload).Ok?
    requires payloadMax.Some? ==> |payload| <= payloadMax.value
    ensures Read(z, r, Write(z, w, gen, room, payload).value.1, payloadMax).Ok?
    ensures var (w', m) := Write(z, w, gen, room, payload).value;
            var (r', p) := Read(z, r, m, payloadMax).value;
            var k' := LearnAll(k, w.role, w.tokens, w.pos);
            p == payload && InStep(z, w', r', k') && Handover(w', r', k')
  {
    var (w1, m1) := WriteTokens(z, w, gen, room).value;
    var (w2, ct) := EncryptAndHash(z.sym, w1.sym, payload, room - |m1|).value;
    TokensAgree(z, w, r, k, gen, room, ct);
    EncryptThenDecrypt(z.sym, w1.sym, payload, room - |m1|);
    SymIsAll(z, w1, ReadTokens(z, r, m1 + ct).value.0, LearnAll(k, w.role, w.tokens, w.pos), w2);
  }

  // A whole run.

  datatype Delivery = Delivery(gen: nat -> bytes, room: nat, payload: bytes, payloadMax: Option<nat>)

  datatype Outcome =
    | Reached(writer: Party, reader: Party, received: seq<bytes>)
    | WriteRefused(error: Error)
    | ReadRefused(error: Error)

  /** Every written message is delivered to the other side, which then takes its turn. */
  ghost function Run(z: Noise, w: Party, r: Party, ds: seq<Delivery>): Outcome
    requires LawfulNoise(z)
    decreases |ds|
  {
    if ds == [] || w.action != WriteMessage then Reached(w, r, [])
    else match Write(z, w, ds[0].gen, ds[0].room, ds[0].payload)
      case Err(e) => WriteRefused(e)
      case Ok(v) =>
        match Read(z, r, v.1, ds[0].payloadMax)
        case Err(e) => ReadRefused(e)
        case Ok(u) =>
          match Run(z, u.0, v.0, ds[1..])
            case Reached(a, b, received) => Reached(a, b, [u.1] + received)
            case refused => refused
  }

  ghost predicate GoodDelivery(z: Noise, d: Delivery) {
    GoodGen(z, d.gen) && (d.payloadMax.Some? ==> |d.payload| <= d.payloadMax.value)
  }

  /** Complementary: one writes while the other reads, or both are ready to split. */
  predicate Complementary(w: Party, r: Party) {
    (w.action == WriteMessage && r.action == ReadMessage) || (w.action == SplitReady && r.action == SplitReady)
  }

  ghost predicate SomeStep(z: Noise, a: Party, b: Party) { exists k :: InStep(z, a, b, k) }

  /** The payloads received are those sent, one for each message, up to the split if that comes first. */
  predicate Recovered(out: Outcome, ds: seq<Delivery>)
    requires out.Reached?
  {
    && |out.received| <= |ds| && (|out.received| < |ds| ==> out.writer.action == SplitReady)
    && (forall i :: 0 <= i < |out.received| ==> out.received[i] == ds[i].payload)
  }

  /** No read is ever refused; each payload arrives as sent; the parties end in step, and they reach the
      split together. */
  lemma {:induction false} RunAgrees(z: Noise, w: Party, r: Party, k: Known, ds: seq<Delivery>)
    requires LawfulNoise(z) && InStep(z, w, r, k)
    requires Complementary(w, r) && (w.action == WriteMessage ==> LegalFor(w, r, k))
    requires forall i :: 0 <= i < |ds| ==> GoodDelivery(z, ds[i])
    ensures var out := Run(z, w, r, ds);
            && !out.ReadRefused?
            && (out.Reached? ==> SomeStep(z, out.writer, out.reader) && Complementary(out.writer, out.reader)
                                 && Recovered(out, ds))
    decreases |ds|
  {
    hide Write, Read, InStep, LegalFor;
    if ds != [] && w.action == WriteMessage && Write(z, w, ds[0].gen, ds[0].room, ds[0].payload).Ok? {
      var d := ds[0];
      MessageAgrees(z, w, r, k, d.gen, d.room, d.payload, d.payloadMax);
      var (w', m) := Write(z, w, d.gen, d.room, d.payload).value;
      var (r', p) := Read(z, r, m, d.payloadMax).value;
      InStepSymmetric(z, w', r', LearnAll(k, w.role, w.tokens, w.pos));
      RunAgrees(z, r', w', LearnAll(k, w.role, w.tokens, w.pos), ds[1..]);
    }
  }

  /** Parties in step that split hold matched transport ciphers. */
  lemma SplitMatches(z: Noise, a: Party, b: Party, k: Known)
    requires LawfulNoise(z) && InStep(z, a, b, k)
    ensures SplitFor(z, a).0 == SplitFor(z, b).1 && SplitFor(z, a).1 == SplitFor(z, b).0
  {
  }

  // The beginning.

  /** Fresh parties of opposite roles for one pattern: same name, prologue and PSK, requirements mirrored,
      and each pre-message key on one side is the other side's own. */
  ghost predicate Configured(z: Noise, i: Party, r: Party) {
    && i.role == Initiator && r.role == Responder && i.action == Idle && r.action == Idle
    && i.tokens == r.tokens && i.pos == r.pos && i.sym == r.sym && i.prologue == r.prologue
    && i.psk == r.psk && i.reqs.psk == r.reqs.psk
    && i.reqs.localPremsg == r.reqs.remotePremsg && i.reqs.remotePremsg == r.reqs.localPremsg
    && (i.reqs.localPremsg ==> i.reqs.localRequired && r.reqs.remoteRequired)
    && (r.reqs.localPremsg ==> r.reqs.localRequired && i.reqs.remoteRequired)
    && (HasKeypair(i.ls) ==> GoodPair(z.dh, i.ls.value)) && (HasKeypair(r.ls) ==> GoodPair(z.dh, r.ls.value))
    && (i.le.Some? ==> i.le.value.keyType == NoKey) && (r.le.Some? ==> r.le.value.keyType == NoKey)
    && Linked(i.ls, r.rs) && Linked(i.le, r.re) && Linked(r.ls, i.rs) && Linked(r.le, i.re)
  }

  /** What the pre-messages make known. */
  function Premsgs(i: Party): Known { Known(false, i.reqs.localPremsg, false, i.reqs.remotePremsg) }

  lemma StartAgrees(z: Noise, i: Party, r: Party)
    requires LawfulNoise(z) && Configured(z, i, r) && Start(z, i).Ok? && Start(z, r).Ok?
    ensures InStep(z, Start(z, i).value, Start(z, r).value, Premsgs(i))
    ensures Complementary(Start(z, i).value, Start(z, r).value)
  {
  }

  /** The whole handshake, from start to matched transport ciphers. */
  lemma HandshakeAgrees(z: Noise, i: Party, r: Party, ds: seq<Delivery>)
    requires LawfulNoise(z) && Configured(z, i, r) && Start(z, i).Ok? && Start(z, r).Ok?
    requires Legal(i.tokens, i.pos, Initiator, Premsgs(i), i.reqs.localRequired, r.reqs.localRequired)
    requires forall n :: 0 <= n < |ds| ==> GoodDelivery(z, ds[n])
    ensures var out := Run(z, Start(z, i).value, Start(z, r).value, ds);
            && !out.ReadRefused?
            && (out.Reached? ==>
                  && Recovered(out, ds) && Complementary(out.writer, out.reader)
                  && out.writer.sym == out.reader.sym
                  && SplitFor(z, out.writer).0 == SplitFor(z, out.reader).1
                  && SplitFor(z, out.writer).1 == SplitFor(z, out.reader).0)
  {
    var i', r' := Start(z, i).value, Start(z, r).value;
    StartAgrees(z, i, r);
    RunAgrees(z, i', r', Premsgs(i), ds);
    var out := Run(z, i', r', ds);
    if out.Reached? {
      var k :| InStep(z, out.writer, out.reader, k);
      SplitMatches(z, out.writer, out.reader, k);
    }
  }

  // What goes wrong outside the conditions above.

  /** A null ephemeral is refused by whoever reads it. */
  lemma NullEphemeralRefused(z: Noise, p: Party, pub: bytes, tail: bytes)
    requires LawfulNoise(z) && p.pos < |p.tokens| && p.tokens[p.pos] == E && p.re.Some?
    requires |pub| == z.dh.publicLen && NullPublic(z.dh, pub)
    ensures ReadToken(z, p, pub + tail) == Err(InvalidPublicKey)
  {
    assert (pub + tail)[..|pub|] == pub;
  }

  predicate InSegment(tokens: seq<Token>, pos: nat, i: nat) {
    pos <= i < |tokens| && forall j :: pos <= j <= i ==> tokens[j] != End && tokens[j] != FlipDir
  }

  /** Reading needs a private key at every Diffie-Hellman token: whatever the message, a reader whose own key
      object is not a keypair fails. */
  lemma {:induction false} ReadNeedsPrivateKeys(z: Noise, p: Party, msg: bytes, i: nat)
    requires LawfulNoise(z)
    requires InSegment(p.tokens, p.pos, i) && IsDh(p.tokens[i]) && !HasKeypair(Local(p, p.tokens[i]))
    ensures ReadTokens(z, p, msg).Err?
    decreases |p.tokens| - p.pos
  {
    if p.pos < i && ReadToken(z, p, msg).Ok? {
      var (q, n) := ReadToken(z, p, msg).value;
      ReadAdvances(z, p, msg);
      ReadNeedsPrivateKeys(z, q, msg[n..], i);
    }
  }

  /** The pattern e, ee: the initiator writes its message, mixing with a responder key it has never seen,
      and no responder that has drawn no ephemeral of its own can read it. */
  lemma EarlyDhStrandsTheReader(z: Noise, w: Party, r: Party, gen: nat -> bytes, payload: bytes)
    requires LawfulNoise(z) && z.dh.nullsAllowed
    requires w.tokens == r.tokens == [E, EE, End] && w.pos == r.pos == 0 && !w.reqs.psk
    requires w.le.Some? && w.re == Some(Cleared(z.dh)) && w.sym.c == EMPTY && |gen(0)| == z.dh.privateLen
    requires r.le.Some? && r.le.value.keyType == NoKey
    ensures var room := z.dh.publicLen;
            && WriteTokens(z, w, gen, room).Ok?
            && Read(z, r, WriteTokens(z, w, gen, room).value.1 + payload, None).Err?
            && !Legal(w.tokens, 0, Initiator, Known(false, false, false, false), false, false)
  {
    EarlyDhWrites(z, w, gen);
    assert InSegment(r.tokens, 0, 1);
    ReadNeedsPrivateKeys(z, r, WriteTokens(z, w, gen, z.dh.publicLen).value.1 + payload, 1);
  }

  /** Nor is the condition necessary: under the pattern s alone a side without a static key sends the null key, and the
      other side takes it. */
  lemma UnsetStaticIsSent(z: Noise, w: Party, r: Party, gen: nat -> bytes)
    requires LawfulNoise(z) && z.dh.nullsAllowed && w.tokens == r.tokens == [S, End] && w.pos == r.pos == 0
    requires w.ls == Some(Cleared(z.dh)) && r.rs.Some? && w.sym == r.sym && w.sym.c == EMPTY
    requires z.dh.publicLen <= NOISE_MAX_PAYLOAD_LEN
    ensures var room := z.dh.publicLen;
            && !Legal(w.tokens, 0, Initiator, Known(false, false, false, false), false, false)
            && Write(z, w, gen, room, []).Ok?
            && var (w', m) := Write(z, w, gen, room, []).value;
            && Read(z, r, m, None).Ok? && Read(z, r, m, None).value.1 == [] && Read(z, r, m, None).value.0.sym == w'.sym
            && w'.action == Read(z, r, m, None).value.0.action == SplitReady
  {
    UnsetWrites(z, w, gen);
    UnsetReads(z, r);
  }

  lemma UnsetWrites(z: Noise, w: Party, gen: nat -> bytes)
    requires LawfulNoise(z) && w.tokens == [S, End] && w.pos == 0 && w.ls == Some(Cleared(z.dh)) && w.sym.c == EMPTY
    requires z.dh.publicLen <= NOISE_MAX_PAYLOAD_LEN
    ensures var pub := Zeros(z.dh.publicLen);
            Write(z, w, gen, z.dh.publicLen, [])
            == Ok((w.(pos := 1, action := SplitReady, sym := MixHash(z.sym, MixHash(z.sym, w.sym, pub), [])), pub))
  {
    hide MixHash;
    var room := z.dh.publicLen;
    var pub := Zeros(room);
    var w1 := w.(pos := 1, sym := MixHash(z.sym, w.sym, pub));
    assert WriteToken(z, w, gen, room) == Ok((w1, pub)) by { HashKeepsCipher(z, w.sym, pub); }
    WriteAdvances(z, w, gen, room);
    assert WriteTokens(z, w1, gen, 0) == Ok((w1.(action := SplitReady), []));
    assert pub + [] == pub;
    HashKeepsCipher(z, w.sym, pub);
  }

  lemma HashKeepsCipher(z: Noise, y: Sym, input: bytes)
    ensures MixHash(z.sym, y, input).c == y.c && y.(c := y.c) == y
  {
  }

  lemma UnsetReads(z: Noise, r: Party)
    requires LawfulNoise(z) && z.dh.nullsAllowed && r.tokens == [S, End] && r.pos == 0 && r.rs.Some? && r.sym.c == EMPTY
    requires z.dh.publicLen <= NOISE_MAX_PAYLOAD_LEN
    ensures var pub := Zeros(z.dh.publicLen);
            Read(z, r, pub, None)
            == Ok((r.(pos := 1, action := SplitReady, sym := MixHash(z.sym, MixHash(z.sym, r.sym, pub), []),
                      rs := Some(Dh(PublicOnly, Zeros(z.dh.privateLen), pub))), []))
  {
    hide MixHash;
    var room := z.dh.publicLen;
    var pub := Zeros(room);
    var r1 := r.(pos := 1, sym := MixHash(z.sym, r.sym, pub), rs := Some(Dh(PublicOnly, Zeros(z.dh.privateLen), pub)));
    assert pub[..room] == pub && pub[room..] == [];
    HashKeepsCipher(z, r.sym, pub);
    assert ReadToken(z, r, pub) == Ok((r1, room));
    ReadAdvances(z, r, pub);
    assert ReadTokens(z, r1, []) == Ok((r1.(action := SplitReady), []));
  }

  /** The ephemeral is written, and mixing it with a null key goes through. */
  lemma EarlyDhWrites(z: Noise, w: Party, gen: nat -> bytes)
    requires LawfulNoise(z) && z.dh.nullsAllowed && w.tokens == [E, EE, End] && w.pos == 0 && !w.reqs.psk
    requires w.le.Some? && w.re == Some(Cleared(z.dh)) && w.sym.c == EMPTY && |gen(0)| == z.dh.privateLen
    ensures WriteTokens(z, w, gen, z.dh.publicLen).Ok?
  {
    var room := z.dh.publicLen;
    WriteAdvances(z, w, gen, room);
    var (w1, m1) := WriteToken(z, w, gen, room).value;
    assert w1.re == w.re && Local(w1, EE) == w1.le;
    assert |m1| == room && w1.tokens[1] == EE && w1.pos == 1;
    WriteAdvances(z, w1, gen, 0);
    var (w2, m2) := WriteToken(z, w1, gen, 0).value;
    hide WriteToken, LawfulNoise;
    assert AtBoundary(w2) && WriteTokens(z, w2, gen, 0).Ok?;
    assert WriteTokens(z, w1, gen, 0).Ok?;
  }
}
