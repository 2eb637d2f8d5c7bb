/** When a handshake in noise/src/protocol/handshakestate.c gets to its end: with the keys loaded, the PSK set and room
    enough, no message is refused and both sides reach the split. */
module Progress {
  import opened Bytes
  import opened NoiseBase
  import opened HashState
  import opened CipherState
  import opened SymmetricState
  import opened DhState
  import opened Handshake
  import opened Agreement
  import opened Patterns

  /** No key agreement fails on keys that belong to private keys. */
  ghost predicate Total(d: DhAlg) { forall k, l :: d.agree(k, d.publicOf(l)).Some? }

  /** From pos on, with w writing: the list ends, its tokens are known, and there are objects for the ephemerals it sends
      and a PSK if it wants one. */
  predicate Supplied(tokens: seq<Token>, pos: nat, w: Role, iEph: bool, rEph: bool, psk: bool)
    decreases |tokens| - pos
  {
    pos < |tokens| &&
    (tokens[pos] == End ||
     (&& tokens[pos] != Unknown && (tokens[pos] == Psk ==> psk) && (tokens[pos] == E ==> if w == Initiator then iEph else rEph)
      && Supplied(tokens, pos + 1, if tokens[pos] == FlipDir then Other(w) else w, iEph, rEph, psk)))
  }

  /** As one party sees it: the other side's ephemeral is the one it has an object for. */
  predicate SuppliedFor(p: Party, w: Role) {
    Supplied(p.tokens, p.pos, w, if p.role == Initiator then p.le.Some? else p.re.Some?,
             if p.role == Initiator then p.re.Some? else p.le.Some?, p.psk != [])
  }

  /** There are nonces for all the tokens to come. */
  predicate NoncesLeft(p: Party) { p.sym.c.n + |p.tokens| <= NONCE_RESERVED + p.pos }

  /** The most that a token adds to a message. */
  function Piece(z: Noise): nat { z.dh.publicLen + z.sym.aead.macLen }

  /** The messages from pos on. */
  function Turns(tokens: seq<Token>, pos: nat): (n: nat)
    ensures n > 0
    decreases |tokens| - pos
  {
    if pos >= |tokens| || tokens[pos] == End then 1
    else (if tokens[pos] == FlipDir then 1 else 0) + Turns(tokens, pos + 1)
  }

  // One token.

  /** Writing keeps what the condition is about. */
  lemma WriteKeeps(z: Noise, p: Party, gen: nat -> bytes, room: nat)
    requires LawfulNoise(z) && p.pos < |p.tokens| && WriteToken(z, p, gen, room).Ok?
    ensures var q := WriteToken(z, p, gen, room).value.0;
            q.le.Some? == p.le.Some? && q.re == p.re && q.psk == p.psk && q.sym.c.n <= p.sym.c.n + 1
  {
    NonceSteps(z, p, room);
  }

  lemma NonceSteps(z: Noise, p: Party, room: nat)
    requires LawfulNoise(z)
    ensures forall input: bytes :: MixKey(z.sym, p.sym, input).c.n <= p.sym.c.n
    ensures forall input: bytes :: MixKeyAndHash(z.sym, p.sym, input).c.n <= p.sym.c.n
    ensures forall pub: bytes, psk: bool :: MixEphemeral(z, p.sym, psk, pub).c.n <= p.sym.c.n
    ensures forall plain: bytes :: EncryptAndHash(z.sym, p.sym, plain, room).Ok? ==>
              EncryptAndHash(z.sym, p.sym, plain, room).value.0.c.n <= p.sym.c.n + 1
  {
  }

  lemma MixGoes(z: Noise, w: Party, r: Party, k: Known, t: Token)
    requires LawfulNoise(z) && Total(z.dh) && InStep(z, w, r, k) && IsDh(t) && CanMix(k, t)
    ensures MixDh(z, w, t).Ok?
  {
    DhAgrees(z, w, r, k, t);
  }

  lemma TokenGoes(z: Noise, w: Party, r: Party, k: Known, gen: nat -> bytes, room: nat)
    requires LawfulNoise(z) && Total(z.dh) && InStep(z, w, r, k) && GoodGen(z, gen) && LegalFor(w, r, k)
    requires SuppliedFor(w, w.role) && NoncesLeft(w) && !AtBoundary(w)
    requires Piece(z) <= room && Piece(z) <= NOISE_MAX_PAYLOAD_LEN
    ensures w.pos < |w.tokens| && WriteToken(z, w, gen, room).Ok?
    ensures |WriteToken(z, w, gen, room).value.1| <= Piece(z)
  {
    var t := w.tokens[w.pos];
    LegalSteps(w, r, k, w.(pos := w.pos + 1), r);
    if t == S {
      EncryptFailsOnlyWhen(z.sym, w.sym, w.ls.value.pub, room);
      EncryptThenDecrypt(z.sym, w.sym, w.ls.value.pub, room);
    } else if IsDh(t) {
      MixGoes(z, w, r, k, t);
    }
  }

  // One message.

  /** What writing the tokens of a message leads to. */
  ghost predicate TokensGone(z: Noise, w: Party, gen: nat -> bytes, room: nat)
    requires LawfulNoise(z)
  {
    && WriteTokens(z, w, gen, room).Ok?
    && var (w', m) := WriteTokens(z, w, gen, room).value;
    && |m| <= (|w.tokens| - w.pos) * Piece(z) && w'.sym.c.n < NONCE_RESERVED && w'.role == w.role && w'.tokens == w.tokens
    && (w'.action == ReadMessage ==>
          && SuppliedFor(w', Other(w.role)) && w'.sym.c.n + 1 + |w'.tokens| <= NONCE_RESERVED + w'.pos
          && Turns(w.tokens, w.pos) == 1 + Turns(w'.tokens, w'.pos))
    && (w'.action == ReadMessage || (w'.action == SplitReady && Turns(w.tokens, w.pos) == 1))
  }

  lemma {:induction false} TokensGo(z: Noise, w: Party, r: Party, k: Known, gen: nat -> bytes, room: nat)
    requires LawfulNoise(z) && Total(z.dh) && InStep(z, w, r, k) && GoodGen(z, gen) && LegalFor(w, r, k)
    requires SuppliedFor(w, w.role) && NoncesLeft(w)
    requires (|w.tokens| - w.pos) * Piece(z) <= room && Piece(z) <= NOISE_MAX_PAYLOAD_LEN
    ensures TokensGone(z, w, gen, room)
    decreases |w.tokens| - w.pos
  {
    hide WriteToken, ReadToken, InStep, LegalFor, LawfulNoise, Total, GoodGen, TokensGone, NoncesLeft, SuppliedFor, Piece;
    SamePlace(z, w, r, k);
    MoreToCome(w);
    PiecesFit(|w.tokens| - w.pos, Piece(z));
    if AtBoundary(w) {
      BoundaryGoes(z, w, gen, room);
    } else {
      TokenGoes(z, w, r, k, gen, room);
      WriteKeeps(z, w, gen, room);
      WriteAdvances(z, w, gen, room);
      TokenAgrees(z, w, r, k, gen, room, []);
      var (w1, m1) := WriteToken(z, w, gen, room).value;
      ReadAdvances(z, r, m1 + []);
      var r1 := ReadToken(z, r, m1 + []).value.0;
      LegalSteps(w, r, k, w1, r1);
      StillSupplied(w, w1);
      TokensGo(z, w1, r1, Learn(k, w.role, w.tokens[w.pos]), gen, room - |m1|);
      GoneBefore(z, w, gen, room);
    }
  }

  lemma MoreToCome(w: Party)
    requires SuppliedFor(w, w.role)
    ensures w.pos < |w.tokens|
  {
  }

  lemma BoundaryGoes(z: Noise, w: Party, gen: nat -> bytes, room: nat)
    requires LawfulNoise(z) && w.pos < |w.tokens| && AtBoundary(w) && SuppliedFor(w, w.role) && NoncesLeft(w)
    ensures TokensGone(z, w, gen, room)
  {
    hide LawfulNoise, WriteToken;
    PiecesFit(|w.tokens| - w.pos, Piece(z));
  }

  lemma StillSupplied(w: Party, w1: Party)
    requires SuppliedFor(w, w.role) && NoncesLeft(w) && !AtBoundary(w) && w.pos < |w.tokens|
    requires w1.role == w.role && w1.tokens == w.tokens && w1.pos == w.pos + 1 && w1.le.Some? == w.le.Some? && w1.re == w.re
    requires w1.psk == w.psk && w1.sym.c.n <= w.sym.c.n + 1
    ensures SuppliedFor(w1, w1.role) && NoncesLeft(w1)
  {
  }

  /** A token in front of those that were written. */
  lemma GoneBefore(z: Noise, w: Party, gen: nat -> bytes, room: nat)
    requires LawfulNoise(z) && w.pos < |w.tokens| && !AtBoundary(w) && WriteToken(z, w, gen, room).Ok?
    requires var (w1, m1) := WriteToken(z, w, gen, room).value;
             && |m1| <= Piece(z) && |m1| <= room && w1.role == w.role && w1.tokens == w.tokens && w1.pos == w.pos + 1
             && TokensGone(z, w1, gen, room - |m1|)
    ensures TokensGone(z, w, gen, room)
  {
    hide WriteToken, LawfulNoise, Piece, SuppliedFor;
    PiecesFit(|w.tokens| - w.pos, Piece(z));
  }

  lemma PiecesFit(n: nat, piece: nat)
    ensures n > 0 ==> n * piece == piece + (n - 1) * piece
    ensures n * piece >= 0
  {
  }

  /** Room for every token and the payload, which is short enough to be sealed. */
  predicate Ample(z: Noise, tokens: seq<Token>, d: Delivery) {
    && |tokens| * Piece(z) + |d.payload| + z.sym.aead.macLen <= d.room
    && |d.payload| + z.sym.aead.macLen <= NOISE_MAX_PAYLOAD_LEN && Piece(z) <= NOISE_MAX_PAYLOAD_LEN
  }

  lemma MessageGoes(z: Noise, w: Party, r: Party, k: Known, d: Delivery)
    requires LawfulNoise(z) && Total(z.dh) && InStep(z, w, r, k) && GoodGen(z, d.gen) && LegalFor(w, r, k)
    requires SuppliedFor(w, w.role) && NoncesLeft(w) && Ample(z, w.tokens, d)
    ensures Write(z, w, d.gen, d.room, d.payload).Ok?
    ensures var w' := Write(z, w, d.gen, d.room, d.payload).value.0;
            && w'.tokens == w.tokens && w'.role == w.role
            && (w'.action == ReadMessage ==>
                  SuppliedFor(w', Other(w.role)) && NoncesLeft(w') && Turns(w.tokens, w.pos) == 1 + Turns(w'.tokens, w'.pos))
            && (w'.action == ReadMessage || (w'.action == SplitReady && Turns(w.tokens, w.pos) == 1))
  {
    hide WriteTokens, InStep, LegalFor, LawfulNoise, Total, GoodGen, EncryptAndHash;
    FewerPieces(|w.tokens| - w.pos, |w.tokens|, Piece(z));
    TokensGo(z, w, r, k, d.gen, d.room);
    var (w1, m1) := WriteTokens(z, w, d.gen, d.room).value;
    EncryptSteps(z, w1.sym, d.payload, d.room - |m1|);
  }

  lemma FewerPieces(n: nat, m: nat, piece: nat)
    requires n <= m
    ensures n * piece <= m * piece
  {
  }

  lemma EncryptSteps(z: Noise, y: Sym, p: bytes, room: nat)
    requires LawfulNoise(z) && y.c.n < NONCE_RESERVED
    requires |p| + z.sym.aead.macLen <= room && |p| + z.sym.aead.macLen <= NOISE_MAX_PAYLOAD_LEN
    ensures EncryptAndHash(z.sym, y, p, room).Ok? && EncryptAndHash(z.sym, y, p, room).value.0.c.n <= y.c.n + 1
    ensures MacLen(z.sym, y) <= z.sym.aead.macLen
  {
    EncryptFailsOnlyWhen(z.sym, y, p, room);
  }

  // A whole run.

  /** What one side of a turn knows of the condition the other knows too. */
  lemma SuppliedBoth(z: Noise, w: Party, r: Party, k: Known, writer: Role)
    requires InStep(z, w, r, k) && SuppliedFor(w, writer) && NoncesLeft(w)
    ensures SuppliedFor(r, writer) && NoncesLeft(r) && r.role == Other(w.role) && r.tokens == w.tokens && r.pos == w.pos
  {
  }

  /** No message is refused; with as many deliveries as there are messages both sides are ready to split. */
  lemma {:induction false} RunReaches(z: Noise, w: Party, r: Party, k: Known, ds: seq<Delivery>)
    requires LawfulNoise(z) && Total(z.dh) && InStep(z, w, r, k) && Complementary(w, r)
    requires w.action == WriteMessage ==> LegalFor(w, r, k) && SuppliedFor(w, w.role) && NoncesLeft(w)
    requires forall i :: 0 <= i < |ds| ==> GoodDelivery(z, ds[i]) && Ample(z, w.tokens, ds[i])
    ensures var out := Run(z, w, r, ds);
            out.Reached? && (|ds| >= Turns(w.tokens, w.pos) || w.action == SplitReady ==> out.writer.action == SplitReady)
    decreases |ds|
  {
    hide Write, Read, InStep, LegalFor, SuppliedFor, NoncesLeft, Ample, Turns, Total, LawfulNoise;
    if ds != [] && w.action == WriteMessage {
      var d := ds[0];
      MessageGoes(z, w, r, k, d);
      MessageAgrees(z, w, r, k, d.gen, d.room, d.payload, d.payloadMax);
      var (w', m) := Write(z, w, d.gen, d.room, d.payload).value;
      var (r', p) := Read(z, r, m, d.payloadMax).value;
      var k' := LearnAll(k, w.role, w.tokens, w.pos);
      SamePlace(z, w', r', k');
      InStepSymmetric(z, w', r', k');
      if w'.action == ReadMessage {
        SuppliedBoth(z, w', r', k', Other(w.role));
      }
      RunReaches(z, r', w', k', ds[1..]);
    }
  }

  /** The whole handshake goes through to matched transport ciphers. */
  lemma HandshakeReaches(z: Noise, i: Party, r: Party, ds: seq<Delivery>)
    requires LawfulNoise(z) && Total(z.dh) && Configured(z, i, r) && Start(z, i).Ok? && Start(z, r).Ok?
    requires Legal(i.tokens, i.pos, Initiator, Premsgs(i), i.reqs.localRequired, r.reqs.localRequired)
    requires Supplied(i.tokens, i.pos, Initiator, i.le.Some?, r.le.Some?, i.psk != []) && NoncesLeft(i)
    requires forall n :: 0 <= n < |ds| ==> GoodDelivery(z, ds[n]) && Ample(z, i.tokens, ds[n])
    requires |ds| >= Turns(i.tokens, i.pos)
    ensures var out := Run(z, Start(z, i).value, Start(z, r).value, ds);
            && out.Reached? && Recovered(out, ds)
            && out.writer.action == out.reader.action == SplitReady
            && SplitFor(z, out.writer).0 == SplitFor(z, out.reader).1
            && SplitFor(z, out.writer).1 == SplitFor(z, out.reader).0
  {
    hide Run, Legal, Supplied, Turns, Ample, Total, SplitFor, Recovered;
    var i', r' := Start(z, i).value, Start(z, r).value;
    StartAgrees(z, i, r);
    StartKeeps(z, i, r);
    RunReaches(z, i', r', Premsgs(i), ds);
    HandshakeAgrees(z, i, r, ds);
  }

  lemma StartKeeps(z: Noise, i: Party, r: Party)
    requires LawfulNoise(z) && Configured(z, i, r) && Start(z, i).Ok? && Start(z, r).Ok?
    requires Legal(i.tokens, i.pos, Initiator, Premsgs(i), i.reqs.localRequired, r.reqs.localRequired)
    requires Supplied(i.tokens, i.pos, Initiator, i.le.Some?, r.le.Some?, i.psk != []) && NoncesLeft(i)
    ensures var i', r' := Start(z, i).value, Start(z, r).value;
            && LegalFor(i', r', Premsgs(i)) && SuppliedFor(i', Initiator) && NoncesLeft(i')
            && i'.role == Initiator && i'.action == WriteMessage && i'.tokens == i.tokens && i'.pos == i.pos
  {
    hide Legal, Supplied;
  }

  // The patterns of the table.

  /** A list of known tokens that ends, if the responder has an ephemeral wherever it may get to write. */
  lemma {:induction false} SuppliedSimply(tokens: seq<Token>, pos: nat, w: Role, rEph: bool, psk: bool)
    requires pos < |tokens| && Ends(tokens) && Unknown !in tokens && (Psk in tokens ==> psk)
    requires rEph || (FlipDir !in tokens && w == Initiator)
    ensures Supplied(tokens, pos, w, true, rEph, psk)
    decreases |tokens| - pos
  {
    if tokens[pos] != End {
      SuppliedSimply(tokens, pos + 1, if tokens[pos] == FlipDir then Other(w) else w, rEph, psk);
    }
  }

  lemma {:induction false} ExpandAllShort(input: seq<Token>, psks: seq<nat>)
    requires HEADER + |input| <= MAX_TOKENS && ExpandAll(input, psks).Expanded?
    ensures HEADER + |ExpandAll(input, psks).tokens| <= MAX_TOKENS
    decreases |psks|
  {
    if psks != [] {
      hide Expand;
      ExpandShort(input, psks[0]);
      ExpandAllShort(Expand(input, psks[0]).tokens, psks[1..]);
    }
  }

  lemma ExpandShort(input: seq<Token>, n: nat)
    requires Expand(input, n).Expanded?
    ensures HEADER + |Expand(input, n).tokens| <= MAX_TOKENS
  {
  }

  /** Only a one-way pattern does without a responder's ephemeral. */
  lemma BaseEphemerals(n: Name)
    ensures var p := Lookup(n);
            && p.flags.le && (FlipDir in p.tokens ==> p.flags.re) && HEADER + |p.tokens| <= MAX_TOKENS
            && Unknown !in p.tokens && Psk !in p.tokens
  {
  }

  /** Every base pattern with any pskN modifiers that expand, between parties with the objects its flags call for and a
      PSK if it wants one. */
  lemma PatternReaches(z: Noise, i: Party, r: Party, n: Name, psks: seq<nat>, ds: seq<Delivery>)
    requires LawfulNoise(z) && Total(z.dh) && Follows(z, i, r, n, psks) && Start(z, i).Ok? && Start(z, r).Ok?
    requires i.le.Some? == Lookup(n).flags.le && r.le.Some? == Lookup(n).flags.re && (psks != [] ==> i.psk != [])
    requires i.sym.c.n == 0 && |ds| >= Turns(i.tokens, i.pos)
    requires forall m :: 0 <= m < |ds| ==> GoodDelivery(z, ds[m]) && Ample(z, i.tokens, ds[m])
    ensures var out := Run(z, Start(z, i).value, Start(z, r).value, ds);
            && out.Reached? && Recovered(out, ds)
            && out.writer.action == out.reader.action == SplitReady
            && SplitFor(z, out.writer).0 == SplitFor(z, out.reader).1
            && SplitFor(z, out.writer).1 == SplitFor(z, out.reader).0
  {
    hide Lookup, LegalList, ExpandAll, Run, Start, SplitFor, Recovered, Legal, Supplied, Turns, Ample, Total;
    var p := Lookup(n);
    BaseEphemerals(n);
    ExpandLegal(n, psks);
    ExpandAllShort(p.tokens, psks);
    NoPsk(p.tokens);
    assert i.tokens[0..] == i.tokens;
    LegalOnLists(i.tokens, 0, Initiator, Patterns.Fresh(p.flags), p.flags.ls || p.flags.lr, p.flags.rs || p.flags.rr);
    SuppliedSimply(i.tokens, 0, Initiator, r.le.Some?, i.psk != []);
    HandshakeReaches(z, i, r, ds);
  }

  lemma NoPsk(input: seq<Token>)
    ensures ExpandAll(input, []) == Expanded(input)
  {
  }
}
