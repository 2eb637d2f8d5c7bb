/** What a handshake under noise/src/protocol/handshakestate.c comes to: its keys, its hash and the bytes on the wire,
    from the token list, the parties' key material and the payloads alone, as in section 5 of the Noise Protocol
    Framework; and that nothing of these can differ without the hash showing it. */
module Transcript {
  import opened Bytes
  import opened NoiseBase
  import opened HashState
  import opened CipherState
  import opened SymmetricState
  import opened DhState
  import opened Handshake
  import opened Agreement

  // What is done to the symmetric state, one thing at a time.

  /** Hash: both sides know it already.  Send: in the clear.  Seal: encrypted once there is a key.  MixIn: a secret.
      MixBoth: a secret that goes into the hash as well. */
  datatype Act = Hash(data: bytes) | Send(data: bytes) | Seal(plain: bytes) | MixIn(secret: bytes) | MixBoth(secret: bytes)

  /** Output i of HKDF(ck, secret), section 4.3 of the Noise Protocol Framework, in terms of HMAC. */
  ghost function Derived(h: HashAlg, ck: bytes, secret: bytes, i: nat): (r: bytes)
    requires LawfulHash(h) && 1 <= i <= 3
    ensures |r| == h.hashLen
  {
    var temp := Hmac(h, ck, secret);
    var first := Hmac(h, temp, [1]);
    var second := Hmac(h, temp, first + [2]);
    if i == 1 then first else if i == 2 then second else Hmac(h, temp, second + [3])
  }

  /** The bytes an act puts on the wire. */
  function OnWire(s: Suite, y: Sym, a: Act): bytes {
    match a
    case Send(data) => data
    case Seal(plain) => if y.c.hasKey then s.aead.seal(y.c.key, y.c.n, y.h, plain) else plain
    case _ => []
  }

  ghost function Do(s: Suite, y: Sym, a: Act): (r: Sym)
    requires LawfulSuite(s)
  {
    match a
    case Hash(data) => y.(h := s.hash.digest(y.h + data))
    case Send(data) => y.(h := s.hash.digest(y.h + data))
    case Seal(plain) =>
      Sym(y.ck, s.hash.digest(y.h + OnWire(s, y, a)), if y.c.hasKey then Cipher(true, y.c.key, y.c.n + 1) else y.c)
    case MixIn(secret) =>
      Sym(Derived(s.hash, y.ck, secret, 1), y.h, Cipher(true, Derived(s.hash, y.ck, secret, 2)[..s.aead.keyLen], 0))
    case MixBoth(secret) =>
      Sym(Derived(s.hash, y.ck, secret, 1), s.hash.digest(y.h + Derived(s.hash, y.ck, secret, 2)),
          Cipher(true, Derived(s.hash, y.ck, secret, 3)[..s.aead.keyLen], 0))
  }

  ghost function After(s: Suite, y: Sym, acts: seq<Act>): Sym
    requires LawfulSuite(s)
    decreases |acts|
  {
    if acts == [] then y else After(s, Do(s, y, acts[0]), acts[1..])
  }

  ghost function Wire(s: Suite, y: Sym, acts: seq<Act>): bytes
    requires LawfulSuite(s)
    decreases |acts|
  {
    if acts == [] then [] else OnWire(s, y, acts[0]) + Wire(s, Do(s, y, acts[0]), acts[1..])
  }

  // What a token list calls for.

  /** The private keys of the initiator and the responder, static and ephemeral, and the PSK. */
  datatype Material = Material(ist: bytes, ie: bytes, rst: bytes, re: bytes, psk: bytes)

  /** EE, ES, SE, SS: the initiator's key of the first letter with the responder's of the second. */
  function Secret(d: DhAlg, m: Material, t: Token): Option<bytes> {
    d.agree(if t == EE || t == ES then m.ie else m.ist, d.publicOf(if t == EE || t == SE then m.re else m.rst))
  }

  function Drawn(m: Material, w: Role, priv: bytes): Material { if w == Initiator then m.(ie := priv) else m.(re := priv) }

  function Static(m: Material, w: Role): bytes { if w == Initiator then m.ist else m.rst }

  /** One token, written by w; priv is the ephemeral drawn for it.  An agreement that fails ends the handshake. */
  function TokenActs(d: DhAlg, t: Token, w: Role, m: Material, withPsk: bool, priv: bytes): seq<Act> {
    match t
    case E => [Send(d.publicOf(priv))] + (if withPsk then [MixIn(d.publicOf(priv))] else [])
    case S => [Seal(d.publicOf(Static(m, w)))]
    case Psk => [MixBoth(m.psk)]
    case EE | ES | SE | SS => [MixIn(match Secret(d, m, t) case None => [] case Some(k) => k)]
    case _ => []
  }

  function MaterialAfter(m: Material, t: Token, w: Role, priv: bytes): Material { if t == E then Drawn(m, w, priv) else m }

  predicate Ended(tokens: seq<Token>, pos: nat) { pos >= |tokens| || tokens[pos] == End || tokens[pos] == FlipDir }

  /** One message: its tokens and its payload. */
  function MessageActs(d: DhAlg, tokens: seq<Token>, pos: nat, w: Role, m: Material, withPsk: bool, gen: nat -> bytes,
                       payload: bytes): seq<Act>
    decreases |tokens| - pos
  {
    if Ended(tokens, pos) then [Seal(payload)]
    else
      var t := tokens[pos];
      TokenActs(d, t, w, m, withPsk, gen(pos))
      + MessageActs(d, tokens, pos + 1, w, MaterialAfter(m, t, w, gen(pos)), withPsk, gen, payload)
  }

  function MaterialAfterAll(tokens: seq<Token>, pos: nat, w: Role, m: Material, gen: nat -> bytes): Material
    decreases |tokens| - pos
  {
    if Ended(tokens, pos) then m
    else MaterialAfterAll(tokens, pos + 1, w, MaterialAfter(m, tokens[pos], w, gen(pos)), gen)
  }

  /** Where the next message begins. */
  function NextMessage(tokens: seq<Token>, pos: nat): (n: nat)
    ensures n > pos
    decreases |tokens| - pos
  {
    if Ended(tokens, pos) then pos + 1 else NextMessage(tokens, pos + 1)
  }

  /** Whether there is another after this one. */
  predicate GoesOn(tokens: seq<Token>, pos: nat)
    decreases |tokens| - pos
  {
    if Ended(tokens, pos) then pos < |tokens| && tokens[pos] == FlipDir else GoesOn(tokens, pos + 1)
  }

  /** A run: message after message, the sides taking turns, as far as there are deliveries. */
  function RunActs(d: DhAlg, tokens: seq<Token>, pos: nat, w: Role, m: Material, withPsk: bool, ds: seq<Delivery>): seq<Act>
    decreases |ds|
  {
    if ds == [] then []
    else
      MessageActs(d, tokens, pos, w, m, withPsk, ds[0].gen, ds[0].payload)
      + if !GoesOn(tokens, pos) then []
        else RunActs(d, tokens, NextMessage(tokens, pos), Other(w), MaterialAfterAll(tokens, pos, w, m, ds[0].gen), withPsk, ds[1..])
  }

  /** The start: the prologue, then the pre-message keys, the initiator's first. */
  function StartActs(d: DhAlg, prologue: bytes, m: Material, initiatorKnown: bool, responderKnown: bool): seq<Act> {
    [Hash(prologue)] + (if initiatorKnown then [Hash(d.publicOf(m.ist))] else [])
    + (if responderKnown then [Hash(d.publicOf(m.rst))] else [])
  }

  // The state does what is said.

  lemma {:induction false} AfterBoth(s: Suite, y: Sym, a: seq<Act>, b: seq<Act>)
    requires LawfulSuite(s)
    ensures After(s, y, a + b) == After(s, After(s, y, a), b)
    ensures Wire(s, y, a + b) == Wire(s, y, a) + Wire(s, After(s, y, a), b)
    decreases |a|
  {
    hide Do, OnWire, LawfulSuite;
    if a == [] {
      assert a + b == b;
    } else {
      assert (a + b)[1..] == a[1..] + b;
      AfterBoth(s, Do(s, y, a[0]), a[1..], b);
    }
  }

  lemma AfterOne(s: Suite, y: Sym, a: Act)
    requires LawfulSuite(s)
    ensures After(s, y, [a]) == Do(s, y, a) && Wire(s, y, [a]) == OnWire(s, y, a)
  {
    hide Do, OnWire, LawfulSuite;
    assert [a][1..] == [];
    assert After(s, Do(s, y, a), []) == Do(s, y, a) && Wire(s, Do(s, y, a), []) == [];
  }

  lemma AfterNone(s: Suite, y: Sym)
    requires LawfulSuite(s)
    ensures After(s, y, []) == y && Wire(s, y, []) == []
  {
  }

  lemma DerivedIsHkdf(h: HashAlg, ck: bytes, secret: bytes)
    requires LawfulHash(h)
    ensures Derived(h, ck, secret, 1) == Hkdf(h, ck, secret, 1)
    ensures Derived(h, ck, secret, 2) == Hkdf(h, ck, secret, 2)
    ensures Derived(h, ck, secret, 3) == Hkdf(h, ck, secret, 3)
  {
    hide Hmac;
    var temp := Hmac(h, ck, secret);
    assert HkdfBlock(h, temp, 0) + [1] == [1];
    assert HkdfBlock(h, temp, 1) == Hmac(h, temp, [1]);
    assert HkdfBlock(h, temp, 2) == Hmac(h, temp, Hmac(h, temp, [1]) + [2]);
  }

  /** No key is cut: under a 64-byte hash the cipher's keys have at most 32 bytes, as all in the library do. */
  predicate PlainKeys(s: Suite) { s.hash.hashLen == 64 ==> s.aead.keyLen <= 32 }

  lemma MixesAreDone(s: Suite, y: Sym, secret: bytes)
    requires LawfulSuite(s) && PlainKeys(s)
    ensures MixKey(s, y, secret) == Do(s, y, MixIn(secret)) && MixKeyAndHash(s, y, secret) == Do(s, y, MixBoth(secret))
  {
    hide Hkdf, Derived;
    DerivedIsHkdf(s.hash, y.ck, secret);
  }

  lemma SealIsDone(s: Suite, y: Sym, plain: bytes, room: nat)
    requires LawfulSuite(s) && EncryptAndHash(s, y, plain, room).Ok?
    ensures EncryptAndHash(s, y, plain, room) == Ok((Do(s, y, Act.Seal(plain)), OnWire(s, y, Act.Seal(plain))))
  {
  }

  /** The parties hold this material, as far as they have keys yet. */
  ghost predicate Holds(p: Party, m: Material) {
    && p.psk == m.psk
    && (HasKeypair(p.ls) ==> p.ls.value.priv == Static(m, p.role))
    && (HasKeypair(p.le) ==> p.le.value.priv == if p.role == Initiator then m.ie else m.re)
  }

  lemma SecretIsMixed(z: Noise, w: Party, r: Party, k: Known, m: Material, t: Token)
    requires LawfulNoise(z) && InStep(z, w, r, k) && Holds(w, m) && Holds(r, m) && IsDh(t) && CanMix(k, t) && MixDh(z, w, t).Ok?
    ensures Secret(z.dh, m, t).Some? && MixDh(z, w, t) == Ok(w.(sym := MixKey(z.sym, w.sym, Secret(z.dh, m, t).value)))
  {
    hide MixKey;
    DhAgrees(z, w, r, k, t);
    var own, other := Local(w, t).value, Local(r, t).value;
    assert Remote(w, t).value.pub == z.dh.publicOf(other.priv);
    assert z.dh.agree(own.priv, z.dh.publicOf(other.priv)) == z.dh.agree(other.priv, z.dh.publicOf(own.priv));
  }

  /** One token that is written. */
  lemma TokenIs(z: Noise, w: Party, r: Party, k: Known, m: Material, gen: nat -> bytes, room: nat, tail: bytes)
    requires LawfulNoise(z) && PlainKeys(z.sym) && InStep(z, w, r, k) && GoodGen(z, gen) && LegalFor(w, r, k)
    requires Holds(w, m) && Holds(r, m) && w.pos < |w.tokens| && !AtBoundary(w) && WriteToken(z, w, gen, room).Ok?
    requires ReadToken(z, r, WriteToken(z, w, gen, room).value.1 + tail).Ok?
    ensures var t := w.tokens[w.pos];
            var (w', b) := WriteToken(z, w, gen, room).value;
            var r' := ReadToken(z, r, b + tail).value.0;
            var acts := TokenActs(z.dh, t, w.role, m, w.reqs.psk, gen(w.pos));
            var m' := MaterialAfter(m, t, w.role, gen(w.pos));
            && w'.sym == After(z.sym, w.sym, acts) && b == Wire(z.sym, w.sym, acts)
            && Holds(w', m') && Holds(r', m')
  {
    var t := w.tokens[w.pos];
    LegalSteps(w, r, k, w.(pos := w.pos + 1), r);
    if t == E {
      EphemeralIs(z, w, m, gen, room);
    } else if t == S {
      StaticIs(z, w, m, gen, room);
    } else {
      MixIs(z, w, r, k, m, gen, room);
    }
    WriterHolds(z, w, m, gen, room);
    ReaderHolds(z, r, m, w.role, gen(w.pos), WriteToken(z, w, gen, room).value.1 + tail);
  }

  lemma WriterHolds(z: Noise, w: Party, m: Material, gen: nat -> bytes, room: nat)
    requires LawfulNoise(z) && Holds(w, m) && w.pos < |w.tokens| && WriteToken(z, w, gen, room).Ok?
    ensures Holds(WriteToken(z, w, gen, room).value.0, MaterialAfter(m, w.tokens[w.pos], w.role, gen(w.pos)))
  {
    hide MixKey, MixKeyAndHash, EncryptAndHash, MixEphemeral, LawfulNoise, Calculate;
  }

  lemma ReaderHolds(z: Noise, r: Party, m: Material, w: Role, priv: bytes, msg: bytes)
    requires LawfulNoise(z) && Holds(r, m) && r.role != w && r.pos < |r.tokens| && ReadToken(z, r, msg).Ok?
    ensures Holds(ReadToken(z, r, msg).value.0, MaterialAfter(m, r.tokens[r.pos], w, priv))
  {
    hide MixKey, MixKeyAndHash, DecryptAndHash, MixEphemeral, LawfulNoise, Calculate;
  }

  lemma EphemeralIs(z: Noise, w: Party, m: Material, gen: nat -> bytes, room: nat)
    requires LawfulNoise(z) && PlainKeys(z.sym) && w.pos < |w.tokens| && w.tokens[w.pos] == E && WriteToken(z, w, gen, room).Ok?
    ensures var (w', b) := WriteToken(z, w, gen, room).value;
            var acts := TokenActs(z.dh, E, w.role, m, w.reqs.psk, gen(w.pos));
            w'.sym == After(z.sym, w.sym, acts) && b == Wire(z.sym, w.sym, acts)
  {
    hide After, Wire, MixKey, LawfulSuite;
    WriteIsEphemeral(z, w, gen, room);
    hide WriteToken;
    var pub := z.dh.publicOf(gen(w.pos));
    var sent := Do(z.sym, w.sym, Send(pub));
    AfterOne(z.sym, w.sym, Send(pub));
    AfterOne(z.sym, sent, MixIn(pub));
    AfterBoth(z.sym, w.sym, [Send(pub)], if w.reqs.psk then [MixIn(pub)] else []);
    AfterNone(z.sym, sent);
    MixesAreDone(z.sym, sent, pub);
  }

  lemma StaticIs(z: Noise, w: Party, m: Material, gen: nat -> bytes, room: nat)
    requires LawfulNoise(z) && w.pos < |w.tokens| && w.tokens[w.pos] == S && WriteToken(z, w, gen, room).Ok?
    requires HasKeypair(w.ls) && GoodPair(z.dh, w.ls.value) && Holds(w, m)
    ensures var (w', b) := WriteToken(z, w, gen, room).value;
            var acts := TokenActs(z.dh, S, w.role, m, w.reqs.psk, gen(w.pos));
            w'.sym == After(z.sym, w.sym, acts) && b == Wire(z.sym, w.sym, acts)
  {
    hide After, Wire, Do, OnWire, LawfulSuite, EncryptAndHash;
    WriteIsStatic(z, w, gen, room);
    hide WriteToken;
    var pub := w.ls.value.pub;
    SealIsDone(z.sym, w.sym, pub, room);
    AfterOne(z.sym, w.sym, Act.Seal(pub));
  }

  lemma MixIs(z: Noise, w: Party, r: Party, k: Known, m: Material, gen: nat -> bytes, room: nat)
    requires LawfulNoise(z) && PlainKeys(z.sym) && InStep(z, w, r, k) && Holds(w, m) && Holds(r, m)
    requires w.pos < |w.tokens| && !AtBoundary(w) && w.tokens[w.pos] != E && w.tokens[w.pos] != S
    requires CanMix(k, w.tokens[w.pos]) && WriteToken(z, w, gen, room).Ok?
    ensures var (w', b) := WriteToken(z, w, gen, room).value;
            var acts := TokenActs(z.dh, w.tokens[w.pos], w.role, m, w.reqs.psk, gen(w.pos));
            w'.sym == After(z.sym, w.sym, acts) && b == Wire(z.sym, w.sym, acts)
  {
    hide After, Wire, MixKey, MixKeyAndHash, LawfulSuite, Derived;
    WriteIsMix(z, w, gen, room);
    hide WriteToken;
    var t := w.tokens[w.pos];
    if IsDh(t) {
      hide MixDh;
      SecretIsMixed(z, w, r, k, m, t);
      var secret := Secret(z.dh, m, t).value;
      MixesAreDone(z.sym, w.sym, secret);
      AfterOne(z.sym, w.sym, MixIn(secret));
    } else {
      MixesAreDone(z.sym, w.sym, w.psk);
      AfterOne(z.sym, w.sym, MixBoth(w.psk));
    }
  }

  // One message.

  /** The tokens of a message without its payload. */
  function TokensActs(d: DhAlg, tokens: seq<Token>, pos: nat, w: Role, m: Material, withPsk: bool, gen: nat -> bytes): seq<Act>
    decreases |tokens| - pos
  {
    if Ended(tokens, pos) then []
    else
      var t := tokens[pos];
      TokenActs(d, t, w, m, withPsk, gen(pos)) + TokensActs(d, tokens, pos + 1, w, MaterialAfter(m, t, w, gen(pos)), withPsk, gen)
  }

  lemma {:induction false} PayloadLast(d: DhAlg, tokens: seq<Token>, pos: nat, w: Role, m: Material, withPsk: bool, gen: nat -> bytes,
                                       payload: bytes)
    ensures MessageActs(d, tokens, pos, w, m, withPsk, gen, payload)
            == TokensActs(d, tokens, pos, w, m, withPsk, gen) + [Act.Seal(payload)]
    decreases |tokens| - pos
  {
    hide TokenActs;
    if !Ended(tokens, pos) {
      PayloadLast(d, tokens, pos + 1, w, MaterialAfter(m, tokens[pos], w, gen(pos)), withPsk, gen, payload);
    }
  }

  /** Where the writer and the reader of a message end up. */
  ghost predicate TokensDone(z: Noise, w: Party, r: Party, m: Material, gen: nat -> bytes, room: nat, tail: bytes)
    requires LawfulNoise(z) && WriteTokens(z, w, gen, room).Ok?
  {
    var (w', b) := WriteTokens(z, w, gen, room).value;
    var acts := TokensActs(z.dh, w.tokens, w.pos, w.role, m, w.reqs.psk, gen);
    var m' := MaterialAfterAll(w.tokens, w.pos, w.role, m, gen);
    && w'.sym == After(z.sym, w.sym, acts) && b == Wire(z.sym, w.sym, acts)
    && ReadTokens(z, r, b + tail).Ok? && Holds(w', m') && Holds(ReadTokens(z, r, b + tail).value.0, m')
    && (w'.action == ReadMessage <==> GoesOn(w.tokens, w.pos)) && w'.reqs == w.reqs && w'.role == w.role && w'.tokens == w.tokens
    && ReadTokens(z, r, b + tail).value.0.reqs == r.reqs && (w'.action == ReadMessage ==> w'.pos == NextMessage(w.tokens, w.pos))
  }

  lemma {:induction false} TokensAre(z: Noise, w: Party, r: Party, k: Known, m: Material, gen: nat -> bytes, room: nat, tail: bytes)
    requires LawfulNoise(z) && PlainKeys(z.sym) && InStep(z, w, r, k) && GoodGen(z, gen) && LegalFor(w, r, k)
    requires Holds(w, m) && Holds(r, m) && WriteTokens(z, w, gen, room).Ok?
    ensures TokensDone(z, w, r, m, gen, room, tail)
    decreases |w.tokens| - w.pos
  {
    hide WriteToken, ReadToken, WriteTokens, ReadTokens, InStep, LegalFor, Holds, TokenActs, LawfulNoise, LawfulSuite, GoodGen, After, Wire;
    hide TokensActs, MaterialAfterAll, GoesOn, NextMessage;
    if AtBoundary(w) {
      BoundaryDone(z, w, r, k, m, gen, room, tail);
    } else {
      var w1, m1, m2, r1, m' := FirstToken(z, w, r, k, m, gen, room, tail);
      TokensAre(z, w1, r1, Learn(k, w.role, w.tokens[w.pos]), m', gen, room - |m1|, tail);
      OneFurther(z.dh, w.tokens, w.pos, w.role, m, w.reqs.psk, gen);
      var now := TokenActs(z.dh, w.tokens[w.pos], w.role, m, w.reqs.psk, gen(w.pos));
      assert LawfulSuite(z.sym) by { LawfulParts(z); }
      AfterBoth(z.sym, w.sym, now, TokensActs(z.dh, w.tokens, w.pos + 1, w.role, m', w.reqs.psk, gen));
      assert (m1 + m2) + tail == m1 + (m2 + tail);
    }
  }

  /** The first token of a message on both sides, and all that is needed to go on. */
  lemma FirstToken(z: Noise, w: Party, r: Party, k: Known, m: Material, gen: nat -> bytes, room: nat, tail: bytes)
    returns (w1: Party, m1: bytes, m2: bytes, r1: Party, m': Material)
    requires LawfulNoise(z) && PlainKeys(z.sym) && InStep(z, w, r, k) && GoodGen(z, gen) && LegalFor(w, r, k)
    requires Holds(w, m) && Holds(r, m) && !AtBoundary(w) && WriteTokens(z, w, gen, room).Ok?
    ensures w.pos < |w.tokens| && m' == MaterialAfter(m, w.tokens[w.pos], w.role, gen(w.pos))
    ensures var k1 := Learn(k, w.role, w.tokens[w.pos]); InStep(z, w1, r1, k1) && LegalFor(w1, r1, k1)
    ensures Holds(w1, m') && Holds(r1, m') && w1.role == w.role
    ensures w1.tokens == w.tokens && w1.pos == w.pos + 1 && w1.reqs == w.reqs && r1.reqs == r.reqs && |m1| <= room
    ensures WriteTokens(z, w1, gen, room - |m1|).Ok? && m2 == WriteTokens(z, w1, gen, room - |m1|).value.1
    ensures WriteTokens(z, w, gen, room) == Ok((WriteTokens(z, w1, gen, room - |m1|).value.0, m1 + m2))
    ensures ReadTokens(z, r, m1 + (m2 + tail)) == ReadTokens(z, r1, m2 + tail)
    ensures var acts := TokenActs(z.dh, w.tokens[w.pos], w.role, m, w.reqs.psk, gen(w.pos));
            LawfulSuite(z.sym) && w1.sym == After(z.sym, w.sym, acts) && m1 == Wire(z.sym, w.sym, acts)
  {
    hide WriteToken, ReadToken, WriteTokens, ReadTokens, InStep, LegalFor, Holds, TokenActs, LawfulNoise, LawfulSuite, GoodGen, After, Wire;
    w1, m1, m2, r1 := TokenUnfolds(z, w, r, k, gen, room, tail);
    m' := MaterialAfter(m, w.tokens[w.pos], w.role, gen(w.pos));
    LegalSteps(w, r, k, w1, r1);
    TokenIs(z, w, r, k, m, gen, room, m2 + tail);
    LawfulParts(z);
  }

  lemma BoundaryDone(z: Noise, w: Party, r: Party, k: Known, m: Material, gen: nat -> bytes, room: nat, tail: bytes)
    requires LawfulNoise(z) && InStep(z, w, r, k) && AtBoundary(w) && Holds(w, m) && Holds(r, m)
    requires WriteTokens(z, w, gen, room).Ok?
    ensures TokensDone(z, w, r, m, gen, room, tail)
  {
    hide LawfulNoise, After, Wire;
    AtEnd(z, w);
    assert WriteTokens(z, w, gen, room).value.1 + tail == tail;
  }

  lemma AtEnd(z: Noise, w: Party)
    requires LawfulNoise(z)
    ensures After(z.sym, w.sym, []) == w.sym && Wire(z.sym, w.sym, []) == []
  {
  }

  lemma OneFurther(d: DhAlg, tokens: seq<Token>, pos: nat, w: Role, m: Material, withPsk: bool, gen: nat -> bytes)
    requires !Ended(tokens, pos)
    ensures var m' := MaterialAfter(m, tokens[pos], w, gen(pos));
            && TokensActs(d, tokens, pos, w, m, withPsk, gen)
               == TokenActs(d, tokens[pos], w, m, withPsk, gen(pos)) + TokensActs(d, tokens, pos + 1, w, m', withPsk, gen)
            && MaterialAfterAll(tokens, pos, w, m, gen) == MaterialAfterAll(tokens, pos + 1, w, m', gen)
            && GoesOn(tokens, pos) == GoesOn(tokens, pos + 1) && NextMessage(tokens, pos) == NextMessage(tokens, pos + 1)
  {
    hide TokenActs, MaterialAfter;
  }

  lemma LawfulParts(z: Noise)
    requires LawfulNoise(z)
    ensures LawfulSuite(z.sym) && LawfulDh(z.dh)
  {
  }

  /** A message that was written is what its tokens and its payload call for, and so is the state of both sides. */
  lemma MessageIs(z: Noise, w: Party, r: Party, k: Known, m: Material, d: Delivery)
    requires LawfulNoise(z) && PlainKeys(z.sym) && InStep(z, w, r, k) && GoodDelivery(z, d) && LegalFor(w, r, k)
    requires Holds(w, m) && Holds(r, m) && Write(z, w, d.gen, d.room, d.payload).Ok?
    ensures var (w', b) := Write(z, w, d.gen, d.room, d.payload).value;
            var acts := MessageActs(z.dh, w.tokens, w.pos, w.role, m, w.reqs.psk, d.gen, d.payload);
            var m' := MaterialAfterAll(w.tokens, w.pos, w.role, m, d.gen);
            && w'.sym == After(z.sym, w.sym, acts) && b == Wire(z.sym, w.sym, acts)
            && Read(z, r, b, d.payloadMax).Ok? && Holds(w', m') && Holds(Read(z, r, b, d.payloadMax).value.0, m')
            && (w'.action == ReadMessage <==> GoesOn(w.tokens, w.pos)) && w'.reqs == w.reqs && w'.role == w.role && w'.tokens == w.tokens
            && (w'.action == ReadMessage ==> w'.pos == NextMessage(w.tokens, w.pos))
  {
    hide WriteTokens, ReadTokens, InStep, LegalFor, LawfulNoise, LawfulSuite, GoodGen, After, Wire, Do, OnWire, EncryptAndHash, TokensActs,
      MessageActs, DecryptAndHash;
    assert LawfulSuite(z.sym) by { LawfulParts(z); }
    var (w1, b1) := WriteTokens(z, w, d.gen, d.room).value;
    var (y, ct) := EncryptAndHash(z.sym, w1.sym, d.payload, d.room - |b1|).value;
    MessageAgrees(z, w, r, k, d.gen, d.room, d.payload, d.payloadMax);
    TokensAre(z, w, r, k, m, d.gen, d.room, ct);
    PayloadLast(z.dh, w.tokens, w.pos, w.role, m, w.reqs.psk, d.gen, d.payload);
    var acts := TokensActs(z.dh, w.tokens, w.pos, w.role, m, w.reqs.psk, d.gen);
    AfterBoth(z.sym, w.sym, acts, [Act.Seal(d.payload)]);
    AfterOne(z.sym, w1.sym, Act.Seal(d.payload));
    SealIsDone(z.sym, w1.sym, d.payload, d.room - |b1|);
  }

  // A run.

  /** The messages of a run, one after the other. */
  ghost function Sent(z: Noise, w: Party, r: Party, ds: seq<Delivery>): bytes
    requires LawfulNoise(z)
    decreases |ds|
  {
    if ds == [] || w.action != WriteMessage then []
    else match Write(z, w, ds[0].gen, ds[0].room, ds[0].payload)
      case Err(_) => []
      case Ok(v) =>
        match Read(z, r, v.1, ds[0].payloadMax)
        case Err(_) => v.1
        case Ok(u) => v.1 + Sent(z, u.0, v.0, ds[1..])
  }

  ghost function ActsOf(z: Noise, w: Party, m: Material, ds: seq<Delivery>): seq<Act> {
    if w.action != WriteMessage then [] else RunActs(z.dh, w.tokens, w.pos, w.role, m, w.reqs.psk, ds)
  }

  /** Both sides end in the state that the token list, the key material and the payloads call for, and what was on the
      wire is what they call for too. */
  lemma {:induction false} RunIs(z: Noise, w: Party, r: Party, k: Known, m: Material, ds: seq<Delivery>)
    requires LawfulNoise(z) && PlainKeys(z.sym) && InStep(z, w, r, k) && Holds(w, m) && Holds(r, m)
    requires Complementary(w, r) && (w.action == WriteMessage ==> LegalFor(w, r, k))
    requires forall i :: 0 <= i < |ds| ==> GoodDelivery(z, ds[i])
    requires Run(z, w, r, ds).Reached?
    ensures var out := Run(z, w, r, ds);
            var acts := ActsOf(z, w, m, ds);
            && out.writer.sym == out.reader.sym == After(z.sym, w.sym, acts)
            && Sent(z, w, r, ds) == Wire(z.sym, w.sym, acts)
    decreases |ds|
  {
    hide Write, Read, InStep, LegalFor, LawfulNoise, LawfulSuite, After, Wire, Holds, MessageActs, GoodDelivery;
    SamePlace(z, w, r, k);
    AtEnd(z, w);
    if ds != [] && w.action == WriteMessage {
      var d := ds[0];
      assert GoodDelivery(z, d);
      var w', r' := RunStep(z, w, r, k, m, ds);
      var k' := LearnAll(k, w.role, w.tokens, w.pos);
      var m' := MaterialAfterAll(w.tokens, w.pos, w.role, m, d.gen);
      RunIs(z, r', w', k', m', ds[1..]);
      var now := MessageActs(z.dh, w.tokens, w.pos, w.role, m, w.reqs.psk, d.gen, d.payload);
      assert LawfulSuite(z.sym) by { LawfulParts(z); }
      AfterBoth(z.sym, w.sym, now, ActsOf(z, r', m', ds[1..]));
      assert ActsOf(z, w, m, ds) == now + ActsOf(z, r', m', ds[1..]);
    }
  }

  lemma Mates(z: Noise, a: Party, b: Party, k: Known)
    requires InStep(z, a, b, k)
    ensures b.role == Other(a.role) && a.tokens == b.tokens && a.pos == b.pos && a.sym == b.sym && a.reqs.psk == b.reqs.psk
    ensures InStep(z, b, a, k)
  {
  }

  /** A message of a run and what is left of the run behind it. */
  lemma RunStep(z: Noise, w: Party, r: Party, k: Known, m: Material, ds: seq<Delivery>) returns (w': Party, r': Party)
    requires LawfulNoise(z) && PlainKeys(z.sym) && InStep(z, w, r, k) && Holds(w, m) && Holds(r, m)
    requires ds != [] && w.action == WriteMessage && LegalFor(w, r, k) && GoodDelivery(z, ds[0]) && Run(z, w, r, ds).Reached?
    ensures var k' := LearnAll(k, w.role, w.tokens, w.pos);
            var m' := MaterialAfterAll(w.tokens, w.pos, w.role, m, ds[0].gen);
            && InStep(z, r', w', k') && Holds(r', m') && Holds(w', m') && Complementary(r', w')
            && (r'.action == WriteMessage ==> LegalFor(r', w', k')) && Run(z, r', w', ds[1..]).Reached?
            && r'.role == Other(w.role) && r'.tokens == w.tokens && r'.reqs.psk == w.reqs.psk && r'.sym == w'.sym
            && (r'.action == WriteMessage <==> GoesOn(w.tokens, w.pos))
            && (r'.action == WriteMessage ==> r'.pos == NextMessage(w.tokens, w.pos))
    ensures var out, rest := Run(z, w, r, ds), Run(z, r', w', ds[1..]);
            out.writer == rest.writer && out.reader == rest.reader
    ensures var acts := MessageActs(z.dh, w.tokens, w.pos, w.role, m, w.reqs.psk, ds[0].gen, ds[0].payload);
            && w'.sym == After(z.sym, w.sym, acts)
            && Sent(z, w, r, ds) == Wire(z.sym, w.sym, acts) + Sent(z, r', w', ds[1..])
  {
    hide Write, Read, InStep, LegalFor, LawfulNoise, LawfulSuite, After, Wire, Holds, MessageActs;
    var d := ds[0];
    MessageAgrees(z, w, r, k, d.gen, d.room, d.payload, d.payloadMax);
    MessageIs(z, w, r, k, m, d);
    var v := Write(z, w, d.gen, d.room, d.payload).value;
    w' := v.0;
    r' := Read(z, r, v.1, d.payloadMax).value.0;
    Mates(z, w', r', LearnAll(k, w.role, w.tokens, w.pos));
  }

  // From the start.

  /** What the parties hold before anything has been drawn. */
  ghost predicate Configures(m: Material, i: Party, r: Party) {
    && m.psk == i.psk && (HasKeypair(i.ls) ==> i.ls.value.priv == m.ist) && (HasKeypair(r.ls) ==> r.ls.value.priv == m.rst)
  }

  /** The whole list of what a handshake does to the symmetric state. */
  function HandshakeActs(d: DhAlg, i: Party, m: Material, ds: seq<Delivery>): seq<Act> {
    StartActs(d, i.prologue, m, i.reqs.localPremsg, i.reqs.remotePremsg)
    + RunActs(d, i.tokens, i.pos, Initiator, m, i.reqs.psk, ds)
  }

  lemma StartIs(z: Noise, i: Party, r: Party, m: Material)
    requires LawfulNoise(z) && Configured(z, i, r) && Start(z, i).Ok? && Start(z, r).Ok? && Configures(m, i, r)
    ensures var i', r' := Start(z, i).value, Start(z, r).value;
            && Holds(i', m) && Holds(r', m) && i'.action == WriteMessage && i'.role == Initiator
            && i'.tokens == i.tokens && i'.pos == i.pos && i'.reqs == i.reqs && r'.reqs == r.reqs
            && i'.sym == After(z.sym, i.sym, StartActs(z.dh, i.prologue, m, i.reqs.localPremsg, i.reqs.remotePremsg))
  {
    hide After, LawfulSuite;
    var y := Do(z.sym, i.sym, Hash(i.prologue));
    var first := if i.reqs.localPremsg then [Hash(z.dh.publicOf(m.ist))] else [];
    var second := if i.reqs.remotePremsg then [Hash(z.dh.publicOf(m.rst))] else [];
    AfterBoth(z.sym, i.sym, [Hash(i.prologue)] + first, second);
    AfterBoth(z.sym, i.sym, [Hash(i.prologue)], first);
    AfterOne(z.sym, i.sym, Hash(i.prologue));
    AfterNone(z.sym, y);
    AfterOne(z.sym, y, Hash(z.dh.publicOf(m.ist)));
    var y2 := After(z.sym, y, first);
    AfterNone(z.sym, y2);
    AfterOne(z.sym, y2, Hash(z.dh.publicOf(m.rst)));
  }

  /** The chaining key that a chain of secrets leads to. */
  ghost function Chain(h: HashAlg, ck: bytes, secrets: seq<bytes>): bytes
    requires LawfulHash(h)
    decreases |secrets|
  {
    if secrets == [] then ck else Chain(h, Derived(h, ck, secrets[0], 1), secrets[1..])
  }

  function SecretsOf(acts: seq<Act>): seq<bytes> {
    if acts == [] then []
    else (match acts[0] case MixIn(k) => [k] case MixBoth(k) => [k] case _ => []) + SecretsOf(acts[1..])
  }

  lemma {:induction false} ChainIs(s: Suite, y: Sym, acts: seq<Act>)
    requires LawfulSuite(s)
    ensures After(s, y, acts).ck == Chain(s.hash, y.ck, SecretsOf(acts))
    decreases |acts|
  {
    if acts != [] {
      ChainIs(s, Do(s, y, acts[0]), acts[1..]);
      var rest := SecretsOf(acts[1..]);
      match acts[0]
      case MixIn(k) => assert ([k] + rest)[1..] == rest;
      case MixBoth(k) => assert ([k] + rest)[1..] == rest;
      case _ => assert [] + rest == rest;
    }
  }

  /** The transport keys: the initiator sends under the first output and receives under the second. */
  ghost function KeysFor(s: Suite, ck: bytes, role: Role): (Cipher, Cipher)
    requires LawfulSuite(s)
  {
    var first := Cipher(true, Derived(s.hash, ck, [], 1)[..s.aead.keyLen], 0);
    var second := Cipher(true, Derived(s.hash, ck, [], 2)[..s.aead.keyLen], 0);
    if role == Initiator then (first, second) else (second, first)
  }

  /** What a finished or unfinished handshake has come to, from the beginning: the state of both sides, the transport
      keys of a split, and what was on the wire. */
  lemma HandshakeIs(z: Noise, i: Party, r: Party, m: Material, ds: seq<Delivery>)
    requires LawfulNoise(z) && PlainKeys(z.sym) && Configured(z, i, r) && Start(z, i).Ok? && Start(z, r).Ok? && Configures(m, i, r)
    requires Legal(i.tokens, i.pos, Initiator, Premsgs(i), i.reqs.localRequired, r.reqs.localRequired)
    requires forall n :: 0 <= n < |ds| ==> GoodDelivery(z, ds[n])
    requires Run(z, Start(z, i).value, Start(z, r).value, ds).Reached?
    ensures var out := Run(z, Start(z, i).value, Start(z, r).value, ds);
            var acts := HandshakeActs(z.dh, i, m, ds);
            var end := After(z.sym, i.sym, acts);
            && out.writer.sym == out.reader.sym == end
            && Sent(z, Start(z, i).value, Start(z, r).value, ds) == Wire(z.sym, i.sym, acts)
            && end.ck == Chain(z.sym.hash, i.sym.ck, SecretsOf(acts))
            && SplitFor(z, out.writer) == KeysFor(z.sym, end.ck, out.writer.role)
            && SplitFor(z, out.reader) == KeysFor(z.sym, end.ck, out.reader.role)
  {
    hide Run, After, Wire, Legal, LawfulSuite, LawfulNoise, Derived, Hkdf, Start, Chain, Sent, HandshakeActs, SecretsOf, Configured, Configures;
    hide KeysFor, SplitFor;
    FromStart(z, i, r, m, ds);
    assert LawfulSuite(z.sym) by { LawfulParts(z); }
    assert LawfulHash(z.sym.hash) by { LawfulHashOf(z.sym); }
    var acts := HandshakeActs(z.dh, i, m, ds);
    ChainIs(z.sym, i.sym, acts);
    var out := Run(z, Start(z, i).value, Start(z, r).value, ds);
    KeysAre(z, out.writer);
    KeysAre(z, out.reader);
  }

  lemma KeysAre(z: Noise, p: Party)
    requires LawfulNoise(z)
    ensures SplitFor(z, p) == KeysFor(z.sym, p.sym.ck, p.role)
  {
    hide Derived, Hkdf;
    DerivedIsHkdf(z.sym.hash, p.sym.ck, []);
  }

  lemma LawfulHashOf(s: Suite)
    requires LawfulSuite(s)
    ensures LawfulHash(s.hash)
  {
  }

  lemma FromStart(z: Noise, i: Party, r: Party, m: Material, ds: seq<Delivery>)
    requires LawfulNoise(z) && PlainKeys(z.sym) && Configured(z, i, r) && Start(z, i).Ok? && Start(z, r).Ok? && Configures(m, i, r)
    requires Legal(i.tokens, i.pos, Initiator, Premsgs(i), i.reqs.localRequired, r.reqs.localRequired)
    requires forall n :: 0 <= n < |ds| ==> GoodDelivery(z, ds[n])
    requires Run(z, Start(z, i).value, Start(z, r).value, ds).Reached?
    ensures var out := Run(z, Start(z, i).value, Start(z, r).value, ds);
            var acts := HandshakeActs(z.dh, i, m, ds);
            && out.writer.sym == out.reader.sym == After(z.sym, i.sym, acts)
            && Sent(z, Start(z, i).value, Start(z, r).value, ds) == Wire(z.sym, i.sym, acts)
  {
    hide Run, After, Wire, Legal, LawfulSuite, LawfulNoise, Start, Sent, Configured, Configures, Holds, InStep, RunActs, StartActs, GoodDelivery;
    var i', r' := Start(z, i).value, Start(z, r).value;
    StartAgrees(z, i, r);
    StartIs(z, i, r, m);
    RunIs(z, i', r', Premsgs(i), m, ds);
    var start := StartActs(z.dh, i.prologue, m, i.reqs.localPremsg, i.reqs.remotePremsg);
    var run := RunActs(z.dh, i.tokens, i.pos, Initiator, m, i.reqs.psk, ds);
    assert LawfulSuite(z.sym) by { LawfulParts(z); }
    AfterBoth(z.sym, i.sym, start, run);
    SilentStart(z, i, m);
    assert [] + Wire(z.sym, i'.sym, run) == Wire(z.sym, i'.sym, run);
  }

  lemma SilentStart(z: Noise, i: Party, m: Material)
    requires LawfulSuite(z.sym)
    ensures Wire(z.sym, i.sym, StartActs(z.dh, i.prologue, m, i.reqs.localPremsg, i.reqs.remotePremsg)) == []
  {
    Silent(z.sym, i.sym, StartActs(z.dh, i.prologue, m, i.reqs.localPremsg, i.reqs.remotePremsg));
  }

  lemma {:induction false} Silent(s: Suite, y: Sym, acts: seq<Act>)
    requires LawfulSuite(s) && forall a :: a in acts ==> a.Hash?
    ensures Wire(s, y, acts) == []
    decreases |acts|
  {
    hide Do, LawfulSuite;
    if acts != [] {
      assert acts[0] in acts;
      Silent(s, Do(s, y, acts[0]), acts[1..]);
    }
  }

  // Nothing of it can be changed without the hash showing it.

  /** Two of these inputs, one of each list, are different and have one digest. */
  ghost predicate CollideOn(h: HashAlg, a: seq<bytes>, b: seq<bytes>) {
    exists x, y :: x in a && y in b && x != y && h.digest(x) == h.digest(y)
  }

  lemma CollideOnMore(h: HashAlg, a: seq<bytes>, b: seq<bytes>, a': seq<bytes>, b': seq<bytes>)
    requires CollideOn(h, a, b)
    requires (forall x :: x in a ==> x in a') && (forall x :: x in b ==> x in b')
    ensures CollideOn(h, a', b')
  {
  }

  /** What the hash is given by an HMAC whose key is no longer than a block. */
  ghost function HmacInputs(h: HashAlg, key: bytes, text: bytes): seq<bytes>
    requires LawfulHash(h)
  {
    var inner := XorPad(KeyBlock(h, key), HMAC_IPAD) + text;
    [inner, XorPad(KeyBlock(h, key), HMAC_OPAD) + h.digest(inner)]
  }

  lemma XorPadBinds(a: bytes, b: bytes, pad: byte)
    requires |a| == |b| && XorPad(a, pad) == XorPad(b, pad)
    ensures a == b
  {
    forall i | 0 <= i < |a| ensures a[i] == b[i] {
      XorCancels(a[i], pad);
      XorCancels(b[i], pad);
      assert XorPad(a, pad)[i] == XorPad(b, pad)[i];
    }
  }

  lemma KeyBlockBinds(h: HashAlg, k1: bytes, k2: bytes)
    requires LawfulHash(h) && |k1| == |k2| <= h.blockLen && KeyBlock(h, k1) == KeyBlock(h, k2)
    ensures k1 == k2
  {
    assert KeyBlock(h, k1)[..|k1|] == k1 && KeyBlock(h, k2)[..|k2|] == k2;
  }

  lemma FrontsEqual(a: bytes, b: bytes, c: bytes, d: bytes)
    requires a + b == c + d && |a| == |c|
    ensures a == c && b == d
  {
    assert a == (a + b)[..|a|] && b == (a + b)[|a|..] && c == (c + d)[..|a|] && d == (c + d)[|a|..];
  }

  lemma HmacBinds(h: HashAlg, k1: bytes, t1: bytes, k2: bytes, t2: bytes)
    requires LawfulHash(h) && |k1| == |k2| <= h.blockLen && Hmac(h, k1, t1) == Hmac(h, k2, t2)
    ensures (k1 == k2 && t1 == t2) || CollideOn(h, HmacInputs(h, k1, t1), HmacInputs(h, k2, t2))
  {
    var b1, b2 := KeyBlock(h, k1), KeyBlock(h, k2);
    var i1, i2 := XorPad(b1, HMAC_IPAD) + t1, XorPad(b2, HMAC_IPAD) + t2;
    var o1, o2 := XorPad(b1, HMAC_OPAD) + h.digest(i1), XorPad(b2, HMAC_OPAD) + h.digest(i2);
    assert HmacInputs(h, k1, t1) == [i1, o1] && HmacInputs(h, k2, t2) == [i2, o2];
    if o1 == o2 && i1 == i2 {
      FrontsEqual(XorPad(b1, HMAC_OPAD), h.digest(i1), XorPad(b2, HMAC_OPAD), h.digest(i2));
      FrontsEqual(XorPad(b1, HMAC_IPAD), t1, XorPad(b2, HMAC_IPAD), t2);
      XorPadBinds(b1, b2, HMAC_OPAD);
      KeyBlockBinds(h, k1, k2);
    } else if o1 == o2 {
      FrontsEqual(XorPad(b1, HMAC_OPAD), h.digest(i1), XorPad(b2, HMAC_OPAD), h.digest(i2));
    }
  }

  /** What the hash is given by the first two outputs of HKDF. */
  ghost function DerivedInputs(h: HashAlg, ck: bytes, secret: bytes): seq<bytes>
    requires LawfulHash(h)
  {
    HmacInputs(h, ck, secret) + HmacInputs(h, Hmac(h, ck, secret), [1])
  }

  lemma DerivedBinds(h: HashAlg, c1: bytes, s1: bytes, c2: bytes, s2: bytes)
    requires LawfulHash(h) && |c1| == |c2| == h.hashLen && Derived(h, c1, s1, 1) == Derived(h, c2, s2, 1)
    ensures (c1 == c2 && s1 == s2) || CollideOn(h, DerivedInputs(h, c1, s1), DerivedInputs(h, c2, s2))
  {
    hide Hmac, HmacInputs;
    var t1, t2 := Hmac(h, c1, s1), Hmac(h, c2, s2);
    HmacBinds(h, t1, [1], t2, [1]);
    if t1 == t2 {
      HmacBinds(h, c1, s1, c2, s2);
    }
  }

  predicate SameKind(a: Act, b: Act) {
    (a.Hash? == b.Hash?) && (a.Send? == b.Send?) && (a.Seal? == b.Seal?) && (a.MixIn? == b.MixIn?) && (a.MixBoth? == b.MixBoth?)
  }

  predicate SameShape(a: seq<Act>, b: seq<Act>) { |a| == |b| && forall i :: 0 <= i < |a| ==> SameKind(a[i], b[i]) }

  /** What the hash is given by an act. */
  ghost function HashedBy(s: Suite, y: Sym, a: Act): seq<bytes>
    requires LawfulSuite(s)
  {
    match a
    case Hash(data) => [y.h + data]
    case Send(data) => [y.h + data]
    case Seal(plain) => [y.h + OnWire(s, y, a)]
    case MixIn(secret) => DerivedInputs(s.hash, y.ck, secret)
    case MixBoth(secret) => [y.h + Derived(s.hash, y.ck, secret, 2)] + DerivedInputs(s.hash, y.ck, secret)
  }

  ghost function HashedByAll(s: Suite, y: Sym, acts: seq<Act>): seq<bytes>
    requires LawfulSuite(s)
    decreases |acts|
  {
    if acts == [] then []
    else
      var n := |acts| - 1;
      HashedByAll(s, y, acts[..n]) + HashedBy(s, After(s, y, acts[..n]), acts[n])
  }

  /** The same key, hash and counter, except perhaps in the cipher. */
  predicate SameHashes(y: Sym, z: Sym) { y.ck == z.ck && y.h == z.h }

  lemma SealBinds(s: Suite, y: Sym, p: bytes, q: bytes)
    requires LawfulSuite(s) && OnWire(s, y, Act.Seal(p)) == OnWire(s, y, Act.Seal(q))
    ensures p == q
  {
    if y.c.hasKey {
      assert s.aead.open(y.c.key, y.c.n, y.h, s.aead.seal(y.c.key, y.c.n, y.h, p)) == Some(p);
      assert s.aead.open(y.c.key, y.c.n, y.h, s.aead.seal(y.c.key, y.c.n, y.h, q)) == Some(q);
    }
  }

  /** If two acts of one kind lead to the same hashes, they began with the same, and were given the same. */
  lemma ActBinds(s: Suite, y1: Sym, a1: Act, y2: Sym, a2: Act)
    requires LawfulSuite(s) && Sized(s, y1) && Sized(s, y2) && SameKind(a1, a2) && SameHashes(Do(s, y1, a1), Do(s, y2, a2))
    ensures || CollideOn(s.hash, HashedBy(s, y1, a1), HashedBy(s, y2, a2))
            || (SameHashes(y1, y2) && (y1.c == y2.c ==> a1 == a2))
  {
    hide Derived, DerivedInputs;
    if a1.MixIn? || a1.MixBoth? {
      MixBinds(s, y1, a1, y2, a2);
    } else {
      var d1 := if a1.Seal? then OnWire(s, y1, a1) else a1.data;
      var d2 := if a2.Seal? then OnWire(s, y2, a2) else a2.data;
      assert HashedBy(s, y1, a1) == [y1.h + d1] && HashedBy(s, y2, a2) == [y2.h + d2];
      if y1.h + d1 == y2.h + d2 {
        FrontsEqual(y1.h, d1, y2.h, d2);
        if a1.Seal? && y1.c == y2.c {
          SealBinds(s, y1, a1.plain, a2.plain);
        }
      }
    }
  }

  lemma MixBinds(s: Suite, y1: Sym, a1: Act, y2: Sym, a2: Act)
    requires LawfulSuite(s) && Sized(s, y1) && Sized(s, y2) && SameKind(a1, a2) && SameHashes(Do(s, y1, a1), Do(s, y2, a2))
    requires a1.MixIn? || a1.MixBoth?
    ensures CollideOn(s.hash, HashedBy(s, y1, a1), HashedBy(s, y2, a2)) || (SameHashes(y1, y2) && a1 == a2)
  {
    hide Derived, DerivedInputs;
    DerivedBinds(s.hash, y1.ck, a1.secret, y2.ck, a2.secret);
    if CollideOn(s.hash, DerivedInputs(s.hash, y1.ck, a1.secret), DerivedInputs(s.hash, y2.ck, a2.secret)) {
      CollideOnMore(s.hash, DerivedInputs(s.hash, y1.ck, a1.secret), DerivedInputs(s.hash, y2.ck, a2.secret),
                    HashedBy(s, y1, a1), HashedBy(s, y2, a2));
    } else if a1.MixBoth? {
      var x1, x2 := y1.h + Derived(s.hash, y1.ck, a1.secret, 2), y2.h + Derived(s.hash, y2.ck, a2.secret, 2);
      assert x1 in HashedBy(s, y1, a1) && x2 in HashedBy(s, y2, a2);
      if x1 == x2 {
        FrontsEqual(y1.h, Derived(s.hash, y1.ck, a1.secret, 2), y2.h, Derived(s.hash, y2.ck, a2.secret, 2));
      }
    }
  }

  lemma {:induction false} StaysSized(s: Suite, y: Sym, acts: seq<Act>)
    requires LawfulSuite(s) && Sized(s, y)
    ensures Sized(s, After(s, y, acts))
    decreases |acts|
  {
    if acts != [] {
      StaysSized(s, Do(s, y, acts[0]), acts[1..]);
    }
  }

  lemma LastAct(s: Suite, y: Sym, acts: seq<Act>)
    requires LawfulSuite(s) && acts != []
    ensures var n := |acts| - 1; After(s, y, acts) == Do(s, After(s, y, acts[..n]), acts[n])
  {
    hide Do, LawfulSuite;
    var n := |acts| - 1;
    assert acts[..n] + [acts[n]] == acts;
    AfterBoth(s, y, acts[..n], [acts[n]]);
    AfterOne(s, After(s, y, acts[..n]), acts[n]);
  }

  /** Two lists of acts of one shape, from states with one cipher, that lead to the same chaining key and hash are one
      list from one state, or the hash has a collision among the inputs it was given on the way. */
  lemma {:induction false} ActsBind(s: Suite, y1: Sym, a1: seq<Act>, y2: Sym, a2: seq<Act>)
    requires LawfulSuite(s) && Sized(s, y1) && Sized(s, y2) && y1.c == y2.c && SameShape(a1, a2)
    requires SameHashes(After(s, y1, a1), After(s, y2, a2))
    ensures (y1 == y2 && a1 == a2) || CollideOn(s.hash, HashedByAll(s, y1, a1), HashedByAll(s, y2, a2))
    decreases |a1|
  {
    hide Do, HashedBy, LawfulSuite, CollideOn, Sized;
    if a1 == [] {
      AfterNone(s, y1);
      AfterNone(s, y2);
    } else {
      var n := |a1| - 1;
      var e1, e2 := After(s, y1, a1[..n]), After(s, y2, a2[..n]);
      LastAct(s, y1, a1);
      LastAct(s, y2, a2);
      StaysSized(s, y1, a1[..n]);
      StaysSized(s, y2, a2[..n]);
      ActBinds(s, e1, a1[n], e2, a2[n]);
      if CollideOn(s.hash, HashedBy(s, e1, a1[n]), HashedBy(s, e2, a2[n])) {
        CollideOnMore(s.hash, HashedBy(s, e1, a1[n]), HashedBy(s, e2, a2[n]), HashedByAll(s, y1, a1), HashedByAll(s, y2, a2));
      } else {
        ActsBind(s, y1, a1[..n], y2, a2[..n]);
        if CollideOn(s.hash, HashedByAll(s, y1, a1[..n]), HashedByAll(s, y2, a2[..n])) {
          CollideOnMore(s.hash, HashedByAll(s, y1, a1[..n]), HashedByAll(s, y2, a2[..n]), HashedByAll(s, y1, a1), HashedByAll(s, y2, a2));
        } else {
          assert a1 == a1[..n] + [a1[n]] && a2 == a2[..n] + [a2[n]];
        }
      }
    }
  }

  lemma ShapesJoin(a: seq<Act>, b: seq<Act>, c: seq<Act>, d: seq<Act>)
    requires SameShape(a, c) && SameShape(b, d)
    ensures SameShape(a + b, c + d)
  {
  }

  lemma {:induction false} MessageShape(d: DhAlg, tokens: seq<Token>, pos: nat, w: Role, withPsk: bool,
                                        m: Material, gen: nat -> bytes, p: bytes, n: Material, hen: nat -> bytes, q: bytes)
    ensures SameShape(MessageActs(d, tokens, pos, w, m, withPsk, gen, p), MessageActs(d, tokens, pos, w, n, withPsk, hen, q))
    decreases |tokens| - pos
  {
    hide TokenActs;
    if !Ended(tokens, pos) {
      var t := tokens[pos];
      var m', n' := MaterialAfter(m, t, w, gen(pos)), MaterialAfter(n, t, w, hen(pos));
      MessageShape(d, tokens, pos + 1, w, withPsk, m', gen, p, n', hen, q);
      TokenShape(d, t, w, withPsk, m, gen(pos), n, hen(pos));
    }
  }

  lemma TokenShape(d: DhAlg, t: Token, w: Role, withPsk: bool, m: Material, a: bytes, n: Material, b: bytes)
    ensures SameShape(TokenActs(d, t, w, m, withPsk, a), TokenActs(d, t, w, n, withPsk, b))
  {
  }

  lemma {:induction false} RunShape(d: DhAlg, tokens: seq<Token>, pos: nat, w: Role, withPsk: bool,
                                    m: Material, ds: seq<Delivery>, n: Material, es: seq<Delivery>)
    requires |ds| == |es|
    ensures SameShape(RunActs(d, tokens, pos, w, m, withPsk, ds), RunActs(d, tokens, pos, w, n, withPsk, es))
    decreases |ds|
  {
    hide MessageActs;
    if ds != [] {
      MessageShape(d, tokens, pos, w, withPsk, m, ds[0].gen, ds[0].payload, n, es[0].gen, es[0].payload);
      if GoesOn(tokens, pos) {
        RunShape(d, tokens, NextMessage(tokens, pos), Other(w), withPsk, MaterialAfterAll(tokens, pos, w, m, ds[0].gen), ds[1..],
                 MaterialAfterAll(tokens, pos, w, n, es[0].gen), es[1..]);
      }
    }
  }

  lemma StartShape(d: DhAlg, p: bytes, m: Material, q: bytes, n: Material, initiatorKnown: bool, responderKnown: bool)
    ensures SameShape(StartActs(d, p, m, initiatorKnown, responderKnown), StartActs(d, q, n, initiatorKnown, responderKnown))
  {
  }

  /** A handshake between two parties that hold this material, over these deliveries, none of which is refused. */
  ghost predicate Runs(z: Noise, i: Party, r: Party, m: Material, ds: seq<Delivery>)
    requires LawfulNoise(z)
  {
    && Configured(z, i, r) && Start(z, i).Ok? && Start(z, r).Ok? && Configures(m, i, r)
    && Legal(i.tokens, i.pos, Initiator, Premsgs(i), i.reqs.localRequired, r.reqs.localRequired)
    && (forall n :: 0 <= n < |ds| ==> GoodDelivery(z, ds[n]))
    && Run(z, Start(z, i).value, Start(z, r).value, ds).Reached?
  }

  ghost function EndOf(z: Noise, i: Party, r: Party, m: Material, ds: seq<Delivery>): Sym
    requires LawfulNoise(z) && Runs(z, i, r, m, ds)
  {
    Run(z, Start(z, i).value, Start(z, r).value, ds).writer.sym
  }

  predicate SamePattern(i: Party, j: Party) {
    && i.tokens == j.tokens && i.pos == j.pos && i.reqs.psk == j.reqs.psk && i.sym.c == j.sym.c
    && i.reqs.localPremsg == j.reqs.localPremsg && i.reqs.remotePremsg == j.reqs.remotePremsg
  }

  /** Two handshakes under one pattern that end with the same chaining key and hash had the same name, prologue,
      pre-message keys, PSK, secrets, ephemerals, static keys and payloads, and put the same bytes on the wire; unless
      the hash has a collision among what it was given in the two. */
  lemma HandshakesBind(z: Noise, i: Party, r: Party, m: Material, ds: seq<Delivery>, j: Party, q: Party, n: Material, es: seq<Delivery>)
    requires LawfulNoise(z) && PlainKeys(z.sym) && Runs(z, i, r, m, ds) && Runs(z, j, q, n, es)
    requires SamePattern(i, j) && |ds| == |es| && Sized(z.sym, i.sym) && Sized(z.sym, j.sym)
    requires SameHashes(EndOf(z, i, r, m, ds), EndOf(z, j, q, n, es))
    ensures var a, b := HandshakeActs(z.dh, i, m, ds), HandshakeActs(z.dh, j, n, es);
            || (i.sym == j.sym && i.prologue == j.prologue && a == b && SecretsOf(a) == SecretsOf(b))
            || CollideOn(z.sym.hash, HashedByAll(z.sym, i.sym, a), HashedByAll(z.sym, j.sym, b))
  {
    hide LawfulNoise, LawfulSuite, Run, Start, Configured, Configures, Legal, After, HashedByAll, RunActs, CollideOn, Sized, SecretsOf;
    FromStart(z, i, r, m, ds);
    FromStart(z, j, q, n, es);
    RunShape(z.dh, i.tokens, i.pos, Initiator, i.reqs.psk, m, ds, n, es);
    StartShape(z.dh, i.prologue, m, j.prologue, n, i.reqs.localPremsg, i.reqs.remotePremsg);
    assert LawfulSuite(z.sym) by { LawfulParts(z); }
    var a, b := HandshakeActs(z.dh, i, m, ds), HandshakeActs(z.dh, j, n, es);
    ShapesJoin(StartActs(z.dh, i.prologue, m, i.reqs.localPremsg, i.reqs.remotePremsg),
               RunActs(z.dh, i.tokens, i.pos, Initiator, m, i.reqs.psk, ds),
               StartActs(z.dh, j.prologue, n, j.reqs.localPremsg, j.reqs.remotePremsg),
               RunActs(z.dh, j.tokens, j.pos, Initiator, n, j.reqs.psk, es));
    ActsBind(z.sym, i.sym, a, j.sym, b);
    assert a[0] == Hash(i.prologue) && b[0] == Hash(j.prologue);
  }

  /** The state that a handshake begins with: the name, filled up with zeros, or its digest if it is longer. */
  lemma InitialIs(s: Suite, name: bytes)
    requires LawfulSuite(s)
    ensures var y := Initial(s, name);
            && y.ck == y.h && Sized(s, y) && y.c == EMPTY
            && (if |name| > s.hash.hashLen then y.h == s.hash.digest(name)
                else name <= y.h && forall i :: |name| <= i < |y.h| ==> y.h[i] == 0)
  {
  }
}
