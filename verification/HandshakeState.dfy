/** The handshake object of noise/src/protocol/handshakestate.c, working in place on its keys, its
    symmetric state and the caller's message buffer; each method is tied to the functions of Handshake. */
module HandshakeState {
  import opened Bytes
  import opened NoiseBase
  import opened HashState
  import opened CipherState
  import opened SymmetricState
  import opened DhState
  import opened Handshake

  /** Which key objects the pattern's flags call for; the others are null pointers in the source. */
  datatype Presence = Presence(ls: bool, le: bool, rs: bool, re: bool)

  function LocalPresent(has: Presence, role: Role, t: Token): bool {
    if t == EE || (t == ES && role == Initiator) || (t == SE && role == Responder) then has.le else has.ls
  }

  function RemotePresent(has: Presence, role: Role, t: Token): bool {
    if t == EE || (t == ES && role == Responder) || (t == SE && role == Initiator) then has.re else has.rs
  }

  /** The pattern ends, and has the objects its Diffie-Hellman tokens name. */
  predicate Fits(tokens: seq<Token>, role: Role, has: Presence) {
    && tokens != [] && tokens[|tokens| - 1] == End
    && forall i :: 0 <= i < |tokens| && IsDh(tokens[i]) ==>
         LocalPresent(has, role, tokens[i]) && RemotePresent(has, role, tokens[i])
  }

  function If(has: bool, k: Dh): Option<Dh> { if has then Some(k) else None }

  class HandshakeState {
    const suite: Noise
    const role: Role
    const reqs: Requirements
    const tokens: seq<Token>
    const has: Presence
    const symmetric: SymmetricState
    const localStatic: DHState
    const localEphemeral: DHState
    const remoteStatic: DHState
    const remoteEphemeral: DHState
    var action: Action
    var pos: nat
    var psk: bytes
    var prologue: bytes

    ghost predicate KeysValid()
      reads localStatic, localEphemeral, remoteStatic, remoteEphemeral
    {
      && localStatic.alg == localEphemeral.alg == remoteStatic.alg == remoteEphemeral.alg == suite.dh
      && localStatic.Valid() && localEphemeral.Valid() && remoteStatic.Valid() && remoteEphemeral.Valid()
      && localStatic != localEphemeral && localStatic != remoteStatic && localStatic != remoteEphemeral
      && localEphemeral != remoteStatic && localEphemeral != remoteEphemeral && remoteStatic != remoteEphemeral
    }

    /** Consistent and not yet split. */
    ghost predicate Live()
      reads this, symmetric, localStatic, localEphemeral, remoteStatic, remoteEphemeral
    {
      && LawfulNoise(suite) && symmetric.Valid() && symmetric.suite == suite.sym && symmetric.cipher != null
      && KeysValid() && Fits(tokens, role, has) && pos < |tokens|
    }

    ghost function Value(): Party
      reads this, symmetric, symmetric.ck, symmetric.h, symmetric.cipher
      reads localStatic, localEphemeral, remoteStatic, remoteEphemeral
      requires Live()
    {
      Party(role, reqs, action, tokens, pos, symmetric.Value(),
            If(has.ls, localStatic.Value()), If(has.le, localEphemeral.Value()),
            If(has.rs, remoteStatic.Value()), If(has.re, remoteEphemeral.Value()),
            psk, prologue)
    }

    constructor (suite: Noise, name: bytes, role: Role, reqs: Requirements, tokens: seq<Token>, has: Presence)
      requires LawfulNoise(suite) && Fits(tokens, role, has)
      ensures Live() && this.suite == suite
      ensures var none := Cleared(suite.dh);
              Value() == Party(role, reqs, Idle, tokens, 0, Initial(suite.sym, name),
                               If(has.ls, none), If(has.le, none), If(has.rs, none), If(has.re, none), [], [])
    {
      this.suite, this.role, this.reqs, this.tokens, this.has := suite, role, reqs, tokens, has;
      symmetric := new SymmetricState(suite.sym, name);
      localStatic := new DHState(suite.dh);
      localEphemeral := new DHState(suite.dh);
      remoteStatic := new DHState(suite.dh);
      remoteEphemeral := new DHState(suite.dh);
      action, pos, psk, prologue := Idle, 0, [], [];
    }

    method SetPsk(key: bytes) returns (err: Error)
      requires Live()
      modifies this`psk
      ensures Live()
      ensures if |key| == NOISE_PSK_LEN then err == NoError && Value() == old(Value()).(psk := key)
              else err == InvalidLength && Value() == old(Value())
    {
      if |key| != NOISE_PSK_LEN {
        return InvalidLength;
      }
      psk := key;
      return NoError;
    }

    method SetPrologue(p: bytes) returns (err: Error)
      requires Live()
      modifies this`prologue
      ensures Live()
      ensures if action == Idle then err == NoError && Value() == old(Value()).(prologue := p)
              else err == InvalidState && Value() == old(Value())
    {
      if action != Idle {
        return InvalidState;
      }
      prologue := p;
      return NoError;
    }

    method MixPublicKey(present: bool, key: DHState, wanted: bool)
      requires Live() && key in {localStatic, remoteStatic}
      modifies symmetric.hash, symmetric.h
      ensures Live()
      ensures Value() == old(Value()).(sym := MixPublic(suite, old(Value()).sym, If(present, key.Value()), wanted))
    {
      hide LawfulNoise, LawfulDh, LawfulSuite, Fits, MixHash;
      if wanted && present && key.keyType != NoKey {
        symmetric.DoMixHash(key.publicKey);
      }
    }

    method MixPremessages()
      requires Live()
      modifies symmetric.hash, symmetric.h
      ensures Live() && Value() == old(Value()).(sym := MixPremsgs(suite, old(Value()), old(Value()).sym))
    {
      hide LawfulNoise, LawfulDh, LawfulSuite, Fits, MixPublic;
      if role == Initiator {
        MixPublicKey(has.ls, localStatic, reqs.localPremsg);
        MixPublicKey(has.rs, remoteStatic, reqs.remotePremsg);
      } else {
        MixPublicKey(has.rs, remoteStatic, reqs.remotePremsg);
        MixPublicKey(has.ls, localStatic, reqs.localPremsg);
      }
    }

    method StartHandshake() returns (err: Error)
      requires Live()
      modifies this`action, symmetric.hash, symmetric.h
      ensures Live()
      ensures match Start(suite, old(Value()))
              case Ok(p) => err == NoError && Value() == p
              case Err(e) => err == e && e != NoError && Value() == old(Value())
    {
      hide LawfulNoise, LawfulDh, LawfulSuite, Fits, MixHash, MixPublic;
      if action != Idle {
        return InvalidState;
      }
      if reqs.localRequired && !(has.ls && localStatic.keyType == Keypair) {
        return LocalKeyRequired;
      }
      if reqs.remoteRequired && !(has.rs && remoteStatic.keyType != NoKey) {
        return RemoteKeyRequired;
      }
      symmetric.DoMixHash(prologue);
      MixPremessages();
      action := if role == Initiator then WriteMessage else ReadMessage;
      return NoError;
    }

    // Tokens.  On success the cursor has moved on by one; on failure the message is abandoned.

    /** The shared key is mixed in even when the calculation fails; the error is then returned. */
    method MixDhToken(t: Token) returns (err: Error)
      requires Live() && IsDh(t) && tokens[pos] == t
      modifies symmetric.hash, symmetric.ck, symmetric.cipher
      ensures Live()
      ensures match MixDh(suite, old(Value()), t)
              case Ok(p) => err == NoError && Value() == p && p.pos == pos
              case Err(e) => err == e && e != NoError
    {
      hide LawfulHash, LawfulAead, MixKey, Calculate;
      var local := if t == EE || (t == ES && role == Initiator) || (t == SE && role == Responder)
                   then localEphemeral else localStatic;
      var remote := if t == EE || (t == ES && role == Responder) || (t == SE && role == Initiator)
                    then remoteEphemeral else remoteStatic;
      var shared := new byte[suite.dh.sharedLen];
      err := local.CalculateShared(remote, shared);
      symmetric.DoMixKey(shared[..]);
    }

    method MixPskToken() returns (err: Error)
      requires Live()
      modifies symmetric.hash, symmetric.ck, symmetric.h, symmetric.cipher
      ensures Live()
      ensures match MixPsk(suite, old(Value()))
              case Ok(p) => err == NoError && Value() == p && p.pos == pos
              case Err(e) => err == e && e != NoError
    {
      hide LawfulNoise, LawfulDh, LawfulSuite, Fits, MixKeyAndHash;
      if |psk| == 0 {
        return PskRequired;
      }
      symmetric.DoMixKeyAndHash(psk);
      return NoError;
    }

    method MixEphemeralKey(pub: bytes)
      requires Live()
      modifies symmetric.hash, symmetric.ck, symmetric.h, symmetric.cipher
      ensures Live()
      ensures Value() == old(Value()).(sym := MixEphemeral(suite, old(Value()).sym, reqs.psk, pub))
    {
      hide LawfulNoise, LawfulDh, LawfulSuite, Fits, MixKey, MixHash;
      symmetric.DoMixHash(pub);
      if reqs.psk {
        symmetric.DoMixKey(pub);
      }
    }

    /** Moves the token pointer on. */
    method Advance()
      requires Live() && tokens[pos] != End
      modifies this`pos
      ensures Live() && Value() == old(Value()).(pos := old(pos) + 1)
    {
      pos := pos + 1;
    }

    method DrawEphemeral(priv: bytes)
      requires Live() && has.le && |priv| == suite.dh.privateLen
      modifies localEphemeral
      ensures Live() && Value() == old(Value()).(le := Some(PairOf(suite.dh, priv)))
      ensures localEphemeral.publicKey == suite.dh.publicOf(priv)
    {
      localEphemeral.GenerateKeypair(priv);
    }

    /** Draws the ephemeral keypair and adds its public half to the message in the clear. */
    method WriteEphemeral(message: NoiseBuffer, gen: nat -> bytes) returns (err: Error)
      requires Live() && tokens[pos] == E && message.Valid() && |gen(pos)| == suite.dh.privateLen
      requires message.data != symmetric.ck && message.data != symmetric.h
      modifies this`pos, localEphemeral, symmetric.hash, symmetric.ck, symmetric.h, symmetric.cipher
      modifies message`size, message.data
      ensures Live() && message.Valid()
      ensures match WriteToken(suite, old(Value()), gen, old(message.maxSize - message.size))
              case Ok(v) => err == NoError && Value() == v.0 && message.Contents() == old(message.Contents()) + v.1
              case Err(e) => err == e && e != NoError
    {
      assert pos + 1 < |tokens|;
      hide LawfulNoise, LawfulDh, LawfulSuite, Fits, MixEphemeral, WriteToken;
      WriteIsEphemeral(suite, Value(), gen, message.maxSize - message.size);
      if !has.le {
        return InvalidState;
      }
      err := EmitEphemeral(message, gen(pos));
    }

    method EmitEphemeral(message: NoiseBuffer, priv: bytes) returns (err: Error)
      requires Live() && tokens[pos] != End && has.le && |priv| == suite.dh.privateLen && message.Valid()
      requires message.data != symmetric.ck && message.data != symmetric.h
      modifies this`pos, localEphemeral, symmetric.hash, symmetric.ck, symmetric.h, symmetric.cipher
      modifies message`size, message.data
      ensures Live() && message.Valid()
      ensures var k := PairOf(suite.dh, priv);
              if old(message.maxSize - message.size) < |k.pub| then err == InvalidLength
              else err == NoError && message.Contents() == old(message.Contents()) + k.pub
                   && Value() == old(Value()).(pos := old(pos) + 1, le := Some(k),
                                               sym := MixEphemeral(suite, old(Value()).sym, reqs.psk, k.pub))
    {
      hide LawfulNoise, LawfulSuite, Fits, MixEphemeral;
      DrawEphemeral(priv);
      var pub := localEphemeral.publicKey;
      if message.maxSize - message.size < |pub| {
        return InvalidLength;
      }
      SendEphemeral(message, pub);
      return NoError;
    }

    method SendEphemeral(message: NoiseBuffer, pub: bytes)
      requires Live() && tokens[pos] != End && message.Valid() && |pub| <= message.maxSize - message.size
      requires message.data != symmetric.ck && message.data != symmetric.h
      modifies this`pos, symmetric.hash, symmetric.ck, symmetric.h, symmetric.cipher, message`size, message.data
      ensures Live() && message.Valid() && message.Contents() == old(message.Contents()) + pub
      ensures Value() == old(Value()).(pos := old(pos) + 1, sym := MixEphemeral(suite, old(Value()).sym, reqs.psk, pub))
    {
      hide LawfulNoise, LawfulDh, LawfulSuite, Fits, MixEphemeral;
      AppendTo(message, pub);
      MixEphemeralKey(pub);
      Advance();
    }

    /** Encrypts the static public key into the rest of the message. */
    method WriteStatic(message: NoiseBuffer, gen: nat -> bytes) returns (err: Error)
      requires Live() && tokens[pos] == S && message.Valid()
      requires message.data != symmetric.ck && message.data != symmetric.h
      modifies this`pos, symmetric.hash, symmetric.h, symmetric.cipher, message`size, message.data
      ensures Live() && message.Valid()
      ensures match WriteToken(suite, old(Value()), gen, old(message.maxSize - message.size))
              case Ok(v) => err == NoError && Value() == v.0 && message.Contents() == old(message.Contents()) + v.1
              case Err(e) => err == e && e != NoError
    {
      WriteIsStatic(suite, Value(), gen, message.maxSize - message.size);
      hide LawfulNoise, LawfulDh, LawfulSuite, Fits, EncryptAndHash, WriteToken;
      if !has.ls {
        return InvalidState;
      }
      var pub := localStatic.publicKey;
      var macLen := if symmetric.cipher.hasKey then suite.sym.aead.macLen else 0;
      if message.maxSize - message.size < |pub| + macLen {
        return InvalidLength;
      }
      err := SendStatic(message, pub);
    }

    method SendStatic(message: NoiseBuffer, pub: bytes) returns (err: Error)
      requires Live() && tokens[pos] != End && message.Valid() && |pub| <= message.maxSize - message.size
      requires message.data != symmetric.ck && message.data != symmetric.h
      modifies this`pos, symmetric.hash, symmetric.h, symmetric.cipher, message`size, message.data
      ensures Live() && message.Valid()
      ensures match EncryptAndHash(suite.sym, old(Value()).sym, pub, old(message.maxSize - message.size))
              case Ok(v) => err == NoError && message.Contents() == old(message.Contents()) + v.1
                            && Value() == old(Value()).(pos := old(pos) + 1, sym := v.0)
              case Err(e) => err == e && e != NoError
    {
      hide LawfulNoise, LawfulDh, LawfulSuite, Fits, EncryptAndHash;
      err := EncryptInto(message, pub);
      if err == NoError {
        Advance();
      }
    }

    /** Encrypts bytes in place at the end of the message; there is room for them. */
    method EncryptInto(message: NoiseBuffer, plain: bytes) returns (err: Error)
      requires Live() && message.Valid() && |plain| <= message.maxSize - message.size
      requires message.data != symmetric.ck && message.data != symmetric.h
      modifies symmetric.hash, symmetric.h, symmetric.cipher, message`size, message.data
      ensures Live() && message.Valid()
      ensures match EncryptAndHash(suite.sym, old(Value()).sym, plain, old(message.maxSize - message.size))
              case Ok(v) => err == NoError && Value() == old(Value()).(sym := v.0)
                            && message.Contents() == old(message.Contents()) + v.1
              case Err(e) => err == e && e != NoError
    {
      hide LawfulNoise, LawfulDh, LawfulSuite, Fits, EncryptAndHash;
      err := symmetric.DoEncryptInto(message, plain);
    }

    /** One token of a message being written; at a boundary nothing is left to do here. */
    method WriteOne(message: NoiseBuffer, gen: nat -> bytes) returns (err: Error)
      requires Live() && !AtBoundary(Value()) && message.Valid() && |gen(pos)| == suite.dh.privateLen
      requires message.data != symmetric.ck && message.data != symmetric.h
      modifies this`pos, localEphemeral, symmetric.hash, symmetric.ck, symmetric.h, symmetric.cipher
      modifies message`size, message.data
      ensures Live() && message.Valid()
      ensures match WriteToken(suite, old(Value()), gen, old(message.maxSize - message.size))
              case Ok(v) => err == NoError && Value() == v.0 && message.Contents() == old(message.Contents()) + v.1
              case Err(e) => err == e && e != NoError
    {
      hide LawfulNoise, LawfulDh, LawfulSuite, Fits, WriteToken;
      if tokens[pos] == E {
        err := WriteEphemeral(message, gen);
      } else if tokens[pos] == S {
        err := WriteStatic(message, gen);
      } else {
        err := WriteMix(message, gen);
      }
    }

    method WriteMix(message: NoiseBuffer, ghost gen: nat -> bytes) returns (err: Error)
      requires Live() && !AtBoundary(Value()) && message.Valid() && tokens[pos] != E && tokens[pos] != S
      requires message.data != symmetric.ck && message.data != symmetric.h
      modifies this`pos, symmetric.hash, symmetric.ck, symmetric.h, symmetric.cipher
      ensures Live() && message.Valid()
      ensures match WriteToken(suite, old(Value()), gen, message.maxSize - message.size)
              case Ok(v) => err == NoError && Value() == v.0 && message.Contents() == old(message.Contents()) + v.1
              case Err(e) => err == e && e != NoError
    {
      hide LawfulNoise, LawfulDh, LawfulSuite, Fits, WriteToken;
      WriteIsMix(suite, Value(), gen, message.maxSize - message.size);
      err := MixOne();
      assert message.Contents() + [] == message.Contents();
    }

    /** A token that adds nothing to a message: the same step when writing and when reading. */
    method MixOne() returns (err: Error)
      requires Live() && !AtBoundary(Value()) && tokens[pos] != E && tokens[pos] != S
      modifies this`pos, symmetric.hash, symmetric.ck, symmetric.h, symmetric.cipher
      ensures Live()
      ensures match MixStep(suite, old(Value()))
              case Ok(p) => err == NoError && Value() == p.(pos := p.pos + 1)
              case Err(e) => err == e && e != NoError
    {
      hide LawfulNoise, LawfulDh, LawfulSuite, Fits, MixDh, MixPsk;
      if IsDh(tokens[pos]) {
        err := MixDhToken(tokens[pos]);
      } else if tokens[pos] == Psk {
        err := MixPskToken();
      } else {
        err := InvalidState;
      }
      if err == NoError {
        Advance();
      }
    }

    /** At a boundary: the pattern has finished, or it is the other side's turn. */
    method TurnAround(next: Action)
      requires Live() && AtBoundary(Value())
      modifies this`pos, this`action
      ensures Live() && Value() == Turn(old(Value()), next)
    {
      if tokens[pos] == End {
        action := SplitReady;
      } else {
        pos := pos + 1;
        action := next;
      }
    }

    /** One turn of the loop below: the message so far and the tokens left still add up to the goal. */
    method WriteStep(message: NoiseBuffer, gen: nat -> bytes, ghost goal: Result<(Party, bytes)>) returns (err: Error)
      requires Live() && !AtBoundary(Value()) && message.Valid() && |gen(pos)| == suite.dh.privateLen
      requires message.data != symmetric.ck && message.data != symmetric.h
      requires goal == Prefixed(message.Contents(), WriteTokens(suite, Value(), gen, message.maxSize - message.size))
      modifies this`pos, localEphemeral, symmetric.hash, symmetric.ck, symmetric.h, symmetric.cipher
      modifies message`size, message.data
      ensures Live() && message.Valid()
      ensures if err != NoError then goal == Err(err)
              else pos == old(pos) + 1
                   && goal == Prefixed(message.Contents(), WriteTokens(suite, Value(), gen, message.maxSize - message.size))
    {
      hide LawfulNoise, LawfulDh, LawfulSuite, Fits, WriteToken, WriteTokens, Prefixed;
      ghost var p, done, room := Value(), message.Contents(), message.maxSize - message.size;
      ghost var r := WriteToken(suite, p, gen, room);
      WritePrefixed(suite, p, gen, room, done);
      err := WriteOne(message, gen);
      assert r.Ok? <==> err == NoError;
      if err == NoError {
        assert |message.Contents()| == |done| + |r.value.1|;
        WriteAdvances(suite, p, gen, room);
      }
    }

    /** Processes tokens until the direction changes or the pattern ends. */
    method WriteLoop(message: NoiseBuffer, gen: nat -> bytes) returns (err: Error)
      requires Live() && message.Valid() && message.size == 0
      requires forall i: nat :: |gen(i)| == suite.dh.privateLen
      requires message.data != symmetric.ck && message.data != symmetric.h
      modifies this`pos, localEphemeral, symmetric.hash, symmetric.ck, symmetric.h, symmetric.cipher
      modifies message`size, message.data
      ensures Live() && message.Valid()
      ensures var goal := WriteTokens(suite, old(Value()), gen, message.maxSize);
              if err != NoError then goal == Err(err)
              else AtBoundary(Value())
                   && goal == Prefixed(message.Contents(), WriteTokens(suite, Value(), gen, message.maxSize - message.size))
    {
      hide LawfulNoise, LawfulDh, LawfulSuite, Fits, WriteToken, WriteTokens;
      ghost var goal := WriteTokens(suite, Value(), gen, message.maxSize);
      assert message.Contents() == [] && (goal.Ok? ==> [] + goal.value.1 == goal.value.1);
      err := NoError;
      while tokens[pos] != End && tokens[pos] != FlipDir
        invariant Live() && message.Valid() && err == NoError
        invariant goal == Prefixed(message.Contents(), WriteTokens(suite, Value(), gen, message.maxSize - message.size))
        decreases |tokens| - pos
      {
        err := WriteStep(message, gen, goal);
        if err != NoError {
          return;
        }
      }
    }

    method WriteAllTokens(message: NoiseBuffer, gen: nat -> bytes) returns (err: Error)
      requires Live() && message.Valid() && message.size == 0
      requires forall i: nat :: |gen(i)| == suite.dh.privateLen
      requires message.data != symmetric.ck && message.data != symmetric.h
      modifies this`pos, this`action, localEphemeral, symmetric.hash, symmetric.ck, symmetric.h, symmetric.cipher
      modifies message`size, message.data
      ensures Live() && message.Valid()
      ensures match WriteTokens(suite, old(Value()), gen, message.maxSize)
              case Ok(v) => err == NoError && Value() == v.0 && message.Contents() == v.1
              case Err(e) => err == e && e != NoError
    {
      hide LawfulNoise, LawfulDh, LawfulSuite, Fits, WriteTokens, Turn;
      ghost var goal := WriteTokens(suite, Value(), gen, message.maxSize);
      err := WriteLoop(message, gen);
      if err != NoError {
        return;
      }
      WriteEnds(suite, Value(), gen, message.maxSize - message.size);
      assert message.Contents() + [] == message.Contents();
      assert goal == Ok((Turn(Value(), ReadMessage), message.Contents()));
      TurnAround(ReadMessage);
    }

    method WriteHandshakeMessage(message: NoiseBuffer, payload: NoiseBuffer?, gen: nat -> bytes) returns (err: Error)
      requires Live() && message.Valid() && (payload != null ==> payload.Valid() && payload.data != message.data && payload != message)
      requires forall i: nat :: |gen(i)| == suite.dh.privateLen
      requires message.data != symmetric.ck && message.data != symmetric.h
      requires payload != null ==> payload.data != symmetric.ck && payload.data != symmetric.h
      modifies this, localEphemeral, symmetric.hash, symmetric.ck, symmetric.h, symmetric.cipher
      modifies message`size, message.data
      ensures Live() && message.Valid()
      ensures old(action) != WriteMessage ==> err == InvalidState && Value() == old(Value()) && message.size == 0
      ensures old(action) == WriteMessage ==>
        var plain := if payload == null then [] else old(payload.Contents());
        match Write(suite, old(Value()), gen, message.maxSize, plain)
        case Ok(v) => err == NoError && Value() == v.0 && message.Contents() == v.1
        case Err(e) => err == e && e != NoError && action == Failed && message.size == 0
    {
      hide LawfulNoise, LawfulDh, LawfulSuite, Fits, Write;
      message.size := 0;
      if action != WriteMessage {
        return InvalidState;
      }
      var plain := if payload == null then [] else payload.data[payload.at..payload.at + payload.size];
      err := WriteBody(message, plain, gen);
      if err != NoError {
        action := Failed;
        message.size := 0;
      }
    }

    /** The tokens, then the encrypted payload, into an empty message buffer. */
    method WriteBody(message: NoiseBuffer, plain: bytes, gen: nat -> bytes) returns (err: Error)
      requires Live() && message.Valid() && message.size == 0
      requires forall i: nat :: |gen(i)| == suite.dh.privateLen
      requires message.data != symmetric.ck && message.data != symmetric.h
      modifies this`pos, this`action, localEphemeral, symmetric.hash, symmetric.ck, symmetric.h, symmetric.cipher
      modifies message`size, message.data
      ensures Live() && message.Valid()
      ensures match Write(suite, old(Value()), gen, message.maxSize, plain)
              case Ok(v) => err == NoError && Value() == v.0 && message.Contents() == v.1
              case Err(e) => err == e && e != NoError
    {
      hide LawfulNoise, LawfulDh, LawfulSuite, Fits, WriteTokens, EncryptAndHash;
      err := WriteAllTokens(message, gen);
      if err != NoError {
        return;
      }
      var macLen := if symmetric.cipher.hasKey then suite.sym.aead.macLen else 0;
      if message.maxSize - message.size < macLen {
        return InvalidLength;
      }
      if message.maxSize - message.size - macLen < |plain| {
        return InvalidLength;
      }
      err := EncryptInto(message, plain);
    }

    // Reading.  The working copy of the message buffer shrinks from the front as tokens are taken off it.

    /** Saves and hashes the remote ephemeral key; a null one is refused. */
    method ReadEphemeral(msg: NoiseBuffer) returns (err: Error)
      requires Live() && tokens[pos] == E && msg.Valid()
      requires msg.data != symmetric.ck && msg.data != symmetric.h
      modifies this`pos, remoteEphemeral, symmetric.hash, symmetric.ck, symmetric.h, symmetric.cipher, msg
      ensures Live() && msg.Valid() && msg.data == old(msg.data)
      ensures match ReadToken(suite, old(Value()), old(msg.Contents()))
              case Ok(v) => err == NoError && Value() == v.0 && msg.Contents() == old(msg.Contents())[v.1..]
              case Err(e) => err == e && e != NoError
    {
      hide LawfulNoise, LawfulSuite, Fits, MixEphemeral, ReadToken;
      ReadIsEphemeral(suite, Value(), msg.Contents());
      if !has.re {
        return InvalidState;
      }
      var len := suite.dh.publicLen;
      if msg.size < len {
        return InvalidLength;
      }
      err := TakeEphemeral(msg, len);
    }

    method TakeEphemeral(msg: NoiseBuffer, len: nat) returns (err: Error)
      requires Live() && tokens[pos] != End && has.re && msg.Valid() && len <= msg.size
      modifies this`pos, remoteEphemeral, symmetric.hash, symmetric.ck, symmetric.h, symmetric.cipher, msg
      requires msg.data != symmetric.ck && msg.data != symmetric.h
      ensures Live() && msg.Valid() && msg.data == old(msg.data)
      ensures var pub := old(msg.Contents())[..len];
              match SetPublic(suite.dh, pub)
              case Err(e) => err == e && e != NoError
              case Ok(k) => if NullPublic(suite.dh, pub) then err == InvalidPublicKey
                            else && err == NoError && msg.Contents() == old(msg.Contents())[len..]
                                 && Value() == old(Value()).(pos := old(pos) + 1, re := Some(k),
                                      sym := MixEphemeral(suite, old(Value()).sym, reqs.psk, pub))
    {
      hide LawfulNoise, LawfulSuite, Fits, MixEphemeral, SetPublic, NullPublic;
      var pub := msg.data[msg.at..msg.at + len];
      assert pub == msg.Contents()[..len] by {
        WindowFront(msg.data[..], msg.at, len, msg.size);
      }
      err := ReceiveEphemeral(pub);
      if err == NoError {
        msg.Skip(len);
      }
    }

    method ReceiveEphemeral(pub: bytes) returns (err: Error)
      requires Live() && tokens[pos] != End && has.re
      modifies this`pos, remoteEphemeral, symmetric.hash, symmetric.ck, symmetric.h, symmetric.cipher
      ensures Live()
      ensures match SetPublic(suite.dh, pub)
              case Err(e) => err == e && e != NoError
              case Ok(k) => if NullPublic(suite.dh, pub) then err == InvalidPublicKey
                            else err == NoError && Value() == old(Value()).(pos := old(pos) + 1, re := Some(k),
                                   sym := MixEphemeral(suite, old(Value()).sym, reqs.psk, pub))
    {
      hide LawfulNoise, LawfulSuite, Fits, MixEphemeral;
      MixEphemeralKey(pub);
      err := remoteEphemeral.SetPublicKey(pub);
      if err != NoError {
        return;
      }
      var isNull := remoteEphemeral.IsNullPublicKey();
      if isNull {
        return InvalidPublicKey;
      }
      Advance();
    }

    /** Decrypts and saves the remote static key. */
    method ReadStatic(msg: NoiseBuffer) returns (err: Error)
      requires Live() && tokens[pos] == S && msg.Valid()
      requires msg.data != symmetric.ck && msg.data != symmetric.h
      modifies this`pos, remoteStatic, symmetric.hash, symmetric.h, symmetric.cipher, msg, msg.data
      ensures Live() && msg.Valid() && msg.data == old(msg.data)
      ensures match ReadToken(suite, old(Value()), old(msg.Contents()))
              case Ok(v) => err == NoError && Value() == v.0 && msg.Contents() == old(msg.Contents())[v.1..]
              case Err(e) => err == e && e != NoError
    {
      hide LawfulNoise, LawfulSuite, Fits, DecryptAndHash, ReadToken, SetPublic;
      ReadIsStatic(suite, Value(), msg.Contents());
      if !has.rs {
        return InvalidState;
      }
      var macLen := if symmetric.cipher.hasKey then suite.sym.aead.macLen else 0;
      var len := suite.dh.publicLen + macLen;
      if msg.size < len {
        return InvalidLength;
      }
      err := TakeStatic(msg, len);
    }

    method TakeStatic(msg: NoiseBuffer, len: nat) returns (err: Error)
      requires Live() && tokens[pos] != End && has.rs && msg.Valid() && len <= msg.size
      requires msg.data != symmetric.ck && msg.data != symmetric.h
      modifies this`pos, remoteStatic, symmetric.hash, symmetric.h, symmetric.cipher, msg, msg.data
      ensures Live() && msg.Valid() && msg.data == old(msg.data)
      ensures match DecryptAndHash(suite.sym, old(Value()).sym, old(msg.Contents())[..len])
              case Err(e) => err == e && e != NoError
              case Ok(v) =>
                match SetPublic(suite.dh, v.1)
                case Err(e) => err == e && e != NoError
                case Ok(k) => err == NoError && msg.Contents() == old(msg.Contents())[len..]
                              && Value() == old(Value()).(pos := old(pos) + 1, sym := v.0, rs := Some(k))
    {
      hide LawfulNoise, LawfulSuite, Fits, DecryptAndHash, SetPublic;
      var pub;
      err, pub := DecryptFront(msg, len);
      if err == NoError {
        err := ReceiveStatic(pub);
      }
    }

    method ReceiveStatic(pub: bytes) returns (err: Error)
      requires Live() && tokens[pos] != End && has.rs
      modifies this`pos, remoteStatic
      ensures Live()
      ensures match SetPublic(suite.dh, pub)
              case Err(e) => err == e && e != NoError
              case Ok(k) => err == NoError && Value() == old(Value()).(pos := old(pos) + 1, rs := Some(k))
    {
      hide LawfulNoise, LawfulSuite, Fits;
      err := remoteStatic.SetPublicKey(pub);
      if err == NoError {
        Advance();
      }
    }

    method DecryptFront(msg: NoiseBuffer, len: nat) returns (err: Error, plain: bytes)
      requires Live() && msg.Valid() && msg.data != symmetric.ck && msg.data != symmetric.h && len <= msg.size
      modifies symmetric.hash, symmetric.h, symmetric.cipher, msg, msg.data
      ensures Live() && msg.Valid() && msg.data == old(msg.data)
      ensures match DecryptAndHash(suite.sym, old(Value()).sym, old(msg.Contents())[..len])
              case Ok(v) => err == NoError && Value() == old(Value()).(sym := v.0) && plain == v.1
                            && msg.Contents() == old(msg.Contents())[len..]
              case Err(e) => err == e && e != NoError
    {
      hide LawfulNoise, LawfulDh, LawfulSuite, Fits, DecryptAndHash;
      err, plain := symmetric.DoDecryptFront(msg, len);
    }

    method ReadOne(msg: NoiseBuffer) returns (err: Error)
      requires Live() && !AtBoundary(Value()) && msg.Valid()
      requires msg.data != symmetric.ck && msg.data != symmetric.h
      modifies this`pos, remoteStatic, remoteEphemeral, symmetric.hash, symmetric.ck, symmetric.h, symmetric.cipher
      modifies msg, msg.data
      ensures Live() && msg.Valid() && msg.data == old(msg.data)
      ensures match ReadToken(suite, old(Value()), old(msg.Contents()))
              case Ok(v) => err == NoError && Value() == v.0 && msg.Contents() == old(msg.Contents())[v.1..]
              case Err(e) => err == e && e != NoError
    {
      hide LawfulNoise, LawfulDh, LawfulSuite, Fits, ReadToken;
      if tokens[pos] == E {
        err := ReadEphemeral(msg);
      } else if tokens[pos] == S {
        err := ReadStatic(msg);
      } else {
        err := ReadMix(msg);
      }
    }

    method ReadMix(msg: NoiseBuffer) returns (err: Error)
      requires Live() && !AtBoundary(Value()) && msg.Valid() && tokens[pos] != E && tokens[pos] != S
      requires msg.data != symmetric.ck && msg.data != symmetric.h
      modifies this`pos, symmetric.hash, symmetric.ck, symmetric.h, symmetric.cipher
      ensures Live() && msg.Valid()
      ensures match ReadToken(suite, old(Value()), old(msg.Contents()))
              case Ok(v) => err == NoError && Value() == v.0 && v.1 == 0
              case Err(e) => err == e && e != NoError
    {
      hide LawfulNoise, LawfulDh, LawfulSuite, Fits, ReadToken;
      ReadIsMix(suite, Value(), msg.Contents());
      err := MixOne();
    }

    method ReadStep(msg: NoiseBuffer, ghost goal: Result<(Party, bytes)>) returns (err: Error)
      requires Live() && !AtBoundary(Value()) && msg.Valid()
      requires msg.data != symmetric.ck && msg.data != symmetric.h
      requires goal == ReadTokens(suite, Value(), msg.Contents())
      modifies this`pos, remoteStatic, remoteEphemeral, symmetric.hash, symmetric.ck, symmetric.h, symmetric.cipher
      modifies msg, msg.data
      ensures Live() && msg.Valid() && msg.data == old(msg.data)
      ensures if err != NoError then goal == Err(err)
              else pos == old(pos) + 1 && goal == ReadTokens(suite, Value(), msg.Contents())
    {
      hide LawfulNoise, LawfulDh, LawfulSuite, Fits, ReadToken, ReadTokens;
      ghost var p, whole := Value(), msg.Contents();
      ReadFirst(suite, p, whole);
      err := ReadOne(msg);
      if err == NoError {
        ReadAdvances(suite, p, whole);
      }
    }

    method ReadAllTokens(msg: NoiseBuffer) returns (err: Error)
      requires Live() && msg.Valid() && msg.data != symmetric.ck && msg.data != symmetric.h
      modifies this`pos, this`action, remoteStatic, remoteEphemeral
      modifies symmetric.hash, symmetric.ck, symmetric.h, symmetric.cipher, msg, msg.data
      ensures Live() && msg.Valid() && msg.data == old(msg.data)
      ensures match ReadTokens(suite, old(Value()), old(msg.Contents()))
              case Ok(v) => err == NoError && Value() == v.0 && msg.Contents() == v.1
              case Err(e) => err == e && e != NoError
    {
      hide LawfulNoise, LawfulDh, LawfulSuite, Fits, ReadToken, ReadTokens;
      ghost var goal := ReadTokens(suite, Value(), msg.Contents());
      while tokens[pos] != End && tokens[pos] != FlipDir
        invariant Live() && msg.Valid() && msg.data == old(msg.data)
        invariant goal == ReadTokens(suite, Value(), msg.Contents())
        decreases |tokens| - pos
      {
        err := ReadStep(msg, goal);
        if err != NoError {
          return;
        }
      }
      ReadEnds(suite, Value(), msg.Contents());
      TurnAround(WriteMessage);
      return NoError;
    }

    /** Works on a copy of the buffer's bounds; payloadMax is the size of the caller's payload buffer, if any. */
    method ReadBody(message: NoiseBuffer, payloadMax: Option<nat>) returns (err: Error, plain: bytes)
      requires Live() && message.Valid() && message.data != symmetric.ck && message.data != symmetric.h
      modifies this`pos, this`action, remoteStatic, remoteEphemeral
      modifies symmetric.hash, symmetric.ck, symmetric.h, symmetric.cipher, message.data
      ensures Live()
      ensures match Read(suite, old(Value()), old(message.Contents()), payloadMax)
              case Ok(v) => err == NoError && Value() == v.0 && plain == v.1
              case Err(e) => err == e && e != NoError
    {
      hide LawfulNoise, LawfulDh, LawfulSuite, Fits, ReadTokens, DecryptAndHash;
      var msg := new NoiseBuffer(message.data, message.at, message.size, message.maxSize);
      plain := [];
      err := ReadAllTokens(msg);
      if err != NoError {
        return;
      }
      assert msg.Contents()[..msg.size] == msg.Contents();
      err, plain := DecryptFront(msg, msg.size);
      if err == NoError && payloadMax.Some? && |plain| > payloadMax.value {
        err := InvalidLength;
      }
    }

    /** The payload goes to the caller's buffer, if it gave one; the message buffer is wiped before returning. */
    method ReadHandshakeMessage(message: NoiseBuffer, payload: NoiseBuffer?) returns (err: Error, plain: bytes)
      requires Live() && message.Valid() && message.data != symmetric.ck && message.data != symmetric.h
      requires payload != null ==> payload.Valid() && payload != message && payload.data != message.data
                                   && payload.data != symmetric.ck && payload.data != symmetric.h
      modifies this`pos, this`action, remoteStatic, remoteEphemeral
      modifies symmetric.hash, symmetric.ck, symmetric.h, symmetric.cipher, message.data
      modifies if payload == null then {} else {payload, payload.data}
      ensures Live() && message.Valid() && (payload != null ==> payload.Valid())
      ensures old(action) != ReadMessage ==> err == InvalidState && Value() == old(Value())
      ensures old(action) == ReadMessage ==> message.Contents() == Zeros(message.size)
      ensures old(action) == ReadMessage ==>
        match Read(suite, old(Value()), old(message.Contents()), if payload == null then None else Some(old(payload.maxSize)))
        case Ok(v) => err == NoError && Value() == v.0 && plain == v.1
        case Err(e) => err == e && e != NoError && action == Failed
      ensures err == NoError && payload != null ==> payload.Contents() == plain
    {
      hide LawfulNoise, LawfulDh, LawfulSuite, Fits, Read;
      plain := [];
      if action != ReadMessage {
        if payload != null {
          payload.size := 0;
        }
        return InvalidState, plain;
      }
      err, plain := ReadNow(message, payload);
      Blit(message.data, message.at, Zeros(message.size));
      if err != NoError {
        action := Failed;
      }
    }

    method ReadNow(message: NoiseBuffer, payload: NoiseBuffer?) returns (err: Error, plain: bytes)
      requires Live() && message.Valid() && message.data != symmetric.ck && message.data != symmetric.h
      requires payload != null ==> payload.Valid() && payload != message && payload.data != message.data
                                   && payload.data != symmetric.ck && payload.data != symmetric.h
      modifies this`pos, this`action, remoteStatic, remoteEphemeral
      modifies symmetric.hash, symmetric.ck, symmetric.h, symmetric.cipher, message.data
      modifies if payload == null then {} else {payload, payload.data}
      ensures Live() && message.Valid() && (payload != null ==> payload.Valid() && payload.data == old(payload.data))
      ensures match Read(suite, old(Value()), old(message.Contents()), if payload == null then None else Some(old(payload.maxSize)))
              case Ok(v) => err == NoError && Value() == v.0 && plain == v.1
              case Err(e) => err == e && e != NoError
      ensures err == NoError && payload != null ==> payload.Contents() == plain
    {
      hide LawfulNoise, LawfulDh, LawfulSuite, Fits, Read;
      var payloadMax := if payload == null then None else Some(payload.maxSize);
      ReadFits(suite, Value(), message.Contents(), payloadMax);
      err, plain := ReadBody(message, payloadMax);
      if payload != null {
        payload.Replace(if err == NoError then plain else []);
      }
    }

    /** The responder takes the two ciphers in the opposite order. */
    method SplitTransport() returns (err: Error, send: CipherState?, receive: CipherState?)
      requires Live()
      modifies this`action, symmetric`cipher, symmetric.hash, symmetric.cipher
      ensures old(action) != SplitReady ==> err == InvalidState && Live() && Value() == old(Value())
      ensures old(action) == SplitReady ==>
        && err == NoError && action == Complete && symmetric.cipher == null && send != null && receive != null
        && send != receive && send.aead == receive.aead == suite.sym.aead
        && (send.Value(), receive.Value()) == SplitFor(suite, old(Value()))
    {
      send, receive := null, null;
      if action != SplitReady {
        return InvalidState, null, null;
      }
      var c1, c2 := symmetric.DoSplit();
      if role == Responder {
        send, receive := c2, c1;
      } else {
        send, receive := c1, c2;
      }
      action := Complete;
      return NoError, send, receive;
    }
  }

  method AppendTo(message: NoiseBuffer, out: bytes)
    requires message.Valid() && |out| <= message.maxSize - message.size
    modifies message`size, message.data
    ensures message.Valid() && message.Contents() == old(message.Contents()) + out
  {
    Blit(message.data, message.at + message.size, out);
    message.size := message.size + |out|;
  }
}
