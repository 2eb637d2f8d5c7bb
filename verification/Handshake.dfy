/** The handshake of noise/src/protocol/handshakestate.c as functions on values: an interpreter of a
    token list in two mirrored forms, one writing a message and one reading it. */
module Handshake {
  import opened Bytes
  import opened NoiseBase
  import opened HashState
  import opened CipherState
  import opened SymmetricState
  import opened DhState

  datatype Noise = Noise(sym: Suite, dh: DhAlg)

  ghost predicate LawfulNoise(z: Noise) { LawfulSuite(z.sym) && LawfulDh(z.dh) }

  datatype Role = Initiator | Responder
  datatype Action = Idle | WriteMessage | ReadMessage | Failed | SplitReady | Complete
  datatype Token = E | S | EE | ES | SE | SS | Psk | FlipDir | End | Unknown

  datatype Requirements = Requirements(localRequired: bool, remoteRequired: bool, psk: bool,
                                       localPremsg: bool, remotePremsg: bool)

  datatype Party = Party(role: Role, reqs: Requirements, action: Action, tokens: seq<Token>, pos: nat, sym: Sym,
                         ls: Option<Dh>, le: Option<Dh>, rs: Option<Dh>, re: Option<Dh>,
                         psk: bytes, prologue: bytes)

  predicate HasKeypair(k: Option<Dh>) { k.Some? && k.value.keyType == Keypair }
  predicate HasPublic(k: Option<Dh>) { k.Some? && k.value.keyType != NoKey }

  // start

  function MixPublic(z: Noise, y: Sym, k: Option<Dh>, wanted: bool): Sym {
    if wanted && HasPublic(k) then MixHash(z.sym, y, k.value.pub) else y
  }

  /** Both sides hash the initiator's pre-message key first. */
  function MixPremsgs(z: Noise, p: Party, y: Sym): Sym {
    if p.role == Initiator then MixPublic(z, MixPublic(z, y, p.ls, p.reqs.localPremsg), p.rs, p.reqs.remotePremsg)
    else MixPublic(z, MixPublic(z, y, p.rs, p.reqs.remotePremsg), p.ls, p.reqs.localPremsg)
  }

  function Start(z: Noise, p: Party): Result<Party> {
    if p.action != Idle then Err(InvalidState)
    else if p.reqs.localRequired && !HasKeypair(p.ls) then Err(LocalKeyRequired)
    else if p.reqs.remoteRequired && !HasPublic(p.rs) then Err(RemoteKeyRequired)
    else Ok(p.(sym := MixPremsgs(z, p, MixHash(z.sym, p.sym, p.prologue)),
               action := if p.role == Initiator then WriteMessage else ReadMessage))
  }

  // tokens

  predicate IsDh(t: Token) { t in {EE, ES, SE, SS} }

  /** The local and remote key objects a Diffie-Hellman token names for this role. */
  function Local(p: Party, t: Token): Option<Dh> {
    if t == EE || (t == ES && p.role == Initiator) || (t == SE && p.role == Responder) then p.le else p.ls
  }

  function Remote(p: Party, t: Token): Option<Dh> {
    if t == EE || (t == ES && p.role == Responder) || (t == SE && p.role == Initiator) then p.re else p.rs
  }

  /** A missing remote object is refused; so is a missing local one, which the source never has here. */
  ghost function MixDh(z: Noise, p: Party, t: Token): Result<Party>
    requires LawfulNoise(z)
  {
    if Local(p, t).None? || Remote(p, t).None? then Err(InvalidParam)
    else match Calculate(z.dh, Local(p, t).value, Remote(p, t).value)
      case Err(e) => Err(e)
      case Ok(k) => Ok(p.(sym := MixKey(z.sym, p.sym, k)))
  }

  ghost function MixPsk(z: Noise, p: Party): Result<Party>
    requires LawfulNoise(z)
  {
    if p.psk == [] then Err(PskRequired) else Ok(p.(sym := MixKeyAndHash(z.sym, p.sym, p.psk)))
  }

  /** The tokens that put nothing in a message, the same for writer and reader. */
  ghost function MixStep(z: Noise, p: Party): Result<Party>
    requires LawfulNoise(z) && p.pos < |p.tokens|
  {
    if IsDh(p.tokens[p.pos]) then MixDh(z, p, p.tokens[p.pos])
    else if p.tokens[p.pos] == Psk then MixPsk(z, p)
    else Err(InvalidState)
  }

  ghost function MixEphemeral(z: Noise, y: Sym, withPsk: bool, pub: bytes): Sym
    requires LawfulNoise(z)
  {
    var y' := MixHash(z.sym, y, pub);
    if withPsk then MixKey(z.sym, y', pub) else y'
  }

  /** gen(i) is the private key drawn for an ephemeral at token i; room is what is left of the buffer.
      The bytes the token adds come back with the new state. */
  ghost function WriteToken(z: Noise, p: Party, gen: nat -> bytes, room: nat): (r: Result<(Party, bytes)>)
    requires LawfulNoise(z) && p.pos < |p.tokens|
    ensures r.Ok? ==> |r.value.1| <= room
  {
    var t := p.tokens[p.pos];
    var next := p.(pos := p.pos + 1);
    if t == E then
      if p.le.None? then Err(InvalidState)
      else
        var k := PairOf(z.dh, gen(p.pos));
        if room < |k.pub| then Err(InvalidLength)
        else Ok((next.(le := Some(k), sym := MixEphemeral(z, p.sym, p.reqs.psk, k.pub)), k.pub))
    else if t == S then
      if p.ls.None? then Err(InvalidState)
      else if room < |p.ls.value.pub| + MacLen(z.sym, p.sym) then Err(InvalidLength)
      else match EncryptAndHash(z.sym, p.sym, p.ls.value.pub, room)
        case Err(e) => Err(e)
        case Ok(v) => Ok((next.(sym := v.0), v.1))
    else match MixStep(z, p)
      case Err(e) => Err(e)
      case Ok(q) => Ok((q.(pos := p.pos + 1), []))
  }

  /** Reads one token from the front of the message; the count of bytes it took comes back. */
  ghost function ReadToken(z: Noise, p: Party, msg: bytes): (r: Result<(Party, nat)>)
    requires LawfulNoise(z) && p.pos < |p.tokens|
    ensures r.Ok? ==> r.value.1 <= |msg|
  {
    var t := p.tokens[p.pos];
    var next := p.(pos := p.pos + 1);
    if t == E then
      var len := z.dh.publicLen;
      if p.re.None? then Err(InvalidState)
      else if |msg| < len then Err(InvalidLength)
      else match SetPublic(z.dh, msg[..len])
        case Err(e) => Err(e)
        case Ok(k) =>
          if NullPublic(z.dh, k.pub) then Err(InvalidPublicKey)
          else Ok((next.(re := Some(k), sym := MixEphemeral(z, p.sym, p.reqs.psk, k.pub)), len))
    else if t == S then
      var len := z.dh.publicLen + MacLen(z.sym, p.sym);
      if p.rs.None? then Err(InvalidState)
      else if |msg| < len then Err(InvalidLength)
      else match DecryptAndHash(z.sym, p.sym, msg[..len])
        case Err(e) => Err(e)
        case Ok(v) =>
          match SetPublic(z.dh, v.1)
          case Err(e) => Err(e)
          case Ok(k) => Ok((next.(sym := v.0, rs := Some(k)), len))
    else match MixStep(z, p)
      case Err(e) => Err(e)
      case Ok(q) => Ok((q.(pos := p.pos + 1), 0))
  }

  /** A token moves the cursor on by one and leaves the pattern, the role and the requirements alone. */
  lemma WriteAdvances(z: Noise, p: Party, gen: nat -> bytes, room: nat)
    requires LawfulNoise(z) && p.pos < |p.tokens| && WriteToken(z, p, gen, room).Ok?
    ensures var q := WriteToken(z, p, gen, room).value.0;
            q.pos == p.pos + 1 && q.tokens == p.tokens && q.role == p.role && q.reqs == p.reqs
  {
  }

  lemma ReadAdvances(z: Noise, p: Party, msg: bytes)
    requires LawfulNoise(z) && p.pos < |p.tokens| && ReadToken(z, p, msg).Ok?
    ensures var q := ReadToken(z, p, msg).value.0;
            q.pos == p.pos + 1 && q.tokens == p.tokens && q.role == p.role && q.reqs == p.reqs
  {
  }

  lemma WriteIsEphemeral(z: Noise, p: Party, gen: nat -> bytes, room: nat)
    requires LawfulNoise(z) && p.pos < |p.tokens| && p.tokens[p.pos] == E
    ensures var k := PairOf(z.dh, gen(p.pos));
            WriteToken(z, p, gen, room) ==
              if p.le.None? then Err(InvalidState)
              else if room < |k.pub| then Err(InvalidLength)
              else Ok((p.(pos := p.pos + 1, le := Some(k), sym := MixEphemeral(z, p.sym, p.reqs.psk, k.pub)), k.pub))
  {
  }

  lemma WriteIsStatic(z: Noise, p: Party, gen: nat -> bytes, room: nat)
    requires LawfulNoise(z) && p.pos < |p.tokens| && p.tokens[p.pos] == S
    ensures WriteToken(z, p, gen, room) ==
              if p.ls.None? then Err(InvalidState)
              else if room < |p.ls.value.pub| + MacLen(z.sym, p.sym) then Err(InvalidLength)
              else match EncryptAndHash(z.sym, p.sym, p.ls.value.pub, room)
                case Err(e) => Err(e)
                case Ok(v) => Ok((p.(pos := p.pos + 1, sym := v.0), v.1))
  {
  }

  lemma WriteIsMix(z: Noise, p: Party, gen: nat -> bytes, room: nat)
    requires LawfulNoise(z) && p.pos < |p.tokens| && p.tokens[p.pos] != E && p.tokens[p.pos] != S
    ensures WriteToken(z, p, gen, room) == match MixStep(z, p)
                                           case Err(e) => Err(e)
                                           case Ok(q) => Ok((q.(pos := p.pos + 1), []))
  {
  }

  lemma ReadIsEphemeral(z: Noise, p: Party, msg: bytes)
    requires LawfulNoise(z) && p.pos < |p.tokens| && p.tokens[p.pos] == E
    ensures ReadToken(z, p, msg) ==
              if p.re.None? then Err(InvalidState)
              else if |msg| < z.dh.publicLen then Err(InvalidLength)
              else match SetPublic(z.dh, msg[..z.dh.publicLen])
                case Err(e) => Err(e)
                case Ok(k) =>
                  if NullPublic(z.dh, k.pub) then Err(InvalidPublicKey)
                  else Ok((p.(pos := p.pos + 1, re := Some(k), sym := MixEphemeral(z, p.sym, p.reqs.psk, k.pub)), z.dh.publicLen))
  {
  }

  lemma ReadIsStatic(z: Noise, p: Party, msg: bytes)
    requires LawfulNoise(z) && p.pos < |p.tokens| && p.tokens[p.pos] == S
    ensures var len := z.dh.publicLen + MacLen(z.sym, p.sym);
            ReadToken(z, p, msg) ==
              if p.rs.None? then Err(InvalidState)
              else if |msg| < len then Err(InvalidLength)
              else match DecryptAndHash(z.sym, p.sym, msg[..len])
                case Err(e) => Err(e)
                case Ok(v) =>
                  match SetPublic(z.dh, v.1)
                  case Err(e) => Err(e)
                  case Ok(k) => Ok((p.(pos := p.pos + 1, sym := v.0, rs := Some(k)), len))
  {
  }

  lemma ReadFirst(z: Noise, p: Party, msg: bytes)
    requires LawfulNoise(z) && p.pos < |p.tokens| && !AtBoundary(p)
    ensures var one := ReadToken(z, p, msg);
            ReadTokens(z, p, msg) == if one.Err? then Result.Err(one.error) else ReadTokens(z, one.value.0, msg[one.value.1..])
  {
    hide ReadToken;
  }

  lemma ReadIsMix(z: Noise, p: Party, msg: bytes)
    requires LawfulNoise(z) && p.pos < |p.tokens| && p.tokens[p.pos] != E && p.tokens[p.pos] != S
    ensures ReadToken(z, p, msg) == match MixStep(z, p)
                                    case Err(e) => Err(e)
                                    case Ok(q) => Ok((q.(pos := p.pos + 1), 0))
  {
  }

  predicate AtBoundary(p: Party) { p.pos < |p.tokens| && (p.tokens[p.pos] == End || p.tokens[p.pos] == FlipDir) }

  /** The state at the end of a message: split after the last token, otherwise the other direction. */
  function Turn(p: Party, next: Action): Party
    requires AtBoundary(p)
  {
    if p.tokens[p.pos] == End then p.(action := SplitReady) else p.(pos := p.pos + 1, action := next)
  }

  ghost function WriteTokens(z: Noise, p: Party, gen: nat -> bytes, room: nat): (r: Result<(Party, bytes)>)
    requires LawfulNoise(z)
    ensures r.Ok? ==> |r.value.1| <= room
    decreases |p.tokens| - p.pos
  {
    if p.pos >= |p.tokens| then Err(InvalidState)
    else if AtBoundary(p) then Ok((Turn(p, ReadMessage), []))
    else
      match WriteToken(z, p, gen, room)
      case Err(e) => Err(e)
      case Ok(v) =>
        WriteAdvances(z, p, gen, room);
        match WriteTokens(z, v.0, gen, room - |v.1|)
        case Err(e) => Err(e)
        case Ok(w) => Ok((w.0, v.1 + w.1))
  }

  /** A result for the rest of a message, with what was already written put in front. */
  function Prefixed(done: bytes, r: Result<(Party, bytes)>): Result<(Party, bytes)> {
    match r case Err(e) => Err(e) case Ok(v) => Ok((v.0, done + v.1))
  }

  /** Writing the tokens one at a time comes to the same as writing them all. */
  lemma WritePrefixed(z: Noise, p: Party, gen: nat -> bytes, room: nat, done: bytes)
    requires LawfulNoise(z) && p.pos < |p.tokens| && !AtBoundary(p)
    ensures Prefixed(done, WriteTokens(z, p, gen, room)) ==
            match WriteToken(z, p, gen, room)
            case Err(e) => Err(e)
            case Ok(v) => Prefixed(done + v.1, WriteTokens(z, v.0, gen, room - |v.1|))
  {
    hide WriteToken;
    match WriteToken(z, p, gen, room)
    case Err(e) =>
    case Ok(v) =>
      var rest := WriteTokens(z, v.0, gen, room - |v.1|);
      assert rest.Ok? ==> done + (v.1 + rest.value.1) == (done + v.1) + rest.value.1;
  }

  lemma WriteEnds(z: Noise, p: Party, gen: nat -> bytes, room: nat)
    requires LawfulNoise(z) && AtBoundary(p)
    ensures WriteTokens(z, p, gen, room) == Ok((Turn(p, ReadMessage), []))
  {
  }

  lemma ReadEnds(z: Noise, p: Party, msg: bytes)
    requires LawfulNoise(z) && AtBoundary(p)
    ensures ReadTokens(z, p, msg) == Ok((Turn(p, WriteMessage), msg))
  {
  }

  /** What is left of the message after the tokens comes back with the new state. */
  ghost function ReadTokens(z: Noise, p: Party, msg: bytes): Result<(Party, bytes)>
    requires LawfulNoise(z)
    decreases |p.tokens| - p.pos
  {
    if p.pos >= |p.tokens| then Err(InvalidState)
    else if AtBoundary(p) then Ok((Turn(p, WriteMessage), msg))
    else
      match ReadToken(z, p, msg)
      case Err(e) => Err(e)
      case Ok(v) => ReadAdvances(z, p, msg); ReadTokens(z, v.0, msg[v.1..])
  }

  // messages

  ghost function Write(z: Noise, p: Party, gen: nat -> bytes, room: nat, payload: bytes): Result<(Party, bytes)>
    requires LawfulNoise(z)
  {
    match WriteTokens(z, p, gen, room)
    case Err(e) => Err(e)
    case Ok(v) =>
      if room < |v.1| + MacLen(z.sym, v.0.sym) + |payload| then Err(InvalidLength)
      else match EncryptAndHash(z.sym, v.0.sym, payload, room - |v.1|)
        case Err(e) => Err(e)
        case Ok(w) => Ok((v.0.(sym := w.0), v.1 + w.1))
  }

  /** payloadMax is the size of the caller's payload buffer, if it gave one. */
  ghost function Read(z: Noise, p: Party, msg: bytes, payloadMax: Option<nat>): Result<(Party, bytes)>
    requires LawfulNoise(z)
  {
    match ReadTokens(z, p, msg)
    case Err(e) => Err(e)
    case Ok(v) =>
      match DecryptAndHash(z.sym, v.0.sym, v.1)
      case Err(e) => Err(e)
      case Ok(w) =>
        if payloadMax.Some? && |w.1| > payloadMax.value then Err(InvalidLength)
        else Ok((v.0.(sym := w.0), w.1))
  }

  lemma ReadFits(z: Noise, p: Party, msg: bytes, payloadMax: Option<nat>)
    requires LawfulNoise(z)
    ensures Read(z, p, msg, payloadMax).Ok? && payloadMax.Some? ==> |Read(z, p, msg, payloadMax).value.1| <= payloadMax.value
  {
  }

  // split

  /** The initiator sends under the first cipher and receives under the second; the responder the converse. */
  ghost function SplitFor(z: Noise, p: Party): (Cipher, Cipher)
    requires LawfulNoise(z)
  {
    var (c1, c2) := Split(z.sym, p.sym);
    if p.role == Responder then (c2, c1) else (c1, c2)
  }
}
