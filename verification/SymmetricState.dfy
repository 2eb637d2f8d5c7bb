/** noise/src/protocol/symmetricstate.c: the chaining key, the handshake hash and the current
    cipher, as in section 5.2 of the Noise Protocol Framework. */
module SymmetricState {
  import opened Bytes
  import opened NoiseBase
  import opened HashState
  import opened CipherState

  datatype Suite = Suite(hash: HashAlg, aead: Aead)

  /** The constructor refuses a cipher whose key is longer than the hash. */
  ghost predicate LawfulSuite(s: Suite) {
    LawfulHash(s.hash) && LawfulAead(s.aead) && s.aead.keyLen <= s.hash.hashLen
  }

  datatype Sym = Sym(ck: bytes, h: bytes, c: Cipher)

  ghost predicate Sized(s: Suite, y: Sym) {
    |y.ck| == s.hash.hashLen && |y.h| == s.hash.hashLen
  }

  ghost function Initial(s: Suite, name: bytes): (y: Sym)
    requires LawfulSuite(s)
    ensures Sized(s, y)
  {
    var h := if |name| <= s.hash.hashLen then name + Zeros(s.hash.hashLen - |name|) else s.hash.digest(name);
    Sym(h, h, EMPTY)
  }

  function MacLen(s: Suite, y: Sym): nat { if y.c.hasKey then s.aead.macLen else 0 }

  function MixHash(s: Suite, y: Sym, input: bytes): Sym { y.(h := s.hash.digest(y.h + input)) }

  /** The derived key is cut to 32 bytes under a 64-byte hash; a key of the wrong length is not installed. */
  function InstallKey(s: Suite, c: Cipher, k: bytes): Cipher
    requires |k| == s.aead.keyLen
  {
    var used := if s.hash.hashLen == 64 && |k| > 32 then k[..32] else k;
    match InitKey(s.aead, c, used) case Ok(c') => c' case Err(_) => c
  }

  ghost function MixKey(s: Suite, y: Sym, input: bytes): (y': Sym)
    requires LawfulSuite(s)
    ensures |y'.ck| == s.hash.hashLen && y'.h == y.h
  {
    y.(ck := Hkdf(s.hash, y.ck, input, 1),
       c := InstallKey(s, y.c, Hkdf(s.hash, y.ck, input, 2)[..s.aead.keyLen]))
  }

  ghost function MixKeyAndHash(s: Suite, y: Sym, input: bytes): (y': Sym)
    requires LawfulSuite(s)
    ensures |y'.ck| == s.hash.hashLen && |y'.h| == s.hash.hashLen
  {
    Sym(Hkdf(s.hash, y.ck, input, 1),
        s.hash.digest(y.h + Hkdf(s.hash, y.ck, input, 2)),
        InstallKey(s, y.c, Hkdf(s.hash, y.ck, input, 3)[..s.aead.keyLen]))
  }

  function EncryptAndHash(s: Suite, y: Sym, p: bytes, room: nat): Result<(Sym, bytes)> {
    match Seal(s.aead, y.c, y.h, p, room)
    case Err(e) => Err(e)
    case Ok(v) => Ok((MixHash(s, y.(c := v.0), v.1), v.1))
  }

  function DecryptAndHash(s: Suite, y: Sym, ct: bytes): Result<(Sym, bytes)> {
    if |ct| > NOISE_MAX_PAYLOAD_LEN then Err(InvalidLength)
    else if |ct| < MacLen(s, y) then Err(InvalidLength)
    else match Open(s.aead, y.c, y.h, ct)
      case Err(e) => Err(e)
      case Ok(v) => Ok((MixHash(s, y.(c := v.0), ct), v.1))
  }

  ghost function Split(s: Suite, y: Sym): (Cipher, Cipher)
    requires LawfulSuite(s)
  {
    (Cipher(true, Hkdf(s.hash, y.ck, [], 1)[..s.aead.keyLen], 0),
     Cipher(true, Hkdf(s.hash, y.ck, [], 2)[..s.aead.keyLen], 0))
  }

  /** Two parties in one symmetric state stay in one: what one encrypts and hashes, the other decrypts and hashes. */
  lemma EncryptThenDecrypt(s: Suite, y: Sym, p: bytes, room: nat)
    requires LawfulSuite(s) && EncryptAndHash(s, y, p, room).Ok?
    ensures var (y', ct) := EncryptAndHash(s, y, p, room).value;
            && DecryptAndHash(s, y, ct) == Ok((y', p))
            && |ct| == |p| + MacLen(s, y) && |ct| <= room
            && y'.c.hasKey == y.c.hasKey && y'.ck == y.ck && |y'.h| == s.hash.hashLen
  {
    SealThenOpen(s.aead, y.c, y.h, p, room);
  }

  /** Encryption fails exactly when the bytes do not fit, the message is too long or the nonce is spent. */
  lemma EncryptFailsOnlyWhen(s: Suite, y: Sym, p: bytes, room: nat)
    requires LawfulSuite(s)
    ensures EncryptAndHash(s, y, p, room).Ok? <==>
            && |p| + MacLen(s, y) <= room && |p| + MacLen(s, y) <= NOISE_MAX_PAYLOAD_LEN
            && (y.c.hasKey ==> y.c.n != NONCE_RESERVED)
    ensures EncryptAndHash(s, y, p, room).Err? ==> EncryptAndHash(s, y, p, room).error in {InvalidLength, InvalidNonce}
  {
  }

  class SymmetricState {
    const suite: Suite
    const hash: HashState
    const ck: array<byte>
    const h: array<byte>
    var cipher: CipherState?   // null once the state has been split

    ghost predicate Valid()
      reads this
    {
      && LawfulSuite(suite) && hash.alg == suite.hash
      && ck.Length == NOISE_MAX_HASHLEN && h.Length == NOISE_MAX_HASHLEN && ck != h
      && (cipher != null ==> cipher.aead == suite.aead)
    }

    ghost function Repr(): set<object>
      reads this
    {
      {this, hash, ck, h} + (if cipher == null then {} else {cipher})
    }

    ghost function Value(): Sym
      reads this, ck, h, cipher
      requires Valid() && cipher != null
    {
      Sym(ck[..suite.hash.hashLen], h[..suite.hash.hashLen], cipher.Value())
    }

    constructor (suite: Suite, name: bytes)
      requires LawfulSuite(suite)
      ensures Valid() && cipher != null && fresh(Repr()) && this.suite == suite
      ensures Value() == Initial(suite, name)
    {
      this.suite := suite;
      hash := new HashState(suite.hash);
      ck := new byte[NOISE_MAX_HASHLEN];
      h := new byte[NOISE_MAX_HASHLEN];
      cipher := new CipherState(suite.aead);
      new;
      if |name| <= suite.hash.hashLen {
        Blit(h, 0, name + Zeros(suite.hash.hashLen - |name|));
      } else {
        Blit(h, 0, suite.hash.digest(name));
      }
      Blit(ck, 0, h[..suite.hash.hashLen]);
    }

    /** out := digest(h || input), where out may be h itself. */
    method HashTwo(input: bytes, out: array<byte>)
      requires Valid() && out.Length == NOISE_MAX_HASHLEN
      modifies hash, out
      ensures out[..suite.hash.hashLen] == suite.hash.digest(old(h[..suite.hash.hashLen]) + input)
    {
      hash.Reset();
      hash.Update(h[..suite.hash.hashLen]);
      hash.Update(input);
      assert hash.absorbed == h[..suite.hash.hashLen] + input;
      hash.Finalize(out);
    }

    method DoMixHash(input: bytes)
      requires Valid() && cipher != null
      modifies hash, h
      ensures Valid() && Value() == MixHash(suite, old(Value()), input)
    {
      HashTwo(input, h);
    }

    method SetCipherKey(k: bytes)
      requires Valid() && cipher != null && |k| == suite.aead.keyLen
      modifies cipher
      ensures Valid() && Value() == old(Value()).(c := InstallKey(suite, old(Value()).c, k))
    {
      var used := if suite.hash.hashLen == 64 && |k| > 32 then k[..32] else k;
      var err := cipher.Init(used);
    }

    /** HKDF reads the chaining key from the buffer its first output goes to. */
    method DoMixKey(input: bytes)
      requires Valid() && cipher != null
      modifies hash, ck, cipher
      ensures Valid() && Value() == MixKey(suite, old(Value()), input)
    {
      var hashLen, keyLen := suite.hash.hashLen, suite.aead.keyLen;
      var data := new byte[|input|](i requires 0 <= i < |input| => input[i]);
      assert data[..|input|] == input;
      var tempK := new byte[NOISE_MAX_HASHLEN];
      var ok := hash.ComputeHkdf(ck, hashLen, data, |input|, ck, hashLen, tempK, keyLen);
      SetCipherKey(tempK[..keyLen]);
    }

    method DoMixKeyAndHash(input: bytes)
      requires Valid() && cipher != null
      modifies hash, ck, h, cipher
      ensures Valid() && Value() == MixKeyAndHash(suite, old(Value()), input)
    {
      var hashLen, keyLen := suite.hash.hashLen, suite.aead.keyLen;
      var data := new byte[|input|](i requires 0 <= i < |input| => input[i]);
      assert data[..|input|] == input;
      var tempH, tempK := new byte[NOISE_MAX_HASHLEN], new byte[NOISE_MAX_HASHLEN];
      var ok := hash.ComputeHkdf3(ck, hashLen, data, |input|, ck, hashLen, tempH, hashLen, tempK, keyLen);
      assert tempH[..hashLen] == old(Hkdf(suite.hash, ck[..hashLen], input, 2));
      DoMixHash(tempH[..hashLen]);
      SetCipherKey(tempK[..keyLen]);
    }

    method DoEncryptAndHash(buffer: NoiseBuffer) returns (err: Error)
      requires Valid() && cipher != null && buffer.Valid() && buffer.data != ck && buffer.data != h
      modifies hash, h, cipher, buffer`size, buffer.data
      ensures Valid() && buffer.Valid()
      ensures match EncryptAndHash(suite, old(Value()), old(buffer.Contents()), buffer.maxSize)
              case Ok(v) => err == NoError && Value() == v.0 && buffer.Contents() == v.1
              case Err(e) => err == e && e != NoError
      ensures err == NoError ==> buffer.size >= old(buffer.size)
      ensures buffer.data[..buffer.at] == old(buffer.data[..buffer.at])
    {
      err := cipher.EncryptWithAd(h[..suite.hash.hashLen], buffer);
      if err != NoError {
        return;
      }
      DoMixHash(buffer.data[buffer.at..buffer.at + buffer.size]);
    }

    /** Copies plaintext to the end of a message and encrypts it there. */
    method DoEncryptInto(message: NoiseBuffer, plain: bytes) returns (err: Error)
      requires Valid() && cipher != null && message.Valid() && message.data != ck && message.data != h
      requires |plain| <= message.maxSize - message.size
      modifies hash, h, cipher, message`size, message.data
      ensures Valid() && message.Valid()
      ensures match EncryptAndHash(suite, old(Value()), plain, old(message.maxSize - message.size))
              case Ok(v) => err == NoError && Value() == v.0 && message.Contents() == old(message.Contents()) + v.1
              case Err(e) => err == e && e != NoError
    {
      hide EncryptAndHash, LawfulSuite, LawfulHash, LawfulAead;
      ghost var y := Value();
      ghost var r := EncryptAndHash(suite, y, plain, message.maxSize - message.size);
      var rest := new NoiseBuffer(message.data, message.at + message.size, 0, message.maxSize - message.size);
      ghost var prefix, contents := message.data[..rest.at], message.Contents();
      assert contents == prefix[message.at..];
      rest.Replace(plain);
      assert message.data[..rest.at] == prefix && rest.Contents() == plain && Value() == y;
      err := DoEncryptAndHash(rest);
      assert if err == NoError then r == Ok((Value(), rest.Contents())) else r == Err(err);
      if err == NoError {
        message.Adopt(rest, contents);
      }
    }

    /** The digest of the hash and an input becomes the hash. */
    method KeepHash(temp: array<byte>, ghost y: Sym, ghost input: bytes)
      requires Valid() && cipher != null && temp.Length == NOISE_MAX_HASHLEN && temp != ck && temp != h
      requires Value() == y && temp[..suite.hash.hashLen] == suite.hash.digest(y.h + input)
      modifies h
      ensures Valid() && Value() == MixHash(suite, y, input)
    {
      Blit(h, 0, temp[..suite.hash.hashLen]);
    }

    /** The hash of the ciphertext is taken before decryption overwrites it, and kept only if the MAC is good. */
    method DoDecryptAndHash(buffer: NoiseBuffer) returns (err: Error)
      requires Valid() && cipher != null && buffer.Valid() && buffer.data != ck && buffer.data != h
      modifies hash, h, cipher, buffer`size, buffer.data
      ensures Valid() && buffer.Valid()
      ensures match DecryptAndHash(suite, old(Value()), old(buffer.Contents()))
              case Ok(v) => err == NoError && Value() == v.0 && buffer.Contents() == v.1
              case Err(e) => err == e && e != NoError && Value() == old(Value())
      ensures buffer.size <= old(buffer.size)
      ensures buffer.data[buffer.at + old(buffer.size)..] == old(buffer.data[buffer.at + buffer.size..])
    {
      hide LawfulSuite, Open, MixHash;
      if buffer.size > NOISE_MAX_PAYLOAD_LEN {
        return InvalidLength;
      }
      if cipher.hasKey && buffer.size < suite.aead.macLen {
        return InvalidLength;
      }
      err := OpenAndHash(buffer);
    }

    method OpenAndHash(buffer: NoiseBuffer) returns (err: Error)
      requires Valid() && cipher != null && buffer.Valid() && buffer.data != ck && buffer.data != h
      modifies hash, h, cipher, buffer`size, buffer.data
      ensures Valid() && buffer.Valid()
      ensures var y, ct := old(Value()), old(buffer.Contents());
              match Open(suite.aead, y.c, y.h, ct)
              case Ok(v) => err == NoError && Value() == MixHash(suite, y.(c := v.0), ct) && buffer.Contents() == v.1
              case Err(e) => err == e && e != NoError && Value() == y
      ensures buffer.size <= old(buffer.size)
      ensures buffer.data[buffer.at + old(buffer.size)..] == old(buffer.data[buffer.at + buffer.size..])
    {
      assert suite.hash.hashLen <= NOISE_MAX_HASHLEN;
      hide LawfulHash, LawfulAead, Open, MixHash;
      ghost var y, ct := Value(), buffer.Contents();
      var temp := new byte[NOISE_MAX_HASHLEN];
      HashTwo(buffer.data[buffer.at..buffer.at + buffer.size], temp);
      err := cipher.DecryptWithAd(h[..suite.hash.hashLen], buffer);
      if err != NoError {
        return;
      }
      KeepHash(temp, y.(c := cipher.Value()), ct);
    }

    /** Decrypts the first len bytes of a message in place and moves on to the rest. */
    method DoDecryptFront(msg: NoiseBuffer, len: nat) returns (err: Error, plain: bytes)
      requires Valid() && cipher != null && msg.Valid() && msg.data != ck && msg.data != h && len <= msg.size
      modifies hash, h, cipher, msg, msg.data
      ensures Valid() && msg.Valid() && msg.data == old(msg.data)
      ensures match DecryptAndHash(suite, old(Value()), old(msg.Contents())[..len])
              case Ok(v) => err == NoError && Value() == v.0 && plain == v.1 && msg.Contents() == old(msg.Contents())[len..]
              case Err(e) => err == e && e != NoError && Value() == old(Value())
    {
      hide DecryptAndHash, LawfulSuite, LawfulHash, LawfulAead;
      ghost var before := msg.data[..];
      var front := new NoiseBuffer(msg.data, msg.at, len, len);
      FrontAndRest(before, before, msg.at, len, msg.size);
      assert front.Contents() == msg.Contents()[..len];
      ghost var r, rest := DecryptAndHash(suite, Value(), msg.Contents()[..len]), msg.Contents()[len..];
      err := DoDecryptAndHash(front);
      assert r.Ok? <==> err == NoError;
      plain := [];
      if err != NoError {
        return;
      }
      plain := front.data[front.at..front.at + front.size];
      FrontAndRest(before, msg.data[..], msg.at, len, msg.size);
      assert msg.Contents()[len..] == rest;
      msg.Skip(len);
    }

    /** What is behind the front of a window is still there. */
    static lemma FrontAndRest(before: bytes, after: bytes, at: nat, len: nat, size: nat)
      requires len <= size && at + size <= |before| == |after| && before[at + len..] == after[at + len..]
      ensures before[at..at + len] == before[at..at + size][..len]
      ensures before[at..at + size][len..] == after[at..at + size][len..]
    {
      forall i | at + len <= i < at + size ensures before[i] == after[i] {
        assert before[i] == before[at + len..][i - at - len];
      }
    }

    /** Hands the cipher over under the first key and makes a second one; afterwards the state is unusable. */
    method DoSplit() returns (c1: CipherState, c2: CipherState)
      requires Valid() && cipher != null
      modifies this`cipher, hash, cipher
      ensures Valid() && cipher == null
      ensures c1 == old(cipher) && fresh(c2) && c1.aead == c2.aead == suite.aead
      ensures (c1.Value(), c2.Value()) == Split(suite, old(Value()))
    {
      var hashLen, keyLen := suite.hash.hashLen, suite.aead.keyLen;
      var tempK1, tempK2 := new byte[NOISE_MAX_HASHLEN], new byte[NOISE_MAX_HASHLEN];
      assert ck[..0] == [];
      var ok := hash.ComputeHkdf(ck, hashLen, ck, 0, tempK1, keyLen, tempK2, keyLen);
      c2 := new CipherState(suite.aead);
      var err := c2.Init(tempK2[..keyLen]);
      err := cipher.Init(tempK1[..keyLen]);
      c1 := cipher;
      cipher := null;
    }
  }
}
