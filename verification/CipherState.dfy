/** noise/src/protocol/cipherstate.c: one AEAD key with its nonce counter.  The AEAD is a parameter. */
module CipherState {
  import opened Bytes
  import opened NoiseBase

  datatype Aead = Aead(seal: (bytes, nat, bytes, bytes) -> bytes,            // key, nonce, ad, plaintext
                       open: (bytes, nat, bytes, bytes) -> Option<bytes>,    // key, nonce, ad, ciphertext
                       keyLen: nat, macLen: nat)

  /** Opening undoes sealing; a MAC of fixed length is appended. */
  ghost predicate LawfulAead(a: Aead) {
    && a.macLen <= NOISE_MAX_PAYLOAD_LEN
    && (forall k, n, ad, p :: |a.seal(k, n, ad, p)| == |p| + a.macLen)
    && (forall k, n, ad, p :: a.open(k, n, ad, a.seal(k, n, ad, p)) == Some(p))
    && (forall k, n, ad, c :: a.open(k, n, ad, c).Some? ==> |a.open(k, n, ad, c).value| + a.macLen == |c|)
  }

  datatype Cipher = Cipher(hasKey: bool, key: bytes, n: nat)

  const EMPTY: Cipher := Cipher(false, [], 0)

  function InitKey(a: Aead, c: Cipher, key: bytes): Result<Cipher> {
    if |key| != a.keyLen then Err(InvalidLength) else Ok(Cipher(true, key, 0))
  }

  function Seal(a: Aead, c: Cipher, ad: bytes, p: bytes, room: nat): Result<(Cipher, bytes)> {
    if |p| > room then Err(InvalidLength)
    else if !c.hasKey then
      if |p| > NOISE_MAX_PAYLOAD_LEN then Err(InvalidLength) else Ok((c, p))
    else if |p| + a.macLen > NOISE_MAX_PAYLOAD_LEN then Err(InvalidLength)
    else if room - |p| < a.macLen then Err(InvalidLength)
    else if c.n == NONCE_RESERVED then Err(InvalidNonce)
    else Ok((c.(n := c.n + 1), a.seal(c.key, c.n, ad, p)))
  }

  function Open(a: Aead, c: Cipher, ad: bytes, ct: bytes): Result<(Cipher, bytes)> {
    if |ct| > NOISE_MAX_PAYLOAD_LEN then Err(InvalidLength)
    else if !c.hasKey then Ok((c, ct))
    else if |ct| < a.macLen then Err(InvalidLength)
    else if c.n == NONCE_RESERVED then Err(InvalidNonce)
    else match a.open(c.key, c.n, ad, ct)
      case None => Err(MacFailure)
      case Some(p) => Ok((c.(n := c.n + 1), p))
  }

  function SetNonce(c: Cipher, n: nat): Result<Cipher> {
    if !c.hasKey then Err(InvalidState)
    else if c.n > n then Err(InvalidNonce)
    else Ok(c.(n := n))
  }

  ghost function Rekey(a: Aead, c: Cipher): Result<Cipher>
    requires LawfulAead(a)
  {
    if !c.hasKey then Err(InvalidState)
    else Ok(c.(key := a.seal(c.key, NONCE_RESERVED, [], Zeros(a.keyLen))[..a.keyLen]))
  }

  /** Whatever one side seals, a peer in the same state opens, and both end in the same state. */
  lemma SealThenOpen(a: Aead, c: Cipher, ad: bytes, p: bytes, room: nat)
    requires LawfulAead(a) && Seal(a, c, ad, p, room).Ok?
    ensures var (c', ct) := Seal(a, c, ad, p, room).value;
            Open(a, c, ad, ct) == Ok((c', p)) && |ct| <= NOISE_MAX_PAYLOAD_LEN && |ct| <= room
  {
    if c.hasKey {
      assert a.open(c.key, c.n, ad, a.seal(c.key, c.n, ad, p)) == Some(p);
    }
  }

  // Runs of a keyed cipher state.

  datatype Op = SealOp(ad: bytes, p: bytes, room: nat) | OpenOp(ad: bytes, ct: bytes) | SetNonceOp(n: nat) | RekeyOp

  ghost function After(a: Aead, c: Cipher, op: Op): Cipher
    requires LawfulAead(a)
  {
    match op
    case SealOp(ad, p, room) => (match Seal(a, c, ad, p, room) case Ok(v) => v.0 case Err(_) => c)
    case OpenOp(ad, ct) => (match Open(a, c, ad, ct) case Ok(v) => v.0 case Err(_) => c)
    case SetNonceOp(n) => (match SetNonce(c, n) case Ok(v) => v case Err(_) => c)
    case RekeyOp => (match Rekey(a, c) case Ok(v) => v case Err(_) => c)
  }

  /** The nonces a run hands to the AEAD under seal and open, in order; rekey itself uses the reserved one. */
  ghost function NoncesUsed(a: Aead, c: Cipher, ops: seq<Op>): seq<nat>
    requires LawfulAead(a)
    decreases |ops|
  {
    if ops == [] then []
    else
      var rest := NoncesUsed(a, After(a, c, ops[0]), ops[1..]);
      if (ops[0].SealOp? || ops[0].OpenOp?) && After(a, c, ops[0]) != c then [c.n] + rest else rest
  }

  /** Strictly increasing, from lo up, and below the reserved nonce. */
  predicate Increasing(used: seq<nat>, lo: nat) {
    && (forall i :: 0 <= i < |used| ==> lo <= used[i] < NONCE_RESERVED)
    && (forall i, j :: 0 <= i < j < |used| ==> used[i] < used[j])
  }

  /** No nonce is used twice between two keyings, none goes backwards, and the reserved one is never used,
      whatever mixture of seal, open, set_nonce and rekey is run. */
  lemma {:induction false} NoncesNeverRepeat(a: Aead, c: Cipher, ops: seq<Op>)
    requires LawfulAead(a) && c.n <= NONCE_RESERVED
    requires forall i :: 0 <= i < |ops| && ops[i].SetNonceOp? ==> ops[i].n <= NONCE_RESERVED
    ensures Increasing(NoncesUsed(a, c, ops), c.n)
    decreases |ops|
  {
    if ops != [] {
      var c' := After(a, c, ops[0]);
      NoncesNeverRepeat(a, c', ops[1..]);
      var rest := NoncesUsed(a, c', ops[1..]);
      assert Increasing(rest, c'.n);
      assert Increasing([c.n] + rest, c.n) || c'.n <= c.n || c.n == NONCE_RESERVED;
    }
  }

  class CipherState {
    const aead: Aead
    var hasKey: bool
    var key: bytes
    var n: nat

    ghost function Value(): Cipher reads this { Cipher(hasKey, key, n) }

    constructor (aead: Aead)
      ensures this.aead == aead && Value() == EMPTY
    {
      this.aead, hasKey, key, n := aead, false, [], 0;
    }

    method Init(k: bytes) returns (err: Error)
      modifies this
      ensures match InitKey(aead, old(Value()), k)
              case Ok(c) => err == NoError && Value() == c
              case Err(e) => err == e && e != NoError && Value() == old(Value())
    {
      if |k| != aead.keyLen {
        return InvalidLength;
      }
      key, hasKey, n := k, true, 0;
      return NoError;
    }

    method EncryptWithAd(ad: bytes, buffer: NoiseBuffer) returns (err: Error)
      requires LawfulAead(aead) && buffer.Valid()
      modifies this, buffer`size, buffer.data
      ensures buffer.Valid()
      ensures match Seal(aead, old(Value()), ad, old(buffer.Contents()), buffer.maxSize)
              case Ok(v) => err == NoError && Value() == v.0 && buffer.Contents() == v.1
              case Err(e) => err == e && e != NoError && Value() == old(Value()) && buffer.Contents() == old(buffer.Contents())
      ensures err != NoError ==> buffer.data[..] == old(buffer.data[..])
      ensures buffer.data[..buffer.at] == old(buffer.data[..buffer.at])
      ensures buffer.size >= old(buffer.size)
      ensures buffer.data[buffer.at + buffer.size..] == old(buffer.data[..])[buffer.at + buffer.size..]
    {
      if buffer.size > buffer.maxSize {
        return InvalidLength;
      }
      if !hasKey {
        if buffer.size > NOISE_MAX_PAYLOAD_LEN {
          return InvalidLength;
        }
        return NoError;
      }
      if buffer.size > NOISE_MAX_PAYLOAD_LEN - aead.macLen {
        return InvalidLength;
      }
      if buffer.maxSize - buffer.size < aead.macLen {
        return InvalidLength;
      }
      if n == NONCE_RESERVED {
        return InvalidNonce;
      }
      buffer.Replace(aead.seal(key, n, ad, buffer.data[buffer.at..buffer.at + buffer.size]));
      n := n + 1;
      return NoError;
    }

    method DecryptWithAd(ad: bytes, buffer: NoiseBuffer) returns (err: Error)
      requires LawfulAead(aead) && buffer.Valid()
      modifies this, buffer`size, buffer.data
      ensures buffer.Valid()
      ensures match Open(aead, old(Value()), ad, old(buffer.Contents()))
              case Ok(v) => err == NoError && Value() == v.0 && buffer.Contents() == v.1
              case Err(e) => err == e && e != NoError && Value() == old(Value()) && buffer.Contents() == old(buffer.Contents())
      ensures buffer.size <= old(buffer.size)
      ensures buffer.data[..buffer.at] == old(buffer.data[..buffer.at])
      ensures buffer.data[buffer.at + old(buffer.size)..] == old(buffer.data[buffer.at + buffer.size..])
    {
      if buffer.size > buffer.maxSize || buffer.size > NOISE_MAX_PAYLOAD_LEN {
        return InvalidLength;
      }
      if !hasKey {
        return NoError;
      }
      if buffer.size < aead.macLen {
        return InvalidLength;
      }
      if n == NONCE_RESERVED {
        return InvalidNonce;
      }
      var plaintext := aead.open(key, n, ad, buffer.data[buffer.at..buffer.at + buffer.size]);
      if plaintext.None? {
        return MacFailure;
      }
      ghost var tail := buffer.data[buffer.at + buffer.size..];
      ghost var size := buffer.size;
      buffer.Replace(plaintext.value);
      assert buffer.data[buffer.at + size..] == tail;
      n := n + 1;
      return NoError;
    }

    method SetNonceTo(nonce: nat) returns (err: Error)
      modifies this
      ensures match SetNonce(old(Value()), nonce)
              case Ok(c) => err == NoError && Value() == c
              case Err(e) => err == e && e != NoError && Value() == old(Value())
    {
      if !hasKey {
        return InvalidState;
      }
      if n > nonce {
        return InvalidNonce;
      }
      n := nonce;
      return NoError;
    }

    /** Encrypts a block of zeros under the reserved nonce and keeps its head as the new key. */
    method RekeyNow() returns (err: Error)
      requires LawfulAead(aead)
      modifies this
      ensures match Rekey(aead, old(Value()))
              case Ok(c) => err == NoError && Value() == c
              case Err(e) => err == e && e != NoError && Value() == old(Value())
    {
      if !hasKey {
        return InvalidState;
      }
      var saved := n;
      n := NONCE_RESERVED;
      key := aead.seal(key, n, [], Zeros(aead.keyLen))[..aead.keyLen];
      n := saved;
      return NoError;
    }
  }
}
