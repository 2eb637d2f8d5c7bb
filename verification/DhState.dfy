/** noise/src/protocol/dhstate.c: one side's key object, its type transitions and the masked
    Diffie-Hellman calculation.  The curve is a parameter. */
module DhState {
  import opened Bytes
  import opened NoiseBase

  datatype DhAlg = DhAlg(publicOf: bytes -> bytes,
                         agree: (bytes, bytes) -> Option<bytes>,   // private key, public key
                         valid: bytes -> bool,
                         nullsAllowed: bool, privateLen: nat, publicLen: nat, sharedLen: nat)

  /** Diffie-Hellman commutes; derived public keys are valid; results have fixed lengths. */
  ghost predicate LawfulDh(d: DhAlg) {
    && (forall k :: |d.publicOf(k)| == d.publicLen && d.valid(d.publicOf(k)))
    && (forall k, l :: d.agree(k, d.publicOf(l)) == d.agree(l, d.publicOf(k)))
    && (forall k, p :: d.agree(k, p).Some? ==> |d.agree(k, p).value| == d.sharedLen)
  }

  datatype KeyType = NoKey | Keypair | PublicOnly

  datatype Dh = Dh(keyType: KeyType, priv: bytes, pub: bytes)

  ghost predicate Shaped(d: DhAlg, k: Dh) { |k.priv| == d.privateLen && |k.pub| == d.publicLen }

  function Cleared(d: DhAlg): Dh { Dh(NoKey, Zeros(d.privateLen), Zeros(d.publicLen)) }

  function PairOf(d: DhAlg, priv: bytes): Dh { Dh(Keypair, priv, d.publicOf(priv)) }

  predicate NullPublic(d: DhAlg, pub: bytes) { d.nullsAllowed && IsZero(pub) }

  function SetPublic(d: DhAlg, pub: bytes): Result<Dh> {
    if |pub| != d.publicLen then Err(InvalidLength)
    else if !NullPublic(d, pub) && !d.valid(pub) then Err(InvalidPublicKey)
    else Ok(Dh(PublicOnly, Zeros(d.privateLen), pub))
  }

  /** A null public key gives a null shared key and hides the back end's error. */
  function Calculate(d: DhAlg, local: Dh, remote: Dh): Result<bytes> {
    if local.keyType != Keypair then Err(InvalidPrivateKey)
    else if NullPublic(d, remote.pub) then Ok(Zeros(d.sharedLen))
    else match d.agree(local.priv, remote.pub)
      case None => Err(InvalidParam)
      case Some(k) => Ok(k)
  }

  /** A keypair whose public half belongs to the private half. */
  ghost predicate Genuine(d: DhAlg, k: Dh) { k.keyType == Keypair && k.pub == d.publicOf(k.priv) }

  /** And is not the null key. */
  ghost predicate GoodPair(d: DhAlg, k: Dh) { Genuine(d, k) && |k.priv| == d.privateLen && !NullPublic(d, k.pub) }

  /** Both ends compute the same shared key, or the same error, from their own pair and the other's public half: unless
      exactly one public key is null, when the other end's result has to be zero too. */
  lemma CalculateAgrees(d: DhAlg, a: Dh, b: Dh, viewOfA: Dh, viewOfB: Dh)
    requires LawfulDh(d) && Genuine(d, a) && Genuine(d, b)
    requires viewOfA.pub == a.pub && viewOfB.pub == b.pub
    ensures Calculate(d, a, viewOfB) == Calculate(d, b, viewOfA)
            <==> NullPublic(d, a.pub) == NullPublic(d, b.pub) || d.agree(a.priv, b.pub) == Some(Zeros(d.sharedLen))
  {
    assert d.agree(a.priv, d.publicOf(b.priv)) == d.agree(b.priv, d.publicOf(a.priv));
  }

  // Constant-time byte work.

  function OrBits(a: nat, b: nat, width: nat): (r: nat)
    ensures r < Pow2(width)
  {
    if width == 0 then 0
    else (if a % 2 == 0 && b % 2 == 0 then 0 else 1) + 2 * OrBits(a / 2, b / 2, width - 1)
  }

  function Or(a: byte, b: byte): (r: byte)
    ensures r == 0 <==> a == 0 && b == 0
  {
    Pow2Constants();
    OrIsZero(a, b, 8);
    OrBits(a, b, 8)
  }

  lemma {:induction false} OrIsZero(a: nat, b: nat, width: nat)
    requires a < Pow2(width) && b < Pow2(width)
    ensures OrBits(a, b, width) == 0 <==> a == 0 && b == 0
  {
    if width > 0 {
      OrIsZero(a / 2, b / 2, width - 1);
    }
  }

  function AndBits(a: nat, b: nat, width: nat): (r: nat)
    ensures r < Pow2(width)
  {
    if width == 0 then 0
    else (if a % 2 == 1 && b % 2 == 1 then 1 else 0) + 2 * AndBits(a / 2, b / 2, width - 1)
  }

  lemma {:induction false} AndWithMask(a: nat, width: nat)
    requires a < Pow2(width)
    ensures AndBits(a, 0, width) == 0 && AndBits(a, Pow2(width) - 1, width) == a
  {
    if width > 0 {
      AndWithMask(a / 2, width - 1);
    }
  }

  /** noise_is_zero: the bytes are or-ed together and the result turned into 0 or 1. */
  method IsZeroConstantTime(data: bytes) returns (r: int)
    ensures r == if IsZero(data) then 1 else 0
  {
    var temp: byte := 0;
    var i := 0;
    while i < |data|
      invariant i <= |data|
      invariant temp == 0 <==> IsZero(data[..i])
    {
      assert data[..i + 1] == data[..i] + [data[i]];
      temp := Or(temp, data[i]);
      i := i + 1;
    }
    assert data[..i] == data;
    r := (0x100 - temp as int) / 256;
  }

  function ApplyMask(b: byte, mask: byte): (r: byte)
    ensures mask == 0 ==> r == 0
    ensures mask == 255 ==> r == b
  {
    Pow2Constants();
    AndWithMask(b, 8);
    AndBits(b, mask, 8)
  }

  /** noise_cmove_zero: the mask is all zeros when the condition is 1 and all ones when it is 0. */
  method CMoveZero(data: array<byte>, condition: int)
    requires condition == 0 || condition == 1
    modifies data
    ensures data[..] == if condition == 1 then Zeros(data.Length) else old(data[..])
  {
    var mask: byte := 255 - (256 - condition) % 256;
    assert mask == if condition == 1 then 0 else 255;
    var i := 0;
    while i < data.Length
      invariant i <= data.Length
      invariant forall j :: 0 <= j < i ==> data[j] == if condition == 1 then 0 else old(data[j])
      invariant forall j :: i <= j < data.Length ==> data[j] == old(data[j])
    {
      data[i] := ApplyMask(data[i], mask);
      i := i + 1;
    }
  }

  class DHState {
    const alg: DhAlg
    var keyType: KeyType
    var privateKey: bytes
    var publicKey: bytes

    ghost function Value(): Dh reads this { Dh(keyType, privateKey, publicKey) }

    ghost predicate Valid() reads this { LawfulDh(alg) && Shaped(alg, Value()) }

    constructor (alg: DhAlg)
      requires LawfulDh(alg)
      ensures Valid() && this.alg == alg && Value() == Cleared(alg)
    {
      this.alg, keyType, privateKey, publicKey := alg, NoKey, Zeros(alg.privateLen), Zeros(alg.publicLen);
    }

    /** The random private key is drawn by the caller. */
    method GenerateKeypair(priv: bytes)
      requires Valid() && |priv| == alg.privateLen
      modifies this
      ensures Valid() && Value() == PairOf(alg, priv)
    {
      privateKey, publicKey, keyType := priv, alg.publicOf(priv), Keypair;
    }

    method SetPublicKey(pub: bytes) returns (err: Error)
      requires Valid()
      modifies this
      ensures Valid()
      ensures match SetPublic(alg, pub)
              case Ok(k) => err == NoError && Value() == k
              case Err(e) => err == e && e != NoError && Value() == old(Value())
    {
      if |pub| != alg.publicLen {
        return InvalidLength;
      }
      var zero := IsZeroConstantTime(pub);
      var isNull := alg.nullsAllowed && zero == 1;
      if !isNull && !alg.valid(pub) {
        return InvalidPublicKey;
      }
      privateKey, publicKey, keyType := Zeros(alg.privateLen), pub, PublicOnly;
      return NoError;
    }

    method IsNullPublicKey() returns (isNull: bool)
      requires Valid()
      ensures isNull <==> keyType != NoKey && NullPublic(alg, publicKey)
    {
      if keyType == NoKey {
        return false;
      }
      var zero := IsZeroConstantTime(publicKey);
      return alg.nullsAllowed && zero == 1;
    }

    method ClearKey()
      requires Valid()
      modifies this
      ensures Valid() && Value() == Cleared(alg)
    {
      publicKey, privateKey, keyType := Zeros(alg.publicLen), Zeros(alg.privateLen), NoKey;
    }

    /** The result is masked to zero, and the error to none, after the calculation itself. */
    method CalculateShared(remote: DHState, shared: array<byte>) returns (err: Error)
      requires Valid() && remote.Valid() && remote.alg == alg && shared.Length == alg.sharedLen
      modifies shared
      ensures match Calculate(alg, Value(), remote.Value())
              case Ok(k) => err == NoError && shared[..] == k
              case Err(e) => err == e && e != NoError
    {
      if keyType != Keypair {
        return InvalidPrivateKey;
      }
      var zero := IsZeroConstantTime(remote.publicKey);
      var isNull := if alg.nullsAllowed then zero else 0;
      err := NoError;
      match alg.agree(privateKey, remote.publicKey) {
        case Some(k) => Blit(shared, 0, k);
        case None => err := InvalidParam;
      }
      CMoveZero(shared, isNull);
      if isNull == 1 {
        err := NoError;
      }
    }
  }
}
