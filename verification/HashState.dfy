/** HMAC, HKDF and PBKDF2 as noise/src/protocol/hashstate.c computes them in
    overlapping buffers, against RFC 2104, RFC 5869 and RFC 2898.  The hash
    function itself is a parameter. */
module HashState {
  import opened Bytes

  const HMAC_IPAD: byte := 0x36
  const HMAC_OPAD: byte := 0x5C
  const NOISE_MAX_HASHLEN: nat := 64

  datatype HashAlg = HashAlg(digest: bytes -> bytes, hashLen: nat, blockLen: nat)

  ghost predicate LawfulHash(h: HashAlg) {
    && 0 < h.hashLen <= NOISE_MAX_HASHLEN
    && h.hashLen <= h.blockLen
    && forall x: bytes :: |h.digest(x)| == h.hashLen
  }

  // RFC 2104, section 2

  function XorPad(block: bytes, pad: byte): (r: bytes)
    ensures |r| == |block|
  {
    seq(|block|, i requires 0 <= i < |block| => Xor(block[i], pad))
  }

  ghost function KeyBlock(h: HashAlg, key: bytes): (r: bytes)
    requires LawfulHash(h)
    ensures |r| == h.blockLen
  {
    var k := if |key| <= h.blockLen then key else h.digest(key);
    k + Zeros(h.blockLen - |k|)
  }

  ghost function Hmac(h: HashAlg, key: bytes, text: bytes): (r: bytes)
    requires LawfulHash(h)
    ensures |r| == h.hashLen
  {
    var k := KeyBlock(h, key);
    h.digest(XorPad(k, HMAC_OPAD) + h.digest(XorPad(k, HMAC_IPAD) + text))
  }

  // RFC 5869, section 2.3, with an empty info string: T(0) = "", T(i) = HMAC(PRK, T(i-1) | i)

  ghost function HkdfBlock(h: HashAlg, prk: bytes, i: nat): (r: bytes)
    requires LawfulHash(h) && i < 256
    ensures |r| == if i == 0 then 0 else h.hashLen
  {
    if i == 0 then [] else Hmac(h, prk, HkdfBlock(h, prk, i - 1) + [i])
  }

  ghost function Hkdf(h: HashAlg, salt: bytes, ikm: bytes, i: nat): (r: bytes)
    requires LawfulHash(h) && 0 < i < 256
    ensures |r| == h.hashLen
  {
    HkdfBlock(h, Hmac(h, salt, ikm), i)
  }

  // RFC 2898, section 5.2

  ghost function PbkdfU(h: HashAlg, pass: bytes, salt: bytes, block: nat, j: nat): (r: bytes)
    requires LawfulHash(h) && j > 0
    ensures |r| == h.hashLen
  {
    if j == 1 then Hmac(h, pass, salt + Be32(block)) else Hmac(h, pass, PbkdfU(h, pass, salt, block, j - 1))
  }

  ghost function PbkdfT(h: HashAlg, pass: bytes, salt: bytes, block: nat, c: nat): (r: bytes)
    requires LawfulHash(h) && c > 0
    ensures |r| == h.hashLen
  {
    if c == 1 then PbkdfU(h, pass, salt, block, 1)
    else XorEach(PbkdfT(h, pass, salt, block, c - 1), PbkdfU(h, pass, salt, block, c))
  }

  function Total(blocks: nat, hashLen: nat): nat { blocks * hashLen }

  /** T(1) || T(2) || ... || T(blocks) */
  ghost function PbkdfBlocks(h: HashAlg, pass: bytes, salt: bytes, c: nat, blocks: nat): (r: bytes)
    requires LawfulHash(h) && c > 0
    ensures |r| == Total(blocks, h.hashLen)
  {
    if blocks == 0 then []
    else PbkdfBlocks(h, pass, salt, c, blocks - 1) + PbkdfT(h, pass, salt, blocks, c)
  }

  /** The blocks needed for n bytes of output, as CEIL(n / hLen). */
  function BlocksFor(n: nat, hashLen: nat): nat requires hashLen > 0 { (n + hashLen - 1) / hashLen }

  lemma InnerToOuterPad(block: bytes)
    ensures XorPad(XorPad(block, HMAC_IPAD), Xor(HMAC_IPAD, HMAC_OPAD)) == XorPad(block, HMAC_OPAD)
  {
    forall i | 0 <= i < |block|
      ensures Xor(Xor(block[i], HMAC_IPAD), Xor(HMAC_IPAD, HMAC_OPAD)) == Xor(block[i], HMAC_OPAD)
    {
      XorAssociates(block[i], HMAC_IPAD, Xor(HMAC_IPAD, HMAC_OPAD));
      XorAssociates(HMAC_IPAD, HMAC_IPAD, HMAC_OPAD);
      XorBitsWithSelf(HMAC_IPAD, 8);
      Pow2Constants();
      XorBitsWithZero(HMAC_OPAD, 8);
    }
  }

  // The same by position, as the standards put it.

  /** Byte j of a key that is filled up with zeros. */
  function KeyByte(key: bytes, j: nat): byte { if j < |key| then key[j] else 0 }

  /** Section 2 of RFC 2104: the hash of the key under 0x5c and the hash of the key under 0x36 and the text; a key longer
      than a block is hashed first. */
  lemma HmacIs(h: HashAlg, key: bytes, text: bytes, inner: bytes, outer: bytes)
    requires LawfulHash(h) && |inner| == |outer| == h.blockLen
    requires var k := if |key| > h.blockLen then h.digest(key) else key;
             forall j :: 0 <= j < h.blockLen ==> inner[j] == Xor(KeyByte(k, j), 0x36) && outer[j] == Xor(KeyByte(k, j), 0x5c)
    ensures Hmac(h, key, text) == h.digest(outer + h.digest(inner + text))
  {
    var k := KeyBlock(h, key);
    assert XorPad(k, HMAC_IPAD) == inner && XorPad(k, HMAC_OPAD) == outer;
  }

  /** Byte k of the exclusive-or of several strings. */
  function XorColumn(us: seq<bytes>, k: nat): byte
    requires forall u :: u in us ==> k < |u|
  {
    if us == [] then 0
    else
      assert us[|us| - 1] in us;
      if |us| == 1 then us[0][k] else Xor(XorColumn(us[..|us| - 1], k), us[|us| - 1][k])
  }

  /** U_1, U_2 and so on of section 5.2 of RFC 2898, for the block of this number. */
  ghost predicate Iterates(h: HashAlg, pass: bytes, salt: bytes, block: nat, us: seq<bytes>)
    requires LawfulHash(h)
  {
    && us != [] && us[0] == Hmac(h, pass, salt + [block / TWO24 % 256, block / TWO16 % 256, block / 256 % 256, block % 256])
    && forall j :: 0 < j < |us| ==> us[j] == Hmac(h, pass, us[j - 1])
  }

  lemma {:induction false} IterateIs(h: HashAlg, pass: bytes, salt: bytes, block: nat, us: seq<bytes>, j: nat)
    requires LawfulHash(h) && Iterates(h, pass, salt, block, us) && j < |us|
    ensures us[j] == PbkdfU(h, pass, salt, block, j + 1) && |us[j]| == h.hashLen
  {
    if j > 0 {
      IterateIs(h, pass, salt, block, us, j - 1);
    }
  }

  /** F: the exclusive-or of all the iterates. */
  lemma {:induction false} BlockIs(h: HashAlg, pass: bytes, salt: bytes, block: nat, us: seq<bytes>, k: nat)
    requires LawfulHash(h) && Iterates(h, pass, salt, block, us) && k < h.hashLen
    ensures (forall u :: u in us ==> |u| == h.hashLen) && PbkdfT(h, pass, salt, block, |us|)[k] == XorColumn(us, k)
    decreases |us|
  {
    hide Hmac, PbkdfU;
    IteratesSized(h, pass, salt, block, us);
    var n := |us| - 1;
    IterateIs(h, pass, salt, block, us, n);
    if n > 0 {
      FewerIterates(h, pass, salt, block, us);
      BlockIs(h, pass, salt, block, us[..n], k);
      LastXored(h, pass, salt, block, n + 1, k);
    } else {
      FirstBlock(h, pass, salt, block);
    }
  }

  lemma IteratesSized(h: HashAlg, pass: bytes, salt: bytes, block: nat, us: seq<bytes>)
    requires LawfulHash(h) && Iterates(h, pass, salt, block, us)
    ensures forall u :: u in us ==> |u| == h.hashLen
  {
    forall u | u in us ensures |u| == h.hashLen {
      var j :| 0 <= j < |us| && us[j] == u;
      IterateIs(h, pass, salt, block, us, j);
    }
  }

  lemma FewerIterates(h: HashAlg, pass: bytes, salt: bytes, block: nat, us: seq<bytes>)
    requires LawfulHash(h) && Iterates(h, pass, salt, block, us) && |us| > 1
    ensures Iterates(h, pass, salt, block, us[..|us| - 1])
  {
    hide Hmac;
  }

  lemma LastXored(h: HashAlg, pass: bytes, salt: bytes, block: nat, c: nat, k: nat)
    requires LawfulHash(h) && c > 1 && k < h.hashLen
    ensures PbkdfT(h, pass, salt, block, c)[k] == Xor(PbkdfT(h, pass, salt, block, c - 1)[k], PbkdfU(h, pass, salt, block, c)[k])
  {
    hide PbkdfU, Xor;
  }

  lemma FirstBlock(h: HashAlg, pass: bytes, salt: bytes, block: nat)
    requires LawfulHash(h)
    ensures PbkdfT(h, pass, salt, block, 1) == PbkdfU(h, pass, salt, block, 1)
  {
  }

  /** The blocks follow each other, counted from 1: what stands at each place of the output. */
  lemma {:induction false} OutputIs(h: HashAlg, pass: bytes, salt: bytes, c: nat, blocks: nat, i: nat, k: nat)
    requires LawfulHash(h) && c > 0 && i < blocks && k < h.hashLen
    ensures Place(i, k, h.hashLen) < Total(blocks, h.hashLen)
    ensures PbkdfBlocks(h, pass, salt, c, blocks)[Place(i, k, h.hashLen)] == PbkdfT(h, pass, salt, i + 1, c)[k]
  {
    hide PbkdfT, PbkdfBlocks, Place, Total;
    PlaceFits(i, k, blocks, h.hashLen);
    BlocksUnfold(h, pass, salt, c, blocks);
    if i < blocks - 1 {
      OutputIs(h, pass, salt, c, blocks - 1, i, k);
    }
  }

  lemma BlocksUnfold(h: HashAlg, pass: bytes, salt: bytes, c: nat, blocks: nat)
    requires LawfulHash(h) && c > 0 && blocks > 0
    ensures PbkdfBlocks(h, pass, salt, c, blocks) == PbkdfBlocks(h, pass, salt, c, blocks - 1) + PbkdfT(h, pass, salt, blocks, c)
  {
  }

  function Place(i: nat, k: nat, hashLen: nat): nat { i * hashLen + k }

  lemma PlaceFits(i: nat, k: nat, blocks: nat, hashLen: nat)
    requires i < blocks && k < hashLen
    ensures Place(i, k, hashLen) < Total(blocks, hashLen) && Place(blocks - 1, k, hashLen) == Total(blocks - 1, hashLen) + k
    ensures i < blocks - 1 ==> Place(i, k, hashLen) < Total(blocks - 1, hashLen)
  {
    assert (i + 1) * hashLen == i * hashLen + hashLen;
    assert (i + 1) * hashLen <= blocks * hashLen;
    if i < blocks - 1 {
      assert (i + 1) * hashLen <= (blocks - 1) * hashLen;
    }
  }

  method XorKey(key: array<byte>, value: byte)
    modifies key
    ensures key[..] == XorPad(old(key[..]), value)
  {
    var i := 0;
    while i < key.Length
      invariant i <= key.Length
      invariant forall j :: 0 <= j < i ==> key[j] == Xor(old(key[j]), value)
      invariant forall j :: i <= j < key.Length ==> key[j] == old(key[j])
    {
      key[i] := Xor(key[i], value);
      i := i + 1;
    }
  }

  class HashState {
    const alg: HashAlg
    var absorbed: bytes   // what reset and update have fed into the context

    constructor (alg: HashAlg)
      ensures this.alg == alg && absorbed == []
    {
      this.alg := alg;
      absorbed := [];
    }

    method Reset()
      modifies this
      ensures absorbed == []
    {
      absorbed := [];
    }

    method Update(data: bytes)
      modifies this
      ensures absorbed == old(absorbed) + data
    {
      absorbed := absorbed + data;
    }

    method Finalize(out: array<byte>)
      requires LawfulHash(alg) && alg.hashLen <= out.Length
      modifies out
      ensures out[..alg.hashLen] == alg.digest(absorbed)
      ensures out[alg.hashLen..] == old(out[alg.hashLen..])
    {
      Blit(out, 0, alg.digest(absorbed));
    }

    /** A fresh key block: the key itself, or its digest when too long, padded with zeros. */
    method FormatKey(key: array<byte>, keyLen: nat) returns (keyBlock: array<byte>)
      requires LawfulHash(alg) && keyLen <= key.Length
      modifies this
      ensures fresh(keyBlock) && keyBlock[..] == KeyBlock(alg, key[..keyLen])
    {
      keyBlock := new byte[alg.blockLen](_ => 0);
      assert keyBlock[..] == Zeros(alg.blockLen);
      if keyLen <= alg.blockLen {
        Blit(keyBlock, 0, key[..keyLen]);
      } else {
        Reset();
        Update(key[..keyLen]);
        assert absorbed == key[..keyLen];
        Blit(keyBlock, 0, alg.digest(absorbed));
      }
    }

    /** hash := digest(keyBlock || data) */
    method KeyedDigest(keyBlock: array<byte>, data: bytes, hash: array<byte>)
      requires LawfulHash(alg) && alg.hashLen <= hash.Length
      modifies this, hash
      ensures hash[..alg.hashLen] == old(alg.digest(keyBlock[..] + data))
      ensures hash[alg.hashLen..] == old(hash[alg.hashLen..])
    {
      Reset();
      Update(keyBlock[..]);
      Update(data);
      assert absorbed == old(keyBlock[..]) + data;
      Finalize(hash);
    }

    /** The data and hash buffers may be the same array; the key buffer is separate. */
    method ComputeHmac(key: array<byte>, keyLen: nat, data1: array<byte>, data1Len: nat, data2: bytes, hash: array<byte>)
      requires LawfulHash(alg)
      requires keyLen <= key.Length && data1Len <= data1.Length && alg.hashLen <= hash.Length
      requires key != hash
      modifies this, hash
      ensures hash[..alg.hashLen] == old(Hmac(alg, key[..keyLen], data1[..data1Len] + data2))
      ensures hash[alg.hashLen..] == old(hash[alg.hashLen..])
    {
      var keyBlock := FormatKey(key, keyLen);
      ghost var k := keyBlock[..];
      XorKey(keyBlock, HMAC_IPAD);
      KeyedDigest(keyBlock, data1[..data1Len] + data2, hash);
      XorKey(keyBlock, Xor(HMAC_IPAD, HMAC_OPAD));
      InnerToOuterPad(k);
      KeyedDigest(keyBlock, hash[..alg.hashLen], hash);
    }

    /** key, data and the first output may share a buffer, as mix_key calls it with ck. */
    method ComputeHkdf(key: array<byte>, keyLen: nat, data: array<byte>, dataLen: nat,
                       output1: array<byte>, output1Len: nat, output2: array<byte>, output2Len: nat)
      returns (ok: bool)
      requires LawfulHash(alg)
      requires keyLen <= key.Length && dataLen <= data.Length
      requires output1Len <= output1.Length && output2Len <= output2.Length && output1 != output2
      modifies this, output1, output2
      ensures ok == (output1Len <= alg.hashLen && output2Len <= alg.hashLen)
      ensures ok ==> output1[..output1Len] == old(Hkdf(alg, key[..keyLen], data[..dataLen], 1))[..output1Len]
      ensures ok ==> output2[..output2Len] == old(Hkdf(alg, key[..keyLen], data[..dataLen], 2))[..output2Len]
      ensures output1[if ok then output1Len else 0..] == old(output1[if ok then output1Len else 0..])
      ensures output2[if ok then output2Len else 0..] == old(output2[if ok then output2Len else 0..])
    {
      var hashLen := alg.hashLen;
      if output1Len > hashLen || output2Len > hashLen {
        return false;
      }
      ghost var prk := Hmac(alg, key[..keyLen], data[..dataLen]);
      var tempKey, tempHash := Extract(key, keyLen, data, dataLen);
      Blit(output1, 0, tempHash[..output1Len]);
      NextBlock(tempKey, tempHash, prk, 2);
      Blit(output2, 0, tempHash[..output2Len]);
      return true;
    }

    method ComputeHkdf3(key: array<byte>, keyLen: nat, data: array<byte>, dataLen: nat,
                        output1: array<byte>, output1Len: nat, output2: array<byte>, output2Len: nat,
                        output3: array<byte>, output3Len: nat)
      returns (ok: bool)
      requires LawfulHash(alg)
      requires keyLen <= key.Length && dataLen <= data.Length
      requires output1Len <= output1.Length && output2Len <= output2.Length && output3Len <= output3.Length
      requires output1 != output2 && output1 != output3 && output2 != output3
      modifies this, output1, output2, output3
      ensures ok == (output1Len <= alg.hashLen && output2Len <= alg.hashLen && output3Len <= alg.hashLen)
      ensures ok ==> output1[..output1Len] == old(Hkdf(alg, key[..keyLen], data[..dataLen], 1))[..output1Len]
      ensures ok ==> output2[..output2Len] == old(Hkdf(alg, key[..keyLen], data[..dataLen], 2))[..output2Len]
      ensures ok ==> output3[..output3Len] == old(Hkdf(alg, key[..keyLen], data[..dataLen], 3))[..output3Len]
      ensures output1[if ok then output1Len else 0..] == old(output1[if ok then output1Len else 0..])
      ensures output2[if ok then output2Len else 0..] == old(output2[if ok then output2Len else 0..])
      ensures output3[if ok then output3Len else 0..] == old(output3[if ok then output3Len else 0..])
    {
      var hashLen := alg.hashLen;
      if output1Len > hashLen || output2Len > hashLen || output3Len > hashLen {
        return false;
      }
      ghost var prk := Hmac(alg, key[..keyLen], data[..dataLen]);
      var tempKey, tempHash := Extract(key, keyLen, data, dataLen);
      Blit(output1, 0, tempHash[..output1Len]);
      NextBlock(tempKey, tempHash, prk, 2);
      Blit(output2, 0, tempHash[..output2Len]);
      NextBlock(tempKey, tempHash, prk, 3);
      Blit(output3, 0, tempHash[..output3Len]);
      return true;
    }

    /** The pseudo-random key and the first block of its expansion, in fresh temporary buffers. */
    method Extract(key: array<byte>, keyLen: nat, data: array<byte>, dataLen: nat)
      returns (tempKey: array<byte>, tempHash: array<byte>)
      requires LawfulHash(alg) && keyLen <= key.Length && dataLen <= data.Length
      modifies this
      ensures fresh(tempKey) && fresh(tempHash) && tempKey != tempHash
      ensures tempKey.Length == alg.hashLen && tempHash.Length == alg.hashLen + 1
      ensures tempKey[..alg.hashLen] == Hmac(alg, key[..keyLen], data[..dataLen])
      ensures tempHash[..alg.hashLen] == Hkdf(alg, key[..keyLen], data[..dataLen], 1)
    {
      tempKey := new byte[alg.hashLen];
      tempHash := new byte[alg.hashLen + 1];
      assert data[..dataLen] + [] == data[..dataLen];
      ComputeHmac(key, keyLen, data, dataLen, [], tempKey);
      FirstBlock(tempKey, tempHash, Hmac(alg, key[..keyLen], data[..dataLen]));
    }

    /** temp_hash[0] = 1 followed by an HMAC of that one byte, back into temp_hash. */
    method FirstBlock(tempKey: array<byte>, tempHash: array<byte>, ghost prk: bytes)
      requires LawfulHash(alg) && tempKey != tempHash
      requires tempKey.Length == alg.hashLen && tempHash.Length == alg.hashLen + 1
      requires tempKey[..alg.hashLen] == prk
      modifies this, tempHash
      ensures tempHash[..alg.hashLen] == HkdfBlock(alg, prk, 1)
    {
      tempHash[0] := 1;
      assert tempHash[..1] + [] == HkdfBlock(alg, prk, 0) + [1];
      ComputeHmac(tempKey, alg.hashLen, tempHash, 1, [], tempHash);
    }

    /** temp_hash[hash_len] = i, then an HMAC of the previous block and that byte, in place. */
    method NextBlock(tempKey: array<byte>, tempHash: array<byte>, ghost prk: bytes, i: byte)
      requires LawfulHash(alg) && tempKey != tempHash && i > 1
      requires tempKey.Length == alg.hashLen && tempHash.Length == alg.hashLen + 1
      requires tempKey[..alg.hashLen] == prk
      requires tempHash[..alg.hashLen] == HkdfBlock(alg, prk, i - 1)
      modifies this, tempHash
      ensures tempHash[..alg.hashLen] == HkdfBlock(alg, prk, i)
    {
      tempHash[alg.hashLen] := i;
      assert tempHash[..alg.hashLen + 1] + [] == HkdfBlock(alg, prk, i - 1) + [i];
      ComputeHmac(tempKey, alg.hashLen, tempHash, alg.hashLen + 1, [], tempHash);
    }

    /** One block of PBKDF2: U is rehashed in place while T gathers the exclusive-or. */
    method PbkdfBlock(pass: array<byte>, passLen: nat, salt: array<byte>, saltLen: nat, iterations: nat, i: nat,
                      t: array<byte>, u: array<byte>)
      requires LawfulHash(alg) && passLen <= pass.Length && saltLen <= salt.Length
      requires t.Length >= alg.hashLen && u.Length >= alg.hashLen
      requires t != u && pass != t && pass != u && salt != t && salt != u
      modifies this, t, u
      ensures t[..alg.hashLen] == PbkdfT(alg, pass[..passLen], salt[..saltLen], i, if iterations == 0 then 1 else iterations)
    {
      ghost var p, s := pass[..passLen], salt[..saltLen];
      ComputeHmac(pass, passLen, salt, saltLen, Be32(i), t);
      Blit(u, 0, t[..alg.hashLen]);
      Iterate(pass, passLen, iterations, t, u, p, s, i);
    }

    method Iterate(pass: array<byte>, passLen: nat, iterations: nat, t: array<byte>, u: array<byte>,
                   ghost p: bytes, ghost s: bytes, ghost i: nat)
      requires LawfulHash(alg) && passLen <= pass.Length && p == pass[..passLen]
      requires t.Length >= alg.hashLen && u.Length >= alg.hashLen && t != u && pass != t && pass != u
      requires u[..alg.hashLen] == PbkdfU(alg, p, s, i, 1) && t[..alg.hashLen] == PbkdfT(alg, p, s, i, 1)
      modifies this, t, u
      ensures t[..alg.hashLen] == PbkdfT(alg, p, s, i, if iterations == 0 then 1 else iterations)
    {
      hide Hmac, XorEach, PbkdfT, PbkdfU, LawfulHash;
      var index := 1;
      while index < iterations
        invariant 1 <= index && (index <= iterations || index == 1)
        invariant u[..alg.hashLen] == PbkdfU(alg, p, s, i, index)
        invariant t[..alg.hashLen] == PbkdfT(alg, p, s, i, index)
        invariant pass[..passLen] == p
      {
        NextU(pass, passLen, t, u);
        PbkdfNext(alg, p, s, i, index);
        index := index + 1;
      }
    }

    method NextU(pass: array<byte>, passLen: nat, t: array<byte>, u: array<byte>)
      requires LawfulHash(alg) && passLen <= pass.Length
      requires t.Length >= alg.hashLen && u.Length >= alg.hashLen && t != u && pass != t && pass != u
      modifies this, t, u
      ensures u[..alg.hashLen] == old(Hmac(alg, pass[..passLen], u[..alg.hashLen]))
      ensures t[..alg.hashLen] == XorEach(old(t[..alg.hashLen]), u[..alg.hashLen])
    {
      Rehash(pass, passLen, u);
      XorInto(t, u, alg.hashLen);
    }

    /** U := PRF(P, U), the input and the output being one buffer. */
    method Rehash(pass: array<byte>, passLen: nat, u: array<byte>)
      requires LawfulHash(alg) && passLen <= pass.Length && u.Length >= alg.hashLen && pass != u
      modifies this, u
      ensures u[..alg.hashLen] == old(Hmac(alg, pass[..passLen], u[..alg.hashLen]))
    {
      assert u[..alg.hashLen] + [] == u[..alg.hashLen];
      ComputeHmac(pass, passLen, u, alg.hashLen, [], u);
    }

    method XorInto(t: array<byte>, u: array<byte>, n: nat)
      requires t != u && n <= t.Length && n <= u.Length
      modifies t
      ensures t[..n] == XorEach(old(t[..n]), u[..n])
    {
      var j := 0;
      while j < n
        invariant j <= n
        invariant forall k :: 0 <= k < j ==> t[k] == Xor(old(t[k]), u[k])
        invariant forall k :: j <= k < n ==> t[k] == old(t[k])
      {
        t[j] := Xor(t[j], u[j]);
        j := j + 1;
      }
    }

    /** Writes exactly the first outputLen bytes of T(1) || T(2) || ...; an iteration
        count of zero behaves as one. */
    method Pbkdf2(pass: array<byte>, passLen: nat, salt: array<byte>, saltLen: nat, iterations: nat,
                  output: array<byte>, outputLen: nat)
      returns (ok: bool)
      requires LawfulHash(alg) && passLen <= pass.Length && saltLen <= salt.Length && outputLen <= output.Length
      requires pass != output && salt != output
      modifies this, output
      ensures ok == (outputLen <= 0xFFFF_FFFF * alg.hashLen)
      ensures ok ==> var n := BlocksFor(outputLen, alg.hashLen);
                     && outputLen <= n * alg.hashLen && n < TWO32   // so no block index is truncated
                     && output[..outputLen] == PbkdfBlocks(alg, pass[..passLen], salt[..saltLen],
                                                           if iterations == 0 then 1 else iterations, n)[..outputLen]
      ensures output[if ok then outputLen else 0..] == old(output[if ok then outputLen else 0..])
    {
      var hashLen := alg.hashLen;
      if outputLen > 0xFFFF_FFFF * hashLen {
        return false;
      }
      ghost var n := FillBlocks(pass, passLen, salt, saltLen, iterations, output, outputLen);
      BlocksUnique(n, outputLen, hashLen);
      BlocksFit(n, outputLen, hashLen);
      return true;
    }

    method FillBlocks(pass: array<byte>, passLen: nat, salt: array<byte>, saltLen: nat, iterations: nat,
                      output: array<byte>, outputLen: nat)
      returns (ghost n: nat)
      requires LawfulHash(alg) && passLen <= pass.Length && saltLen <= salt.Length && outputLen <= output.Length
      requires pass != output && salt != output
      modifies this, output
      ensures outputLen <= n * alg.hashLen < outputLen + alg.hashLen
      ensures output[..outputLen] == PbkdfBlocks(alg, pass[..passLen], salt[..saltLen],
                                                 if iterations == 0 then 1 else iterations, n)[..outputLen]
      ensures output[outputLen..] == old(output[outputLen..])
    {
      assert 0 < alg.hashLen <= NOISE_MAX_HASHLEN;
      hide LawfulHash, PbkdfT, PbkdfBlocks, Total;
      ghost var p, s, c := pass[..passLen], salt[..saltLen], if iterations == 0 then 1 else iterations;
      var t, u := new byte[NOISE_MAX_HASHLEN], new byte[NOISE_MAX_HASHLEN];
      var at, left, i: nat := 0, outputLen, 1;
      assert output[..0] == [];
      TotalIs(0, alg.hashLen);
      ghost var blocks := PbkdfBlocks(alg, p, s, c, 0);   // T(1) || ... || T(i-1)
      while left > 0
        invariant i >= 1 && blocks == PbkdfBlocks(alg, p, s, c, i - 1)
        invariant 0 <= at <= |blocks| && 0 <= left && at + left == outputLen && (left > 0 ==> at == |blocks|)
        invariant |blocks| < outputLen + alg.hashLen
        invariant if left > 0 then output[..at] == blocks else output[..outputLen] == blocks[..outputLen]
        invariant output[outputLen..] == old(output[outputLen..])
        invariant pass[..passLen] == p && salt[..saltLen] == s
        decreases left
      {
        var take := NextPiece(pass, passLen, salt, saltLen, iterations, output, outputLen, at, i, t, u);
        blocks := PbkdfBlocks(alg, p, s, c, i);
        at, left, i := at + take, left - take, i + 1;
      }
      n := i - 1;
      TotalIs(n, alg.hashLen);
    }

    /** A whole block, or what is missing of the output. */
    method NextPiece(pass: array<byte>, passLen: nat, salt: array<byte>, saltLen: nat, iterations: nat,
                     output: array<byte>, outputLen: nat, at: nat, i: nat, t: array<byte>, u: array<byte>)
      returns (take: nat)
      requires LawfulHash(alg) && passLen <= pass.Length && saltLen <= salt.Length && at < outputLen <= output.Length
      requires t.Length >= alg.hashLen && u.Length >= alg.hashLen && t != output && u != output && pass != output && salt != output
      requires t != u && pass != t && pass != u && salt != t && salt != u && i > 0
      requires output[..at] == PbkdfBlocks(alg, pass[..passLen], salt[..saltLen], if iterations == 0 then 1 else iterations, i - 1)
      modifies this, output, t, u
      ensures take == Min(alg.hashLen, outputLen - at)
      ensures var blocks := PbkdfBlocks(alg, pass[..passLen], salt[..saltLen], if iterations == 0 then 1 else iterations, i);
              && |blocks| == at + alg.hashLen
              && (if at + take < outputLen then output[..at + take] == blocks else output[..outputLen] == blocks[..outputLen])
      ensures output[outputLen..] == old(output[outputLen..])
    {
      assert alg.hashLen > 0;
      hide LawfulHash, PbkdfT, PbkdfBlocks;
      ghost var p, s, c := pass[..passLen], salt[..saltLen], if iterations == 0 then 1 else iterations;
      ghost var blocks := PbkdfBlocks(alg, p, s, c, i - 1);
      PbkdfBlock(pass, passLen, salt, saltLen, iterations, i, t, u);
      BlocksGrow(alg, p, s, c, i);
      take := if outputLen - at >= alg.hashLen then alg.hashLen else outputLen - at;
      AppendBlock(output, at, take, t, blocks, t[..alg.hashLen], outputLen);
      assert PbkdfBlocks(alg, p, s, c, i)[..at + alg.hashLen] == PbkdfBlocks(alg, p, s, c, i);
    }
  }

  lemma PbkdfNext(h: HashAlg, pass: bytes, salt: bytes, block: nat, c: nat)
    requires LawfulHash(h) && c > 0
    ensures PbkdfU(h, pass, salt, block, c + 1) == Hmac(h, pass, PbkdfU(h, pass, salt, block, c))
    ensures PbkdfT(h, pass, salt, block, c + 1)
         == XorEach(PbkdfT(h, pass, salt, block, c), PbkdfU(h, pass, salt, block, c + 1))
  {
    hide Hmac, XorEach;
  }

  lemma TotalIs(blocks: nat, hashLen: nat)
    ensures Total(blocks, hashLen) == blocks * hashLen
  {
  }

  lemma BlocksGrow(h: HashAlg, pass: bytes, salt: bytes, c: nat, i: nat)
    requires LawfulHash(h) && c > 0 && i > 0
    ensures PbkdfBlocks(h, pass, salt, c, i) == PbkdfBlocks(h, pass, salt, c, i - 1) + PbkdfT(h, pass, salt, i, c)
  {
  }

  method AppendBlock(output: array<byte>, at: nat, take: nat, t: array<byte>, ghost blocks: bytes, ghost next: bytes,
                     ghost outputLen: nat)
    requires at + take <= outputLen <= output.Length
    requires take <= |next| <= t.Length && t != output
    requires t[..|next|] == next && at == |blocks| && output[..at] == blocks
    modifies output
    ensures output[..at + take] == (blocks + next)[..at + take]
    ensures output[outputLen..] == old(output[outputLen..])
  {
    Blit(output, at, t[..take]);
    assert output[..at + take] == blocks + t[..take];
  }

  lemma BlocksUnique(n: nat, len: nat, hashLen: nat)
    requires hashLen > 0 && len <= n * hashLen < len + hashLen
    ensures n == BlocksFor(len, hashLen)
  {
    assert len + hashLen - 1 == n * hashLen + (len + hashLen - 1 - n * hashLen);
    DivUnique(len + hashLen - 1, hashLen, n);
  }

  lemma BlocksFit(n: nat, len: nat, hashLen: nat)
    requires n * hashLen < len + hashLen && len <= 0xFFFF_FFFF * hashLen
    ensures n < TWO32
  {
    if n >= TWO32 {
      MulMonotone(TWO32, n, hashLen);
    }
  }

  /** A shorter output is a prefix of a longer one: the length only says where to stop. */
  lemma {:induction false} PbkdfOutputsNest(h: HashAlg, pass: bytes, salt: bytes, c: nat, n: nat, m: nat)
    requires LawfulHash(h) && c > 0 && n <= m
    ensures PbkdfBlocks(h, pass, salt, c, n) <= PbkdfBlocks(h, pass, salt, c, m)
    decreases m
  {
    if n < m {
      PbkdfOutputsNest(h, pass, salt, c, n, m - 1);
    }
  }

  lemma DivUnique(x: nat, d: nat, q: nat)
    requires d > 0 && q * d <= x < q * d + d
    ensures x / d == q
  {
    var r := x / d;
    assert r * d <= x < r * d + d;
    if r > q {
      MulMonotone(q + 1, r, d);
    } else if q > r {
      MulMonotone(r + 1, q, d);
    }
  }

  lemma MulMonotone(a: nat, b: nat, d: nat)
    requires a <= b
    ensures a * d <= b * d
  {
  }
}
