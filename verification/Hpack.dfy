/** The header block encoding of components/tailscale/http2_session.cpp and its status reader, against the integer and
    string representations of sections 5.1 and 5.2 of RFC 7541. */
module Hpack {
  import opened Bytes

  const PREFIX: nat := 127     // the largest value of a seven-bit prefix

  datatype Header = Header(name: bytes, value: bytes)

  /** ":status" */
  const STATUS: bytes := [58, 115, 116, 97, 116, 117, 115]

  // Encoding.

  /** The continuation of an integer that did not fit its prefix, seven bits at a time from the bottom. */
  function Rest(n: nat): bytes {
    if n >= 128 then [n % 128 + 128] + Rest(n / 128) else [n]
  }

  function Int7(n: nat): bytes { if n < PREFIX then [n] else [PREFIX] + Rest(n - PREFIX) }
  function Str(s: bytes): bytes { Int7(|s|) + s }
  function Literal(h: Header): bytes { [0] + Str(h.name) + Str(h.value) }

  function Block(hs: seq<Header>): bytes { if hs == [] then [] else Literal(hs[0]) + Block(hs[1..]) }

  method EncodeStringLiteral(block: bytes, value: bytes) returns (r: bytes)
    ensures r == block + Str(value)
  {
    r := block;
    var len := |value|;
    if len < 0x7F {
      r := r + [len];
    } else {
      r := r + [0x7F];
      r := EncodeRest(r, len - 0x7F);
    }
    r := r + value;
  }

  method EncodeRest(block: bytes, n: nat) returns (r: bytes)
    ensures r == block + Rest(n)
  {
    r := block;
    var remaining := n;
    while remaining >= 0x80
      invariant r + Rest(remaining) == block + Rest(n)
    {
      assert r + ([remaining % 128 + 128] + Rest(remaining / 128)) == r + [remaining % 128 + 128] + Rest(remaining / 128);
      r := r + [remaining % 0x80 + 0x80];
      remaining := remaining / 0x80;
    }
    r := r + [remaining];
  }

  method EncodeLiteralHeader(block: bytes, h: Header) returns (r: bytes)
    ensures r == block + Literal(h)
  {
    r := block + [0];
    r := EncodeStringLiteral(r, h.name);
    r := EncodeStringLiteral(r, h.value);
  }

  // Decoding as the standard has it.

  /** Value and number of bytes. */
  function DecodeRest(b: bytes): Option<(nat, nat)> {
    if b == [] then None
    else if b[0] < 128 then Some((b[0] as nat, 1))
    else match DecodeRest(b[1..])
      case None => None
      case Some(v) => Some(((b[0] - 128) as nat + 128 * v.0, v.1 + 1))
  }

  function DecodeInt7(b: bytes): (r: Option<(nat, nat)>)
    ensures r.Some? ==> r.value.1 > 0
  {
    if b == [] then None
    else if b[0] % 128 < PREFIX then Some((b[0] as nat % 128, 1))
    else match DecodeRest(b[1..])
      case None => None
      case Some(v) => Some((PREFIX + v.0, v.1 + 1))
  }

  /** A string without Huffman coding, and what follows it. */
  function DecodeStr(b: bytes): (r: Option<(bytes, bytes)>)
    ensures r.Some? ==> |r.value.1| < |b|
  {
    if b == [] || b[0] >= 128 then None
    else match DecodeInt7(b)
      case None => None
      case Some(v) => if v.1 + v.0 > |b| then None else Some((b[v.1..v.1 + v.0], b[v.1 + v.0..]))
  }

  lemma {:induction false} RestRoundTrip(n: nat, tail: bytes)
    ensures DecodeRest(Rest(n) + tail) == Some((n, |Rest(n)|))
  {
    if n >= 128 {
      RestRoundTrip(n / 128, tail);
      assert (Rest(n) + tail)[1..] == Rest(n / 128) + tail;
    }
  }

  lemma Int7RoundTrip(n: nat, tail: bytes)
    ensures DecodeInt7(Int7(n) + tail) == Some((n, |Int7(n)|)) && Int7(n) != [] && Int7(n)[0] < 128
  {
    if n >= PREFIX {
      LongRoundTrip(n - PREFIX, tail);
    }
  }

  lemma LongRoundTrip(n: nat, tail: bytes)
    ensures DecodeInt7([PREFIX] + Rest(n) + tail) == Some((PREFIX + n, 1 + |Rest(n)|))
  {
    RestRoundTrip(n, tail);
    hide Rest, DecodeRest;
    assert ([PREFIX] + Rest(n) + tail)[1..] == Rest(n) + tail;
  }

  /** Every length and every string comes back, whatever follows. */
  lemma StrRoundTrip(s: bytes, tail: bytes)
    ensures DecodeStr(Str(s) + tail) == Some((s, tail))
  {
    var b := Str(s) + tail;
    var w := |Int7(|s|)|;
    assert b == Int7(|s|) + (s + tail);
    Int7RoundTrip(|s|, s + tail);
    hide Int7, DecodeInt7;
    assert b[w..w + |s|] == s && b[w + |s|..] == tail;
  }

  function DecodeLiteral(b: bytes): (r: Option<(Header, bytes)>)
    ensures r.Some? ==> |r.value.1| < |b|
  {
    if b == [] || b[0] != 0 then None
    else match DecodeStr(b[1..])
      case None => None
      case Some(n) =>
        match DecodeStr(n.1)
        case None => None
        case Some(v) => Some((Header(n.0, v.0), v.1))
  }

  /** A block of literal headers, all the way to its end. */
  function DecodeBlock(b: bytes): Option<seq<Header>>
    decreases |b|
  {
    if b == [] then Some([])
    else match DecodeLiteral(b)
      case None => None
      case Some(h) =>
        match DecodeBlock(h.1)
        case None => None
        case Some(rest) => Some([h.0] + rest)
  }

  lemma LiteralRoundTrip(h: Header, tail: bytes)
    ensures DecodeLiteral(Literal(h) + tail) == Some((h, tail))
  {
    hide Str, DecodeStr;
    assert (Literal(h) + tail)[1..] == Str(h.name) + (Str(h.value) + tail);
    StrRoundTrip(h.name, Str(h.value) + tail);
    StrRoundTrip(h.value, tail);
  }

  /** The first header of a block, and the rest. */
  lemma BlockUnfolds(hs: seq<Header>)
    requires hs != []
    ensures DecodeBlock(Block(hs[1..])) == Some(hs[1..]) ==> DecodeBlock(Block(hs)) == Some(hs)
  {
    hide Literal, DecodeLiteral;
    var rest := Block(hs[1..]);
    LiteralRoundTrip(hs[0], rest);
    DecodesFirst(Literal(hs[0]) + rest, hs[0], rest);
    assert hs == [hs[0]] + hs[1..];
  }

  lemma DecodesFirst(b: bytes, h: Header, rest: bytes)
    requires DecodeLiteral(b) == Some((h, rest)) && b != []
    ensures DecodeBlock(b) == if DecodeBlock(rest).Some? then Some([h] + DecodeBlock(rest).value) else None
  {
    hide DecodeLiteral;
  }

  /** Blocks decode to the headers they were made from, so no two lists of headers share a block. */
  lemma {:induction false} BlockRoundTrip(hs: seq<Header>)
    ensures DecodeBlock(Block(hs)) == Some(hs)
    decreases |hs|
  {
    if hs != [] {
      BlockUnfolds(hs);
      hide Literal, DecodeLiteral, Block, DecodeBlock;
      BlockRoundTrip(hs[1..]);
    }
  }

  // The status reader.

  predicate IsDigit(c: byte) { 48 <= c <= 57 }
  predicate IsBlankByte(c: byte) { c == 32 || 9 <= c <= 13 }

  function Digits(s: bytes, acc: nat): nat
    decreases |s|
  {
    if s == [] || !IsDigit(s[0]) then acc else Digits(s[1..], 10 * acc + (s[0] - 48) as nat)
  }

  /** The C library's atoi. */
  function Atoi(s: bytes): int {
    if s == [] then 0
    else if IsBlankByte(s[0]) then Atoi(s[1..])
    else if s[0] == 45 then 0 - Digits(s[1..], 0) as int
    else if s[0] == 43 then Digits(s[1..], 0)
    else Digits(s, 0)
  }

  function Int16(n: int): int { (n + 32768) % TWO16 - 32768 }

  /** One length byte and as many bytes, whatever the top bit and the escape value mean. */
  function ShortStr(b: bytes): Option<(bytes, bytes)> {
    if b == [] then None
    else
      var len := b[0] as nat % 128;
      if 1 + len > |b| then None else Some((b[1..1 + len], b[1 + len..]))
  }

  function Status(b: bytes): int
    decreases |b|
  {
    if b == [] then -1
    else if b[0] >= 128 then (if b[0] % 128 == 8 then 200 else Status(b[1..]))
    else if b[0] < 16 then
      match ShortStr(b[1..])
      case None => -1
      case Some(n) =>
        match ShortStr(n.1)
        case None => -1
        case Some(v) => if n.0 == STATUS then Int16(Atoi(v.0)) else Status(v.1)
    else -1
  }

  method DecodeStatusHeader(block: bytes) returns (status: int)
    ensures status == Status(block)
  {
    var idx := 0;
    while idx < |block|
      invariant idx <= |block| && Status(block[idx..]) == Status(block)
      decreases |block| - idx
    {
      ghost var rest := block[idx..];
      var b := block[idx];
      if b >= 128 {
        if b % 128 == 8 {
          return 200;
        }
        assert rest[1..] == block[idx + 1..];
        idx := idx + 1;
        continue;
      }
      if b >= 16 {
        break;
      }
      var found, next, name, value := TwoStrings(block, idx + 1);
      assert rest[1..] == block[idx + 1..];
      if !found {
        break;
      }
      if name == STATUS {
        return Int16(Atoi(value));
      }
      idx := next;
    }
    return -1;
  }

  /** A name and a value from idx on. */
  method TwoStrings(block: bytes, idx: nat) returns (found: bool, next: nat, name: bytes, value: bytes)
    requires idx <= |block|
    ensures idx <= next <= |block|
    ensures found <==> ShortStr(block[idx..]).Some? && ShortStr(ShortStr(block[idx..]).value.1).Some?
    ensures found ==> name == ShortStr(block[idx..]).value.0
                      && ShortStr(ShortStr(block[idx..]).value.1) == Some((value, block[next..]))
  {
    found, next, name, value := false, idx, [], [];
    var ok;
    ok, next, name := OneString(block, idx);
    if !ok {
      return false, idx, [], [];
    }
    ok, next, value := OneString(block, next);
    if !ok {
      return false, idx, [], [];
    }
    found := true;
  }

  method OneString(block: bytes, idx: nat) returns (ok: bool, next: nat, s: bytes)
    requires idx <= |block|
    ensures idx <= next <= |block|
    ensures ShortStr(block[idx..]) == if ok then Some((s, block[next..])) else None
  {
    if idx >= |block| {
      return false, idx, [];
    }
    var len := block[idx] as nat % 128;
    assert block[idx] == block[idx..][0];
    if idx + 1 + len > |block| {
      return false, idx, [];
    }
    s := block[idx + 1..idx + 1 + len];
    assert block[idx..][1..1 + len] == s && block[idx..][1 + len..] == block[idx + 1 + len..];
    return true, idx + 1 + len, s;
  }

  /** What the status of a list of headers is. */
  function StatusOf(hs: seq<Header>): int {
    if hs == [] then -1 else if hs[0].name == STATUS then Int16(Atoi(hs[0].value)) else StatusOf(hs[1..])
  }

  predicate Short(h: Header) { |h.name| < PREFIX && |h.value| < PREFIX }

  lemma ShortStrAgrees(s: bytes, tail: bytes)
    requires |s| < PREFIX
    ensures ShortStr(Str(s) + tail) == Some((s, tail))
  {
    assert (Str(s) + tail)[1..1 + |s|] == s && (Str(s) + tail)[1 + |s|..] == tail;
  }

  /** Short up to and including the first status; what comes after it is not looked at. */
  predicate ShortToStatus(hs: seq<Header>) {
    hs == [] || (Short(hs[0]) && (hs[0].name == STATUS || ShortToStatus(hs[1..])))
  }

  /** The reader finds the status of any headers shorter than the prefix can count as far as the status. */
  lemma {:induction false} StatusAgrees(hs: seq<Header>)
    requires ShortToStatus(hs)
    ensures Status(Block(hs)) == StatusOf(hs)
    decreases |hs|
  {
    if hs != [] {
      StatusOfFirst(hs[0], Block(hs[1..]));
      hide Literal, Atoi, Status;
      if hs[0].name == STATUS {
        assert Seen(hs[0].value) == hs[0].value;
      } else {
        StatusAgrees(hs[1..]);
      }
    }
  }

  /** What is read of a status: of one too long, the bytes of its length behind the first, and its front. */
  function Seen(value: bytes): bytes {
    if |value| < PREFIX then value else (Rest(|value| - PREFIX) + value)[..PREFIX]
  }

  lemma SeenRead(value: bytes, tail: bytes)
    ensures ShortStr(Str(value) + tail).Some? && ShortStr(Str(value) + tail).value.0 == Seen(value)
  {
    if |value| < PREFIX {
      ShortStrAgrees(value, tail);
    } else {
      hide Rest;
      var b := Str(value) + tail;
      assert b == [PREFIX] + (Rest(|value| - PREFIX) + value + tail);
      assert b[1..1 + PREFIX] == (Rest(|value| - PREFIX) + value)[..PREFIX];
    }
  }

  /** One header of a short name, and what follows it. */
  lemma StatusOfFirst(h: Header, rest: bytes)
    requires |h.name| < PREFIX && (h.name == STATUS || |h.value| < PREFIX)
    ensures Status(Literal(h) + rest) == if h.name == STATUS then Int16(Atoi(Seen(h.value))) else Status(rest)
  {
    var b := Literal(h) + rest;
    hide Str, ShortStr, Atoi, Seen;
    assert b[1..] == Str(h.name) + (Str(h.value) + rest);
    ShortStrAgrees(h.name, Str(h.value) + rest);
    SeenRead(h.value, rest);
    if h.name != STATUS {
      ShortStrAgrees(h.value, rest);
    }
  }

  /** Whatever comes before a status of any length, as long as it is short, and whatever comes after it. */
  lemma {:induction false} StatusReads(before: seq<Header>, value: bytes, after: seq<Header>)
    requires forall i :: 0 <= i < |before| ==> Short(before[i]) && before[i].name != STATUS
    ensures Status(Block(before + [Header(STATUS, value)] + after)) == Int16(Atoi(Seen(value)))
    decreases |before|
  {
    var hs := before + [Header(STATUS, value)] + after;
    StatusOfFirst(hs[0], Block(hs[1..]));
    if before != [] {
      assert hs[1..] == before[1..] + [Header(STATUS, value)] + after;
      StatusReads(before[1..], value, after);
    }
  }

  /** Three digits, the first not zero, and no fourth. */
  predicate ThreeDigits(value: bytes) {
    |value| > 3 && IsDigit(value[0]) && value[0] != 48 && IsDigit(value[1]) && IsDigit(value[2]) && !IsDigit(value[3])
  }

  function Number(value: bytes): nat
    requires ThreeDigits(value)
  {
    100 * (value[0] - 48) as nat + 10 * (value[1] - 48) as nat + (value[2] - 48) as nat
  }

  lemma DigitsStop(s: bytes, acc: nat)
    requires ThreeDigits(s)
    ensures Digits(s, acc) == 1000 * acc + Number(s)
  {
    var s1 := s[1..];
    var s2 := s1[1..];
    var s3 := s2[1..];
    assert s1[0] == s[1] && s2[0] == s[2] && s3[0] == s[3];
    var a1 := 10 * acc + (s[0] - 48) as nat;
    var a2 := 10 * a1 + (s[1] - 48) as nat;
    assert Digits(s, acc) == Digits(s1, a1) == Digits(s2, a2) == Digits(s3, 10 * a2 + (s[2] - 48) as nat);
  }

  /** The byte of the length that is taken for the first of the value. */
  lemma {:induction false} SeenStarts(value: bytes)
    requires ThreeDigits(value) && |value| >= PREFIX
    ensures var seen := Seen(value);
            var n := |value| - PREFIX;
            seen != [] && if n < 128 then seen[0] == n && ThreeDigits(seen[1..]) && Number(seen[1..]) == Number(value) else seen[0] >= 128
  {
    var n := |value| - PREFIX;
    if n < 128 {
      assert Rest(n) == [n];
      assert forall i :: 0 <= i < 4 ==> Seen(value)[1..][i] == value[i];
    }
  }

  /** The lengths of a long status that are read right all the same: behind the prefix they leave a blank, a plus sign
      or the digit zero. */
  const HARMLESS: set<nat> := {9, 10, 11, 12, 13, 32, 43, 48}

  /** A three-digit status that is too long for the prefix is read right if and only if its length's second byte means
      nothing in front of a number. */
  lemma LongStatusIff(before: seq<Header>, value: bytes, after: seq<Header>)
    requires forall i :: 0 <= i < |before| ==> Short(before[i]) && before[i].name != STATUS
    requires ThreeDigits(value) && |value| >= PREFIX
    ensures Status(Block(before + [Header(STATUS, value)] + after)) == Number(value) <==> |value| - PREFIX in HARMLESS
    ensures Int16(Atoi(value)) == Number(value)
  {
    hide Seen, Status, Block, Digits, Number, Int16, Atoi, ThreeDigits;
    StatusReads(before, value, after);
    SeenIff(value);
  }

  lemma SeenIff(value: bytes)
    requires ThreeDigits(value) && |value| >= PREFIX
    ensures Int16(Atoi(Seen(value))) == Number(value) <==> |value| - PREFIX in HARMLESS
    ensures Int16(Atoi(value)) == Number(value)
  {
    hide Seen, Digits, Number, Int16, Atoi, ThreeDigits, Behind;
    var seen, n, m := Seen(value), |value| - PREFIX, Number(value);
    SeenStarts(value);
    AtoiStops(value);
    ReadRightIff(if n < 128 then n else 0, m);
    if n < 128 {
      AtoiBehind(seen, n);
    } else {
      AtoiOfNothing(seen);
    }
  }

  /** Three digits behind a byte. */
  function Behind(n: byte, m: nat): int {
    if IsBlankByte(n) || n == 43 then m else if n == 45 then 0 - m else if IsDigit(n) then 1000 * (n - 48) + m else 0
  }

  lemma ReadRightIff(n: byte, m: nat)
    requires 100 <= m < 1000
    ensures Int16(Behind(n, m)) == m <==> n in HARMLESS
    ensures Int16(m) == m && Int16(0) != m
  {
  }

  lemma AtoiStops(value: bytes)
    requires ThreeDigits(value)
    ensures Atoi(value) == Number(value) && 100 <= Number(value) < 1000
  {
    DigitsStop(value, 0);
  }

  lemma AtoiOfNothing(seen: bytes)
    requires seen != [] && seen[0] >= 128
    ensures Atoi(seen) == 0
  {
  }

  lemma AtoiBehind(seen: bytes, n: byte)
    requires seen != [] && seen[0] == n < 128 && ThreeDigits(seen[1..])
    ensures Atoi(seen) == Behind(n, Number(seen[1..]))
  {
    AtoiStops(seen[1..]);
    DigitsStop(seen[1..], 0);
    if IsDigit(n) {
      DigitsStop(seen[1..], (n - 48) as nat);
    }
  }

  /** For one: at 127 bytes the second length byte is zero, and so is the status. */
  lemma LongStatusReadsZero(value: bytes)
    requires |value| == PREFIX
    ensures Status(Block([Header(STATUS, value)])) == 0
    ensures StatusOf([Header(STATUS, value)]) == Int16(Atoi(value))
  {
    StatusReads([], value, []);
    assert [] + [Header(STATUS, value)] + [] == [Header(STATUS, value)];
    assert Seen(value)[0] == 0;
  }
}
