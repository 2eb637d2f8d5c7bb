/** WebSocket framing and reassembly in components/tailscale/ts2021_upgrade.cpp, sections 5.2 and 5.3 of RFC 6455. */
module WebSocket {
  import opened Bytes

  const PAYLOAD_BUFFER: nat := 8192     // g_ws_payload_buffer, also the scratch space for reads

  /** Big-endian in `width` bytes. */
  function Be(n: nat, width: nat): (r: bytes)
    ensures |r| == width
  {
    if width == 0 then [] else Be(n / 256, width - 1) + [n % 256]
  }

  lemma {:induction false} BeRoundTrip(n: nat, width: nat)
    requires n < Pow256(width)
    ensures FromBe(Be(n, width)) == n
  {
    if width > 0 {
      BeRoundTrip(n / 256, width - 1);
      assert Be(n, width)[..width - 1] == Be(n / 256, width - 1);
    }
  }

  function Pow256(n: nat): nat { if n == 0 then 1 else 256 * Pow256(n - 1) }

  lemma Pow256Of8()
    ensures Pow256(2) == TWO16 && Pow256(8) == TWO64
  {
    assert Pow256(4) == TWO32;
    assert Pow256(6) == TWO32 * TWO16;
  }

  function Masked(data: bytes, mask: bytes): (r: bytes)
    requires |mask| == 4
    ensures |r| == |data|
  {
    seq(|data|, i requires 0 <= i < |data| => Xor(data[i], mask[i % 4]))
  }

  lemma MaskingTwice(data: bytes, mask: bytes)
    requires |mask| == 4
    ensures Masked(Masked(data, mask), mask) == data
  {
    forall i | 0 <= i < |data| ensures Masked(Masked(data, mask), mask)[i] == data[i] {
      XorCancels(data[i], mask[i % 4]);
    }
  }

  /** The length byte, with the mask bit if there is a mask, and the extended length it announces. */
  function LengthField(n: nat, masked: bool): bytes {
    var bit := if masked then 128 else 0;
    if n < 126 then [bit + n] else if n < TWO16 then [bit + 126] + Be(n, 2) else [bit + 127] + Be(n, 8)
  }

  /** A client masks its frames and a server does not (section 5.1 of RFC 6455). */
  predicate GoodMask(mask: bytes) { |mask| == 4 || mask == [] }

  function Body(payload: bytes, mask: bytes): (r: bytes)
    requires GoodMask(mask)
    ensures |r| == |payload|
  {
    if mask == [] then payload else Masked(payload, mask)
  }

  /** A final frame, masked or not. */
  function Frame(payload: bytes, mask: bytes, binary: bool): bytes
    requires GoodMask(mask)
  {
    [if binary then 0x82 else 0x81] + LengthField(|payload|, mask != []) + mask + Body(payload, mask)
  }

  datatype Header = Header(opcode: nat, masked: bool, len: nat, size: nat)

  /** The header at the front of the data, once all of it is there. */
  function ParseHeader(d: bytes): Option<Header> {
    if |d| < 2 then None
    else
      var masked := d[1] >= 128;
      var extra := if masked then 4 else 0;
      if d[1] % 128 == 126 then
        if |d| < 4 then None else Some(Header(d[0] % 16, masked, FromBe(d[2..4]), 4 + extra))
      else if d[1] % 128 == 127 then
        if |d| < 10 then None else Some(Header(d[0] % 16, masked, FromBe(d[2..10]), 10 + extra))
      else Some(Header(d[0] % 16, masked, d[1] % 128, 2 + extra))
  }

  /** The payload and how many bytes it took; nothing is taken of a frame that is incomplete or too large.  The size of
      a whole frame is counted in 64 bits. */
  function Decode(d: bytes): (r: (bytes, nat))
    ensures r.1 <= |d| && (r.1 == 0 ==> r.0 == [])
  {
    match ParseHeader(d)
    case None => ([], 0)
    case Some(h) =>
      var whole := (h.size + h.len) % TWO64;
      if |d| < whole then ([], 0)
      else if h.opcode == 8 then ([], whole)
      else if h.len > PAYLOAD_BUFFER then ([], 0)
      else
        var body := d[h.size..h.size + h.len];
        (if h.masked then Masked(body, d[h.size - 4..h.size]) else body, h.size + h.len)
  }

  lemma HeaderParses(first: byte, n: nat, masked: bool, rest: bytes)
    requires n < TWO64
    ensures var w := |LengthField(n, masked)|;
            ParseHeader([first] + LengthField(n, masked) + rest)
            == Some(Header(first % 16, masked, n, 1 + w + if masked then 4 else 0))
  {
    var w := |LengthField(n, masked)|;
    var d := [first] + LengthField(n, masked) + rest;
    Pow256Of8();
    if n >= 126 {
      BeRoundTrip(n, w - 1);
      assert d[2..w + 1] == Be(n, w - 1);
    }
  }

  lemma HeaderOfFrame(payload: bytes, mask: bytes, binary: bool, tail: bytes)
    requires GoodMask(mask) && |payload| < TWO64
    ensures var f := Frame(payload, mask, binary);
            var h := 1 + |LengthField(|payload|, mask != [])| + |mask|;
            && |f| == h + |payload|
            && ParseHeader(f + tail) == Some(Header(if binary then 2 else 1, mask != [], |payload|, h))
            && (f + tail)[h - |mask|..h] == mask && (f + tail)[h..h + |payload|] == Body(payload, mask)
  {
    hide ParseHeader, LengthField, Body;
    var first: byte := if binary then 0x82 else 0x81;
    var front := [first] + LengthField(|payload|, mask != []);
    HeaderParses(first, |payload|, mask != [], mask + Body(payload, mask) + tail);
    assert Frame(payload, mask, binary) + tail == front + (mask + Body(payload, mask) + tail);
  }

  /** Decoding undoes encoding, takes the whole frame and ignores what follows: for every payload up to the
      buffer size, masked or not.  A longer frame is never taken, whatever follows it. */
  lemma DecodeOfFrame(payload: bytes, mask: bytes, binary: bool, tail: bytes)
    requires GoodMask(mask) && |payload| < TWO64
    ensures var f := Frame(payload, mask, binary);
            Decode(f + tail) == if |payload| <= PAYLOAD_BUFFER then (payload, |f|) else ([], 0)
  {
    hide Frame, ParseHeader, Masked;
    HeaderOfFrame(payload, mask, binary, tail);
    if mask != [] {
      MaskingTwice(payload, mask);
    }
  }

  /** Examples of section 5.7 of RFC 6455: "Hello" in a masked and in an unmasked text frame. */
  lemma FrameExamples()
    ensures Frame([0x48, 0x65, 0x6c, 0x6c, 0x6f], [0x37, 0xfa, 0x21, 0x3d], false)
            == [0x81, 0x85, 0x37, 0xfa, 0x21, 0x3d, 0x7f, 0x9f, 0x4d, 0x51, 0x58]
    ensures Frame([0x48, 0x65, 0x6c, 0x6c, 0x6f], [], false) == [0x81, 0x05, 0x48, 0x65, 0x6c, 0x6c, 0x6f]
  {
    var m := Masked([0x48, 0x65, 0x6c, 0x6c, 0x6f], [0x37, 0xfa, 0x21, 0x3d]);
    assert m == [0x7f, 0x9f, 0x4d, 0x51, 0x58] by { HelloMasked(); }
  }

  lemma HelloMasked()
    ensures Masked([0x48, 0x65, 0x6c, 0x6c, 0x6f], [0x37, 0xfa, 0x21, 0x3d]) == [0x7f, 0x9f, 0x4d, 0x51, 0x58]
  {
    hide Xor;
    HelloFirst();
    HelloSecond();
    HelloThird();
    HelloFourth();
    HelloFifth();
  }

  lemma HelloFirst() ensures Xor(0x48, 0x37) == 0x7f { hide Xor; BitByBit(0x48, 0x37); }
  lemma HelloSecond() ensures Xor(0x65, 0xfa) == 0x9f { hide Xor; BitByBit(0x65, 0xfa); }
  lemma HelloThird() ensures Xor(0x6c, 0x21) == 0x4d { hide Xor; BitByBit(0x6c, 0x21); }
  lemma HelloFourth() ensures Xor(0x6c, 0x3d) == 0x51 { hide Xor; BitByBit(0x6c, 0x3d); }
  lemma HelloFifth() ensures Xor(0x6f, 0x37) == 0x58 { hide Xor; BitByBit(0x6f, 0x37); }

  function BitOf(x: nat, y: nat): nat { if x % 2 == y % 2 then 0 else 1 }

  lemma BitByBit(x: byte, y: byte)
    ensures Xor(x, y) as int
            == BitOf(x, y) + 2 * BitOf(x / 2, y / 2) + 4 * BitOf(x / 4, y / 4) + 8 * BitOf(x / 8, y / 8)
               + 16 * BitOf(x / 16, y / 16) + 32 * BitOf(x / 32, y / 32) + 64 * BitOf(x / 64, y / 64) + 128 * BitOf(x / 128, y / 128)
  {
    hide XorBits, BitOf;
    FourBits(x, y, 4);
    FourBits(x / 16, y / 16, 0);
    NoBits();
    Sixteenths(x);
    Sixteenths(y);
  }

  lemma Sixteenths(x: byte)
    ensures x / 16 / 2 == x / 32 && x / 16 / 4 == x / 64 && x / 16 / 8 == x / 128
  {
  }

  lemma FourBits(x: nat, y: nat, width: nat)
    requires x < 256 && y < 256
    ensures XorBits(x, y, width + 4) == BitOf(x, y) + 2 * BitOf(x / 2, y / 2) + 4 * BitOf(x / 4, y / 4) + 8 * BitOf(x / 8, y / 8)
                                        + 16 * XorBits(x / 16, y / 16, width)
  {
    hide XorBits, BitOf;
    OneBit(x, y, x / 2, y / 2, width + 3);
    OneBit(x / 2, y / 2, x / 4, y / 4, width + 2);
    OneBit(x / 4, y / 4, x / 8, y / 8, width + 1);
    OneBit(x / 8, y / 8, x / 16, y / 16, width);
  }

  lemma NoBits()
    ensures forall a, b :: XorBits(a, b, 0) == 0
  {
  }

  lemma OneBit(x: nat, y: nat, half: nat, other: nat, width: nat)
    requires half == x / 2 && other == y / 2
    ensures XorBits(x, y, width + 1) == BitOf(x, y) + 2 * XorBits(half, other, width)
  {
  }

  /** The longer lengths: 126 and sixteen bits, 127 and sixty-four, each with the highest byte first. */
  lemma LongLengths(n: nat, masked: bool)
    requires 126 <= n < TWO64
    ensures var f := LengthField(n, masked);
            && (n < TWO16 ==> |f| == 3 && f[0] % 128 == 126 && 256 * f[1] as nat + f[2] as nat == n)
            && (n >= TWO16 ==> |f| == 9 && f[0] % 128 == 127 && FromBe(f[1..]) == n)
            && (f[0] >= 128 <==> masked)
  {
    Pow256Of8();
    if n < TWO16 {
      assert Be(n, 2) == Be(n / 256, 1) + [n % 256] && Be(n / 256, 1) == [n / 256 % 256];
    } else {
      BeRoundTrip(n, 8);
    }
  }

  /** No proper prefix of a frame is taken. */
  lemma PrefixWaits(payload: bytes, mask: bytes, binary: bool, k: nat)
    requires GoodMask(mask) && |payload| < TWO64 && k < |Frame(payload, mask, binary)|
    ensures Decode(Frame(payload, mask, binary)[..k]) == ([], 0)
  {
    var f := Frame(payload, mask, binary);
    HeaderOfFrame(payload, mask, binary, []);
    assert f + [] == f;
    hide Frame, LengthField, Body, Masked;
    var d := f[..k];
    if ParseHeader(d).Some? {
      assert d[2..] == f[2..k];
      assert k >= 4 ==> d[2..4] == f[2..4];
      assert k >= 10 ==> d[2..10] == f[2..10];
    }
  }

  /** The read loop: frames already buffered come first; otherwise one more read is appended and tried again.
      An empty read stands for a timeout, an error or a closed connection. */
  datatype ReadResult = ReadResult(ok: bool, out: bytes, buffer: bytes, incoming: seq<bytes>)

  function ReadFrame(buffer: bytes, incoming: seq<bytes>): (r: ReadResult)
    ensures r.ok ==> r.out != []
    decreases |incoming|
  {
    var (payload, consumed) := Decode(buffer);
    if consumed > 0 then ReadResult(payload != [], payload, buffer[consumed..], incoming)
    else if incoming == [] then ReadResult(false, [], buffer, [])
    else if incoming[0] == [] then ReadResult(false, [], buffer, incoming[1..])
    else ReadFrame(buffer + incoming[0], incoming[1..])
  }

  method EncodeFrame(data: bytes, mask: bytes, binary: bool) returns (frame: bytes)
    requires |mask| == 4 && |data| < TWO64
    ensures frame == Frame(data, mask, binary)
  {
    hide Masked, LengthField;
    frame := [if binary then 0x82 else 0x81];
    var field := EncodeLength(|data|);
    frame := frame + field;
    var body := MaskBody(data, mask);
    frame := frame + body;
  }

  method EncodeLength(len: nat) returns (field: bytes)
    requires len < TWO64
    ensures field == LengthField(len, true)
  {
    if len < 126 {
      field := [0x80 + len];
    } else if len < 65536 {
      field := [0x80 + 126, len / 256 % 256, len % 256];
      assert Be(len, 2) == Be(len / 256, 1) + [len % 256] == [len / 256 % 256, len % 256];
    } else {
      field := BigEndian8(len);
      field := [0x80 + 127] + field;
    }
  }

  method MaskBody(data: bytes, mask: bytes) returns (body: bytes)
    requires |mask| == 4
    ensures body == mask + Masked(data, mask)
  {
    body := [];
    var i := 0;
    while i < 4
      invariant i <= 4 && body == mask[..i]
    {
      body := body + [mask[i]];
      i := i + 1;
    }
    i := 0;
    while i < |data|
      invariant i <= |data| && body == mask + Masked(data, mask)[..i]
    {
      body := body + [Xor(data[i], mask[i % 4])];
      i := i + 1;
    }
    assert Masked(data, mask)[..i] == Masked(data, mask);
  }

  /** n >> (8 * k) */
  function ShiftBytes(n: nat, k: nat): nat { if k == 0 then n else ShiftBytes(n / 256, k - 1) }

  lemma {:induction false} ShiftSteps(n: nat, k: nat)
    ensures ShiftBytes(n, k + 1) == ShiftBytes(n, k) / 256
  {
    if k > 0 {
      ShiftSteps(n / 256, k - 1);
    }
  }

  /** The shifts from seven bytes down to none. */
  method BigEndian8(n: nat) returns (field: bytes)
    ensures field == Be(n, 8)
  {
    field := [];
    var i := 8;
    while i > 0
      invariant i <= 8 && field == Be(ShiftBytes(n, i), 8 - i)
    {
      i := i - 1;
      ShiftSteps(n, i);
      field := field + [ShiftBytes(n, i) % 256];
    }
  }
}
