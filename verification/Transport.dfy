/** Encrypted records over WebSocket frames: components/tailscale/ts2021_transport.cpp on top of the channel of
    components/tailscale/ts2021_upgrade.cpp. */
module Transport {
  import opened Bytes
  import opened NoiseBase
  import opened CipherState
  import opened WebSocket

  const RECORD: byte := 4      // msgTypeRecord

  // What one side puts on the wire.

  /** [type][length][ciphertext], the length in sixteen bits. */
  function Record(ct: bytes): bytes { [RECORD] + Be16(|ct|) + ct }

  /** Byte by byte: type 4, the higher byte of the length, the lower one. */
  lemma RecordBytes(ct: bytes)
    requires |ct| < TWO16
    ensures var r := Record(ct);
            |r| == 3 + |ct| && r[0] == 4 && |ct| == 256 * r[1] as nat + r[2] as nat && r[3..] == ct
  {
  }

  /** send_plaintext's ciphertext: the buffer is exactly the plaintext and its MAC. */
  function SealRecord(a: Aead, c: Cipher, p: bytes): Result<(Cipher, bytes)> {
    Seal(a, c, [], p, |p| + a.macLen)
  }

  /** The longest payload whose frame the other side's buffer takes: 8173 with a 16-byte MAC. */
  function MaxPayload(a: Aead, c: Cipher): int { PAYLOAD_BUFFER - 3 - if c.hasKey then a.macLen else 0 }

  datatype Sent = Sent(payload: bytes, mask: bytes)

  predicate Sendable(s: Sent) { |s.payload| > 0 && GoodMask(s.mask) }

  /** The bytes a run of sends leaves on the wire, if none of them fails. */
  function Wire(a: Aead, c: Cipher, sent: seq<Sent>): Option<bytes>
    requires forall i :: 0 <= i < |sent| ==> Sendable(sent[i])
    decreases |sent|
  {
    if sent == [] then Some([])
    else
      assert Sendable(sent[0]);
      match SealRecord(a, c, sent[0].payload)
      case Err(_) => None
      case Ok(v) =>
        match Wire(a, v.0, sent[1..])
        case None => None
        case Some(rest) => Some(Frame(Record(v.1), sent[0].mask, true) + rest)
  }

  // What the other side makes of it.

  /** A message off the channel: the record's plaintext and the next cipher state, or an error. */
  function OpenRecord(a: Aead, c: Cipher, framed: bytes): Option<(Cipher, bytes)> {
    if |framed| < 3 || framed[0] != RECORD then None
    else
      var len := FromBe16(framed[1..]);
      if |framed| < 3 + len then None
      else match Open(a, c, [], framed[3..3 + len])
        case Err(_) => None
        case Ok(v) => Some(v)
  }

  /** Sealing never yields more than sixteen bits can count, so the length field is exact. */
  lemma RecordOpens(a: Aead, c: Cipher, p: bytes)
    requires LawfulAead(a) && SealRecord(a, c, p).Ok?
    ensures var (c', ct) := SealRecord(a, c, p).value;
            |ct| < TWO16 && |ct| == |p| + (if c.hasKey then a.macLen else 0) && OpenRecord(a, c, Record(ct)) == Some((c', p))
  {
    var (c', ct) := SealRecord(a, c, p).value;
    SealThenOpen(a, c, [], p, |p| + a.macLen);
    assert Record(ct)[1..][..2] == Be16(|ct|);
    Be16RoundTrip(|ct|);
    assert Record(ct)[3..3 + |ct|] == ct;
  }

  /** One receive_plaintext call on a channel that is up: what it returns and what it leaves behind. */
  datatype Received = Received(ok: bool, out: bytes, c: Cipher, failed: bool, buffer: bytes, incoming: seq<bytes>)

  function Receive(a: Aead, c: Cipher, buffer: bytes, incoming: seq<bytes>): Received {
    var r := ReadFrame(buffer, incoming);
    if !r.ok then Received(false, [], c, false, r.buffer, r.incoming)
    else match OpenRecord(a, c, r.out)
      case None => Received(false, [], c, true, r.buffer, r.incoming)
      case Some(v) => Received(true, v.1, v.0, false, r.buffer, r.incoming)
  }

  function BytesLeft(buffer: bytes, incoming: seq<bytes>): nat { |buffer| + |Concat(incoming)| }

  /** Everything successive calls deliver, until a record cannot be opened or there is nothing more to come.  A call that
      returns nothing, as after a read that timed out, is made again. */
  function Deliver(a: Aead, c: Cipher, buffer: bytes, incoming: seq<bytes>): seq<bytes>
    decreases BytesLeft(buffer, incoming), |incoming|
  {
    ReadShrinks(buffer, incoming);
    var r := Receive(a, c, buffer, incoming);
    if r.ok then [r.out] + Deliver(a, r.c, r.buffer, r.incoming)
    else if r.failed || (BytesLeft(r.buffer, r.incoming) == BytesLeft(buffer, incoming) && |r.incoming| == |incoming|) then []
    else Deliver(a, c, r.buffer, r.incoming)
  }

  lemma {:induction false} ReadShrinks(buffer: bytes, incoming: seq<bytes>)
    ensures var r := ReadFrame(buffer, incoming);
            && BytesLeft(r.buffer, r.incoming) <= BytesLeft(buffer, incoming) && |r.incoming| <= |incoming|
            && (r.ok ==> BytesLeft(r.buffer, r.incoming) < BytesLeft(buffer, incoming))
    decreases |incoming|
  {
    if Decode(buffer).1 == 0 && incoming != [] && incoming[0] != [] {
      ReadShrinks(buffer + incoming[0], incoming[1..]);
    }
  }

  /** What a read does with a frame at the front of the buffered and the coming bytes: it takes it if it is small enough,
      or finds an empty read first and leaves the bytes as they are. */
  predicate ReadsFront(payload: bytes, rest: bytes, buffer: bytes, incoming: seq<bytes>, r: ReadResult) {
    if r.ok then |payload| <= PAYLOAD_BUFFER && r.out == payload && r.buffer + Concat(r.incoming) == rest
    else && r.buffer + Concat(r.incoming) == buffer + Concat(incoming) && |r.incoming| <= |incoming|
         && (|payload| <= PAYLOAD_BUFFER ==> |r.incoming| < |incoming|)
  }

  /** However the bytes are cut. */
  lemma {:induction false} ReadWholeFrame(payload: bytes, mask: bytes, rest: bytes, buffer: bytes, incoming: seq<bytes>)
    requires GoodMask(mask) && 0 < |payload| < TWO64
    requires buffer + Concat(incoming) == Frame(payload, mask, true) + rest
    ensures ReadsFront(payload, rest, buffer, incoming, ReadFrame(buffer, incoming))
    decreases |incoming|
  {
    hide Frame, Decode;
    FrontDecodes(payload, mask, rest, buffer, incoming);
    if Decode(buffer).1 == 0 && incoming != [] {
      assert buffer + Concat(incoming) == (buffer + incoming[0]) + Concat(incoming[1..]);
      if incoming[0] != [] {
        ReadWholeFrame(payload, mask, rest, buffer + incoming[0], incoming[1..]);
      }
    }
  }

  /** What is buffered is decoded once it holds the whole frame, if it is small enough. */
  lemma FrontDecodes(payload: bytes, mask: bytes, rest: bytes, buffer: bytes, incoming: seq<bytes>)
    requires GoodMask(mask) && 0 < |payload| < TWO64
    requires buffer + Concat(incoming) == Frame(payload, mask, true) + rest
    ensures if Decode(buffer).1 == 0 then Decode(buffer).0 == [] && (incoming == [] ==> |payload| > PAYLOAD_BUFFER)
            else && |payload| <= PAYLOAD_BUFFER && Decode(buffer).0 == payload
                 && buffer[Decode(buffer).1..] + Concat(incoming) == rest
  {
    hide Frame, Decode;
    var f := Frame(payload, mask, true);
    if |buffer| >= |f| {
      var tail := buffer[|f|..];
      assert buffer == f + tail by {
        assert (buffer + Concat(incoming))[..|f|] == f;
      }
      DecodeOfFrame(payload, mask, true, tail);
      FrameHolds(payload, mask);
      assert (f + tail + Concat(incoming))[|f|..] == tail + Concat(incoming);
    } else {
      assert buffer == f[..|buffer|] by {
        assert (buffer + Concat(incoming))[..|buffer|] == (f + rest)[..|buffer|];
      }
      PrefixWaits(payload, mask, true, |buffer|);
    }
  }

  lemma FrameHolds(payload: bytes, mask: bytes)
    requires GoodMask(mask)
    ensures |Frame(payload, mask, true)| > 0
  {
  }

  lemma {:induction false} NothingDelivered(a: Aead, c: Cipher, buffer: bytes, incoming: seq<bytes>)
    requires buffer + Concat(incoming) == []
    ensures Deliver(a, c, buffer, incoming) == []
    decreases |incoming|
  {
    assert buffer == [] && Decode(buffer) == ([], 0);
    if incoming != [] {
      ConcatHead(incoming);
      ConcatUnfolds(incoming);
      NothingDelivered(a, c, [], incoming[1..]);
    }
  }

  /** Behind a frame that is too large nothing is ever delivered. */
  lemma {:induction false} ReadStuck(a: Aead, c: Cipher, payload: bytes, mask: bytes, rest: bytes, buffer: bytes, incoming: seq<bytes>)
    requires GoodMask(mask) && PAYLOAD_BUFFER < |payload| < TWO64
    requires buffer + Concat(incoming) == Frame(payload, mask, true) + rest
    ensures Deliver(a, c, buffer, incoming) == []
    decreases |incoming|
  {
    hide ReadFrame, Frame;
    ReadWholeFrame(payload, mask, rest, buffer, incoming);
    var r := ReadFrame(buffer, incoming);
    if |r.incoming| < |incoming| {
      ReadStuck(a, c, payload, mask, rest, r.buffer, r.incoming);
    }
  }

  function Payloads(sent: seq<Sent>): seq<bytes> { seq(|sent|, i requires 0 <= i < |sent| => sent[i].payload) }

  predicate AllSendable(sent: seq<Sent>) { forall i :: 0 <= i < |sent| ==> Sendable(sent[i]) }

  /** How many of the sends come before the first that is too long. */
  function Fitting(max: int, sent: seq<Sent>): (n: nat)
    ensures n <= |sent|
  {
    if sent == [] || |sent[0].payload| > max then 0 else 1 + Fitting(max, sent[1..])
  }

  /** With the ciphers in step, any run of sends, cut into any pieces and with any pauses on the way, is delivered as the
      same payloads in the same order up to the first that is too long for the other side's buffer. */
  lemma {:induction false} DeliveredExactly(a: Aead, c: Cipher, sent: seq<Sent>, buffer: bytes, incoming: seq<bytes>)
    requires LawfulAead(a) && AllSendable(sent)
    requires Wire(a, c, sent) == Some(buffer + Concat(incoming))
    ensures Deliver(a, c, buffer, incoming) == Payloads(sent[..Fitting(MaxPayload(a, c), sent)])
    decreases |sent|, |incoming|
  {
    hide ReadFrame, OpenRecord, Frame, LawfulAead, Wire;
    if sent == [] {
      NothingSent(a, c);
      NothingDelivered(a, c, buffer, incoming);
    } else {
      var c', record, rest := FirstSent(a, c, sent);
      if |record| > PAYLOAD_BUFFER {
        ReadStuck(a, c, record, sent[0].mask, rest, buffer, incoming);
      } else {
        ReadWholeFrame(record, sent[0].mask, rest, buffer, incoming);
        var r := ReadFrame(buffer, incoming);
        if r.ok {
          DeliveredExactly(a, c', sent[1..], r.buffer, r.incoming);
          PayloadsUnfold(sent, Fitting(MaxPayload(a, c), sent[1..]));
        } else {
          DeliveredExactly(a, c, sent, r.buffer, r.incoming);
        }
      }
    }
  }

  lemma NothingSent(a: Aead, c: Cipher)
    ensures Wire(a, c, []) == Some([])
  {
  }

  lemma PayloadsUnfold(sent: seq<Sent>, n: nat)
    requires sent != [] && n <= |sent[1..]|
    ensures Payloads(sent[..n + 1]) == [sent[0].payload] + Payloads(sent[1..][..n])
  {
  }

  /** The first send: its record, what the other side makes of it, and what comes after it. */
  lemma FirstSent(a: Aead, c: Cipher, sent: seq<Sent>) returns (c': Cipher, record: bytes, rest: bytes)
    requires LawfulAead(a) && AllSendable(sent) && sent != [] && Wire(a, c, sent).Some?
    ensures GoodMask(sent[0].mask) && Wire(a, c, sent) == Some(Frame(record, sent[0].mask, true) + rest)
    ensures Wire(a, c', sent[1..]) == Some(rest) && MaxPayload(a, c') == MaxPayload(a, c)
    ensures OpenRecord(a, c, record) == Some((c', sent[0].payload)) && 0 < |record| < TWO64
    ensures |record| > PAYLOAD_BUFFER <==> |sent[0].payload| > MaxPayload(a, c)
  {
    hide OpenRecord, Frame, SealRecord;
    assert Sendable(sent[0]);
    RecordOpens(a, c, sent[0].payload);
    KeyStays(a, c, sent[0].payload);
    var v := SealRecord(a, c, sent[0].payload).value;
    c', record, rest := v.0, Record(v.1), Wire(a, v.0, sent[1..]).value;
  }

  lemma KeyStays(a: Aead, c: Cipher, p: bytes)
    requires SealRecord(a, c, p).Ok?
    ensures SealRecord(a, c, p).value.0.hasKey == c.hasKey
  {
  }

  lemma {:induction false} AllFit(max: int, sent: seq<Sent>)
    ensures Fitting(max, sent) == |sent| <==> forall i :: 0 <= i < |sent| ==> |sent[i].payload| <= max
  {
    if sent != [] {
      AllFit(max, sent[1..]);
      if forall i :: 0 <= i < |sent| ==> |sent[i].payload| <= max {
        assert forall i :: 0 <= i < |sent[1..]| ==> sent[1..][i] == sent[i + 1];
      } else if |sent[0].payload| <= max {
        var i :| 0 <= i < |sent| && |sent[i].payload| > max;
        assert sent[1..][i - 1] == sent[i];
      }
    }
  }

  /** Payloads of 1 to 8173 bytes all get through. */
  lemma EndToEnd(a: Aead, c: Cipher, sent: seq<Sent>, buffer: bytes, incoming: seq<bytes>)
    requires LawfulAead(a) && AllSendable(sent)
    requires forall i :: 0 <= i < |sent| ==> |sent[i].payload| <= MaxPayload(a, c)
    requires Wire(a, c, sent) == Some(buffer + Concat(incoming))
    ensures Deliver(a, c, buffer, incoming) == Payloads(sent)
  {
    hide Deliver, Wire, Payloads;
    DeliveredExactly(a, c, sent, buffer, incoming);
    AllFit(MaxPayload(a, c), sent);
    assert sent[..|sent|] == sent;
  }

  /** And only if none is longer. */
  lemma DeliveredIff(a: Aead, c: Cipher, sent: seq<Sent>, buffer: bytes, incoming: seq<bytes>)
    requires LawfulAead(a) && AllSendable(sent)
    requires Wire(a, c, sent) == Some(buffer + Concat(incoming))
    ensures Deliver(a, c, buffer, incoming) == Payloads(sent)
            <==> forall i :: 0 <= i < |sent| ==> |sent[i].payload| <= MaxPayload(a, c)
  {
    hide Deliver, Wire;
    var n := Fitting(MaxPayload(a, c), sent);
    DeliveredExactly(a, c, sent, buffer, incoming);
    AllFit(MaxPayload(a, c), sent);
    assert |Payloads(sent[..n])| == n && |Payloads(sent)| == |sent|;
    assert n == |sent| ==> sent[..n] == sent;
  }
}
