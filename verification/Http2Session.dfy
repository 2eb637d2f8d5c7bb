/** components/tailscale/http2_session.cpp as an object: what it reads, what it sends, and the two loops that collect
    a response. */
module Http2Session {
  import opened Bytes
  import opened JsonStream
  import opened Completion
  import Hpack
  import opened Http2
  import opened Http2Body
  import opened Http2Post

  /** The transport below: the messages to come, and whether each coming send succeeds. */
  class Link {
    var incoming: seq<bytes>
    var accepts: seq<bool>
    var attempted: bytes      // everything handed to a send

    constructor (incoming: seq<bytes>, accepts: seq<bool>)
      ensures this.incoming == incoming && this.accepts == accepts && attempted == []
    {
      this.incoming, this.accepts, attempted := incoming, accepts, [];
    }

    method Send(data: bytes) returns (ok: bool)
      modifies this`accepts, this`attempted
      ensures attempted == old(attempted) + data
      ensures (ok <==> Accepted(old(accepts), 0)) && accepts == Drop(old(accepts), 1)
    {
      ok := accepts != [] && accepts[0];
      accepts := if accepts == [] then [] else accepts[1..];
      attempted := attempted + data;
    }

    method Receive() returns (message: bytes)
      modifies this`incoming
      ensures if old(incoming) == [] then message == [] && incoming == []
              else message == old(incoming)[0] && incoming == old(incoming)[1..]
    {
      message := [];
      if incoming != [] {
        message := incoming[0];
        incoming := incoming[1..];
      }
    }
  }

  // Flow control.

  /** The updates owed for the payloads consumed: on the stream and on the connection, none for an empty one. */
  function Owed(stream: nat, payloads: seq<bytes>): seq<Frame>
    decreases |payloads|
  {
    if payloads == [] then []
    else Owed(stream, payloads[..|payloads| - 1]) + OwedFor(stream, |payloads[|payloads| - 1]|)
  }

  lemma OwedOfLast(stream: nat, payloads: seq<bytes>, last: bytes)
    ensures Owed(stream, payloads + [last]) == Owed(stream, payloads) + OwedFor(stream, |last|)
  {
    assert (payloads + [last])[..|payloads|] == payloads;
  }

  lemma UpdatesOfOwed(stream: nat, fs: seq<Frame>, n: nat)
    ensures Updates(fs + OwedFor(stream, n)) == Updates(fs) + OwedFor(stream, n)
  {
    if n == 0 {
      assert fs + [] == fs;
    } else {
      var a, b := WindowUpdate(stream, n), WindowUpdate(0, n);
      UpdatesOfLast(fs, a);
      UpdatesOfLast(fs + [a], b);
      assert fs + [a, b] == (fs + [a]) + [b];
    }
  }

  function Updates(fs: seq<Frame>): seq<Frame> {
    if fs == [] then []
    else
      var f := fs[|fs| - 1];
      Updates(fs[..|fs| - 1]) + if f.kind == WINDOW_UPDATE then [f] else []
  }

  function Increment(f: Frame): nat { if |f.payload| < 4 then 0 else FromBe32(f.payload) }

  function SumOn(stream: nat, fs: seq<Frame>): nat {
    if fs == [] then 0
    else
      var f := fs[|fs| - 1];
      SumOn(stream, fs[..|fs| - 1]) + if f.kind == WINDOW_UPDATE && f.stream == stream then Increment(f) else 0
  }

  function Total(payloads: seq<bytes>): nat {
    if payloads == [] then 0 else Total(payloads[..|payloads| - 1]) + |payloads[|payloads| - 1]|
  }

  lemma UpdatesOfLast(fs: seq<Frame>, f: Frame)
    ensures Updates(fs + [f]) == Updates(fs) + if f.kind == WINDOW_UPDATE then [f] else []
  {
    assert (fs + [f])[..|fs|] == fs;
  }

  lemma SumOfLast(stream: nat, fs: seq<Frame>, f: Frame)
    ensures SumOn(stream, fs + [f])
         == SumOn(stream, fs) + if f.kind == WINDOW_UPDATE && f.stream == stream then Increment(f) else 0
  {
    assert (fs + [f])[..|fs|] == fs;
  }

  lemma {:induction false} SumOfUpdates(stream: nat, fs: seq<Frame>)
    ensures SumOn(stream, Updates(fs)) == SumOn(stream, fs)
    decreases |fs|
  {
    if fs != [] {
      var f := fs[|fs| - 1];
      SumOfUpdates(stream, fs[..|fs| - 1]);
      if f.kind == WINDOW_UPDATE {
        SumOfLast(stream, Updates(fs[..|fs| - 1]), f);
      } else {
        assert Updates(fs) == Updates(fs[..|fs| - 1]);
      }
    }
  }

  predicate Counted(payloads: seq<bytes>) { forall i :: 0 <= i < |payloads| ==> |payloads[i]| < TWO32 }

  predicate NoneZero(fs: seq<Frame>) { forall i :: 0 <= i < |fs| ==> Increment(fs[i]) != 0 }

  lemma SumOfOwed(on: nat, stream: nat, fs: seq<Frame>, n: nat)
    requires stream != 0 && n < TWO32
    ensures SumOn(on, fs + OwedFor(stream, n)) == SumOn(on, fs) + if on in {stream, 0} then n else 0
    ensures NoneZero(OwedFor(stream, n))
  {
    if n == 0 {
      assert fs + [] == fs;
    } else {
      Be32RoundTrip(n);
      var a, b := WindowUpdate(stream, n), WindowUpdate(0, n);
      assert Increment(a) == n && Increment(b) == n;
      assert fs + OwedFor(stream, n) == (fs + [a]) + [b];
      hide Increment;
      SumOfLast(on, fs, a);
      SumOfLast(on, fs + [a], b);
    }
  }

  /** What is owed adds up, on the stream and on the connection, to the bytes consumed, and no increment is zero. */
  lemma {:induction false} OwedAddsUp(stream: nat, payloads: seq<bytes>)
    requires stream != 0 && Counted(payloads)
    ensures SumOn(stream, Owed(stream, payloads)) == Total(payloads) == SumOn(0, Owed(stream, payloads))
    ensures NoneZero(Owed(stream, payloads))
    decreases |payloads|
  {
    if payloads != [] {
      hide Increment, OwedFor;
      var n := |payloads| - 1;
      OwedAddsUp(stream, payloads[..n]);
      assert |payloads[n]| < TWO32;
      SumOfOwed(stream, stream, Owed(stream, payloads[..n]), |payloads[n]|);
      SumOfOwed(0, stream, Owed(stream, payloads[..n]), |payloads[n]|);
    }
  }

  // What was taken off the receive buffer.

  predicate IsFrame(raw: bytes) { WholeAtFront(raw) && |raw| == FrontSize(raw) }

  /** The payloads of the DATA frames among them that are for this stream, or for none. */
  function DataFor(stream: nat, raws: seq<bytes>): seq<bytes>
    requires forall i :: 0 <= i < |raws| ==> IsFrame(raws[i])
  {
    if raws == [] then []
    else
      assert IsFrame(raws[|raws| - 1]);
      var f := FrontFrame(raws[|raws| - 1]);
      DataFor(stream, raws[..|raws| - 1]) + if f.kind == DATA && f.stream in {stream, 0} then [f.payload] else []
  }

  lemma DataForLast(stream: nat, raws: seq<bytes>, raw: bytes)
    requires (forall i :: 0 <= i < |raws| ==> IsFrame(raws[i])) && IsFrame(raw)
    ensures var f := FrontFrame(raw);
            DataFor(stream, raws + [raw]) == DataFor(stream, raws) + if f.kind == DATA && f.stream in {stream, 0} then [f.payload] else []
  {
    assert (raws + [raw])[..|raws|] == raws;
  }

  /** The last status read from the HEADERS frames among them that are for this stream, or for none; 0 if there is none. */
  function StatusIn(stream: nat, raws: seq<bytes>): int
    requires forall i :: 0 <= i < |raws| ==> IsFrame(raws[i])
  {
    if raws == [] then 0
    else
      assert IsFrame(raws[|raws| - 1]);
      var f := FrontFrame(raws[|raws| - 1]);
      if f.kind == HEADERS && f.stream in {stream, 0} && Hpack.Status(f.payload) > 0 then Hpack.Status(f.payload)
      else StatusIn(stream, raws[..|raws| - 1])
  }

  lemma StatusLast(stream: nat, raws: seq<bytes>, raw: bytes)
    requires (forall i :: 0 <= i < |raws| ==> IsFrame(raws[i])) && IsFrame(raw)
    ensures var f := FrontFrame(raw);
            StatusIn(stream, raws + [raw]) == if f.kind == HEADERS && f.stream in {stream, 0} && Hpack.Status(f.payload) > 0
                                              then Hpack.Status(f.payload) else StatusIn(stream, raws)
  {
    assert (raws + [raw])[..|raws|] == raws;
  }

  lemma {:induction false} DataForCounted(stream: nat, raws: seq<bytes>)
    requires forall i :: 0 <= i < |raws| ==> IsFrame(raws[i])
    ensures Counted(DataFor(stream, raws))
    decreases |raws|
  {
    if raws != [] {
      assert IsFrame(raws[|raws| - 1]);
      DataForCounted(stream, raws[..|raws| - 1]);
    }
  }

  /** A run that sends exactly what is owed hands back, on the stream and on the connection, every byte of DATA it took. */
  lemma FlowConserved(stream: nat, raws: seq<bytes>, fs: seq<Frame>)
    requires stream != 0 && forall i :: 0 <= i < |raws| ==> IsFrame(raws[i])
    requires Updates(fs) == Owed(stream, DataFor(stream, raws))
    ensures SumOn(stream, fs) == Total(DataFor(stream, raws)) == SumOn(0, fs)
    ensures NoneZero(Updates(fs))
  {
    DataForCounted(stream, raws);
    OwedAddsUp(stream, DataFor(stream, raws));
    SumOfUpdates(stream, fs);
    SumOfUpdates(0, fs);
  }

  lemma {:induction false} WireLast(fs: seq<Frame>, f: Frame)
    ensures Http2.Wire(fs + [f]) == Http2.Wire(fs) + Serialise(f)
    decreases |fs|
  {
    if fs == [] {
      assert fs + [f] == [f] && [f][1..] == [];
    } else {
      assert (fs + [f])[1..] == fs[1..] + [f];
      WireLast(fs[1..], f);
    }
  }

  // Requests.

  function Ascii(s: string): bytes { seq(|s|, i requires 0 <= i < |s| => s[i] as int % 256) }

  function Decimal(n: nat): bytes { if n < 10 then [48 + n] else Decimal(n / 10) + [48 + n % 10] }

  function RequestHeaders(scheme: bytes, authority: bytes, path: bytes, size: nat): seq<Hpack.Header> {
    [Hpack.Header(Ascii(":method"), Ascii("POST")), Hpack.Header(Ascii(":scheme"), scheme),
     Hpack.Header(Ascii(":authority"), authority), Hpack.Header(Ascii(":path"), path),
     Hpack.Header(Ascii("content-type"), Ascii("application/json")),
     Hpack.Header(Ascii("content-length"), Decimal(size)), Hpack.Header(Ascii("accept"), Ascii("application/json"))]
  }

  /** The HEADERS and DATA frames of a post, the second one ending the stream. */
  function Request(stream: nat, scheme: bytes, authority: bytes, path: bytes, payload: bytes): seq<Frame> {
    [Frame(HEADERS, 4, stream, Hpack.Block(RequestHeaders(scheme, authority, path, |payload|))),
     Frame(DATA, 1, stream, payload)]
  }

  /** What a header of a list says. */
  function Find(hs: seq<Hpack.Header>, name: bytes): Option<bytes> {
    if hs == [] then None else if hs[0].name == name then Some(hs[0].value) else Find(hs[1..], name)
  }

  /** A number reads as itself. */
  lemma {:induction false} DecimalReads(n: nat)
    ensures Hpack.Digits(Decimal(n), 0) == n
  {
    DecimalBehind(n, [], 0);
    assert Decimal(n) + [] == Decimal(n);
  }

  function Tens(n: nat): nat { if n < 10 then 10 else 10 * Tens(n / 10) }

  lemma {:induction false} DecimalBehind(n: nat, tail: bytes, acc: nat)
    ensures Hpack.Digits(Decimal(n) + tail, acc) == Hpack.Digits(tail, acc * Tens(n) + n)
    decreases n
  {
    hide Hpack.Digits;
    var last: byte := 48 + n % 10;
    if n < 10 {
      OneDigit(n, tail, acc);
    } else {
      DecimalBehind(n / 10, [last] + tail, acc);
      assert Decimal(n) + tail == Decimal(n / 10) + ([last] + tail);
      OneDigit(n % 10, tail, acc * Tens(n / 10) + n / 10);
      TenTimes(acc, Tens(n / 10), n / 10, n % 10);
    }
  }

  lemma OneDigit(d: nat, tail: bytes, acc: nat)
    requires d < 10
    ensures Hpack.Digits([48 + d] + tail, acc) == Hpack.Digits(tail, 10 * acc + d)
  {
    assert ([48 + d] + tail)[1..] == tail;
  }

  lemma TenTimes(acc: nat, tens: nat, n: nat, d: nat)
    ensures 10 * (acc * tens + n) + d == acc * (10 * tens) + (10 * n + d)
  {
  }

  /** What a server reads in the request: POST, where to, and a JSON text of that many bytes. */
  lemma RequestReads(stream: nat, scheme: bytes, authority: bytes, path: bytes, payload: bytes)
    ensures var r := Request(stream, scheme, authority, path, payload);
            && |r| == 2 && r[0].kind == 1 && r[0].flags == 4 && r[1].kind == 0 && r[1].flags == 1
            && r[0].stream == r[1].stream == stream && r[1].payload == payload
            && Hpack.DecodeBlock(r[0].payload).Some?
            && var hs := Hpack.DecodeBlock(r[0].payload).value;
            && Find(hs, Ascii(":method")) == Some([80, 79, 83, 84]) && Find(hs, Ascii(":scheme")) == Some(scheme)
            && Find(hs, Ascii(":authority")) == Some(authority) && Find(hs, Ascii(":path")) == Some(path)
            && Find(hs, Ascii("content-length")).Some? && Hpack.Atoi(Find(hs, Ascii("content-length")).value) == |payload|
            && Find(hs, Ascii("content-type")) == Some(Ascii("application/json"))
  {
    hide Hpack.Block, Hpack.DecodeBlock, Decimal;
    Hpack.BlockRoundTrip(RequestHeaders(scheme, authority, path, |payload|));
    HeadersFound(scheme, authority, path, |payload|);
    DecimalReads(|payload|);
    DecimalPlain(|payload|);
  }

  lemma DecimalPlain(n: nat)
    ensures Hpack.Atoi(Decimal(n)) == Hpack.Digits(Decimal(n), 0)
  {
    DecimalDigit(n);
  }

  lemma {:induction false} DecimalDigit(n: nat)
    ensures Decimal(n) != [] && Hpack.IsDigit(Decimal(n)[0])
  {
    if n >= 10 {
      DecimalDigit(n / 10);
    }
  }

  lemma HeadersFound(scheme: bytes, authority: bytes, path: bytes, size: nat)
    ensures var hs := RequestHeaders(scheme, authority, path, size);
            && Find(hs, Ascii(":method")) == Some([80, 79, 83, 84]) && Find(hs, Ascii(":scheme")) == Some(scheme)
            && Find(hs, Ascii(":authority")) == Some(authority) && Find(hs, Ascii(":path")) == Some(path)
            && Find(hs, Ascii("content-length")) == Some(Decimal(size))
            && Find(hs, Ascii("content-type")) == Some(Ascii("application/json"))
  {
    hide Decimal, Find;
    var hs := RequestHeaders(scheme, authority, path, size);
    assert Ascii(":method")[1] == 109 && Ascii(":scheme")[1] == 115 && Ascii(":authority")[1] == 97 && Ascii(":path")[1] == 112;
    assert |Ascii("content-type")| == 12 && |Ascii("content-length")| == 14 && |Ascii(":method")| == 7 && |Ascii(":path")| == 5
           && |Ascii(":authority")| == 10 && |Ascii(":scheme")| == 7;
    assert Ascii("POST") == [80, 79, 83, 84];
    FindAt(hs, 0);
    FindAt(hs, 1);
    FindAt(hs, 2);
    FindAt(hs, 3);
    FindAt(hs, 4);
    FindAt(hs, 5);
  }

  lemma {:induction false} FindAt(hs: seq<Hpack.Header>, i: nat)
    requires i < |hs| && forall j :: 0 <= j < i ==> hs[j].name != hs[i].name
    ensures Find(hs, hs[i].name) == Some(hs[i].value)
    decreases i
  {
    if i > 0 {
      assert hs[0].name != hs[i].name && hs[1..][i - 1] == hs[i];
      FindAt(hs[1..], i - 1);
    }
  }

  /** No earlier frame had completed the body. */
  predicate StopsAtOnce(payloads: seq<bytes>, filter: bool) {
    forall k :: 0 <= k < |payloads| ==> !AbsorbAll(FRESH, payloads[..k], filter).complete
  }

  /** At most one payload more. */
  predicate Extends(before: seq<bytes>, after: seq<bytes>) {
    before == after || (after != [] && before == after[..|after| - 1])
  }

  lemma StopsStill(before: seq<bytes>, after: seq<bytes>, filter: bool)
    requires StopsAtOnce(before, filter) && Extends(before, after) && !AbsorbAll(FRESH, before, filter).complete
    ensures StopsAtOnce(after, filter)
  {
    hide AbsorbAll;
    assert forall k :: 0 <= k < |before| && |before| <= |after| ==> after[..k] == before[..k];
  }

  predicate EndsStream(raws: seq<bytes>)
    requires forall i :: 0 <= i < |raws| ==> IsFrame(raws[i])
  {
    raws != [] &&
    (assert IsFrame(raws[|raws| - 1]);
     var f := FrontFrame(raws[|raws| - 1]);
     f.flags % 2 == 1 && f.kind in {DATA, HEADERS})
  }

  class Http2Session {
    const link: Link
    const parser: JsonStreamParser
    const filtered: array<char>
    var recvBuffer: bytes
    var settingsAckSent: bool
    var settingsExchanged: bool
    var parsingJson: bool
    var jsonComplete: bool
    var filteredSize: nat
    var jsonBytesProcessed: nat
    var filterNodeOnly: bool
    ghost var erased: seq<bytes>      // frames taken off the buffer
    ghost var thrownAway: bool        // whether the buffer was ever cleared
    ghost var sent: seq<Frame>        // frames handed to a send

    ghost predicate Valid()
      reads this, link, parser, parser.fieldName
    {
      && parser.Valid() && filtered.Length == FILTERED_SIZE && filtered != parser.fieldName
      && (forall i :: 0 <= i < |erased| ==> IsFrame(erased[i]))
      && link.attempted == Http2.Wire(sent)
    }

    /** Every byte received or still to come, in order. */
    ghost function Ledger(): bytes
      reads this, link
    {
      Concat(erased) + (recvBuffer + Concat(link.incoming))
    }

    constructor (link: Link)
      requires link.attempted == []
      ensures Valid() && this.link == link && recvBuffer == [] && erased == [] && sent == [] && !thrownAway
      ensures fresh(parser) && fresh(parser.fieldName) && fresh(filtered)
    {
      this.link, recvBuffer, settingsAckSent, settingsExchanged := link, [], false, false;
      parsingJson, jsonComplete, filteredSize, jsonBytesProcessed, filterNodeOnly := false, false, 0, 0, false;
      erased, thrownAway, sent := [], false, [];
      parser := new JsonStreamParser();
      filtered := new char[FILTERED_SIZE];
    }

    method PullBytes() returns (ok: bool)
      modifies this`recvBuffer, link`incoming
      ensures Pulled(ok, recvBuffer, link.incoming) == Pull(old(recvBuffer), old(link.incoming))
    {
      if |recvBuffer| > MAX_RECV_BUFFER {
        return false;
      }
      ghost var nothing := link.incoming == [];
      var chunk := link.Receive();
      if chunk == [] {
        assert old(recvBuffer) + [] == old(recvBuffer);
        return false;
      }
      recvBuffer := recvBuffer + chunk;
      return true;
    }

    /** The loops that wait for a header, and for a payload. */
    method PullUntil(n: nat) returns (ok: bool)
      modifies this`recvBuffer, link`incoming
      ensures Pulled(ok, recvBuffer, link.incoming) == Fill(old(recvBuffer), old(link.incoming), n)
    {
      hide Pull;
      while |recvBuffer| < n
        invariant Fill(recvBuffer, link.incoming, n) == Fill(old(recvBuffer), old(link.incoming), n)
        decreases |link.incoming|
      {
        ghost var b, inc := recvBuffer, link.incoming;
        PullMoves(b, inc);
        ok := PullBytes();
        if !ok {
          return false;
        }
      }
      return true;
    }

    lemma PullMoves(b: bytes, inc: seq<bytes>)
      ensures Pull(b, inc).ok ==> |Pull(b, inc).incoming| < |inc|
    {
    }

    /** A frame and the size of its payload.  A DATA payload stays in the buffer and is not returned. */
    method ReadFrame() returns (ok: bool, frame: Frame, length: nat)
      requires Valid()
      modifies this`recvBuffer, this`erased, this`thrownAway, link`incoming
      ensures Valid() && (old(thrownAway) ==> thrownAway)
      ensures var r := ReadNext(old(recvBuffer), old(link.incoming));
              && ok == r.Got? && recvBuffer == r.buffer && link.incoming == r.incoming
              && (ok ==> frame == r.frame.(payload := if r.frame.kind == DATA then [] else r.frame.payload))
              && (ok ==> length == |r.frame.payload| && IsFrame(r.raw) && FrontFrame(r.raw) == r.frame)
              && (ok && frame.kind == DATA ==> erased == old(erased) && r.raw <= recvBuffer)
              && (ok && frame.kind != DATA ==> erased == old(erased) + [r.raw])
              && (!ok ==> erased == old(erased))
      ensures !thrownAway ==> Ledger() == old(Ledger()) && |old(recvBuffer)| <= 2 * MAX_FRAME_SIZE
    {
      hide FrontFrame, Fill, Pull;
      frame, length := Frame(0, 0, 0, []), 0;
      ReadLedger(recvBuffer, link.incoming, erased);
      if |recvBuffer| > 2 * MAX_FRAME_SIZE {
        recvBuffer := [];
        thrownAway := true;
      }
      ok := PullBytes();
      if !ok {
        return;
      }
      ok := PullUntil(9);
      if !ok {
        return;
      }
      if FromBe24(recvBuffer) > MAX_FRAME_SIZE {
        return false, frame, length;
      }
      FillKeepsFront(recvBuffer, link.incoming, FrontSize(recvBuffer));
      ok, frame, length := ReadPayload();
    }

    /** The part of a read that follows the header. */
    method ReadPayload() returns (ok: bool, frame: Frame, length: nat)
      requires Valid() && |recvBuffer| >= 9
      modifies this`recvBuffer, this`erased, link`incoming
      ensures Valid()
      ensures var size := FrontSize(old(recvBuffer));
              var w := Fill(old(recvBuffer), old(link.incoming), size);
              && ok == w.ok && link.incoming == w.incoming && (!ok ==> recvBuffer == w.buffer && erased == old(erased))
              && (ok ==>
                    && WholeAtFront(w.buffer) && FrontSize(w.buffer) == size && IsFrame(w.buffer[..size])
                    && FrontFrame(w.buffer[..size]) == FrontFrame(w.buffer) && FrontFrame(w.buffer).kind == w.buffer[3]
                    && length == |FrontFrame(w.buffer).payload|
                    && if w.buffer[3] == DATA
                       then frame == FrontFrame(w.buffer).(payload := []) && recvBuffer == w.buffer && erased == old(erased)
                       else && frame == FrontFrame(w.buffer) && recvBuffer == w.buffer[size..]
                            && erased == old(erased) + [w.buffer[..size]])
    {
      hide FrontFrame, Fill, Pull, FromBe24;
      frame, length := Frame(0, 0, 0, []), 0;
      var total := FrontSize(recvBuffer);
      FillKeepsFront(recvBuffer, link.incoming, total);
      ok := PullUntil(total);
      if !ok {
        return;
      }
      frame := FrontFrame(recvBuffer);
      FrontHasKind(recvBuffer);
      SameFront(recvBuffer);
      length := |frame.payload|;
      if frame.kind == DATA {
        frame := frame.(payload := []);
      } else {
        erased := erased + [recvBuffer[..total]];
        recvBuffer := recvBuffer[total..];
      }
    }

    static lemma FrontHasKind(b: bytes)
      requires WholeAtFront(b)
      ensures FrontFrame(b).kind == b[3] && |FrontFrame(b).payload| + 9 == FrontSize(b)
    {
    }

    static lemma ReadLedger(buffer: bytes, incoming: seq<bytes>, erased: seq<bytes>)
      ensures |buffer| <= 2 * MAX_FRAME_SIZE ==>
        var r := ReadNext(buffer, incoming);
        var taken := if r.Got? && r.frame.kind != DATA then erased + [r.raw] else erased;
        Concat(taken) + (r.buffer + Concat(r.incoming)) == Concat(erased) + (buffer + Concat(incoming))
    {
      hide ReadNext, Concat, FrontFrame;
      if |buffer| <= 2 * MAX_FRAME_SIZE {
        ReadConserves(buffer, incoming);
        var r := ReadNext(buffer, incoming);
        if r.Got? {
          ConcatLast(erased, r.raw);
        }
      }
    }

    // Sending.

    method SendFrame(f: Frame) returns (ok: bool)
      requires Valid()
      modifies this`sent, link`accepts, link`attempted
      ensures Valid() && sent == old(sent) + [f]
      ensures (ok <==> Accepted(old(link.accepts), 0)) && link.accepts == Drop(old(link.accepts), 1)
    {
      var out := Be24(|f.payload|) + [f.kind, f.flags] + Be32(f.stream % TWO31) + f.payload;
      WireLast(sent, f);
      assert out == Serialise(f);
      ok := link.Send(out);
      sent := sent + [f];
    }

    /** Sent once. */
    method SendSettingsAck() returns (ok: bool)
      requires Valid()
      modifies this`sent, this`settingsAckSent, link`accepts, link`attempted
      ensures Valid()
      ensures sent == old(sent) + if old(settingsAckSent) then [] else [Frame(SETTINGS, 1, 0, [])]
      ensures settingsAckSent == (old(settingsAckSent) || ok) && (old(settingsAckSent) ==> ok && link.accepts == old(link.accepts))
      ensures !old(settingsAckSent) ==> (ok <==> Accepted(old(link.accepts), 0)) && link.accepts == Drop(old(link.accepts), 1)
    {
      if settingsAckSent {
        return true;
      }
      ok := SendFrame(Frame(SETTINGS, 1, 0, []));
      settingsAckSent := ok;
    }

    /** ENABLE_PUSH is 0 and MAX_FRAME_SIZE is 16384. */
    method SendInitialSettings() returns (ok: bool)
      requires Valid()
      modifies this`sent, link`accepts, link`attempted
      ensures Valid() && sent == old(sent) + [Frame(SETTINGS, 0, 0, [0, 2] + Be32(0) + [0, 5] + Be32(MAX_FRAME_SIZE))]
    {
      ok := SendFrame(Frame(SETTINGS, 0, 0, [0, 2] + Be32(0) + [0, 5] + Be32(MAX_FRAME_SIZE)));
    }

    method SendDataOnStream(stream: nat, data: bytes) returns (ok: bool)
      requires Valid()
      modifies this`sent, link`accepts, link`attempted
      ensures Valid() && sent == old(sent) + [Frame(DATA, 0, stream, Be32(|data|) + data)]
    {
      ok := SendFrame(Frame(DATA, 0, stream, Be32(|data|) + data));
    }

    /** Waits for the server's settings and answers them. */
    method ProcessControlFrames() returns (ok: bool)
      requires Valid()
      modifies this`recvBuffer, this`erased, this`thrownAway, this`sent, this`settingsAckSent, this`settingsExchanged, link
      ensures Valid() && (!thrownAway ==> Ledger() == old(Ledger())) && (old(thrownAway) ==> thrownAway)
      ensures settingsExchanged == (old(settingsExchanged) || ok)
      ensures old(settingsExchanged) ==> ok && recvBuffer == old(recvBuffer) && sent == old(sent)
      ensures !old(settingsExchanged) ==>
                var r := ReadNext(old(recvBuffer), old(link.incoming));
                var asked := r.Got? && r.frame.kind == SETTINGS && r.frame.stream == 0 && r.frame.flags % 2 == 0;
                && recvBuffer == r.buffer && link.incoming == r.incoming && (ok <==> asked && settingsAckSent)
                && sent == old(sent) + if asked && !old(settingsAckSent) then [Frame(SETTINGS, 1, 0, [])] else []
    {
      hide ReadNext, FrontFrame;
      if settingsExchanged {
        return true;
      }
      var frame, length;
      ok, frame, length := ReadFrame();
      if !ok || frame.stream != 0 || frame.kind != SETTINGS || frame.flags % 2 == 1 {
        return false;
      }
      ok := SendSettingsAck();
      settingsExchanged := ok;
    }

    // Collecting a body.

    ghost predicate BodyIs(b: Body)
      reads this`parsingJson, this`jsonComplete, this`filteredSize, this`jsonBytesProcessed, this`filterNodeOnly
      reads parser, parser.fieldName, filtered
      requires parser.Valid()
    {
      && b == Body(parser.Value(), parsingJson, jsonComplete, b.text, jsonBytesProcessed)
      && filteredSize == |b.text| < FILTERED_SIZE && filtered.Length == FILTERED_SIZE && filtered[..filteredSize] == b.text
      && (filterNodeOnly ==> parser.Holds(filtered) && (!jsonComplete ==> filteredSize == 0))
    }

    method ClearBody(filter: bool)
      requires Valid()
      modifies this`parsingJson, this`jsonComplete, this`filteredSize, this`jsonBytesProcessed, this`filterNodeOnly
      modifies parser, parser.fieldName, filtered
      ensures Valid() && BodyIs(FRESH) && filterNodeOnly == filter
    {
      filterNodeOnly, parsingJson, jsonComplete, filteredSize, jsonBytesProcessed := filter, false, false, 0, 0;
      parser.Reset();
      var i := 0;
      while i < FILTERED_SIZE
        modifies filtered
      {
        filtered[i] := '\0';
        i := i + 1;
      }
    }

    /** One DATA payload. */
    method AbsorbPayload(payload: bytes, ghost b: Body)
      requires Valid() && BodyIs(b)
      modifies this`parsingJson, this`jsonComplete, this`filteredSize, this`jsonBytesProcessed
      modifies parser, parser.fieldName, filtered
      ensures Valid() && BodyIs(Absorb(b, payload, filterNodeOnly))
    {
      hide Complete, Feed, AbsorbJson;
      var data := payload;
      var wire := false;
      if jsonBytesProcessed == 0 && |payload| >= 5 {
        if payload[0] != 123 && payload[4] == 123 {
          data := payload[4..];
          wire := true;
          parsingJson := true;
        }
      }
      if !filterNodeOnly && !wire && jsonBytesProcessed == 0 {
        parsingJson := true;
      }
      if parsingJson {
        AbsorbText(ToText(data), b.(parsing := true));
      }
    }

    method AbsorbText(json: string, ghost b: Body)
      requires Valid() && BodyIs(b) && parsingJson
      modifies this`jsonComplete, this`filteredSize, this`jsonBytesProcessed, parser, parser.fieldName, filtered
      ensures Valid() && BodyIs(AbsorbJson(b, json, filterNodeOnly))
    {
      hide Complete, Feed;
      if filterNodeOnly {
        if !jsonComplete {
          Extract(json);
        }
      } else {
        Append(json);
      }
    }

    /** Feeds the extractor. */
    method Extract(json: string)
      requires Valid() && parser.Holds(filtered)
      modifies this`jsonComplete, this`filteredSize, this`jsonBytesProcessed, parser, parser.fieldName, filtered
      ensures Valid() && parser.Holds(filtered)
      ensures jsonBytesProcessed == old(jsonBytesProcessed) + |json|
      ensures var f := Feed(old(parser.Value()), json);
              && parser.Value() == f.p
              && jsonComplete == (old(jsonComplete) || (f.done && f.p.found))
              && (if f.done && f.p.found then filteredSize < FILTERED_SIZE && filtered[..filteredSize] == Clip(f.p.emitted)
                  else filteredSize == old(filteredSize))
    {
      var done := parser.FeedData(json, filtered);
      jsonBytesProcessed := jsonBytesProcessed + |json|;
      if done && parser.foundNode {
        jsonComplete := true;
        filteredSize := parser.outputPos;
      }
    }

    /** Puts what there is room for behind what is buffered. */
    method Append(json: string)
      requires Valid() && filteredSize < FILTERED_SIZE
      modifies this`jsonComplete, this`filteredSize, this`jsonBytesProcessed, filtered
      ensures jsonBytesProcessed == old(jsonBytesProcessed) + |json| && filteredSize < FILTERED_SIZE
      ensures var n := Min(|json|, FILTERED_SIZE - 1 - old(filteredSize));
              var text := old(filtered[..filteredSize]) + json[..n];
              && filteredSize == |text| && filtered[..filteredSize] == text
              && jsonComplete == (old(jsonComplete) || (n > 0 && Complete(text)))
    {
      var n := Min(|json|, FILTERED_SIZE - 1 - filteredSize);
      if n > 0 {
        CopyChars(filteredSize, json[..n]);
        filteredSize := filteredSize + n;
        filtered[filteredSize] := '\0';
        if !jsonComplete {
          jsonComplete := HasCompleteJson(filtered[..filteredSize]);
        }
      }
      jsonBytesProcessed := jsonBytesProcessed + |json|;
    }

    method CopyChars(at: nat, s: string)
      requires at + |s| <= filtered.Length
      modifies filtered
      ensures filtered[..at + |s|] == old(filtered[..at]) + s
    {
      forall i | 0 <= i < |s| {
        filtered[at + i] := s[i];
      }
    }

    /** Takes the DATA frame at the front off the buffer. */
    method EraseFront(length: nat)
      requires Valid() && WholeAtFront(recvBuffer) && FrontSize(recvBuffer) == 9 + length
      modifies this`recvBuffer, this`erased
      ensures Valid() && erased == old(erased) + [old(recvBuffer)[..9 + length]] && recvBuffer == old(recvBuffer)[9 + length..]
      ensures Ledger() == old(Ledger())
    {
      hide FrontFrame;
      SameFront(recvBuffer);
      ConcatLast(erased, recvBuffer[..9 + length]);
      erased := erased + [recvBuffer[..9 + length]];
      assert recvBuffer == recvBuffer[..9 + length] + recvBuffer[9 + length..];
      recvBuffer := recvBuffer[9 + length..];
    }

    /** Hands the window back, on the stream and on the connection. */
    method ReturnWindow(stream: nat, n: nat)
      requires Valid()
      modifies this`sent, link`accepts, link`attempted
      ensures Valid() && sent == old(sent) + OwedFor(stream, n) && link.accepts == Drop(old(link.accepts), |OwedFor(stream, n)|)
    {
      if n > 0 {
        DropTwice(link.accepts, 1, 1);
        var ok := SendFrame(WindowUpdate(stream, n));
        ok := SendFrame(WindowUpdate(0, n));
      }
    }

    /** Absorbs the DATA payload at the front, takes the frame off and hands the window back. */
    method ConsumeData(stream: nat, length: nat, ghost b: Body)
      requires Valid() && BodyIs(b) && WholeAtFront(recvBuffer) && FrontSize(recvBuffer) == 9 + length
      modifies this`parsingJson, this`jsonComplete, this`filteredSize, this`jsonBytesProcessed
      modifies this`recvBuffer, this`erased, this`sent, link`accepts, link`attempted
      modifies parser, parser.fieldName, filtered
      ensures Valid() && BodyIs(Absorb(b, old(recvBuffer)[9..9 + length], filterNodeOnly))
      ensures erased == old(erased) + [old(recvBuffer)[..9 + length]] && recvBuffer == old(recvBuffer)[9 + length..]
      ensures Ledger() == old(Ledger())
      ensures sent == old(sent) + OwedFor(stream, length)
      ensures link.accepts == Drop(old(link.accepts), |OwedFor(stream, length)|)
    {
      hide Absorb;
      AbsorbPayload(recvBuffer[9..9 + length], b);
      EraseFront(length);
      ReturnWindow(stream, length);
    }

    /** What one call has taken off the buffer, sent and made of the body. */
    ghost predicate Progress(stream: nat, filter: bool, raws: seq<bytes>, fs: seq<Frame>)
      reads this`parsingJson, this`jsonComplete, this`filteredSize, this`jsonBytesProcessed, this`filterNodeOnly
      reads parser, parser.fieldName, filtered
      requires parser.Valid()
    {
      && (forall i :: 0 <= i < |raws| ==> IsFrame(raws[i])) && filterNodeOnly == filter
      && Updates(fs) == Owed(stream, DataFor(stream, raws))
      && BodyIs(AbsorbAll(FRESH, DataFor(stream, raws), filter))
    }

    /** A frame other than DATA changes neither the body nor what is owed. */
    lemma ProgressOther(stream: nat, filter: bool, raws: seq<bytes>, fs: seq<Frame>, raw: bytes)
      requires Valid() && Progress(stream, filter, raws, fs) && IsFrame(raw)
      requires FrontFrame(raw).kind != DATA || FrontFrame(raw).stream !in {stream, 0}
      ensures Progress(stream, filter, raws + [raw], fs)
    {
      DataForLast(stream, raws, raw);
      assert DataFor(stream, raws) + [] == DataFor(stream, raws);
    }

    /** So does a settings acknowledgement. */
    lemma ProgressAck(stream: nat, filter: bool, raws: seq<bytes>, fs: seq<Frame>, f: Frame)
      requires Valid() && Progress(stream, filter, raws, fs) && f.kind != WINDOW_UPDATE
      ensures Progress(stream, filter, raws, fs + [f])
    {
      UpdatesOfLast(fs, f);
    }

    static lemma OwedLast(stream: nat, raws: seq<bytes>, fs: seq<Frame>, raw: bytes)
      requires (forall i :: 0 <= i < |raws| ==> IsFrame(raws[i])) && IsFrame(raw)
      requires FrontFrame(raw).kind == DATA && FrontFrame(raw).stream in {stream, 0}
      requires Updates(fs) == Owed(stream, DataFor(stream, raws))
      ensures Updates(fs + OwedFor(stream, |FrontFrame(raw).payload|)) == Owed(stream, DataFor(stream, raws + [raw]))
      ensures DataFor(stream, raws + [raw]) == DataFor(stream, raws) + [FrontFrame(raw).payload]
    {
      hide FrontFrame, Updates, Owed;
      DataForLast(stream, raws, raw);
      OwedOfLast(stream, DataFor(stream, raws), FrontFrame(raw).payload);
      UpdatesOfOwed(stream, fs, |FrontFrame(raw).payload|);
    }

    /** One DATA frame of a post's response. */
    method OnData(stream: nat, length: nat, ghost filter: bool, ghost raws: seq<bytes>, ghost fs: seq<Frame>)
      returns (ghost raw: bytes, ghost more: seq<Frame>)
      requires Valid() && Progress(stream, filter, raws, fs) && WholeAtFront(recvBuffer) && FrontSize(recvBuffer) == 9 + length
      requires FrontFrame(recvBuffer).kind == DATA && FrontFrame(recvBuffer).stream in {stream, 0}
      modifies this`parsingJson, this`jsonComplete, this`filteredSize, this`jsonBytesProcessed
      modifies this`recvBuffer, this`erased, this`sent, link`accepts, link`attempted
      modifies parser, parser.fieldName, filtered
      ensures Valid() && Progress(stream, filter, raws + [raw], fs + more) && Ledger() == old(Ledger())
      ensures erased == old(erased) + [raw] && sent == old(sent) + more
      ensures IsFrame(raw) && FrontFrame(raw) == old(FrontFrame(recvBuffer))
      ensures DataFor(stream, raws + [raw]) == DataFor(stream, raws) + [FrontFrame(raw).payload]
      ensures more == OwedFor(stream, length) && link.accepts == Drop(old(link.accepts), |more|)
      ensures raw == old(recvBuffer)[..9 + length] && recvBuffer == old(recvBuffer)[9 + length..]
    {
      hide Absorb, BodyIs, Owed, Updates, Drop, OwedFor;
      raw := recvBuffer[..9 + length];
      SameFront(recvBuffer);
      ghost var ps := DataFor(stream, raws);
      ghost var payload := recvBuffer[9..9 + length];
      assert FrontFrame(raw).payload == payload;
      ConsumeData(stream, length, AbsorbAll(FRESH, ps, filter));
      more := OwedFor(stream, length);
      OwedLast(stream, raws, fs, raw);
      AbsorbLast(FRESH, ps, payload, filter);
    }

    method EncodeHeaders(hs: seq<Hpack.Header>) returns (block: bytes)
      ensures block == Hpack.Block(hs)
    {
      block := [];
      var i := 0;
      while i < |hs|
        invariant i <= |hs| && block + Hpack.Block(hs[i..]) == Hpack.Block(hs)
      {
        assert hs[i..][1..] == hs[i + 1..];
        assert block + (Hpack.Literal(hs[i]) + Hpack.Block(hs[i + 1..])) == block + Hpack.Literal(hs[i]) + Hpack.Block(hs[i + 1..]);
        block := Hpack.EncodeLiteralHeader(block, hs[i]);
        i := i + 1;
      }
      assert block + Hpack.Block(hs[i..]) == block;
    }

    /** Both frames go out in one send. */
    method SendRequest(stream: nat, scheme: bytes, authority: bytes, path: bytes, payload: bytes) returns (ok: bool)
      requires Valid()
      modifies this`sent, link`accepts, link`attempted
      ensures Valid() && sent == old(sent) + Request(stream, scheme, authority, path, payload)
      ensures (ok <==> Accepted(old(link.accepts), 0)) && link.accepts == Drop(old(link.accepts), 1)
    {
      hide RequestHeaders, Serialise;
      var block := EncodeHeaders(RequestHeaders(scheme, authority, path, |payload|));
      var headers, data := Frame(HEADERS, 4, stream, block), Frame(DATA, 1, stream, payload);
      WireLast(sent, headers);
      WireLast(sent + [headers], data);
      var combined := Serialise(headers) + Serialise(data);
      ok := link.Send(combined);
      sent := sent + [headers] + [data];
      assert sent == old(sent) + Request(stream, scheme, authority, path, payload);
    }

    lemma ProgressStarts(stream: nat, scheme: bytes, authority: bytes, path: bytes, payload: bytes)
      requires Valid() && BodyIs(FRESH)
      ensures Progress(stream, filterNodeOnly, [], Request(stream, scheme, authority, path, payload)) && DataFor(stream, []) == []
    {
      hide RequestHeaders, BodyIs;
      var r := Request(stream, scheme, authority, path, payload);
      UpdatesOfLast([], r[0]);
      UpdatesOfLast([r[0]], r[1]);
      assert [r[0]] + [r[1]] == r && [] + [r[0]] == [r[0]];
    }

    /** The frame just read, if it is not DATA, has been taken off. */
    method OnOther(stream: nat, frame: Frame, ghost filter: bool, ghost raws: seq<bytes>, ghost fs: seq<Frame>, ghost raw: bytes)
      returns (verdict: Verdict, ghost more: seq<Frame>)
      requires Valid() && Progress(stream, filter, raws, fs) && IsFrame(raw) && FrontFrame(raw) == frame && frame.kind != DATA
      modifies this`sent, this`settingsAckSent, link`accepts, link`attempted
      ensures Valid() && Progress(stream, filter, raws + [raw], fs + more) && sent == old(sent) + more
      ensures verdict.Finish? ==> EndsStream(raws + [raw])
      ensures Ours(stream, frame) ==>
                && verdict == Judge(stream, filter, DataFor(stream, raws), frame, old(settingsAckSent), old(link.accepts))
                && more == AnswerTo(stream, frame, old(settingsAckSent))
                && settingsAckSent == AckAfter(frame, old(settingsAckSent), old(link.accepts))
                && link.accepts == AcceptsLeft(stream, frame, old(settingsAckSent), old(link.accepts))
    {
      hide FrontFrame, BodyIs, AbsorbAll, Owed, Updates, DataFor;
      ProgressOther(stream, filter, raws, fs, raw);
      more := [];
      assert fs + [] == fs;
      if frame.kind == HEADERS {
        return if frame.flags % 2 == 1 then Finish else GoOn, [];
      } else if frame.kind == SETTINGS {
        if frame.stream != 0 {
          return Fail, [];
        }
        if frame.flags % 2 == 0 {
          more := if settingsAckSent then [] else [Frame(SETTINGS, 1, 0, [])];
          if !settingsAckSent {
            ProgressAck(stream, filter, raws + [raw], fs, Frame(SETTINGS, 1, 0, []));
          }
          var ok := SendSettingsAck();
          return if ok then GoOn else Fail, more;
        }
      } else if frame.kind == GO_AWAY {
        return Fail, [];
      }
      return GoOn, [];
    }

    /** What a turn of the response loop makes of the frame that the next read returns. */
    twostate predicate Judged(stream: nat, filter: bool, raws: seq<bytes>, fs: seq<Frame>,
                              verdict: Verdict, raws': seq<bytes>, fs': seq<Frame>)
      requires (forall i :: 0 <= i < |raws| ==> IsFrame(raws[i])) && (forall i :: 0 <= i < |raws'| ==> IsFrame(raws'[i]))
      reads this, link
    {
      var r := ReadNext(old(recvBuffer), old(link.incoming));
      var ack, accepts := old(settingsAckSent), old(link.accepts);
      && (r.Nothing? ==> verdict == Fail && fs' == fs)
      && (r.Got? ==>
            && verdict == Judge(stream, filter, DataFor(stream, raws), r.frame, ack, accepts)
            && (verdict != Fail ==>
                  && settingsAckSent == AckAfter(r.frame, ack, accepts) && link.accepts == AcceptsLeft(stream, r.frame, ack, accepts)
                  && recvBuffer == AfterRead(r) && link.incoming == r.incoming
                  && DataFor(stream, raws') == DataFor(stream, raws) + DataIn(stream, r.frame))
            && fs' == fs + AnswerTo(stream, r.frame, ack))
    }

    /** What a turn of the response loop adds, and what its verdict says. */
    twostate predicate Turned(stream: nat, filter: bool, raws: seq<bytes>, fs: seq<Frame>,
                              verdict: Verdict, status: int, raws': seq<bytes>, fs': seq<Frame>)
      reads this, link, parser, parser.fieldName, filtered
    {
      && Valid() && Progress(stream, filter, raws', fs') && raws <= raws' && fs <= fs'
      && erased == old(erased) + raws'[|raws|..] && sent == old(sent) + fs'[|fs|..]
      && (!thrownAway ==> Ledger() == old(Ledger())) && (old(thrownAway) ==> thrownAway)
      && (assert forall i :: 0 <= i < |raws| ==> raws[i] == raws'[i];
          && Extends(DataFor(stream, raws), DataFor(stream, raws'))
          && StatusIn(stream, raws') == if status > 0 then status else StatusIn(stream, raws))
      && (verdict.GoOn? ==> |link.incoming| < |old(link.incoming)| && (!old(jsonComplete) ==> !jsonComplete))
      && (verdict.Finish? ==> jsonComplete || EndsStream(raws'))
      && Judged(stream, filter, raws, fs, verdict, raws', fs')
    }

    static lemma GotConsumes(buffer: bytes, incoming: seq<bytes>)
      ensures ReadNext(buffer, incoming).Got? ==> |ReadNext(buffer, incoming).incoming| < |incoming|
    {
    }

    static lemma KindOfFront(a: bytes, b: bytes)
      requires WholeAtFront(a) && |a| == FrontSize(a) && a <= b
      ensures WholeAtFront(b) && FrontSize(b) == FrontSize(a) && FrontFrame(b) == FrontFrame(a) && a == b[..|a|]
      ensures FrontSize(a) == 9 + |FrontFrame(a).payload|
    {
      SameHeader(a, b);
      PrefixIsFront(a, b);
    }

    /** The part of a turn that follows a frame other than DATA. */
    method PostOther(stream: nat, frame: Frame, ghost filter: bool, ghost raws: seq<bytes>, ghost fs: seq<Frame>, ghost raw: bytes)
      returns (verdict: Verdict, status: int, ghost more: seq<Frame>)
      requires Valid() && Progress(stream, filter, raws, fs) && IsFrame(raw) && FrontFrame(raw) == frame && frame.kind != DATA
      modifies this`sent, this`settingsAckSent, link`accepts, link`attempted
      ensures Valid() && Progress(stream, filter, raws + [raw], fs + more) && sent == old(sent) + more
      ensures Ledger() == old(Ledger()) && Extends(DataFor(stream, raws), DataFor(stream, raws + [raw]))
      ensures verdict.Finish? ==> EndsStream(raws + [raw])
      ensures verdict == Judge(stream, filter, DataFor(stream, raws), frame, old(settingsAckSent), old(link.accepts))
      ensures Ours(stream, frame) ==>
                && more == AnswerTo(stream, frame, old(settingsAckSent))
                && settingsAckSent == AckAfter(frame, old(settingsAckSent), old(link.accepts))
                && link.accepts == AcceptsLeft(stream, frame, old(settingsAckSent), old(link.accepts))
      ensures !Ours(stream, frame) ==> more == [] && settingsAckSent == old(settingsAckSent)
      ensures StatusIn(stream, raws + [raw]) == if status > 0 then status else StatusIn(stream, raws)
      ensures DataFor(stream, raws + [raw]) == DataFor(stream, raws) + DataIn(stream, frame)
    {
      hide FrontFrame, BodyIs, AbsorbAll, Owed, Updates, DataFor, Extends, EndsStream, StatusIn;
      ExtendsByOne(stream, raws, raw);
      DataForOther(stream, raws, raw);
      StatusLast(stream, raws, raw);
      status, more := 0, [];
      if frame.stream != stream && frame.stream != 0 {
        ProgressOther(stream, filter, raws, fs, raw);
        assert fs + [] == fs;
        return Fail, 0, [];
      }
      if frame.kind == HEADERS {
        status := Hpack.DecodeStatusHeader(frame.payload);
      }
      verdict, more := OnOther(stream, frame, filter, raws, fs, raw);
    }

    static lemma DataForOther(stream: nat, raws: seq<bytes>, raw: bytes)
      requires (forall i :: 0 <= i < |raws| ==> IsFrame(raws[i])) && IsFrame(raw) && FrontFrame(raw).kind != DATA
      ensures DataFor(stream, raws + [raw]) == DataFor(stream, raws)
    {
      DataForLast(stream, raws, raw);
      assert DataFor(stream, raws) + [] == DataFor(stream, raws);
    }

    /** The next frame: off the buffer, unless it is DATA, which is still at its front. */
    method NextFrame() returns (ok: bool, frame: Frame, length: nat, ghost raw: bytes)
      requires Valid()
      modifies this`recvBuffer, this`erased, this`thrownAway, link`incoming
      ensures Valid() && (old(thrownAway) ==> thrownAway) && (!thrownAway ==> Ledger() == old(Ledger()))
      ensures ok ==> |link.incoming| < |old(link.incoming)| && IsFrame(raw)
      ensures ok && frame.kind != DATA ==> FrontFrame(raw) == frame && erased == old(erased) + [raw]
      ensures ok && frame.kind == DATA ==>
                && WholeAtFront(recvBuffer) && FrontSize(recvBuffer) == 9 + length
                && FrontFrame(recvBuffer).(payload := []) == frame
      ensures !ok || frame.kind == DATA ==> erased == old(erased)
      ensures var r := ReadNext(old(recvBuffer), old(link.incoming));
              && ok == r.Got? && recvBuffer == r.buffer && link.incoming == r.incoming
              && (ok ==> r.raw == raw && r.frame == FrontFrame(raw))
              && (ok && frame.kind != DATA ==> r.frame == frame)
              && (ok && frame.kind == DATA ==> r.frame == FrontFrame(recvBuffer) && r.frame.(payload := []) == frame
                                                && AfterRead(r) == recvBuffer[9 + length..])
              && (ok && frame.kind != DATA ==> AfterRead(r) == recvBuffer)
    {
      hide FrontFrame, ReadNext;
      GotConsumes(recvBuffer, link.incoming);
      ghost var r := ReadNext(recvBuffer, link.incoming);
      raw := if r.Got? then r.raw else [];
      ok, frame, length := ReadFrame();
      if ok && frame.kind == DATA {
        KindOfFront(raw, recvBuffer);
      }
    }

    /** The part of a turn that follows a DATA frame, still at the front of the buffer. */
    method PostData(stream: nat, frame: Frame, length: nat, ghost filter: bool, ghost raws: seq<bytes>, ghost fs: seq<Frame>)
      returns (verdict: Verdict, ghost taken: seq<bytes>, ghost more: seq<Frame>)
      requires Valid() && Progress(stream, filter, raws, fs) && WholeAtFront(recvBuffer) && FrontSize(recvBuffer) == 9 + length
      requires FrontFrame(recvBuffer).(payload := []) == frame && frame.kind == DATA
      modifies this`parsingJson, this`jsonComplete, this`filteredSize, this`jsonBytesProcessed
      modifies this`recvBuffer, this`erased, this`sent, link`accepts, link`attempted
      modifies parser, parser.fieldName, filtered
      ensures Valid() && Progress(stream, filter, raws + taken, fs + more) && Ledger() == old(Ledger())
      ensures erased == old(erased) + taken && sent == old(sent) + more
      ensures Extends(DataFor(stream, raws), DataFor(stream, raws + taken))
      ensures verdict.GoOn? ==> !jsonComplete
      ensures verdict.Finish? ==> jsonComplete || EndsStream(raws + taken)
      ensures StatusIn(stream, raws + taken) == StatusIn(stream, raws)
      ensures var f := old(FrontFrame(recvBuffer));
              && verdict == Judge(stream, filter, DataFor(stream, raws), f, settingsAckSent, old(link.accepts))
              && more == AnswerTo(stream, f, settingsAckSent) && settingsAckSent == AckAfter(f, settingsAckSent, old(link.accepts))
              && (Ours(stream, f) ==>
                    && DataFor(stream, raws + taken) == DataFor(stream, raws) + DataIn(stream, f)
                    && link.accepts == AcceptsLeft(stream, f, settingsAckSent, old(link.accepts))
                    && recvBuffer == old(recvBuffer)[9 + length..])
              && (!Ours(stream, f) ==> taken == [])
    {
      hide FrontFrame, BodyIs, AbsorbAll, Owed, Updates, EndsStream, StatusIn, OwedFor, Drop, DataFor;
      ghost var f := FrontFrame(recvBuffer);
      FrontHasKind(recvBuffer);
      if frame.stream != stream && frame.stream != 0 {
        assert raws + [] == raws && fs + [] == fs;
        return Fail, [], [];
      }
      ghost var raw;
      raw, more := OnData(stream, length, filter, raws, fs);
      taken := [raw];
      StatusLast(stream, raws, raw);
      EndsOnFlag(raws, raw);
      Collected(stream, filter, raws + taken, fs + more);
      verdict := if jsonComplete || frame.flags % 2 == 1 then Finish else GoOn;
    }

    /** The part of a turn that follows the frame f, of which DATA is still at the front of the buffer. */
    method PostFrame(stream: nat, frame: Frame, length: nat, ghost filter: bool, ghost raws: seq<bytes>, ghost fs: seq<Frame>,
                     ghost raw: bytes, ghost f: Frame)
      returns (verdict: Verdict, status: int, ghost taken: seq<bytes>, ghost more: seq<Frame>)
      requires Valid() && Progress(stream, filter, raws, fs) && IsFrame(raw) && FrontFrame(raw) == f
      requires frame == if f.kind == DATA then f.(payload := []) else f
      requires f.kind == DATA ==> WholeAtFront(recvBuffer) && FrontSize(recvBuffer) == 9 + length && FrontFrame(recvBuffer) == f
      modifies this, link, parser, parser.fieldName, filtered
      ensures Valid() && Progress(stream, filter, raws + taken, fs + more) && sent == old(sent) + more && thrownAway == old(thrownAway)
      ensures Ledger() == old(Ledger()) && link.incoming == old(link.incoming)
      ensures if f.kind == DATA then erased == old(erased) + taken else erased == old(erased) && taken == [raw]
      ensures Extends(DataFor(stream, raws), DataFor(stream, raws + taken))
      ensures verdict.GoOn? && !old(jsonComplete) ==> !jsonComplete
      ensures verdict.Finish? ==> jsonComplete || EndsStream(raws + taken)
      ensures StatusIn(stream, raws + taken) == if status > 0 then status else StatusIn(stream, raws)
      ensures var ack, accepts := old(settingsAckSent), old(link.accepts);
              && verdict == Judge(stream, filter, DataFor(stream, raws), f, ack, accepts) && more == AnswerTo(stream, f, ack)
              && (verdict != Fail ==>
                    && settingsAckSent == AckAfter(f, ack, accepts) && link.accepts == AcceptsLeft(stream, f, ack, accepts)
                    && recvBuffer == (if f.kind == DATA then old(recvBuffer)[9 + length..] else old(recvBuffer))
                    && DataFor(stream, raws + taken) == DataFor(stream, raws) + DataIn(stream, f))
    {
      hide FrontFrame, FrontSize, WholeAtFront, BodyIs, AbsorbAll, Owed, Updates, DataFor, Progress, EndsStream, Ledger, IsFrame, Extends, StatusIn;
      hide AnswerTo, AcceptsLeft, AckAfter, DataIn, Judge;
      Collected(stream, filter, raws, fs);
      NotOurs(stream, filter, DataFor(stream, raws), f, settingsAckSent, link.accepts);
      if frame.kind == DATA {
        status := 0;
        verdict, taken, more := PostData(stream, frame, length, filter, raws, fs);
      } else {
        verdict, status, more := PostOther(stream, frame, filter, raws, fs, raw);
        taken := [raw];
      }
      Collected(stream, filter, raws + taken, fs + more);
    }

    /** One turn of the response loop of a post. */
    method PostTurn(stream: nat, ghost filter: bool, ghost raws: seq<bytes>, ghost fs: seq<Frame>)
      returns (verdict: Verdict, status: int, ghost raws': seq<bytes>, ghost fs': seq<Frame>)
      requires Valid() && Progress(stream, filter, raws, fs)
      modifies this, link, parser, parser.fieldName, filtered
      ensures Turned(stream, filter, raws, fs, verdict, status, raws', fs')
    {
      hide FrontFrame, FrontSize, WholeAtFront, BodyIs, AbsorbAll, Owed, Updates, DataFor, Progress, EndsStream, Ledger, IsFrame, Extends, StatusIn;
      hide ReadNext, AnswerTo, AcceptsLeft, AckAfter, AfterRead, DataIn, Judge;
      Collected(stream, filter, raws, fs);
      status, raws', fs' := 0, raws, fs;
      ghost var raw, taken, more;
      ghost var r := ReadNext(recvBuffer, link.incoming);
      var ok, frame, length;
      ok, frame, length, raw := NextFrame();
      if !ok {
        TurnedNothing(DataFor(stream, raws));
        assert raws[|raws|..] == [] && fs[|fs|..] == [];
        return Fail, 0, raws, fs;
      }
      verdict, status, taken, more := PostFrame(stream, frame, length, filter, raws, fs, raw, r.frame);
      raws', fs' := raws + taken, fs + more;
      assert raws'[|raws|..] == taken && fs'[|fs|..] == more;
      Collected(stream, filter, raws', fs');
    }

    /** A frame for another stream fails a post and is not answered. */
    static lemma NotOurs(stream: nat, filter: bool, payloads: seq<bytes>, f: Frame, ack: bool, accepts: seq<bool>)
      ensures !Ours(stream, f) ==> Judge(stream, filter, payloads, f, ack, accepts) == Fail && AnswerTo(stream, f, ack) == []
    {
    }

    static lemma ExtendsByOne(stream: nat, raws: seq<bytes>, raw: bytes)
      requires IsFrame(raw) && forall i :: 0 <= i < |raws| ==> IsFrame(raws[i])
      ensures Extends(DataFor(stream, raws), DataFor(stream, raws + [raw]))
    {
      hide FrontFrame, IsFrame, DataFor;
      DataForLast(stream, raws, raw);
      assert DataFor(stream, raws) + [] == DataFor(stream, raws);
    }

    static lemma TurnedNothing(payloads: seq<bytes>)
      ensures Extends(payloads, payloads)
    {
    }

    static lemma EndsOnFlag(raws: seq<bytes>, raw: bytes)
      requires IsFrame(raw) && forall i :: 0 <= i < |raws| ==> IsFrame(raws[i])
      ensures EndsStream(raws + [raw]) == (FrontFrame(raw).flags % 2 == 1 && FrontFrame(raw).kind in {DATA, HEADERS})
    {
    }

    lemma Collected(stream: nat, filter: bool, raws: seq<bytes>, fs: seq<Frame>)
      requires Valid() && Progress(stream, filter, raws, fs)
      ensures forall i :: 0 <= i < |raws| ==> IsFrame(raws[i])
      ensures var b := AbsorbAll(FRESH, DataFor(stream, raws), filter);
              filteredSize < FILTERED_SIZE && filtered[..filteredSize] == b.text && jsonComplete == b.complete
      ensures Updates(fs) == Owed(stream, DataFor(stream, raws))
    {
      hide AbsorbAll, Owed, Updates, DataFor;
    }

    /** Where the loop is, when the frames `seen` have passed. */
    ghost predicate Waiting(stream: nat, filter: bool, raws: seq<bytes>, fs: seq<Frame>, request: seq<Frame>, all: seq<Frame>,
                            seen: seq<Frame>, accepts: seq<bool>, ack: bool)
      reads this`recvBuffer, this`settingsAckSent, link
    {
      && (forall i :: 0 <= i < |raws| ==> IsFrame(raws[i]))
      && Under(stream, filter, all, seen, recvBuffer, link.incoming, accepts, ack, link.accepts, settingsAckSent)
      && PayloadsOf(stream, seen) == DataFor(stream, raws) && fs == request + Answers(stream, seen, ack)
    }

    /** Where it ends. */
    static ghost predicate Decided(stream: nat, filter: bool, fs: seq<Frame>, request: seq<Frame>, all: seq<Frame>,
                                   accepts: seq<bool>, ack: bool, ok: bool)
    {
      && (ok <==> Succeeds(stream, filter, all, accepts, ack))
      && fs == request + Answers(stream, all[..Handled(stream, filter, all, 0, accepts, ack)], ack)
    }

    /** One turn of the loop, and where that leaves the call. */
    method CollectTurn(stream: nat, ghost filter: bool, ghost raws: seq<bytes>, ghost fs: seq<Frame>, ghost request: seq<Frame>,
                       ghost all: seq<Frame>, ghost seen: seq<Frame>, ghost accepts: seq<bool>, ghost ack: bool)
      returns (verdict: Verdict, status: int, ghost raws': seq<bytes>, ghost fs': seq<Frame>, ghost seen': seq<Frame>)
      requires Valid() && Progress(stream, filter, raws, fs) && Waiting(stream, filter, raws, fs, request, all, seen, accepts, ack)
      modifies this, link, parser, parser.fieldName, filtered
      ensures Turned(stream, filter, raws, fs, verdict, status, raws', fs')
      ensures verdict.GoOn? ==> Waiting(stream, filter, raws', fs', request, all, seen', accepts, ack)
      ensures verdict.Finish? ==> Decided(stream, filter, fs', request, all, accepts, ack, true)
      ensures verdict.Fail? ==> Decided(stream, filter, fs', request, all, accepts, ack, false)
    {
      hide AbsorbAll, Owed, Updates, ReadNext, FrontFrame, DataFor, Progress, BodyIs, EndsStream, StopsAtOnce;
      hide Succeeds, Answers, Handled, Under, Arriving, Judge, AnswerTo, AcceptsLeft, AckAfter, AfterRead, DataIn, PayloadsOf;
      Collected(stream, filter, raws, fs);
      NextStep(stream, filter, all, seen, recvBuffer, link.incoming, accepts, ack, link.accepts, settingsAckSent);
      ghost var r, sends, acked := ReadNext(recvBuffer, link.incoming), link.accepts, settingsAckSent;
      seen' := seen;
      if r.Got? && Judge(stream, filter, PayloadsOf(stream, seen), r.frame, acked, sends).GoOn? {
        FramePasses(stream, filter, all, seen, recvBuffer, link.incoming, accepts, ack, sends, acked);
        seen' := seen + [r.frame];
      }
      verdict, status, raws', fs' := PostTurn(stream, filter, raws, fs);
      Collected(stream, filter, raws', fs');
      if r.Got? {
        assert request + (Answers(stream, seen, ack) + AnswerTo(stream, r.frame, acked)) == fs + AnswerTo(stream, r.frame, acked);
      }
    }

    lemma WaitingStarts(stream: nat, filter: bool, request: seq<Frame>)
      ensures Waiting(stream, filter, [], request, request, Arriving(recvBuffer, link.incoming), [], link.accepts, settingsAckSent)
    {
      UnderStarts(stream, filter, recvBuffer, link.incoming, link.accepts, settingsAckSent);
      assert DataFor(stream, []) == [] && request == request + [];
    }

    /** Reads frames until the body is complete or the stream ends. */
    method CollectResponse(stream: nat, ghost filter: bool, ghost request: seq<Frame>)
      returns (ok: bool, response: string, status: int, ghost raws: seq<bytes>, ghost fs: seq<Frame>)
      requires Valid() && Progress(stream, filter, [], request) && !jsonComplete
      modifies this, link, parser, parser.fieldName, filtered
      ensures Valid() && Progress(stream, filter, raws, fs) && request <= fs
      ensures erased == old(erased) + raws && sent == old(sent) + fs[|request|..]
      ensures !thrownAway ==> Ledger() == old(Ledger())
      ensures (forall i :: 0 <= i < |raws| ==> IsFrame(raws[i])) && StopsAtOnce(DataFor(stream, raws), filter)
      ensures ok ==> filteredSize < FILTERED_SIZE && response == filtered[..filteredSize] && (jsonComplete || EndsStream(raws))
      ensures status == StatusIn(stream, raws)
      ensures Decided(stream, filter, fs, request, Arriving(old(recvBuffer), old(link.incoming)), old(link.accepts),
                      old(settingsAckSent), ok)
    {
      hide AbsorbAll, Owed, Updates, ReadNext, FrontFrame, DataFor, Progress, BodyIs, EndsStream, StopsAtOnce, Waiting, Decided, Arriving;
      hide StatusIn, Extends, Judged;
      response, status, raws, fs := "", 0, [], request;
      StopsFirst(stream, filter);
      StatusStarts(stream);
      ghost var all, accepts, ack, seen := Arriving(recvBuffer, link.incoming), link.accepts, settingsAckSent, [];
      WaitingStarts(stream, filter, request);
      var streamOpen := true;
      while streamOpen
        invariant Valid() && Progress(stream, filter, raws, fs)
        invariant erased == old(erased) + raws && request <= fs && sent == old(sent) + fs[|request|..]
        invariant !thrownAway ==> Ledger() == old(Ledger())
        invariant (forall i :: 0 <= i < |raws| ==> IsFrame(raws[i])) && StopsAtOnce(DataFor(stream, raws), filter)
        invariant status == StatusIn(stream, raws)
        invariant streamOpen ==> !jsonComplete && Waiting(stream, filter, raws, fs, request, all, seen, accepts, ack)
        invariant !streamOpen ==> (jsonComplete || EndsStream(raws)) && Decided(stream, filter, fs, request, all, accepts, ack, true)
        decreases streamOpen, |link.incoming|
      {
        Collected(stream, filter, raws, fs);
        var verdict, found;
        ghost var raws', fs';
        verdict, found, raws', fs', seen := CollectTurn(stream, filter, raws, fs, request, all, seen, accepts, ack);
        Collected(stream, filter, raws', fs');
        StopsStill(DataFor(stream, raws), DataFor(stream, raws'), filter);
        raws, fs := raws', fs';
        if found > 0 {
          status := found;
        }
        if verdict == Fail {
          ok := false;
          return;
        }
        streamOpen := verdict == GoOn;
      }
      Collected(stream, filter, raws, fs);
      response := filtered[..filteredSize];
      ok := true;
    }

    static lemma StatusStarts(stream: nat)
      ensures StatusIn(stream, []) == 0
    {
    }

    /** Posts a request and collects the response until its body is complete or the stream ends. */
    method PostJson(stream: nat, scheme: bytes, authority: bytes, path: bytes, payload: bytes, filter: bool)
      returns (ok: bool, response: string, status: int)
      requires Valid()
      modifies this, link, parser, parser.fieldName, filtered
      ensures Valid() && old(erased) <= erased && old(sent) + Request(stream, scheme, authority, path, payload) <= sent
      ensures !thrownAway ==> Ledger() == old(Ledger())
      ensures var raws := erased[|old(erased)|..];
              var payloads := DataFor(stream, raws);
              var body := AbsorbAll(FRESH, payloads, filter);
              && Updates(sent[|old(sent)|..]) == Owed(stream, payloads)
              && StopsAtOnce(payloads, filter)
              && (ok ==> response == body.text && (body.complete || EndsStream(raws)))
              && status == StatusIn(stream, raws)
      ensures var all := Arriving(old(recvBuffer), old(link.incoming));
              var accepts, ack, taken := Drop(old(link.accepts), 1), old(settingsAckSent), Accepted(old(link.accepts), 0);
              && (ok <==> taken && Succeeds(stream, filter, all, accepts, ack))
              && sent == old(sent) + Request(stream, scheme, authority, path, payload)
                         + if taken then Answers(stream, all[..Handled(stream, filter, all, 0, accepts, ack)], ack) else []
    {
      hide AbsorbAll, Owed, Updates, Request, DataFor, Progress, BodyIs, EndsStream, StopsAtOnce;
      hide Succeeds, Answers, Handled, Arriving, Drop, Accepted, StatusIn, FrontFrame, Complete, Feed;
      response, status := "", 0;
      ghost var request, raws, fs := Request(stream, scheme, authority, path, payload), [], [];
      ClearBody(filter);
      StartsIncomplete();
      ok := SendRequest(stream, scheme, authority, path, payload);
      ProgressStarts(stream, scheme, authority, path, payload);
      StopsFirst(stream, filter);
      StatusStarts(stream);
      fs := request;
      if ok {
        ok, response, status, raws, fs := CollectResponse(stream, filter, request);
      }
      Collected(stream, filter, raws, fs);
      assert erased[|old(erased)|..] == raws && sent[|old(sent)|..] == fs;
    }

    lemma StartsIncomplete()
      requires Valid() && BodyIs(FRESH)
      ensures !jsonComplete
    {
    }

    static lemma StopsFirst(stream: nat, filter: bool)
      ensures StopsAtOnce(DataFor(stream, []), filter)
    {
    }

    // Further messages on an open stream.

    /** What a reader of further messages has taken off and made of the body; it hands no window back. */
    ghost predicate Listening(stream: nat, raws: seq<bytes>, fs: seq<Frame>)
      reads this`parsingJson, this`jsonComplete, this`filteredSize, this`jsonBytesProcessed, this`filterNodeOnly
      reads parser, parser.fieldName, filtered
      requires parser.Valid()
    {
      && (forall i :: 0 <= i < |raws| ==> IsFrame(raws[i])) && !filterNodeOnly
      && Updates(fs) == [] && BodyIs(AbsorbAll(FRESH, DataFor(stream, raws), false))
    }

    /** A DATA frame for this stream is absorbed and taken off; one for another stream is only taken off. */
    method HearData(stream: nat, frame: Frame, length: nat, ghost raws: seq<bytes>, ghost fs: seq<Frame>) returns (ghost raw: bytes)
      requires Valid() && Listening(stream, raws, fs) && WholeAtFront(recvBuffer) && FrontSize(recvBuffer) == 9 + length
      requires FrontFrame(recvBuffer).(payload := []) == frame && frame.kind == DATA
      modifies this`parsingJson, this`jsonComplete, this`filteredSize, this`jsonBytesProcessed
      modifies this`recvBuffer, this`erased, parser, parser.fieldName, filtered
      ensures Valid() && Listening(stream, raws + [raw], fs) && Ledger() == old(Ledger()) && erased == old(erased) + [raw]
      ensures IsFrame(raw) && FrontFrame(raw) == old(FrontFrame(recvBuffer))
      ensures frame.stream !in {stream, 0} ==> jsonComplete == old(jsonComplete)
      ensures recvBuffer == old(recvBuffer)[9 + length..]
      ensures DataFor(stream, raws + [raw]) == DataFor(stream, raws) + DataIn(stream, FrontFrame(raw))
    {
      hide Absorb, AbsorbAll, BodyIs, Updates, DataFor, FrontFrame;
      raw := recvBuffer[..9 + length];
      FrontPayload(recvBuffer, raw, length);
      DataForLast(stream, raws, raw);
      ghost var ps, payload := DataFor(stream, raws), recvBuffer[9..9 + length];
      assert ps + [] == ps;
      if frame.stream == stream || frame.stream == 0 {
        AbsorbPayload(recvBuffer[9..9 + length], AbsorbAll(FRESH, ps, false));
        AbsorbLast(FRESH, ps, payload, false);
      }
      EraseFront(length);
    }

    static lemma FrontPayload(buffer: bytes, raw: bytes, length: nat)
      requires WholeAtFront(buffer) && FrontSize(buffer) == 9 + length && raw == buffer[..9 + length]
      ensures IsFrame(raw) && FrontFrame(raw) == FrontFrame(buffer) && FrontFrame(raw).payload == buffer[9..9 + length]
    {
      SameFront(buffer);
    }

    /** What a turn makes of the frame that the next read returns, if it returns one. */
    twostate predicate Heeded(stream: nat, raws: seq<bytes>, fs: seq<Frame>, verdict: Verdict, raws': seq<bytes>, fs': seq<Frame>)
      requires (forall i :: 0 <= i < |raws| ==> IsFrame(raws[i])) && (forall i :: 0 <= i < |raws'| ==> IsFrame(raws'[i]))
      reads this, link
    {
      var r := ReadNext(old(recvBuffer), old(link.incoming));
      var ack, accepts := old(settingsAckSent), old(link.accepts);
      && (r.Nothing? ==>
            && verdict == GoOn && fs' == fs && recvBuffer == AfterRead(r) && link.incoming == r.incoming
            && settingsAckSent == ack && link.accepts == accepts && DataFor(stream, raws') == DataFor(stream, raws))
      && (r.Got? ==>
            && verdict == JudgeNext(stream, DataFor(stream, raws), r.frame, ack, accepts) && fs' == fs + AckFor(r.frame, ack)
            && (verdict != Fail ==>
                  && settingsAckSent == AckAfter(r.frame, ack, accepts) && link.accepts == Drop(accepts, |AckFor(r.frame, ack)|)
                  && recvBuffer == AfterRead(r) && link.incoming == r.incoming
                  && DataFor(stream, raws') == DataFor(stream, raws) + DataIn(stream, r.frame)))
    }

    /** A DATA frame that has just been read. */
    method ListenData(stream: nat, frame: Frame, length: nat, ghost raws: seq<bytes>, ghost fs: seq<Frame>)
      returns (verdict: Verdict, ghost raw: bytes)
      requires Valid() && Listening(stream, raws, fs) && !jsonComplete && WholeAtFront(recvBuffer) && FrontSize(recvBuffer) == 9 + length
      requires FrontFrame(recvBuffer).(payload := []) == frame && frame.kind == DATA
      modifies this`parsingJson, this`jsonComplete, this`filteredSize, this`jsonBytesProcessed
      modifies this`recvBuffer, this`erased, parser, parser.fieldName, filtered
      ensures Valid() && Listening(stream, raws + [raw], fs) && Ledger() == old(Ledger()) && erased == old(erased) + [raw]
      ensures Extends(DataFor(stream, raws), DataFor(stream, raws + [raw])) && IsFrame(raw)
      ensures verdict.Finish? <==> jsonComplete
      ensures var f := old(FrontFrame(recvBuffer));
              && verdict == JudgeNext(stream, DataFor(stream, raws), f, settingsAckSent, link.accepts)
              && DataFor(stream, raws + [raw]) == DataFor(stream, raws) + DataIn(stream, f)
              && recvBuffer == old(recvBuffer)[9 + length..] && AckFor(f, settingsAckSent) == []
              && AckAfter(f, settingsAckSent, link.accepts) == settingsAckSent
    {
      hide FrontFrame, BodyIs, AbsorbAll, Updates, DataFor, Extends;
      raw := HearData(stream, frame, length, raws, fs);
      ExtendsByOne(stream, raws, raw);
      HeardBody(stream, raws + [raw], fs);
      assert DataFor(stream, raws) + [] == DataFor(stream, raws);
      verdict := if jsonComplete then Finish
                 else if frame.stream in {stream, 0} && frame.flags % 2 == 1 then Fail else GoOn;
    }

    lemma HeardBody(stream: nat, raws: seq<bytes>, fs: seq<Frame>)
      requires Valid() && Listening(stream, raws, fs)
      ensures jsonComplete == AbsorbAll(FRESH, DataFor(stream, raws), false).complete
    {
      hide AbsorbAll, DataFor;
    }

    /** Any other frame that has just been read. */
    method ListenOther(stream: nat, frame: Frame, ghost raws: seq<bytes>, ghost fs: seq<Frame>, ghost raw: bytes)
      returns (verdict: Verdict, ghost more: seq<Frame>)
      requires Valid() && Listening(stream, raws, fs) && IsFrame(raw) && FrontFrame(raw) == frame && frame.kind != DATA
      modifies this`sent, this`settingsAckSent, link`accepts, link`attempted
      ensures Valid() && Listening(stream, raws + [raw], fs + more) && sent == old(sent) + more && !verdict.Finish?
      ensures Extends(DataFor(stream, raws), DataFor(stream, raws + [raw])) && Ledger() == old(Ledger())
      ensures var ack, accepts := old(settingsAckSent), old(link.accepts);
              && verdict == JudgeNext(stream, DataFor(stream, raws), frame, ack, accepts) && more == AckFor(frame, ack)
              && settingsAckSent == AckAfter(frame, ack, accepts) && link.accepts == Drop(accepts, |AckFor(frame, ack)|)
              && DataFor(stream, raws + [raw]) == DataFor(stream, raws) + DataIn(stream, frame)
    {
      hide FrontFrame, BodyIs, AbsorbAll, Updates, DataFor, Extends;
      ListeningOther(stream, raws, fs, raw);
      ExtendsByOne(stream, raws, raw);
      DataForOther(stream, raws, raw);
      assert fs + [] == fs;
      DropTwice(link.accepts, 0, 0);
      if frame.stream != stream && frame.stream != 0 {
        return GoOn, [];
      }
      verdict, more := HearOther(stream, frame, raws + [raw], fs);
    }

    /** One turn of the loop that waits for a further message. */
    method ListenTurn(stream: nat, ghost raws: seq<bytes>, ghost fs: seq<Frame>)
      returns (verdict: Verdict, ghost raws': seq<bytes>, ghost fs': seq<Frame>)
      requires Valid() && Listening(stream, raws, fs) && !jsonComplete
      modifies this, link, parser, parser.fieldName, filtered
      ensures Valid() && Listening(stream, raws', fs') && raws <= raws' && fs <= fs'
      ensures erased == old(erased) + raws'[|raws|..] && sent == old(sent) + fs'[|fs|..]
      ensures (!thrownAway ==> Ledger() == old(Ledger())) && (old(thrownAway) ==> thrownAway)
      ensures verdict.GoOn? ==> !jsonComplete
      ensures verdict.Finish? ==> jsonComplete
      ensures Extends(DataFor(stream, raws), DataFor(stream, raws'))
      ensures Heeded(stream, raws, fs, verdict, raws', fs')
    {
      hide FrontFrame, FrontSize, WholeAtFront, BodyIs, AbsorbAll, Updates, ReadNext, DataFor, Extends, Ledger;
      hide JudgeNext, AckFor, AckAfter, AfterRead, DataIn, Drop;
      TurnedNothing(DataFor(stream, raws));
      raws', fs' := raws, fs;
      ghost var raw, more;
      NothingLeft(recvBuffer, link.incoming);
      var ok, frame, length;
      ok, frame, length, raw := NextFrame();
      if !ok {
        assert fs[|fs|..] == [] && raws[|raws|..] == [];
        return GoOn, raws, fs;
      }
      if frame.kind == DATA {
        verdict, raw := ListenData(stream, frame, length, raws, fs);
        more := [];
        assert fs + more == fs;
        NoAckDrops(link.accepts);
      } else {
        verdict, more := ListenOther(stream, frame, raws, fs, raw);
      }
      raws', fs' := raws + [raw], fs + more;
      assert raws'[|raws|..] == [raw] && fs'[|fs|..] == more;
    }

    static lemma NothingLeft(buffer: bytes, incoming: seq<bytes>)
      ensures var r := ReadNext(buffer, incoming); r.Nothing? ==> AfterRead(r) == r.buffer
    {
    }

    static lemma NoAckDrops(accepts: seq<bool>)
      ensures Drop(accepts, 0) == accepts
    {
    }

    lemma ListeningOther(stream: nat, raws: seq<bytes>, fs: seq<Frame>, raw: bytes)
      requires Valid() && Listening(stream, raws, fs) && IsFrame(raw) && FrontFrame(raw).kind != DATA
      ensures Listening(stream, raws + [raw], fs)
    {
      DataForLast(stream, raws, raw);
      assert DataFor(stream, raws) + [] == DataFor(stream, raws);
    }

    method HearOther(stream: nat, frame: Frame, ghost raws: seq<bytes>, ghost fs: seq<Frame>)
      returns (verdict: Verdict, ghost more: seq<Frame>)
      requires Valid() && Listening(stream, raws, fs) && frame.kind != DATA
      modifies this`sent, this`settingsAckSent, link`accepts, link`attempted
      ensures Valid() && Listening(stream, raws, fs + more) && sent == old(sent) + more && verdict in {GoOn, Fail}
      ensures var ack, accepts := old(settingsAckSent), old(link.accepts);
              && more == AckFor(frame, ack) && settingsAckSent == AckAfter(frame, ack, accepts)
              && link.accepts == Drop(accepts, |AckFor(frame, ack)|)
              && (verdict.Fail? <==> frame.kind == GO_AWAY || (frame.kind == SETTINGS && frame.stream != 0)
                                     || (TakesAck(frame, ack) && !Accepted(accepts, 0)))
    {
      hide BodyIs, AbsorbAll, Updates, DataFor, Drop, FrontFrame, FrontSize, WholeAtFront;
      DropTwice(link.accepts, 0, 0);
      NoAckDrops(link.accepts);
      more := [];
      assert fs + [] == fs;
      if frame.kind == SETTINGS {
        if frame.stream != 0 {
          return Fail, [];
        }
        if frame.flags % 2 == 0 {
          more := if settingsAckSent then [] else [Frame(SETTINGS, 1, 0, [])];
          UpdatesOfLast(fs, Frame(SETTINGS, 1, 0, []));
          var ok := SendSettingsAck();
          return if ok then GoOn else Fail, more;
        }
      }
      return if frame.kind == GO_AWAY then Fail else GoOn, [];
    }

    lemma ListeningStarts(stream: nat)
      requires Valid() && BodyIs(FRESH) && !filterNodeOnly
      ensures Listening(stream, [], [])
    {
    }

    /** Where the wait for a message is, when the frames `seen` have passed and so many reads are left. */
    ghost predicate Awaiting(stream: nat, raws: seq<bytes>, fs: seq<Frame>, all: seq<Frame>, seen: seq<Frame>, left: nat,
                             accepts: seq<bool>, ack: bool)
      reads this`recvBuffer, this`settingsAckSent, link
    {
      && (forall i :: 0 <= i < |raws| ==> IsFrame(raws[i]))
      && Hearing(stream, all, seen, recvBuffer, link.incoming, left, accepts, ack, link.accepts, settingsAckSent)
      && PayloadsOf(stream, seen) == DataFor(stream, raws) && fs == AckIn(seen, ack)
    }

    static ghost predicate Answered(stream: nat, fs: seq<Frame>, all: seq<Frame>, accepts: seq<bool>, ack: bool, ok: bool) {
      (ok <==> Delivers(stream, all, accepts, ack)) && fs == AckIn(all[..HandledNext(stream, all, 0, accepts, ack)], ack)
    }

    lemma AwaitingStarts(stream: nat, left: nat)
      ensures Awaiting(stream, [], [], Http2Post.Heard(recvBuffer, link.incoming, left), [], left, link.accepts, settingsAckSent)
    {
      HearingStarts(stream, recvBuffer, link.incoming, left, link.accepts, settingsAckSent);
    }

    lemma AwaitingEnds(stream: nat, raws: seq<bytes>, fs: seq<Frame>, all: seq<Frame>, seen: seq<Frame>, accepts: seq<bool>, ack: bool)
      requires Awaiting(stream, raws, fs, all, seen, 0, accepts, ack)
      ensures Answered(stream, fs, all, accepts, ack, false)
    {
      HearingEnds(stream, all, seen, recvBuffer, link.incoming, accepts, ack, link.accepts, settingsAckSent);
    }

    /** One turn of the wait. */
    method AwaitTurn(stream: nat, ghost raws: seq<bytes>, ghost fs: seq<Frame>, ghost all: seq<Frame>, ghost seen: seq<Frame>,
                     ghost left: nat, ghost accepts: seq<bool>, ghost ack: bool)
      returns (verdict: Verdict, ghost raws': seq<bytes>, ghost fs': seq<Frame>, ghost seen': seq<Frame>)
      requires Valid() && Listening(stream, raws, fs) && !jsonComplete
      requires left > 0 && Awaiting(stream, raws, fs, all, seen, left, accepts, ack)
      modifies this, link, parser, parser.fieldName, filtered
      ensures Valid() && Listening(stream, raws', fs') && raws <= raws' && fs <= fs'
      ensures erased == old(erased) + raws'[|raws|..] && sent == old(sent) + fs'[|fs|..]
      ensures (!thrownAway ==> Ledger() == old(Ledger())) && (old(thrownAway) ==> thrownAway)
      ensures (verdict.GoOn? ==> !jsonComplete) && (verdict.Finish? ==> jsonComplete)
      ensures Extends(DataFor(stream, raws), DataFor(stream, raws'))
      ensures verdict.GoOn? ==> Awaiting(stream, raws', fs', all, seen', left - 1, accepts, ack)
      ensures verdict.Finish? ==> Answered(stream, fs', all, accepts, ack, true)
      ensures verdict.Fail? ==> Answered(stream, fs', all, accepts, ack, false)
    {
      hide AbsorbAll, Updates, ReadNext, FrontFrame, DataFor, BodyIs, Extends, Ledger;
      hide Delivers, AckIn, AckFor, HandledNext, Hearing, JudgeNext, AckAfter, AfterRead, DataIn, PayloadsOf, Drop;
      ghost var r, sends, acked := ReadNext(recvBuffer, link.incoming), link.accepts, settingsAckSent;
      seen' := seen;
      if r.Got? {
        HearingOne(stream, all, seen, recvBuffer, link.incoming, left, accepts, ack, sends, acked);
        seen' := seen + [r.frame];
      } else {
        HearingFails(stream, all, seen, recvBuffer, link.incoming, left, accepts, ack, sends, acked);
      }
      verdict, raws', fs' := ListenTurn(stream, raws, fs);
    }

    /** Reads until a whole message is buffered, the stream ends or the clock, checked so many times, runs out. */
    method ReadNextMessage(stream: nat, patience: nat) returns (ok: bool, response: string)
      requires Valid()
      modifies this, link, parser, parser.fieldName, filtered
      ensures Valid() && old(erased) <= erased && old(sent) <= sent
      ensures !thrownAway ==> Ledger() == old(Ledger())
      ensures var body := AbsorbAll(FRESH, DataFor(stream, erased[|old(erased)|..]), false);
              && Updates(sent[|old(sent)|..]) == [] && StopsAtOnce(DataFor(stream, erased[|old(erased)|..]), false)
              && (ok ==> body.complete && response == body.text)
      ensures var all := Http2Post.Heard(old(recvBuffer), old(link.incoming), patience);
              var accepts, ack := old(link.accepts), old(settingsAckSent);
              && (ok <==> Delivers(stream, all, accepts, ack))
              && sent == old(sent) + AckIn(all[..HandledNext(stream, all, 0, accepts, ack)], ack)
    {
      hide AbsorbAll, Updates, ReadNext, FrontFrame, DataFor, Extends, StopsAtOnce, Awaiting, BodyIs;
      hide Delivers, AckIn, HandledNext, Http2Post.Heard;
      response := "";
      ghost var all, accepts, ack, seen := Http2Post.Heard(recvBuffer, link.incoming, patience), link.accepts, settingsAckSent, [];
      ClearBody(false);
      ListeningStarts(stream);
      AwaitingStarts(stream, patience);
      StopsFirst(stream, false);
      StartsIncomplete();
      ghost var raws: seq<bytes>, fs: seq<Frame> := [], [];
      assert erased[|old(erased)|..] == raws && sent[|old(sent)|..] == fs;
      var left := patience;
      while left > 0
        invariant Valid() && Listening(stream, raws, fs) && !jsonComplete && StopsAtOnce(DataFor(stream, raws), false)
        invariant erased == old(erased) + raws && sent == old(sent) + fs
        invariant !thrownAway ==> Ledger() == old(Ledger())
        invariant Awaiting(stream, raws, fs, all, seen, left, accepts, ack)
      {
        HeardBody(stream, raws, fs);
        var verdict;
        ghost var raws', fs';
        verdict, raws', fs', seen := AwaitTurn(stream, raws, fs, all, seen, left, accepts, ack);
        left := left - 1;
        StopsStill(DataFor(stream, raws), DataFor(stream, raws'), false);
        raws, fs := raws', fs';
        assert erased[|old(erased)|..] == raws && sent[|old(sent)|..] == fs;
        HeardBody(stream, raws, fs);
        HeardText(stream, raws, fs);
        if verdict == Finish {
          return true, filtered[..filteredSize];
        }
        if verdict == Fail {
          return false, "";
        }
      }
      AwaitingEnds(stream, raws, fs, all, seen, accepts, ack);
      return false, "";
    }

    lemma HeardText(stream: nat, raws: seq<bytes>, fs: seq<Frame>)
      requires Valid() && Listening(stream, raws, fs)
      ensures filteredSize < FILTERED_SIZE && filtered[..filteredSize] == AbsorbAll(FRESH, DataFor(stream, raws), false).text
      ensures Updates(fs) == []
    {
      hide AbsorbAll, DataFor;
    }
  }
}
