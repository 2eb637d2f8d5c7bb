/** HTTP/2 frames in components/tailscale/http2_session.cpp: the receive buffer, the frames taken from it, and what a
    response body comes to (sections 4.1, 6.1 and 6.9 of RFC 7540). */
module Http2 {
  import opened Bytes

  const MAX_FRAME_SIZE: nat := 16384
  const MAX_RECV_BUFFER: nat := 40 * 1024
  const TWO31: nat := 0x8000_0000

  const DATA: byte := 0
  const HEADERS: byte := 1
  const SETTINGS: byte := 4
  const GO_AWAY: byte := 7
  const WINDOW_UPDATE: byte := 8

  datatype Frame = Frame(kind: byte, flags: byte, stream: nat, payload: bytes)

  function Serialise(f: Frame): (r: bytes)
    ensures |r| == 9 + |f.payload| && r[3] == f.kind
  {
    Be24(|f.payload|) + [f.kind, f.flags] + Be32(f.stream % TWO31) + f.payload
  }

  predicate WholeAtFront(b: bytes) { |b| >= 9 && |b| >= 9 + FromBe24(b) }

  function FrontSize(b: bytes): nat
    requires |b| >= 9
  {
    9 + FromBe24(b)
  }

  /** The frame at the front of the buffer; the reserved bit of the stream is dropped. */
  function FrontFrame(b: bytes): Frame
    requires WholeAtFront(b)
  {
    Frame(b[3], b[4], FromBe32(b[5..]) % TWO31, b[9..FrontSize(b)])
  }

  lemma FrontOfSerialised(f: Frame, tail: bytes)
    requires |f.payload| < TWO24 && f.stream < TWO31
    ensures var b := Serialise(f) + tail;
            WholeAtFront(b) && FrontSize(b) == |Serialise(f)| && FrontFrame(b) == f && b[..FrontSize(b)] == Serialise(f)
  {
    hide Be24, Be32, FromBe24, FromBe32;
    var b := Serialise(f) + tail;
    Be24RoundTrip(|f.payload|);
    assert Be24(|f.payload|) <= b && Be32(f.stream) <= b[5..];
    FrontReads(b, Be24(|f.payload|));
    Be32RoundTrip(f.stream);
    FrontReads(b[5..], Be32(f.stream));
    assert b[9..9 + |f.payload|] == f.payload;
  }

  // Reading.

  datatype Pulled = Pulled(ok: bool, buffer: bytes, incoming: seq<bytes>)

  /** One message off the channel.  A failure, a timeout and an empty message are all nothing. */
  function Pull(buffer: bytes, incoming: seq<bytes>): Pulled {
    if |buffer| > MAX_RECV_BUFFER || incoming == [] then Pulled(false, buffer, incoming)
    else Pulled(incoming[0] != [], buffer + incoming[0], incoming[1..])
  }

  function Fill(buffer: bytes, incoming: seq<bytes>, n: nat): (r: Pulled)
    ensures r.ok ==> |r.buffer| >= n
    ensures |r.incoming| <= |incoming|
    decreases |incoming|
  {
    if |buffer| >= n then Pulled(true, buffer, incoming)
    else
      var p := Pull(buffer, incoming);
      if p.ok then Fill(p.buffer, p.incoming, n) else p
  }

  /** What read_frame_ gets: a DATA frame is left at the front of the buffer, any other is taken off it. */
  datatype Next = Got(frame: Frame, raw: bytes, buffer: bytes, incoming: seq<bytes>) | Nothing(buffer: bytes, incoming: seq<bytes>)

  /** A buffer over twice the frame size is thrown away first; then there is always one pull, whatever is buffered. */
  function ReadNext(buffer: bytes, incoming: seq<bytes>): (r: Next)
    ensures |r.incoming| <= |incoming| && (incoming != [] ==> |r.incoming| < |incoming|)
  {
    var kept := if |buffer| > 2 * MAX_FRAME_SIZE then [] else buffer;
    var p := Pull(kept, incoming);
    if !p.ok then Nothing(p.buffer, p.incoming)
    else
      var h := Fill(p.buffer, p.incoming, 9);
      if !h.ok then Nothing(h.buffer, h.incoming)
      else if FromBe24(h.buffer) > MAX_FRAME_SIZE then Nothing(h.buffer, h.incoming)
      else
        var size := FrontSize(h.buffer);
        var w := Fill(h.buffer, h.incoming, size);
        if !w.ok then Nothing(w.buffer, w.incoming)
        else
          FillKeepsFront(h.buffer, h.incoming, size);
          Got(FrontFrame(w.buffer), w.buffer[..size], if w.buffer[3] == DATA then w.buffer else w.buffer[size..], w.incoming)
  }

  lemma {:induction false} FillKeepsFront(buffer: bytes, incoming: seq<bytes>, n: nat)
    ensures buffer <= Fill(buffer, incoming, n).buffer
    ensures |buffer| >= 9 ==> FromBe24(Fill(buffer, incoming, n).buffer) == FromBe24(buffer)
    decreases |incoming|
  {
    if |buffer| < n && Pull(buffer, incoming).ok {
      FillKeepsFront(buffer + incoming[0], incoming[1..], n);
    }
  }

  /** Pulling only moves bytes from the channel to the buffer. */
  lemma {:induction false} FillConserves(buffer: bytes, incoming: seq<bytes>, n: nat)
    ensures var r := Fill(buffer, incoming, n); r.buffer + Concat(r.incoming) == buffer + Concat(incoming)
    decreases |incoming|
  {
    if |buffer| < n {
      PullConserves(buffer, incoming);
      if Pull(buffer, incoming).ok {
        FillConserves(buffer + incoming[0], incoming[1..], n);
      }
    }
  }

  lemma PullConserves(buffer: bytes, incoming: seq<bytes>)
    ensures var p := Pull(buffer, incoming); p.buffer + Concat(p.incoming) == buffer + Concat(incoming)
  {
  }

  /** The bytes a read takes off the buffer for good. */
  function TakenBy(r: Next): bytes { if r.Got? && r.frame.kind != DATA then r.raw else [] }

  /** Unless the buffer was thrown away, no byte is lost or reordered by a read, and a frame it returns was at the front. */
  lemma ReadConserves(buffer: bytes, incoming: seq<bytes>)
    requires |buffer| <= 2 * MAX_FRAME_SIZE
    ensures var r := ReadNext(buffer, incoming);
            && buffer + Concat(incoming) == TakenBy(r) + (r.buffer + Concat(r.incoming))
            && (r.Got? ==> WholeAtFront(r.raw) && |r.raw| == FrontSize(r.raw) && FrontFrame(r.raw) == r.frame
                           && r.raw <= buffer + Concat(incoming) && (r.frame.kind == DATA ==> r.raw <= r.buffer))
  {
    hide Fill, Pull, FrontFrame, Concat, FromBe24;
    PullConserves(buffer, incoming);
    var p := Pull(buffer, incoming);
    if p.ok {
      FillConserves(p.buffer, p.incoming, 9);
      var h := Fill(p.buffer, p.incoming, 9);
      if h.ok && FromBe24(h.buffer) <= MAX_FRAME_SIZE {
        WholeConserves(h);
      }
    }
  }

  /** The part of a read that follows the header. */
  lemma WholeConserves(h: Pulled)
    requires |h.buffer| >= 9
    ensures var w := Fill(h.buffer, h.incoming, FrontSize(h.buffer));
            && w.buffer + Concat(w.incoming) == h.buffer + Concat(h.incoming)
            && (w.ok ==>
                  var raw := w.buffer[..FrontSize(h.buffer)];
                  && WholeAtFront(raw) && |raw| == FrontSize(raw) && FrontFrame(raw) == FrontFrame(w.buffer)
                  && FrontFrame(raw).kind == w.buffer[3] && raw <= w.buffer + Concat(w.incoming) && raw <= w.buffer
                  && raw + (w.buffer[|raw|..] + Concat(w.incoming)) == w.buffer + Concat(w.incoming))
  {
    var size := FrontSize(h.buffer);
    FillConserves(h.buffer, h.incoming, size);
    FillKeepsFront(h.buffer, h.incoming, size);
    var w := Fill(h.buffer, h.incoming, size);
    if w.ok {
      SameFront(w.buffer);
      hide Fill, FromBe24;
      assert w.buffer == w.buffer[..size] + w.buffer[size..];
    }
  }

  lemma SameFront(b: bytes)
    requires WholeAtFront(b)
    ensures var f := b[..FrontSize(b)]; WholeAtFront(f) && FrontSize(f) == |f| && FrontFrame(f) == FrontFrame(b)
  {
    var f := b[..FrontSize(b)];
    assert f[5..][..4] == b[5..][..4];
    assert f[9..] == b[9..FrontSize(b)];
  }

  /** The limit is exact: every byte is accounted for if and only if the buffer was within it when the read began. */
  lemma ReadConservesIff(buffer: bytes, incoming: seq<bytes>)
    ensures var r := ReadNext(buffer, incoming);
            buffer + Concat(incoming) == TakenBy(r) + (r.buffer + Concat(r.incoming)) <==> |buffer| <= 2 * MAX_FRAME_SIZE
  {
    hide ReadNext, Concat;
    if |buffer| <= 2 * MAX_FRAME_SIZE {
      ReadConserves(buffer, incoming);
    } else {
      BufferThrownAway(buffer, incoming);
      ReadConserves([], incoming);
      assert |buffer + Concat(incoming)| > |[] + Concat(incoming)|;
    }
  }

  // Runs of reads, each DATA frame taken off by whoever asked for it.

  predicate Sendable(f: Frame) { |f.payload| <= MAX_FRAME_SIZE && f.stream < TWO31 }

  function Wire(fs: seq<Frame>): bytes { if fs == [] then [] else Serialise(fs[0]) + Wire(fs[1..]) }

  function AfterTaking(r: Next): bytes
    requires r.Got? && r.frame.kind == DATA ==> |r.raw| <= |r.buffer|
  {
    if r.Got? && r.frame.kind == DATA then r.buffer[|r.raw|..] else r.buffer
  }

  lemma DataAtFront(buffer: bytes, incoming: seq<bytes>)
    ensures var r := ReadNext(buffer, incoming); r.Got? && r.frame.kind == DATA ==> r.raw <= r.buffer
  {
  }

  /** The frames that successive reads return; a read that fails is tried again while there is anything to come. */
  function Frames(buffer: bytes, incoming: seq<bytes>): seq<Frame>
    decreases |incoming|
  {
    if incoming == [] then []
    else
      DataAtFront(buffer, incoming);
      var r := ReadNext(buffer, incoming);
      (if r.Got? then [r.frame] else []) + Frames(AfterTaking(r), r.incoming)
  }

  /** What is in the buffer when there is nothing more to come. */
  function Leftover(buffer: bytes, incoming: seq<bytes>): bytes
    decreases |incoming|
  {
    if incoming == [] then buffer
    else
      DataAtFront(buffer, incoming);
      var r := ReadNext(buffer, incoming);
      Leftover(AfterTaking(r), r.incoming)
  }

  /** No read of the run starts with the buffer over its limit. */
  predicate NeverThrows(buffer: bytes, incoming: seq<bytes>)
    decreases |incoming|
  {
    if incoming == [] then |buffer| <= 2 * MAX_FRAME_SIZE
    else
      DataAtFront(buffer, incoming);
      var r := ReadNext(buffer, incoming);
      |buffer| <= 2 * MAX_FRAME_SIZE && NeverThrows(AfterTaking(r), r.incoming)
  }

  /** A whole frame that is a prefix is the frame at the front. */
  lemma PrefixIsFront(a: bytes, b: bytes)
    requires WholeAtFront(a) && |a| == FrontSize(a) && a <= b && WholeAtFront(b)
    ensures FrontSize(a) == FrontSize(b) && a == b[..FrontSize(b)] && FrontFrame(a) == FrontFrame(b)
  {
    hide FrontFrame;
    SameHeader(a, b);
    SameFront(b);
    assert a == b[..|a|];
  }

  /** A frame at the front of what was sent is the first frame sent. */
  lemma FrontIsFirst(raw: bytes, fs: seq<Frame>)
    requires WholeAtFront(raw) && |raw| == FrontSize(raw) && raw <= Wire(fs)
    requires forall i :: 0 <= i < |fs| ==> Sendable(fs[i])
    ensures fs != [] && FrontFrame(raw) == fs[0] && raw == Serialise(fs[0])
  {
    assert fs != [] && Sendable(fs[0]);
    var w := Serialise(fs[0]) + Wire(fs[1..]);
    assert w == Wire(fs);
    hide Serialise, FrontFrame, FrontSize, WholeAtFront, Wire;
    FrontOfSerialised(fs[0], Wire(fs[1..]));
    PrefixIsFront(raw, w);
  }

  /** A read and the taking of its frame together take its bytes off the front. */
  lemma ReadTakes(buffer: bytes, incoming: seq<bytes>)
    requires |buffer| <= 2 * MAX_FRAME_SIZE
    ensures var r := ReadNext(buffer, incoming);
            && (r.Got? && r.frame.kind == DATA ==> r.raw <= r.buffer)
            && buffer + Concat(incoming) == (if r.Got? then r.raw else []) + (AfterTaking(r) + Concat(r.incoming))
  {
    hide ReadNext, FrontFrame, Concat, FrontSize, WholeAtFront;
    ReadConserves(buffer, incoming);
    var r := ReadNext(buffer, incoming);
    if r.Got? && r.frame.kind == DATA {
      assert r.buffer == r.raw + AfterTaking(r);
    }
  }

  /** One read of a stream of frames returns the first of them. */
  lemma ReadIsFirst(buffer: bytes, incoming: seq<bytes>, fs: seq<Frame>)
    requires |buffer| <= 2 * MAX_FRAME_SIZE && buffer + Concat(incoming) <= Wire(fs)
    requires forall i :: 0 <= i < |fs| ==> Sendable(fs[i])
    ensures var r := ReadNext(buffer, incoming);
            && (r.Got? ==> fs != [] && r.frame == fs[0] && r.raw == Serialise(fs[0]))
            && (r.Got? && r.frame.kind == DATA ==> r.raw <= r.buffer)
            && AfterTaking(r) + Concat(r.incoming) <= Wire(if r.Got? then fs[1..] else fs)
            && buffer + Concat(incoming) == (if r.Got? then Serialise(fs[0]) else []) + (AfterTaking(r) + Concat(r.incoming))
  {
    hide ReadNext, Serialise, FrontFrame, Concat, AfterTaking, FrontSize, WholeAtFront, Wire;
    var r := ReadNext(buffer, incoming);
    ReadConserves(buffer, incoming);
    ReadTakes(buffer, incoming);
    if r.Got? {
      FrontIsFirst(r.raw, fs);
      WireUnfolds(fs);
      PrefixBehind(Serialise(fs[0]), AfterTaking(r) + Concat(r.incoming), Wire(fs[1..]));
    }
  }

  lemma WireUnfolds(fs: seq<Frame>)
    requires fs != []
    ensures Wire(fs) == Serialise(fs[0]) + Wire(fs[1..])
  {
  }

  lemma PrefixBehind(a: bytes, b: bytes, c: bytes)
    requires a + b <= a + c
    ensures b <= c
  {
    assert b == (a + b)[|a|..] && c == (a + c)[|a|..];
  }

  lemma SameHeader(a: bytes, b: bytes)
    requires |a| >= 9 && a <= b
    ensures FromBe24(a) == FromBe24(b)
  {
    assert forall i :: 0 <= i < 9 ==> a[i] == b[..|a|][i] == b[i];
  }

  /** Whatever frames the other side serialises and however they are cut into messages, reads return them in order, as
      long as the buffer is never over its limit when a read starts; it ends with just the bytes of those not returned. */
  lemma {:induction false} FramesInOrder(buffer: bytes, incoming: seq<bytes>, fs: seq<Frame>)
    requires NeverThrows(buffer, incoming) && buffer + Concat(incoming) <= Wire(fs)
    requires forall i :: 0 <= i < |fs| ==> Sendable(fs[i])
    ensures Frames(buffer, incoming) <= fs
    ensures Wire(Frames(buffer, incoming)) + Leftover(buffer, incoming) == buffer + Concat(incoming)
    decreases |incoming|
  {
    hide ReadNext, Serialise, Wire, Frames, Leftover, AfterTaking, Concat;
    FramesUnfold(buffer, incoming);
    if incoming != [] {
      var r := ReadNext(buffer, incoming);
      StillKept(buffer, incoming);
      ReadIsFirst(buffer, incoming, fs);
      FramesInOrder(AfterTaking(r), r.incoming, if r.Got? then fs[1..] else fs);
      var later, left := Frames(AfterTaking(r), r.incoming), Leftover(AfterTaking(r), r.incoming);
      if r.Got? {
        WireOfMore(fs[0], later);
        assert (Serialise(fs[0]) + Wire(later)) + left == Serialise(fs[0]) + (Wire(later) + left);
      } else {
        assert [] + later == later && [] + (Wire(later) + left) == Wire(later) + left;
      }
    } else {
      WireOfNone();
    }
  }

  lemma FramesUnfold(buffer: bytes, incoming: seq<bytes>)
    ensures incoming == [] ==> Frames(buffer, incoming) == [] && Leftover(buffer, incoming) == buffer && Concat(incoming) == []
    ensures incoming != [] ==>
              var r := ReadNext(buffer, incoming);
              && (r.Got? && r.frame.kind == DATA ==> r.raw <= r.buffer)
              && Frames(buffer, incoming) == (if r.Got? then [r.frame] else []) + Frames(AfterTaking(r), r.incoming)
              && Leftover(buffer, incoming) == Leftover(AfterTaking(r), r.incoming)
  {
    hide ReadNext, AfterTaking;
    DataAtFront(buffer, incoming);
  }

  lemma StillKept(buffer: bytes, incoming: seq<bytes>)
    requires incoming != [] && NeverThrows(buffer, incoming)
    ensures var r := ReadNext(buffer, incoming);
            && |buffer| <= 2 * MAX_FRAME_SIZE && (r.Got? && r.frame.kind == DATA ==> r.raw <= r.buffer)
            && NeverThrows(AfterTaking(r), r.incoming)
  {
    hide ReadNext, AfterTaking;
    DataAtFront(buffer, incoming);
  }

  lemma WireOfNone()
    ensures Wire([]) == []
  {
  }

  lemma WireOfMore(f: Frame, fs: seq<Frame>)
    ensures Wire([f] + fs) == Serialise(f) + Wire(fs)
  {
    assert ([f] + fs)[1..] == fs;
  }

  lemma {:induction false} WireSplits(a: seq<Frame>, b: seq<Frame>)
    ensures Wire(a + b) == Wire(a) + Wire(b)
  {
    hide Serialise;
    if a == [] {
      assert a + b == b;
    } else {
      assert (a + b)[1..] == a[1..] + b;
      WireSplits(a[1..], b);
    }
  }

  /** So of all that was sent the frames left behind are those whose bytes are left, and none is if and only if the
      buffer ends empty. */
  lemma FramesLeft(buffer: bytes, incoming: seq<bytes>, fs: seq<Frame>)
    requires NeverThrows(buffer, incoming) && buffer + Concat(incoming) == Wire(fs)
    requires forall i :: 0 <= i < |fs| ==> Sendable(fs[i])
    ensures var n := |Frames(buffer, incoming)|;
            n <= |fs| && Frames(buffer, incoming) == fs[..n] && Leftover(buffer, incoming) == Wire(fs[n..])
    ensures Frames(buffer, incoming) == fs <==> Leftover(buffer, incoming) == []
  {
    hide Frames, Leftover, Serialise, NeverThrows, Wire, Concat, Sendable;
    FramesInOrder(buffer, incoming, fs);
    var got := Frames(buffer, incoming);
    WireSplitsAt(fs, |got|);
    assert got == fs[..|got|];
    SameBehind(Wire(got), Leftover(buffer, incoming), Wire(fs[|got|..]));
    NoneLeft(fs[|got|..]);
    assert got == fs <==> fs[|got|..] == [];
  }

  lemma WireSplitsAt(fs: seq<Frame>, n: nat)
    requires n <= |fs|
    ensures Wire(fs) == Wire(fs[..n]) + Wire(fs[n..])
  {
    hide Wire;
    WireSplits(fs[..n], fs[n..]);
    assert fs[..n] + fs[n..] == fs;
  }

  lemma SameBehind(a: bytes, b: bytes, c: bytes)
    requires a + b == a + c
    ensures b == c
  {
    assert b == (a + b)[|a|..] && c == (a + c)[|a|..];
  }

  lemma NoneLeft(fs: seq<Frame>)
    ensures Wire(fs) == [] <==> fs == []
  {
  }

  /** A frame that is already buffered waits for the next message, whatever is to come: a read returns it if and only if
      that message brings something, and takes no more than that one message. */
  lemma BufferedFrameWaits(f: Frame, rest: bytes, incoming: seq<bytes>)
    requires Sendable(f) && |Serialise(f) + rest| <= 2 * MAX_FRAME_SIZE
    ensures var b := Serialise(f) + rest;
            var r := ReadNext(b, incoming);
            && WholeAtFront(b) && (r.Got? <==> incoming != [] && incoming[0] != [])
            && (r.Got? ==> r == Got(f, Serialise(f), (if f.kind == DATA then b else rest) + incoming[0], incoming[1..]))
            && (r.Nothing? ==> r.buffer == b && r.incoming == if incoming == [] then [] else incoming[1..])
  {
    hide Serialise, FrontFrame, FromBe24;
    var b := Serialise(f) + rest;
    SerialisedFront(f);
    FrontOfSerialised(f, rest);
    if incoming != [] {
      FrontOfSerialised(f, rest + incoming[0]);
      var b' := b + incoming[0];
      assert b' == Serialise(f) + (rest + incoming[0]);
      assert b'[|Serialise(f)|..] == rest + incoming[0] && b'[3] == Serialise(f)[3];
    }
  }

  /** Over its limit the buffer is thrown away: a read does what it would do with nothing buffered. */
  lemma BufferThrownAway(buffer: bytes, incoming: seq<bytes>)
    requires |buffer| > 2 * MAX_FRAME_SIZE
    ensures ReadNext(buffer, incoming) == ReadNext([], incoming)
  {
  }

  // When every message lies within one frame, nothing is thrown away and nothing waits.

  predicate CutsOf(cuts: seq<seq<bytes>>, fs: seq<Frame>) {
    && |cuts| == |fs|
    && forall i :: 0 <= i < |fs| ==> Concat(cuts[i]) == Serialise(fs[i]) && forall j :: 0 <= j < |cuts[i]| ==> cuts[i][j] != []
  }

  /** Anything short of all the messages is short of all the bytes. */
  lemma AllOrShort(cut: seq<bytes>, k: nat)
    requires k <= |cut| && forall j :: 0 <= j < |cut| ==> cut[j] != []
    ensures Concat(cut[..k]) <= Concat(cut) && (k < |cut| ==> |Concat(cut[..k])| < |Concat(cut)|)
  {
    ConcatSplits(cut[..k], cut[k..]);
    assert cut[..k] + cut[k..] == cut;
    if k < |cut| {
      ConcatHead(cut[k..]);
    }
  }

  /** Filling takes some of the messages, in order. */
  lemma {:induction false} FillTakes(cut: seq<bytes>, i: nat, later: seq<bytes>, n: nat) returns (k: nat)
    requires i <= |cut| && forall j :: 0 <= j < |cut| ==> cut[j] != []
    requires n <= |Concat(cut)| <= MAX_RECV_BUFFER
    ensures i <= k <= |cut| && Fill(Concat(cut[..i]), cut[i..] + later, n) == Pulled(true, Concat(cut[..k]), cut[k..] + later)
    decreases |cut| - i
  {
    k := i;
    AllOrShort(cut, i);
    if |Concat(cut[..i])| < n {
      assert i < |cut| by {
        assert cut[..|cut|] == cut;
      }
      assert (cut[i..] + later)[0] == cut[i] && (cut[i..] + later)[1..] == cut[i + 1..] + later;
      ConcatTakes(cut, i);
      k := FillTakes(cut, i + 1, later, n);
    }
  }

  lemma FillAll(cut: seq<bytes>, i: nat, later: seq<bytes>)
    requires i <= |cut| && (forall j :: 0 <= j < |cut| ==> cut[j] != []) && |Concat(cut)| <= MAX_RECV_BUFFER
    ensures Fill(Concat(cut[..i]), cut[i..] + later, |Concat(cut)|) == Pulled(true, Concat(cut), later)
  {
    var k := FillTakes(cut, i, later, |Concat(cut)|);
    AllOrShort(cut, k);
    assert cut[..|cut|] == cut && cut[|cut|..] + later == later;
  }

  /** A read whose first pull and two fills are known. */
  lemma ReadUnfolds(incoming: seq<bytes>, h: Pulled, w: Pulled)
    requires incoming != [] && incoming[0] != []
    requires Fill(incoming[0], incoming[1..], 9) == h && h.ok && FromBe24(h.buffer) <= MAX_FRAME_SIZE
    requires Fill(h.buffer, h.incoming, FrontSize(h.buffer)) == w && w.ok && WholeAtFront(w.buffer)
    requires FrontSize(w.buffer) == FrontSize(h.buffer) == |w.buffer|
    ensures ReadNext([], incoming)
         == Got(FrontFrame(w.buffer), w.buffer, if w.buffer[3] == DATA then w.buffer else [], w.incoming)
  {
    hide Fill, FrontFrame;
    assert [] + incoming[0] == incoming[0];
    assert w.buffer[..|w.buffer|] == w.buffer && w.buffer[|w.buffer|..] == [];
  }

  lemma SerialisedFront(f: Frame)
    requires Sendable(f)
    ensures var s := Serialise(f);
            && |s| == 9 + |f.payload| && s[3] == f.kind && WholeAtFront(s) && FrontSize(s) == |s| && FrontFrame(s) == f
            && FromBe24(s) == |f.payload| <= MAX_FRAME_SIZE
  {
    FrontOfSerialised(f, []);
    assert Serialise(f) + [] == Serialise(f);
  }

  lemma FirstOfCut(cut: seq<bytes>)
    requires Concat(cut) != []
    ensures cut != [] && Concat(cut[..1]) == cut[0]
  {
    ConcatTakes(cut, 0);
    assert cut[..0] == [];
  }

  /** From an empty buffer, a frame cut into messages of its own is read whole and leaves nothing but itself behind. */
  lemma AlignedRead(f: Frame, cut: seq<bytes>, later: seq<bytes>)
    requires Sendable(f) && Concat(cut) == Serialise(f) && forall j :: 0 <= j < |cut| ==> cut[j] != []
    ensures ReadNext([], cut + later) == Got(f, Serialise(f), if f.kind == DATA then Serialise(f) else [], later)
  {
    hide Serialise, FrontFrame, Fill, Pull, ReadNext, Concat, FromBe24;
    var s := Serialise(f);
    SerialisedFront(f);
    FirstOfCut(cut);
    var incoming := cut + later;
    assert incoming[0] == cut[0] && incoming[1..] == cut[1..] + later;
    var k := FillTakes(cut, 1, later, 9);
    AllOrShort(cut, k);
    SameHeader(Concat(cut[..k]), s);
    FillAll(cut, k, later);
    ReadUnfolds(incoming, Pulled(true, Concat(cut[..k]), cut[k..] + later), Pulled(true, s, later));
  }

  lemma AlignedFirst(f: Frame, cut: seq<bytes>, later: seq<bytes>)
    requires Sendable(f) && Concat(cut) == Serialise(f) && forall j :: 0 <= j < |cut| ==> cut[j] != []
    ensures Frames([], cut + later) == [f] + Frames([], later)
    ensures NeverThrows([], later) ==> NeverThrows([], cut + later)
  {
    hide ReadNext, Serialise;
    AlignedRead(f, cut, later);
    var r := ReadNext([], cut + later);
    DataAtFront([], cut + later);
    assert cut != [] && AfterTaking(r) == [];
  }

  lemma {:induction false} AlignedFramesArrive(cuts: seq<seq<bytes>>, fs: seq<Frame>)
    requires CutsOf(cuts, fs) && forall i :: 0 <= i < |fs| ==> Sendable(fs[i])
    ensures Frames([], Concat(cuts)) == fs && NeverThrows([], Concat(cuts))
    decreases |fs|
  {
    if fs != [] {
      hide ReadNext, Serialise, Frames, NeverThrows;
      assert Sendable(fs[0]) && CutsOf(cuts[1..], fs[1..]);
      AlignedFirst(fs[0], cuts[0], Concat(cuts[1..]));
      AlignedFramesArrive(cuts[1..], fs[1..]);
    }
  }
}
