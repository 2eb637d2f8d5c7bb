/** When a call that waits for a response in components/tailscale/http2_session.cpp succeeds, in terms of the frames that
    arrive, and what it answers them with. */
module Http2Post {
  import opened Bytes
  import opened Http2
  import opened Http2Body

  function WindowUpdate(stream: nat, n: nat): Frame { Frame(WINDOW_UPDATE, 0, stream, Be32(n)) }

  function OwedFor(stream: nat, n: nat): seq<Frame> {
    if n == 0 then [] else [WindowUpdate(stream, n), WindowUpdate(0, n)]
  }

  const SETTINGS_ACK: Frame := Frame(SETTINGS, 1, 0, [])

  // What arrives.

  lemma GotConsumes(buffer: bytes, incoming: seq<bytes>)
    ensures ReadNext(buffer, incoming).Got? ==> |ReadNext(buffer, incoming).incoming| < |incoming|
  {
  }

  /** What a read leaves in the buffer once its DATA frame is taken off too. */
  function AfterRead(r: Next): bytes { if r.Got? && r.frame.kind == DATA && |r.raw| <= |r.buffer| then r.buffer[|r.raw|..] else r.buffer }

  function DataIn(stream: nat, f: Frame): seq<bytes> { if f.kind == DATA && Ours(stream, f) then [f.payload] else [] }

  /** The frames that one read after the other returns, each DATA frame taken off, until a read fails. */
  function Arriving(buffer: bytes, incoming: seq<bytes>): seq<Frame>
    decreases |incoming|
  {
    GotConsumes(buffer, incoming);
    var r := ReadNext(buffer, incoming);
    if r.Got? then [r.frame] + Arriving(AfterRead(r), r.incoming) else []
  }

  /** The frames that so many reads return, one that fails being no matter. */
  function Heard(buffer: bytes, incoming: seq<bytes>, turns: nat): seq<Frame>
    decreases turns
  {
    if turns == 0 then []
    else
      var r := ReadNext(buffer, incoming);
      (if r.Got? then [r.frame] else []) + Heard(AfterRead(r), r.incoming, turns - 1)
  }

  /** Frames are for this stream or for the connection. */
  predicate Ours(stream: nat, f: Frame) { f.stream in {stream, 0} }

  predicate LastFlag(f: Frame) { f.flags % 2 == 1 }

  function PayloadsOf(stream: nat, fs: seq<Frame>): seq<bytes> {
    if fs == [] then []
    else
      var f := fs[|fs| - 1];
      PayloadsOf(stream, fs[..|fs| - 1]) + if f.kind == DATA && Ours(stream, f) then [f.payload] else []
  }

  /** What has become of the body by then. */
  function BodyAfter(stream: nat, fs: seq<Frame>, filter: bool): Body { AbsorbAll(FRESH, PayloadsOf(stream, fs), filter) }

  // Sends: a list says which succeed; those beyond it fail.

  predicate Accepted(accepts: seq<bool>, n: nat) { n < |accepts| && accepts[n] }

  function Drop(accepts: seq<bool>, n: nat): seq<bool> { if n <= |accepts| then accepts[n..] else [] }

  lemma DropTwice(accepts: seq<bool>, m: nat, n: nat)
    ensures Drop(Drop(accepts, m), n) == Drop(accepts, m + n)
    ensures Accepted(Drop(accepts, m), n) == Accepted(accepts, m + n)
  {
  }

  /** Settings that ask for an acknowledgement. */
  predicate Asks(f: Frame) { f.kind == SETTINGS && f.stream == 0 && !LastFlag(f) }

  predicate AnyAsks(fs: seq<Frame>) { exists i :: 0 <= i < |fs| && Asks(fs[i]) }

  /** The window updates sent for the DATA so far: two for each frame that is not empty. */
  function UpdatesSent(stream: nat, fs: seq<Frame>): nat {
    if fs == [] then 0
    else
      var f := fs[|fs| - 1];
      UpdatesSent(stream, fs[..|fs| - 1]) + if f.kind == DATA && Ours(stream, f) && f.payload != [] then 2 else 0
  }

  // A post.

  /** A frame completes the body or ends the stream. */
  predicate Ends(stream: nat, filter: bool, before: seq<Frame>, f: Frame) {
    && Ours(stream, f)
    && ((f.kind in {DATA, HEADERS} && LastFlag(f)) || (f.kind == DATA && BodyAfter(stream, before + [f], filter).complete))
  }

  /** The first settings that ask for it are acknowledged by the send behind the window updates; the rest need nothing. */
  predicate Refused(stream: nat, before: seq<Frame>, f: Frame, accepts: seq<bool>, ackSent: bool) {
    Asks(f) && !ackSent && !AnyAsks(before) && !Accepted(accepts, UpdatesSent(stream, before))
  }

  /** A frame ends the call: one for another stream, a GOAWAY, settings on a stream, or a refused acknowledgement. */
  predicate Spoils(stream: nat, before: seq<Frame>, f: Frame, accepts: seq<bool>, ackSent: bool) {
    || !Ours(stream, f) || f.kind == GO_AWAY || (f.kind == SETTINGS && f.stream != 0)
    || Refused(stream, before, f, accepts, ackSent)
  }

  /** A frame ends the stream or completes the body before any that ends the call. */
  predicate Succeeds(stream: nat, filter: bool, fs: seq<Frame>, accepts: seq<bool>, ackSent: bool) {
    exists k :: 0 <= k < |fs| && Ends(stream, filter, fs[..k], fs[k])
                && forall j :: 0 <= j < k ==> !Spoils(stream, fs[..j], fs[j], accepts, ackSent)
  }

  /** Neither one nor the other. */
  predicate Passes(stream: nat, filter: bool, fs: seq<Frame>, k: nat, accepts: seq<bool>, ackSent: bool)
    requires k < |fs|
  {
    !Ends(stream, filter, fs[..k], fs[k]) && !Spoils(stream, fs[..k], fs[k], accepts, ackSent)
  }

  /** How many frames are looked at, from the k-th on: up to the first that is one or the other. */
  function Handled(stream: nat, filter: bool, fs: seq<Frame>, k: nat, accepts: seq<bool>, ackSent: bool): (n: nat)
    requires k <= |fs|
    ensures k <= n <= |fs|
    decreases |fs| - k
  {
    if k == |fs| then k
    else if Passes(stream, filter, fs, k, accepts, ackSent) then Handled(stream, filter, fs, k + 1, accepts, ackSent)
    else k + 1
  }

  /** What is sent for the frames that are looked at. */
  function Answers(stream: nat, fs: seq<Frame>, ackSent: bool): seq<Frame> {
    if fs == [] then []
    else
      var before, f := fs[..|fs| - 1], fs[|fs| - 1];
      Answers(stream, before, ackSent)
      + if f.kind == DATA && Ours(stream, f) then OwedFor(stream, |f.payload|)
        else if Asks(f) && !ackSent && !AnyAsks(before) then [SETTINGS_ACK]
        else []
  }

  lemma EndsIsOurs(stream: nat, filter: bool, before: seq<Frame>, f: Frame, accepts: seq<bool>, ackSent: bool)
    requires Ends(stream, filter, before, f)
    ensures !Spoils(stream, before, f, accepts, ackSent)
  {
  }

  /** How a call that has let the first k frames pass goes on: it succeeds with the next if that ends the stream or
      completes the body, fails if that spoils it or does not come, and is otherwise where it was, one frame on. */
  lemma Decides(stream: nat, filter: bool, fs: seq<Frame>, k: nat, accepts: seq<bool>, ackSent: bool)
    requires k <= |fs| && forall j :: 0 <= j < k ==> Passes(stream, filter, fs, j, accepts, ackSent)
    ensures k == |fs| ==> !Succeeds(stream, filter, fs, accepts, ackSent)
    ensures k < |fs| && Ends(stream, filter, fs[..k], fs[k]) ==> Succeeds(stream, filter, fs, accepts, ackSent)
    ensures k < |fs| && Spoils(stream, fs[..k], fs[k], accepts, ackSent) ==> !Succeeds(stream, filter, fs, accepts, ackSent)
    ensures Handled(stream, filter, fs, 0, accepts, ackSent) == Handled(stream, filter, fs, k, accepts, ackSent)
  {
    hide Ends, Spoils;
    HandledFrom(stream, filter, fs, 0, k, accepts, ackSent);
    forall j | 0 <= j < k
      ensures !Ends(stream, filter, fs[..j], fs[j]) && !Spoils(stream, fs[..j], fs[j], accepts, ackSent)
    {
      assert Passes(stream, filter, fs, j, accepts, ackSent);
    }
    if k < |fs| && Spoils(stream, fs[..k], fs[k], accepts, ackSent) && Ends(stream, filter, fs[..k], fs[k]) {
      EndsIsOurs(stream, filter, fs[..k], fs[k], accepts, ackSent);
    }
  }

  lemma {:induction false} HandledFrom(stream: nat, filter: bool, fs: seq<Frame>, j: nat, k: nat, accepts: seq<bool>, ackSent: bool)
    requires j <= k <= |fs| && forall i :: j <= i < k ==> Passes(stream, filter, fs, i, accepts, ackSent)
    ensures Handled(stream, filter, fs, j, accepts, ackSent) == Handled(stream, filter, fs, k, accepts, ackSent)
    decreases k - j
  {
    hide Ends, Spoils;
    if j < k {
      HandledFrom(stream, filter, fs, j + 1, k, accepts, ackSent);
    }
  }

  // A further message: frames for other streams are passed over, and only a complete message is a success.

  predicate Completes(stream: nat, before: seq<Frame>, f: Frame) {
    Ours(stream, f) && f.kind == DATA && BodyAfter(stream, before + [f], false).complete
  }

  /** The send is the first there is: no window is handed back here. */
  predicate Stops(stream: nat, before: seq<Frame>, f: Frame, accepts: seq<bool>, ackSent: bool) {
    && Ours(stream, f)
    && (|| f.kind == GO_AWAY || (f.kind == SETTINGS && f.stream != 0) || (f.kind == DATA && LastFlag(f))
        || (Asks(f) && !ackSent && !AnyAsks(before) && !Accepted(accepts, 0)))
  }

  predicate Delivers(stream: nat, fs: seq<Frame>, accepts: seq<bool>, ackSent: bool) {
    exists k :: 0 <= k < |fs| && Completes(stream, fs[..k], fs[k])
                && forall j :: 0 <= j < k ==> !Stops(stream, fs[..j], fs[j], accepts, ackSent)
  }

  predicate Waits(stream: nat, fs: seq<Frame>, k: nat, accepts: seq<bool>, ackSent: bool)
    requires k < |fs|
  {
    !Completes(stream, fs[..k], fs[k]) && !Stops(stream, fs[..k], fs[k], accepts, ackSent)
  }

  lemma DecidesNext(stream: nat, fs: seq<Frame>, k: nat, accepts: seq<bool>, ackSent: bool)
    requires k <= |fs| && forall j :: 0 <= j < k ==> Waits(stream, fs, j, accepts, ackSent)
    ensures k == |fs| ==> !Delivers(stream, fs, accepts, ackSent)
    ensures k < |fs| && Completes(stream, fs[..k], fs[k]) ==> Delivers(stream, fs, accepts, ackSent)
    ensures k < |fs| && !Completes(stream, fs[..k], fs[k]) && Stops(stream, fs[..k], fs[k], accepts, ackSent)
            ==> !Delivers(stream, fs, accepts, ackSent)
  {
    hide Completes, Stops;
    forall j | 0 <= j < k
      ensures !Completes(stream, fs[..j], fs[j]) && !Stops(stream, fs[..j], fs[j], accepts, ackSent)
    {
      assert Waits(stream, fs, j, accepts, ackSent);
    }
  }

  /** One more frame. */
  lemma OneMore(stream: nat, before: seq<Frame>, f: Frame, ackSent: bool)
    ensures var now := before + [f];
            && PayloadsOf(stream, now) == PayloadsOf(stream, before) + (if f.kind == DATA && Ours(stream, f) then [f.payload] else [])
            && UpdatesSent(stream, now)
               == UpdatesSent(stream, before) + (if f.kind == DATA && Ours(stream, f) && f.payload != [] then 2 else 0)
            && (AnyAsks(now) <==> AnyAsks(before) || Asks(f))
            && Answers(stream, now, ackSent)
               == Answers(stream, before, ackSent) + (if f.kind == DATA && Ours(stream, f) then OwedFor(stream, |f.payload|)
                                                      else if Asks(f) && !ackSent && !AnyAsks(before) then [SETTINGS_ACK] else [])
  {
    var now := before + [f];
    assert now[..|now| - 1] == before && now[|now| - 1] == f;
    MoreAsks(before, f);
  }

  lemma MoreAsks(before: seq<Frame>, f: Frame)
    ensures AnyAsks(before + [f]) <==> AnyAsks(before) || Asks(f)
  {
    var now := before + [f];
    assert forall i :: 0 <= i < |before| ==> now[i] == before[i];
    assert now[|before|] == f;
  }

  // One frame at a time.

  datatype Verdict = GoOn | Finish | Fail

  predicate TakesAck(f: Frame, ackSent: bool) { Asks(f) && !ackSent }

  /** What a post makes of a frame, from the payloads it has absorbed and what its next sends come to. */
  function Judge(stream: nat, filter: bool, payloads: seq<bytes>, f: Frame, ackSent: bool, accepts: seq<bool>): Verdict {
    if !Ours(stream, f) || f.kind == GO_AWAY || (f.kind == SETTINGS && f.stream != 0) then Fail
    else if f.kind == DATA then
      if LastFlag(f) || AbsorbAll(FRESH, payloads + [f.payload], filter).complete then Finish else GoOn
    else if f.kind == HEADERS then (if LastFlag(f) then Finish else GoOn)
    else if TakesAck(f, ackSent) && !Accepted(accepts, 0) then Fail
    else GoOn
  }

  function AnswerTo(stream: nat, f: Frame, ackSent: bool): seq<Frame> {
    if f.kind == DATA && Ours(stream, f) then OwedFor(stream, |f.payload|)
    else if TakesAck(f, ackSent) then [SETTINGS_ACK]
    else []
  }

  /** The sends that are left: each frame sent takes one. */
  function AcceptsLeft(stream: nat, f: Frame, ackSent: bool, accepts: seq<bool>): seq<bool> {
    Drop(accepts, |AnswerTo(stream, f, ackSent)|)
  }

  predicate AckAfter(f: Frame, ackSent: bool, accepts: seq<bool>) { ackSent || (Asks(f) && Accepted(accepts, 0)) }

  /** Where a post is when the frames `seen` have passed. */
  predicate Tracks(stream: nat, seen: seq<Frame>, accepts0: seq<bool>, ack0: bool, accepts: seq<bool>, ackSent: bool) {
    && (ackSent <==> ack0 || AnyAsks(seen))
    && accepts == Drop(accepts0, UpdatesSent(stream, seen) + if !ack0 && AnyAsks(seen) then 1 else 0)
  }

  /** The verdict on the next frame is what the frames before it make of it. */
  lemma JudgeIs(stream: nat, filter: bool, seen: seq<Frame>, f: Frame, accepts0: seq<bool>, ack0: bool, accepts: seq<bool>, ackSent: bool)
    requires Tracks(stream, seen, accepts0, ack0, accepts, ackSent)
    ensures var verdict := Judge(stream, filter, PayloadsOf(stream, seen), f, ackSent, accepts);
            && (verdict.Finish? <==> Ends(stream, filter, seen, f)) && (verdict.Fail? <==> Spoils(stream, seen, f, accepts0, ack0))
    ensures Answers(stream, seen + [f], ack0) == Answers(stream, seen, ack0) + AnswerTo(stream, f, ackSent)
    ensures Judge(stream, filter, PayloadsOf(stream, seen), f, ackSent, accepts) != Fail ==>
              Tracks(stream, seen + [f], accepts0, ack0, AcceptsLeft(stream, f, ackSent, accepts), AckAfter(f, ackSent, accepts))
  {
    hide AbsorbAll, UpdatesSent, PayloadsOf, Answers, AnyAsks, Drop;
    OneMore(stream, seen, f, ack0);
    var n := UpdatesSent(stream, seen);
    DropTwice(accepts0, n, 0);
    var m := n + if !ack0 && AnyAsks(seen) then 1 else 0;
    DropTwice(accepts0, m, |AnswerTo(stream, f, ackSent)|);
    assert f.payload == [] <==> |f.payload| == 0;
  }

  /** A call that has let the frames `seen` pass and goes on with what is in the buffer and what is to come. */
  predicate Under(stream: nat, filter: bool, all: seq<Frame>, seen: seq<Frame>, buffer: bytes, incoming: seq<bytes>,
                  accepts0: seq<bool>, ack0: bool, accepts: seq<bool>, ackSent: bool)
  {
    && all == seen + Arriving(buffer, incoming) && Tracks(stream, seen, accepts0, ack0, accepts, ackSent)
    && forall j :: 0 <= j < |seen| ==> Passes(stream, filter, all, j, accepts0, ack0)
  }

  lemma UnderStarts(stream: nat, filter: bool, buffer: bytes, incoming: seq<bytes>, accepts: seq<bool>, ackSent: bool)
    ensures Under(stream, filter, Arriving(buffer, incoming), [], buffer, incoming, accepts, ackSent, accepts, ackSent)
    ensures PayloadsOf(stream, []) == [] && Answers(stream, [], ackSent) == []
  {
    hide Arriving;
    assert [] + Arriving(buffer, incoming) == Arriving(buffer, incoming);
  }

  /** The call as a whole: what its next step decides, and what it has sent when it is decided. */
  lemma NextStep(stream: nat, filter: bool, all: seq<Frame>, seen: seq<Frame>, buffer: bytes, incoming: seq<bytes>,
                 accepts0: seq<bool>, ack0: bool, accepts: seq<bool>, ackSent: bool)
    requires Under(stream, filter, all, seen, buffer, incoming, accepts0, ack0, accepts, ackSent)
    ensures var r := ReadNext(buffer, incoming);
            var sent := Answers(stream, all[..Handled(stream, filter, all, 0, accepts0, ack0)], ack0);
            && (r.Nothing? ==> !Succeeds(stream, filter, all, accepts0, ack0) && sent == Answers(stream, seen, ack0))
            && (r.Got? ==>
                  var verdict := Judge(stream, filter, PayloadsOf(stream, seen), r.frame, ackSent, accepts);
                  && (verdict.Finish? ==> Succeeds(stream, filter, all, accepts0, ack0))
                  && (verdict.Fail? ==> !Succeeds(stream, filter, all, accepts0, ack0))
                  && (!verdict.GoOn? ==> sent == Answers(stream, seen, ack0) + AnswerTo(stream, r.frame, ackSent)))
  {
    hide ReadNext, Ends, Spoils, Succeeds, Tracks, Judge, AnswerTo, Answers;
    var r := ReadNext(buffer, incoming);
    Decides(stream, filter, all, |seen|, accepts0, ack0);
    assert all[..|seen|] == seen;
    if r.Got? {
      var f := r.frame;
      assert all[|seen|] == f && all[..|seen| + 1] == seen + [f];
      JudgeIs(stream, filter, seen, f, accepts0, ack0, accepts, ackSent);
    } else {
      assert all == seen;
    }
  }

  lemma FramePasses(stream: nat, filter: bool, all: seq<Frame>, seen: seq<Frame>, buffer: bytes, incoming: seq<bytes>,
               accepts0: seq<bool>, ack0: bool, accepts: seq<bool>, ackSent: bool)
    requires Under(stream, filter, all, seen, buffer, incoming, accepts0, ack0, accepts, ackSent)
    requires ReadNext(buffer, incoming).Got?
    requires Judge(stream, filter, PayloadsOf(stream, seen), ReadNext(buffer, incoming).frame, ackSent, accepts).GoOn?
    ensures var r := ReadNext(buffer, incoming);
            var f := r.frame;
            && Under(stream, filter, all, seen + [f], AfterRead(r), r.incoming, accepts0, ack0,
                     AcceptsLeft(stream, f, ackSent, accepts), AckAfter(f, ackSent, accepts))
            && PayloadsOf(stream, seen + [f]) == PayloadsOf(stream, seen) + DataIn(stream, f)
            && Answers(stream, seen + [f], ack0) == Answers(stream, seen, ack0) + AnswerTo(stream, f, ackSent)
  {
    hide ReadNext, Ends, Spoils, Tracks, Judge, AnswerTo, Answers, AcceptsLeft, AckAfter, AfterRead, Arriving, PayloadsOf, AnyAsks,
      UpdatesSent, OwedFor;
    var r := ReadNext(buffer, incoming);
    var f := r.frame;
    ArrivingUnfolds(buffer, incoming);
    JudgeIs(stream, filter, seen, f, accepts0, ack0, accepts, ackSent);
    OneMore(stream, seen, f, ack0);
    AllSplits(all, seen, f, Arriving(AfterRead(r), r.incoming));
    assert Passes(stream, filter, all, |seen|, accepts0, ack0);
  }

  lemma AllSplits(all: seq<Frame>, seen: seq<Frame>, f: Frame, later: seq<Frame>)
    requires all == seen + ([f] + later)
    ensures all == (seen + [f]) + later && |seen| < |all| && all[..|seen|] == seen && all[|seen|] == f
  {
  }

  lemma ArrivingUnfolds(buffer: bytes, incoming: seq<bytes>)
    ensures var r := ReadNext(buffer, incoming);
            Arriving(buffer, incoming) == if r.Got? then [r.frame] + Arriving(AfterRead(r), r.incoming) else []
  {
    hide ReadNext, AfterRead;
    GotConsumes(buffer, incoming);
  }

  // The same for a further message.

  /** What is made of a frame while one is waited for. */
  function JudgeNext(stream: nat, payloads: seq<bytes>, f: Frame, ackSent: bool, accepts: seq<bool>): Verdict {
    if !Ours(stream, f) then GoOn
    else if f.kind == DATA then
      if AbsorbAll(FRESH, payloads + [f.payload], false).complete then Finish else if LastFlag(f) then Fail else GoOn
    else if f.kind == GO_AWAY || (f.kind == SETTINGS && f.stream != 0) || (TakesAck(f, ackSent) && !Accepted(accepts, 0)) then Fail
    else GoOn
  }

  function AckFor(f: Frame, ackSent: bool): seq<Frame> { if TakesAck(f, ackSent) then [SETTINGS_ACK] else [] }

  /** The one acknowledgement, if any of the frames asks for it and none has been sent before. */
  function AckIn(fs: seq<Frame>, ackSent: bool): seq<Frame> { if AnyAsks(fs) && !ackSent then [SETTINGS_ACK] else [] }

  function HandledNext(stream: nat, fs: seq<Frame>, k: nat, accepts: seq<bool>, ackSent: bool): (n: nat)
    requires k <= |fs|
    ensures k <= n <= |fs|
    decreases |fs| - k
  {
    if k == |fs| then k
    else if Waits(stream, fs, k, accepts, ackSent) then HandledNext(stream, fs, k + 1, accepts, ackSent)
    else k + 1
  }

  lemma {:induction false} HandledNextFrom(stream: nat, fs: seq<Frame>, j: nat, k: nat, accepts: seq<bool>, ackSent: bool)
    requires j <= k <= |fs| && forall i :: j <= i < k ==> Waits(stream, fs, i, accepts, ackSent)
    ensures HandledNext(stream, fs, j, accepts, ackSent) == HandledNext(stream, fs, k, accepts, ackSent)
    decreases k - j
  {
    hide Completes, Stops;
    if j < k {
      HandledNextFrom(stream, fs, j + 1, k, accepts, ackSent);
    }
  }

  predicate TracksNext(seen: seq<Frame>, accepts0: seq<bool>, ack0: bool, accepts: seq<bool>, ackSent: bool) {
    && (ackSent <==> ack0 || AnyAsks(seen))
    && accepts == Drop(accepts0, if !ack0 && AnyAsks(seen) then 1 else 0)
  }

  lemma JudgeNextIs(stream: nat, seen: seq<Frame>, f: Frame, accepts0: seq<bool>, ack0: bool, accepts: seq<bool>, ackSent: bool)
    requires TracksNext(seen, accepts0, ack0, accepts, ackSent)
    ensures var verdict := JudgeNext(stream, PayloadsOf(stream, seen), f, ackSent, accepts);
            && (verdict.Finish? <==> Completes(stream, seen, f))
            && (verdict.Fail? <==> !Completes(stream, seen, f) && Stops(stream, seen, f, accepts0, ack0))
            && (verdict != Fail ==>
                  TracksNext(seen + [f], accepts0, ack0, Drop(accepts, |AckFor(f, ackSent)|), AckAfter(f, ackSent, accepts)))
    ensures AckIn(seen + [f], ack0) == AckIn(seen, ack0) + AckFor(f, ackSent)
  {
    hide AbsorbAll, PayloadsOf, AnyAsks, Drop;
    OneMore(stream, seen, f, ack0);
    DropTwice(accepts0, 0, 0);
    AskingIsOurs(stream, f);
    TracksOn(seen, f, accepts0, ack0, accepts, ackSent);
    assert !TakesAck(f, ackSent) || Accepted(accepts, 0) || JudgeNext(stream, PayloadsOf(stream, seen), f, ackSent, accepts) == Fail;
  }

  lemma AskingIsOurs(stream: nat, f: Frame)
    ensures Asks(f) ==> Ours(stream, f) && f.kind != DATA
  {
  }

  lemma TracksOn(seen: seq<Frame>, f: Frame, accepts0: seq<bool>, ack0: bool, accepts: seq<bool>, ackSent: bool)
    requires TracksNext(seen, accepts0, ack0, accepts, ackSent)
    ensures !TakesAck(f, ackSent) || Accepted(accepts, 0) ==>
              TracksNext(seen + [f], accepts0, ack0, Drop(accepts, |AckFor(f, ackSent)|), AckAfter(f, ackSent, accepts))
    ensures AckIn(seen + [f], ack0) == AckIn(seen, ack0) + AckFor(f, ackSent)
  {
    hide AnyAsks, Drop;
    MoreAsks(seen, f);
    DropTwice(accepts0, 0, |AckFor(f, ackSent)|);
    DropTwice(accepts0, 1, 0);
  }

  /** Waiting for a message, with so many reads left. */
  predicate Hearing(stream: nat, all: seq<Frame>, seen: seq<Frame>, buffer: bytes, incoming: seq<bytes>, left: nat,
                    accepts0: seq<bool>, ack0: bool, accepts: seq<bool>, ackSent: bool)
  {
    && all == seen + Heard(buffer, incoming, left) && TracksNext(seen, accepts0, ack0, accepts, ackSent)
    && forall j :: 0 <= j < |seen| ==> Waits(stream, all, j, accepts0, ack0)
  }

  lemma HearingStarts(stream: nat, buffer: bytes, incoming: seq<bytes>, left: nat, accepts: seq<bool>, ackSent: bool)
    ensures Hearing(stream, Heard(buffer, incoming, left), [], buffer, incoming, left, accepts, ackSent, accepts, ackSent)
    ensures PayloadsOf(stream, []) == [] && AckIn([], ackSent) == []
  {
    hide Heard;
    assert [] + Heard(buffer, incoming, left) == Heard(buffer, incoming, left);
  }

  lemma HeardUnfolds(buffer: bytes, incoming: seq<bytes>, left: nat)
    requires left > 0
    ensures var r := ReadNext(buffer, incoming);
            Heard(buffer, incoming, left) == (if r.Got? then [r.frame] else []) + Heard(AfterRead(r), r.incoming, left - 1)
  {
    hide ReadNext, AfterRead;
  }

  lemma HearingEnds(stream: nat, all: seq<Frame>, seen: seq<Frame>, buffer: bytes, incoming: seq<bytes>,
                    accepts0: seq<bool>, ack0: bool, accepts: seq<bool>, ackSent: bool)
    requires Hearing(stream, all, seen, buffer, incoming, 0, accepts0, ack0, accepts, ackSent)
    ensures !Delivers(stream, all, accepts0, ack0)
    ensures AckIn(all[..HandledNext(stream, all, 0, accepts0, ack0)], ack0) == AckIn(seen, ack0)
  {
    hide Completes, Stops, Delivers;
    assert all == seen && all[..|all|] == all;
    DecidesNext(stream, all, |seen|, accepts0, ack0);
    HandledNextFrom(stream, all, 0, |seen|, accepts0, ack0);
  }

  lemma HearingFails(stream: nat, all: seq<Frame>, seen: seq<Frame>, buffer: bytes, incoming: seq<bytes>, left: nat,
                     accepts0: seq<bool>, ack0: bool, accepts: seq<bool>, ackSent: bool)
    requires left > 0 && Hearing(stream, all, seen, buffer, incoming, left, accepts0, ack0, accepts, ackSent)
    requires ReadNext(buffer, incoming).Nothing?
    ensures var r := ReadNext(buffer, incoming);
            Hearing(stream, all, seen, AfterRead(r), r.incoming, left - 1, accepts0, ack0, accepts, ackSent)
  {
    hide ReadNext, AfterRead, Heard, Waits, TracksNext;
    HeardUnfolds(buffer, incoming, left);
    var r := ReadNext(buffer, incoming);
    assert [] + Heard(AfterRead(r), r.incoming, left - 1) == Heard(AfterRead(r), r.incoming, left - 1);
  }

  lemma HearingOne(stream: nat, all: seq<Frame>, seen: seq<Frame>, buffer: bytes, incoming: seq<bytes>, left: nat,
                   accepts0: seq<bool>, ack0: bool, accepts: seq<bool>, ackSent: bool)
    requires left > 0 && Hearing(stream, all, seen, buffer, incoming, left, accepts0, ack0, accepts, ackSent)
    requires ReadNext(buffer, incoming).Got?
    ensures var r := ReadNext(buffer, incoming);
            var f := r.frame;
            var verdict := JudgeNext(stream, PayloadsOf(stream, seen), f, ackSent, accepts);
            && AckIn(seen + [f], ack0) == AckIn(seen, ack0) + AckFor(f, ackSent)
            && PayloadsOf(stream, seen + [f]) == PayloadsOf(stream, seen) + DataIn(stream, f)
            && (verdict.Finish? ==> Delivers(stream, all, accepts0, ack0))
            && (verdict.Fail? ==> !Delivers(stream, all, accepts0, ack0))
            && (verdict != GoOn ==> AckIn(all[..HandledNext(stream, all, 0, accepts0, ack0)], ack0) == AckIn(seen + [f], ack0))
            && (verdict.GoOn? ==> Hearing(stream, all, seen + [f], AfterRead(r), r.incoming, left - 1, accepts0, ack0,
                                          Drop(accepts, |AckFor(f, ackSent)|), AckAfter(f, ackSent, accepts)))
  {
    hide ReadNext, AfterRead, Heard, TracksNext, JudgeNext, AckIn, AckFor, AckAfter, Completes, Stops, Delivers, PayloadsOf, Answers,
      UpdatesSent, AnyAsks;
    var r := ReadNext(buffer, incoming);
    var f := r.frame;
    HeardUnfolds(buffer, incoming, left);
    AllSplits(all, seen, f, Heard(AfterRead(r), r.incoming, left - 1));
    assert all[..|seen| + 1] == seen + [f];
    JudgeNextIs(stream, seen, f, accepts0, ack0, accepts, ackSent);
    OneMore(stream, seen, f, ack0);
    DecidesNext(stream, all, |seen|, accepts0, ack0);
    HandledNextFrom(stream, all, 0, |seen|, accepts0, ack0);
  }

  // What has arrived is what was sent, and what is sent is what the standard says.

  /** A call that stops at the first failed read sees the first of the frames that any number of reads would return. */
  lemma {:induction false} ArrivingFirst(buffer: bytes, incoming: seq<bytes>)
    ensures Arriving(buffer, incoming) <= Frames(buffer, incoming)
    decreases |incoming|
  {
    hide ReadNext;
    ArrivingUnfolds(buffer, incoming);
    var r := ReadNext(buffer, incoming);
    if r.Got? {
      GotConsumes(buffer, incoming);
      DataAtFront(buffer, incoming);
      ArrivingFirst(AfterRead(r), r.incoming);
      FramesUnfold(buffer, incoming);
      assert AfterTaking(r) == AfterRead(r);
    }
  }

  /** So of the frames that the other side has sent a call sees the first few, in order. */
  lemma ArrivingInOrder(buffer: bytes, incoming: seq<bytes>, fs: seq<Frame>)
    requires NeverThrows(buffer, incoming) && buffer + Concat(incoming) <= Wire(fs)
    requires forall i :: 0 <= i < |fs| ==> Sendable(fs[i])
    ensures Arriving(buffer, incoming) <= fs
  {
    ArrivingFirst(buffer, incoming);
    FramesInOrder(buffer, incoming, fs);
  }

  /** Section 6.5 of RFC 7540: nothing but a header. */
  lemma SettingsAckBytes()
    ensures Serialise(SETTINGS_ACK) == [0, 0, 0, 4, 1, 0, 0, 0, 0]
  {
  }

  /** Section 6.9: the stream and the increment, each of four bytes with the highest first. */
  lemma WindowUpdateBytes(stream: nat, n: nat)
    requires stream < TWO31 && n < TWO32
    ensures var b := Serialise(WindowUpdate(stream, n));
            && |b| == 13 && b[..5] == [0, 0, 4, 8, 0]
            && TWO24 * b[5] as nat + TWO16 * b[6] as nat + 256 * b[7] as nat + b[8] as nat == stream
            && TWO24 * b[9] as nat + TWO16 * b[10] as nat + 256 * b[11] as nat + b[12] as nat == n
  {
    hide Be32, FromBe32;
    Be32RoundTrip(stream);
    Be32RoundTrip(n);
    var b := [0, 0, 4, 8, 0] + Be32(stream) + Be32(n);
    assert Serialise(WindowUpdate(stream, n)) == b by {
      assert Be24(4) == [0, 0, 4];
    }
    assert b[5..9] == Be32(stream) && b[9..] == Be32(n);
    FourBytes(b[5..9]);
    FourBytes(b[9..]);
  }

  lemma FourBytes(b: bytes)
    requires |b| == 4
    ensures TWO24 * b[0] as nat + TWO16 * b[1] as nat + 256 * b[2] as nat + b[3] as nat == FromBe32(b)
  {
  }
}
