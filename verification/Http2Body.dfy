/** What components/tailscale/http2_session.cpp makes of a response body, one DATA frame at a time. */
module Http2Body {
  import opened Bytes
  import opened Json
  import opened JsonStream
  import opened Completion

  const FILTERED_SIZE: nat := 65536

  function ToText(b: bytes): (s: string)
    ensures |s| == |b| && forall i :: 0 <= i < |b| ==> s[i] == b[i] as char
  {
    seq(|b|, i requires 0 <= i < |b| => b[i] as char)
  }

  lemma ToTextSplits(a: bytes, b: bytes)
    ensures ToText(a + b) == ToText(a) + ToText(b)
  {
  }

  /** The state between frames: `text` is what the response buffer holds for the caller. */
  datatype Body = Body(parser: Parser, parsing: bool, complete: bool, text: string, processed: nat)

  const FRESH: Body := Body(START, false, false, "", 0)

  /** A four-byte length in front of the first frame's object. */
  predicate Prefixed(b: Body, payload: bytes) {
    b.processed == 0 && |payload| >= 5 && payload[0] != 123 && payload[4] == 123
  }

  function Clip(s: string): string { s[..Min(|s|, FILTERED_SIZE - 1)] }

  /** Through the extractor, or into the buffer as far as there is room. */
  function AbsorbJson(b: Body, json: string, filter: bool): Body {
    if filter then
      if b.complete then b
      else
        var f := Feed(b.parser, json);
        var done := f.done && f.p.found;
        Body(f.p, true, done, if done then Clip(f.p.emitted) else b.text, b.processed + |json|)
    else
      var room := if |b.text| < FILTERED_SIZE then FILTERED_SIZE - 1 - |b.text| else 0;
      var n := Min(|json|, room);
      var text := b.text + json[..n];
      Body(b.parser, true, b.complete || (n > 0 && Complete(text)), text, b.processed + |json|)
  }

  /** One DATA frame. */
  function Absorb(b: Body, payload: bytes, filter: bool): Body {
    var json := ToText(if Prefixed(b, payload) then payload[4..] else payload);
    if b.parsing || Prefixed(b, payload) || (!filter && b.processed == 0)
    then AbsorbJson(b.(parsing := true), json, filter)
    else b
  }

  function AbsorbAll(b: Body, payloads: seq<bytes>, filter: bool): Body
    decreases |payloads|
  {
    if payloads == [] then b else AbsorbAll(Absorb(b, payloads[0], filter), payloads[1..], filter)
  }

  lemma {:induction false} AbsorbLast(b: Body, payloads: seq<bytes>, last: bytes, filter: bool)
    ensures AbsorbAll(b, payloads + [last], filter) == Absorb(AbsorbAll(b, payloads, filter), last, filter)
    decreases |payloads|
  {
    if payloads == [] {
      assert [] + [last] == [last] && [last][1..] == [];
    } else {
      assert (payloads + [last])[1..] == payloads[1..] + [last];
      AbsorbLast(Absorb(b, payloads[0], filter), payloads[1..], last, filter);
    }
  }

  // The filtered body is the Node member.

  predicate Filtering(b: Body) { b.parsing && !b.complete && b.processed > 0 && b.text == "" }

  lemma {:induction false} FilterIsFeed(b: Body, payloads: seq<bytes>)
    requires Filtering(b) && (Feed(b.parser, ToText(Concat(payloads))).done ==> Feed(b.parser, ToText(Concat(payloads))).p.found)
    ensures var r, f := AbsorbAll(b, payloads, true), Feed(b.parser, ToText(Concat(payloads)));
            && r.parsing && (r.complete <==> f.done) && r.text == (if f.done then Clip(f.p.emitted) else "")
            && (!f.done ==> r.parser == f.p)
    decreases |payloads|
  {
    if payloads != [] {
      var json, rest := ToText(payloads[0]), ToText(Concat(payloads[1..]));
      ToTextSplits(payloads[0], Concat(payloads[1..]));
      FeedSplits(b.parser, json, rest);
      var b' := Absorb(b, payloads[0], true);
      if b'.complete {
        CompleteStays(b', payloads[1..]);
      } else {
        assert !Feed(b.parser, json).done;
        FilterIsFeed(b', payloads[1..]);
      }
    }
  }

  lemma {:induction false} CompleteStays(b: Body, payloads: seq<bytes>)
    requires b.complete && b.parsing
    ensures AbsorbAll(b, payloads, true) == b
    decreases |payloads|
  {
    if payloads != [] {
      assert Absorb(b, payloads[0], true) == b;
      CompleteStays(b, payloads[1..]);
    }
  }

  /** A completed capture has found its member. */
  lemma {:induction false} FoundWhenDone(p: Parser, s: string)
    requires p.capturing ==> p.found
    ensures Feed(p, s).done ==> Feed(p, s).p.found
    ensures Feed(p, s).p.capturing ==> Feed(p, s).p.found
    decreases |s|
  {
    if s != "" {
      var (q, done) := Step(p, s[0]);
      if !done {
        FoundWhenDone(q, s[1..]);
      }
    }
  }

  /** What there is behind the first length that is recognised, in whichever frame that is. */
  function FromLength(payloads: seq<bytes>): Option<bytes> {
    if payloads == [] then None
    else if Prefixed(FRESH, payloads[0]) then Some(payloads[0][4..] + Concat(payloads[1..]))
    else FromLength(payloads[1..])
  }

  lemma {:induction false} FromFirst(payloads: seq<bytes>, k: nat)
    requires k <= |payloads| && forall i :: 0 <= i < k ==> !Prefixed(FRESH, payloads[i])
    requires k < |payloads| ==> Prefixed(FRESH, payloads[k])
    ensures if k == |payloads| then FromLength(payloads) == None
            else |Concat(payloads[k..])| >= 4 && FromLength(payloads) == Some(Concat(payloads[k..])[4..])
    decreases k
  {
    if k > 0 {
      assert payloads[1..][k - 1..] == payloads[k..];
      FromFirst(payloads[1..], k - 1);
    } else if payloads != [] {
      assert payloads[0..] == payloads;
      assert (payloads[0] + Concat(payloads[1..]))[4..] == payloads[0][4..] + Concat(payloads[1..]);
    }
  }

  /** Whatever the frames hold and however they are divided: without a length in front of any of them everything is
      discarded; otherwise the body is what the extractor makes of the text behind the first. */
  lemma {:induction false} FilterIs(payloads: seq<bytes>)
    ensures var r := AbsorbAll(FRESH, payloads, true);
            match FromLength(payloads)
            case None => r == FRESH
            case Some(json) =>
              var f := Feed(START, ToText(json));
              && r.parsing && (r.complete <==> f.done) && r.text == (if f.done then Clip(f.p.emitted) else "")
              && (!f.done ==> r.parser == f.p)
    decreases |payloads|
  {
    hide Feed, Prefixed;
    if payloads != [] {
      if Prefixed(FRESH, payloads[0]) {
        FilterStarts(payloads[0], payloads[1..]);
      } else {
        assert Absorb(FRESH, payloads[0], true) == FRESH;
        FilterIs(payloads[1..]);
      }
    }
  }

  lemma FilterStarts(first: bytes, later: seq<bytes>)
    requires Prefixed(FRESH, first)
    ensures var r, f := AbsorbAll(FRESH, [first] + later, true), Feed(START, ToText(first[4..] + Concat(later)));
            && r.parsing && (r.complete <==> f.done) && r.text == (if f.done then Clip(f.p.emitted) else "")
            && (!f.done ==> r.parser == f.p)
  {
    hide Feed;
    var json := first[4..];
    ToTextSplits(json, Concat(later));
    FeedSplits(START, ToText(json), ToText(Concat(later)));
    FoundWhenDone(START, ToText(json));
    FoundWhenDone(START, ToText(json + Concat(later)));
    assert ([first] + later)[1..] == later;
    var b := Absorb(FRESH, first, true);
    if b.complete {
      CompleteStays(b, later);
    } else {
      FilterIsFeed(b, later);
    }
  }

  // A length and a text.

  /** The frames from the first that holds anything. */
  function Filled(payloads: seq<bytes>): seq<bytes> {
    if payloads == [] || payloads[0] != [] then payloads else Filled(payloads[1..])
  }

  /** The length and the byte behind it come in one frame. */
  predicate Together(payloads: seq<bytes>) { Filled(payloads) != [] && |Filled(payloads)[0]| >= 5 }

  lemma {:induction false} FilledConcat(payloads: seq<bytes>)
    ensures Concat(Filled(payloads)) == Concat(payloads) && (Filled(payloads) != [] ==> Filled(payloads)[0] != [])
    ensures FromLength(Filled(payloads)) == FromLength(payloads) && (Filled(payloads) == [] <==> Concat(payloads) == [])
    decreases |payloads|
  {
    if payloads != [] && payloads[0] == [] {
      FilledConcat(payloads[1..]);
    }
  }

  /** A length and an object behind it, or the beginning of both. */
  predicate LengthLed(p: bytes, all: bytes) { |p| == 4 && p <= all && (|all| > 4 ==> all[4] == 123) }

  /** The length is recognised where it stands if and only if it comes with the byte behind it and does not start with a
      brace. */
  lemma TogetherIff(p: bytes, payloads: seq<bytes>)
    requires LengthLed(p, Concat(payloads))
    ensures Filled(payloads) != [] && (Prefixed(FRESH, Filled(payloads)[0]) <==> Together(payloads) && p[0] != 123)
    ensures Together(payloads) && p[0] != 123 ==> FromLength(payloads) == Some(Concat(payloads)[4..])
  {
    FilledConcat(payloads);
    var fs := Filled(payloads);
    assert Concat(fs) == fs[0] + Concat(fs[1..]);
    assert fs[0][0] == Concat(payloads)[0] == p[0];
    if |fs[0]| >= 5 {
      assert fs[0][4] == Concat(payloads)[4];
      assert fs[0][4..] + Concat(fs[1..]) == Concat(payloads)[4..];
    }
  }

  /** A response that is a length and then a text with a Node object, the length in one frame with the byte behind it: the
      body is complete from the frame that brings the object's closing brace, and its text is that member alone. */
  lemma FilterDelivers(pad: string, ms: Fields, tail: string, p: bytes, payloads: seq<bytes>)
    requires AllSpace(pad) && GoodFields(ms, true) && HasNode(ms) && NodeOf(ms).value.Object?
    requires Together(payloads) && |p| == 4 && p[0] != 123 && p <= Concat(payloads)
    requires ToText(Concat(payloads)[4..]) <= Whole("", pad, ms) + tail
    ensures var r := AbsorbAll(FRESH, payloads, true);
            && (r.complete <==> |Concat(payloads)| - 4 >= |Opening("", pad) + UpToNode(ms)|)
            && (r.complete ==> r.text == Clip(Extract(NodeOf(ms).key.gap, NodeOf(ms).value)))
  {
    hide Feed, UpToNode, Extract, GoodFields, HasNode, NodeOf, Together;
    var json := Concat(payloads)[4..];
    assert LengthLed(p, Concat(payloads)) by {
      assert |json| > 0 ==> ToText(json)[0] == Whole("", pad, ms)[0] == '{';
    }
    TogetherIff(p, payloads);
    FilterIs(payloads);
    var pieces := [ToText(json)];
    assert Concat(pieces) == ToText(json);
    NodeExtracted("", pad, ms, pieces, tail);
    assert FeedAll(START, pieces) == Feed(START, ToText(json));
  }

  /** Cut off from the text, the length is not recognised, and a text that comes in one frame is lost. */
  lemma SplitLengthDiscarded(p: bytes, t: bytes)
    requires |p| == 4 && t != [] && t[0] == 123
    ensures AbsorbAll(FRESH, [p, t], true) == FRESH
  {
    FilterNeedsPrefix([p, t]);
  }

  /** Filtering starts only at a frame with a length in front; until there is one, everything is discarded. */
  lemma {:induction false} FilterNeedsPrefix(payloads: seq<bytes>)
    requires forall i :: 0 <= i < |payloads| ==> !Prefixed(FRESH, payloads[i])
    ensures AbsorbAll(FRESH, payloads, true) == FRESH
    decreases |payloads|
  {
    if payloads != [] {
      assert Absorb(FRESH, payloads[0], true) == FRESH;
      FilterNeedsPrefix(payloads[1..]);
    }
  }

  // The full body.

  /** The bytes that are not buffered: a length, if the first frame that holds anything holds it and an opening brace. */
  function Skipped(payloads: seq<bytes>): (n: nat)
    ensures n <= |Concat(payloads)|
  {
    var fs := Filled(payloads);
    FilledConcat(payloads);
    if fs != [] && Prefixed(FRESH, fs[0]) then 4 else 0
  }

  function Buffered(payloads: seq<bytes>): string { ToText(Concat(payloads)[Skipped(payloads)..]) }

  /** After some frame what is in the buffer is recognised. */
  predicate Recognised(payloads: seq<bytes>) {
    exists i :: 0 <= i <= |payloads| && Complete(Clip(Buffered(payloads[..i])))
  }

  predicate FullState(payloads: seq<bytes>, b: Body) {
    && b.text == Clip(Buffered(payloads)) && b.processed == |Buffered(payloads)| && (b.processed > 0 ==> b.parsing)
    && (b.complete <==> Recognised(payloads))
  }

  lemma {:induction false} FilledOneMore(payloads: seq<bytes>, last: bytes)
    ensures Filled(payloads + [last])
            == if Filled(payloads) != [] then Filled(payloads) + [last] else if last == [] then [] else [last]
    decreases |payloads|
  {
    if payloads == [] {
      assert [] + [last] == [last] && [last][1..] == [];
    } else if payloads[0] == [] {
      assert (payloads + [last])[1..] == payloads[1..] + [last];
      FilledOneMore(payloads[1..], last);
    }
  }

  /** One more frame, and what it adds to the buffer. */
  lemma BufferedOneMore(payloads: seq<bytes>, last: bytes)
    ensures var skip := if Buffered(payloads) == "" && Prefixed(FRESH, last) then 4 else 0;
            Buffered(payloads + [last]) == Buffered(payloads) + ToText(last[skip..])
  {
    hide ToText, Concat;
    var all := Concat(payloads);
    FilledConcat(payloads);
    FilledOneMore(payloads, last);
    ConcatLast(payloads, last);
    BufferedSome(payloads);
    if all == [] {
      assert [] + last == last && last[0..] == last;
      NoText();
    } else {
      var n := Skipped(payloads);
      assert (all + last)[n..] == all[n..] + last && last[0..] == last;
      ToTextSplits(all[n..], last);
    }
  }

  lemma NoText()
    ensures ToText([]) == ""
  {
  }

  lemma BufferedSome(payloads: seq<bytes>)
    ensures Buffered(payloads) == "" <==> Concat(payloads) == []
  {
    FilledConcat(payloads);
    var fs := Filled(payloads);
    if fs != [] {
      assert Concat(fs) == fs[0] + Concat(fs[1..]);
    }
  }

  lemma RecognisedOneMore(payloads: seq<bytes>, last: bytes)
    ensures Recognised(payloads + [last]) <==> Recognised(payloads) || Complete(Clip(Buffered(payloads + [last])))
  {
    hide Complete, Buffered, Clip;
    var all := payloads + [last];
    assert all[..|all|] == all;
    assert forall i :: 0 <= i <= |payloads| ==> all[..i] == payloads[..i];
  }

  lemma FullStep(payloads: seq<bytes>, last: bytes, b: Body)
    requires FullState(payloads, b)
    ensures FullState(payloads + [last], Absorb(b, last, false))
  {
    hide Complete, Buffered, Recognised;
    var skip := if Buffered(payloads) == "" && Prefixed(FRESH, last) then 4 else 0;
    BufferedOneMore(payloads, last);
    RecognisedOneMore(payloads, last);
    AlreadySeen(payloads);
    var held, json := Buffered(payloads), ToText(last[skip..]);
    assert last[0..] == last;
    var room := FILTERED_SIZE - 1 - |b.text|;
    assert Clip(held) + json[..Min(|json|, room)] == Clip(held + json);
    var r := Absorb(b, last, false);
    assert Prefixed(b, last) <==> skip == 4;
    assert r.text == Clip(held + json);
    assert Min(|json|, room) == 0 ==> r.text == b.text;
  }

  lemma AlreadySeen(payloads: seq<bytes>)
    ensures Complete(Clip(Buffered(payloads))) ==> Recognised(payloads)
  {
    hide Complete, Buffered, Clip;
    assert payloads[..|payloads|] == payloads;
  }

  /** Whatever the frames hold and however they are divided: the buffer holds what came, clipped and without the length if
      it was recognised, and the body is complete if the detector recognised it after any of the frames. */
  lemma {:induction false} FullIs(payloads: seq<bytes>)
    ensures FullState(payloads, AbsorbAll(FRESH, payloads, false))
    decreases |payloads|
  {
    hide FullState, Absorb;
    if payloads == [] {
      FullStarts();
    } else {
      var before, last := payloads[..|payloads| - 1], payloads[|payloads| - 1];
      assert payloads == before + [last];
      FullIs(before);
      AbsorbLast(FRESH, before, last, false);
      FullStep(before, last, AbsorbAll(FRESH, before, false));
    }
  }

  lemma FullStarts()
    ensures FullState([], FRESH)
  {
    var none: seq<bytes> := [];
    assert Buffered(none) == "" && !Complete("") && Clip("") == "";
    assert forall i :: 0 <= i <= 0 ==> none[..i] == none;
  }

  lemma {:induction false} BufferedGrows(payloads: seq<bytes>, i: nat)
    requires i <= |payloads|
    ensures Buffered(payloads[..i]) <= Buffered(payloads)
    decreases |payloads| - i
  {
    hide Buffered, Prefixed;
    if i == |payloads| {
      assert payloads[..i] == payloads;
    } else {
      assert payloads[..i + 1] == payloads[..i] + [payloads[i]];
      BufferedOneMore(payloads[..i], payloads[i]);
      BufferedGrows(payloads, i + 1);
    }
  }

  /** The detector on any part of an object's text. */
  lemma PartCompletes(v: Value, part: string)
    requires Good(v) && v.Object? && part <= Show(v)
    ensures Complete(part) <==> part == Show(v) && |Show(v)| >= WINDOW
  {
    assert part == Show(v)[..|part|];
    if |part| < |Show(v)| {
      PrefixIncomplete(v, |part|);
    } else {
      CompleteIffHundred(v);
    }
  }

  /** If of all that may be buffered only the whole text is recognised, it is when all of it has come and fits. */
  lemma RecognisedIff(payloads: seq<bytes>, whole: string, good: bool)
    requires Buffered(payloads) <= whole
    requires forall part :: part <= whole ==> (Complete(part) <==> part == whole && good)
    ensures Recognised(payloads) <==> Buffered(payloads) == whole && |whole| < FILTERED_SIZE && good
  {
    hide Complete, Buffered;
    forall i | 0 <= i <= |payloads| && Complete(Clip(Buffered(payloads[..i])))
      ensures Buffered(payloads) == whole && |whole| < FILTERED_SIZE && good
    {
      BufferedGrows(payloads, i);
      assert Clip(Buffered(payloads[..i])) <= whole;
    }
    AlreadySeen(payloads);
  }

  /** An object with or without a length in front, the length in one frame with the byte behind it: the body is complete
      with the frame that completes the object, from a hundred bytes on and as long as it fits the buffer. */
  lemma FullDelivers(v: Value, p: bytes, payloads: seq<bytes>)
    requires Good(v) && v.Object? && (p == [] || (|p| == 4 && p[0] != 123 && Together(payloads)))
    requires p <= Concat(payloads) && ToText(Concat(payloads)[|p|..]) <= Show(v)
    ensures var r := AbsorbAll(FRESH, payloads, false);
            var came := ToText(Concat(payloads)[|p|..]);
            r.text == Clip(came) && (r.complete <==> came == Show(v) && WINDOW <= |Show(v)| < FILTERED_SIZE)
  {
    SkipsLength(v, p, payloads);
    hide Show, Good, Complete, Together;
    FullIs(payloads);
    forall part | part <= Show(v) ensures Complete(part) <==> part == Show(v) && |Show(v)| >= WINDOW {
      PartCompletes(v, part);
    }
    RecognisedIff(payloads, Show(v), |Show(v)| >= WINDOW);
  }

  lemma SkipsLength(v: Value, p: bytes, payloads: seq<bytes>)
    requires v.Object? && (p == [] || |p| == 4)
    requires p <= Concat(payloads) && ToText(Concat(payloads)[|p|..]) <= Show(v)
    ensures Skipped(payloads) == if p != [] && p[0] != 123 && Together(payloads) then 4 else 0
  {
    hide Concat;
    OpensWithBrace(v);
    hide Show;
    var all := Concat(payloads);
    FilledConcat(payloads);
    if p != [] {
      assert |all| > 4 ==> ToText(all[4..])[0] == '{';
      TogetherIff(p, payloads);
    } else if all != [] {
      assert ToText(all)[0] == '{' && all[0..] == all;
      var fs := Filled(payloads);
      ConcatUnfolds(fs);
      assert fs[0][0] == all[0];
    }
  }

  /** Behind the length nothing short of the whole object is recognised, whatever length it is. */
  lemma PrefixedPart(p: string, v: Value, part: string)
    requires Good(v) && v.Object? && |p| == 4 && p[0] != '{' && part <= p + Show(v)
    ensures part != p + Show(v) ==> !Complete(part)
  {
    OpensWithBrace(v);
    hide Show, Good, JsonComplete, FromLe32;
    var t := Show(v);
    if 4 < |part| < 4 + |t| {
      var k := |part| - 4;
      assert part == p + t[..k] && part[4] == t[0] == '{' && part[0] == p[0];
      assert part[4..] == t[..k];
      PrefixDoesNot(part, 4, v, k);
    }
  }

  /** With the length cut off from the object it is buffered as well, and the body is complete with the frame that
      completes the object from 96 bytes on, as long as both fit the buffer. */
  lemma SplitLengthBuffered(v: Value, p: bytes, payloads: seq<bytes>)
    requires Good(v) && v.Object? && |p| == 4 && p[0] != 123 && !Together(payloads) && Announced(ToText(p)) == |Show(v)|
    requires p <= Concat(payloads) && ToText(Concat(payloads)[4..]) <= Show(v)
    ensures var r := AbsorbAll(FRESH, payloads, false);
            var came := ToText(Concat(payloads)[4..]);
            r.text == Clip(ToText(p) + came)
            && (r.complete <==> came == Show(v) && WINDOW - 4 <= |Show(v)| && 4 + |Show(v)| < FILTERED_SIZE)
  {
    SkipsLength(v, p, payloads);
    hide Show, Good, Complete, Together, Announced, Recognised;
    FullIs(payloads);
    var all, whole := Concat(payloads), ToText(p) + Show(v);
    assert all == p + all[4..] && all[0..] == all;
    ToTextSplits(p, all[4..]);
    assert Buffered(payloads) == ToText(p) + ToText(all[4..]);
    SplitRecognised(v, p, payloads);
  }

  lemma SplitRecognised(v: Value, p: bytes, payloads: seq<bytes>)
    requires Good(v) && v.Object? && |p| == 4 && p[0] != 123 && Announced(ToText(p)) == |Show(v)|
    requires Buffered(payloads) <= ToText(p) + Show(v)
    ensures Recognised(payloads)
            <==> Buffered(payloads) == ToText(p) + Show(v) && WINDOW - 4 <= |Show(v)| && 4 + |Show(v)| < FILTERED_SIZE
  {
    hide Show, Good, Complete, Announced, Buffered;
    var q, t := ToText(p), Show(v);
    var whole := q + t;
    forall i | 0 <= i <= |payloads| && Complete(Clip(Buffered(payloads[..i])))
      ensures Buffered(payloads) == whole && |whole| < FILTERED_SIZE && WINDOW - 4 <= |t|
    {
      BufferedGrows(payloads, i);
      PrefixedPart(q, v, Clip(Buffered(payloads[..i])));
      PrefixedWhole(q, v);
    }
    if |whole| < FILTERED_SIZE {
      PrefixedWhole(q, v);
      assert Clip(whole) == whole;
    }
    AlreadySeen(payloads);
  }

  lemma PrefixedWhole(p: string, v: Value)
    requires Good(v) && v.Object? && |p| == 4 && p[0] != '{' && Announced(p) == |Show(v)| && |Show(v)| + 4 < FILTERED_SIZE
    ensures Complete(p + Show(v)) <==> |Show(v)| >= WINDOW - 4
  {
    hide Show, Good, Complete, Announced;
    PrefixedComplete(p, v, |Show(v)|);
    assert Show(v)[..|Show(v)|] == Show(v);
  }

  /** A length whose first byte is a brace is buffered wherever it comes.  If its bytes end outside strings and leave no
      brace closed too many, the body is complete with the frame that completes the object if and only if they leave
      none open, again from 96 bytes on and as long as both fit. */
  lemma BraceLengthBuffered(v: Value, p: bytes, payloads: seq<bytes>, d: int)
    requires Good(v) && v.Object? && |p| == 4 && p[0] == 123
    requires AtBrace(ScanAll(Clean(0), ToText(p))) == Clean(d) && d >= 0
    requires p <= Concat(payloads) && ToText(Concat(payloads)[4..]) <= Show(v)
    ensures var r := AbsorbAll(FRESH, payloads, false);
            var came := ToText(Concat(payloads)[4..]);
            r.text == Clip(ToText(p) + came)
            && (r.complete <==> d == 0 && came == Show(v) && WINDOW - 4 <= |Show(v)| && 4 + |Show(v)| < FILTERED_SIZE)
  {
    SkipsLength(v, p, payloads);
    hide Show, Good, Complete, Together, ScanAll, AtBrace, Recognised;
    FullIs(payloads);
    var all, q, t := Concat(payloads), ToText(p), Show(v);
    assert all == p + all[4..] && all[0..] == all;
    ToTextSplits(p, all[4..]);
    assert Buffered(payloads) == q + ToText(all[4..]);
    forall part | part <= q + t ensures Complete(part) <==> part == q + t && d == 0 && |t| >= WINDOW - 4 {
      BracePart(q, v, d, part);
    }
    RecognisedIff(payloads, q + t, d == 0 && |t| >= WINDOW - 4);
  }

  lemma BracePart(p: string, v: Value, d: int, part: string)
    requires Good(v) && v.Object? && |p| == 4 && p[0] == '{' && part <= p + Show(v)
    requires AtBrace(ScanAll(Clean(0), p)) == Clean(d) && d >= 0
    ensures Complete(part) <==> part == p + Show(v) && d == 0 && |Show(v)| >= WINDOW - 4
  {
    var t := Show(v);
    if |part| < 4 {
      assert part[..] == part;
    } else {
      hide Show, Good, Complete, ScanAll, AtBrace;
      BraceLengthIff(p, v, |part| - 4, d);
      assert part == p + t[..|part| - 4];
      assert t[..|t|] == t;
    }
  }
}
