/** components/tailscale/json_stream_parser.h: extracts the top-level Node member of a JSON object that arrives in
    pieces, and discards the rest. */
module JsonStream {
  import opened Bytes
  import opened Json

  const NAME_ROOM: nat := 32
  const NODE: string := "Node"
  const DERP_MAP: string := "DERPMap"
  const NODE_FIELD: string := "\"Node\":"

  datatype State = SeekingField | InFieldName | ExpectColon | InValue

  /** The parser's variables.  `name` is the filled part of the name buffer, `emitted` everything meant for the
      output, of which the buffer takes what fits. */
  datatype Parser = Parser(state: State, depth: int, inString: bool, escape: bool, capturing: bool, captureDepth: int,
                           found: bool, name: string, emitted: string)

  const START: Parser := Parser(SeekingField, 0, false, false, false, -1, false, "", "")

  function Emit(p: Parser, s: string): Parser { if p.capturing then p.(emitted := p.emitted + s) else p }

  /** What strcmp sees of the name. */
  function CString(s: string): string { if s == "" || s[0] == '\0' then "" else [s[0]] + CString(s[1..]) }

  function StepInString(p: Parser, c: char): Parser {
    if p.escape then Emit(p.(escape := false), [c])
    else if c == '\\' then Emit(p.(escape := true), [c])
    else if c == '"' then
      Emit(p.(inString := false, state := if p.state == InFieldName && p.depth == 1 then ExpectColon else p.state), [c])
    else if p.state == InFieldName && |p.name| < NAME_ROOM - 1 then Emit(p.(name := p.name + [c]), [c])
    else Emit(p, [c])
  }

  function StepColon(p: Parser): Parser {
    if p.state != ExpectColon then Emit(p, ":")
    else if CString(p.name) == NODE then
      p.(capturing := true, captureDepth := p.depth + 1, found := true, state := InValue,
         emitted := p.emitted + (if p.emitted == "" then "{" else "") + NODE_FIELD)
    else if CString(p.name) == DERP_MAP then p.(capturing := false, captureDepth := p.depth + 1, state := InValue)
    else Emit(p.(state := InValue), ":")
  }

  /** The next state, and whether this character completes the captured member. */
  function Step(p: Parser, c: char): (Parser, bool) {
    if p.inString then (StepInString(p, c), false)
    else if c == '"' then
      var q := if p.state == SeekingField && p.depth == 1 then p.(inString := true, state := InFieldName, name := "")
               else p.(inString := true);
      (Emit(q, [c]), false)
    else if c == ':' then (StepColon(p), false)
    else if c == '{' then (Emit(p.(depth := p.depth + 1), [c]), false)
    else if c == '}' then
      var q := Emit(p, [c]).(depth := p.depth - 1);
      if q.state == InValue && q.depth < q.captureDepth then
        if q.capturing then (q.(emitted := q.emitted + "}"), true)
        else (q.(capturing := false, state := SeekingField, captureDepth := -1), false)
      else (q, false)
    else if c == ',' then
      (if p.depth == 1 then Emit(p, [c]).(state := SeekingField, name := "") else Emit(p, [c]), false)
    else (Emit(p, [c]), false)
  }

  /** Stops at the completing character; what follows it in the piece is dropped. */
  datatype Fed = Fed(p: Parser, done: bool)

  function Feed(p: Parser, s: string): Fed
    decreases |s|
  {
    if s == "" then Fed(p, false)
    else
      var (q, done) := Step(p, s[0]);
      if done then Fed(q, true) else Feed(q, s[1..])
  }

  function Then(f: Fed, s: string): Fed { if f.done then f else Feed(f.p, s) }

  lemma {:induction false} FeedSplits(p: Parser, a: string, b: string)
    ensures Feed(p, a + b) == Then(Feed(p, a), b)
    decreases |a|
  {
    if a == "" {
      assert a + b == b;
    } else {
      assert (a + b)[1..] == a[1..] + b;
      if !Step(p, a[0]).1 {
        FeedSplits(Step(p, a[0]).0, a[1..], b);
      }
    }
  }

  /** Pieces are fed until one completes the member. */
  function FeedAll(p: Parser, pieces: seq<string>): Fed
    decreases |pieces|
  {
    if pieces == [] then Fed(p, false)
    else
      var f := Feed(p, pieces[0]);
      if f.done then f else FeedAll(f.p, pieces[1..])
  }

  /** How the text is cut does not matter. */
  lemma {:induction false} PiecesDoNotMatter(p: Parser, pieces: seq<string>)
    ensures FeedAll(p, pieces) == Feed(p, Concat(pieces))
    decreases |pieces|
  {
    if pieces != [] {
      FeedSplits(p, pieces[0], Concat(pieces[1..]));
      if !Feed(p, pieces[0]).done {
        PiecesDoNotMatter(Feed(p, pieces[0]).p, pieces[1..]);
      }
    }
  }

  // Text that leaves the state as it is.

  predicate Quiet(p: Parser) { !p.inString && !p.escape }

  /** Feeding s only emits it. */
  predicate Through(p: Parser, s: string) { Feed(p, s) == Fed(Emit(p, s), false) }

  lemma ThroughBoth(p: Parser, a: string, b: string)
    requires Through(p, a) && Through(Emit(p, a), b)
    ensures Through(p, a + b)
  {
    FeedSplits(p, a, b);
    assert p.emitted + a + b == p.emitted + (a + b);
  }

  lemma FeedOne(p: Parser, c: char)
    ensures Feed(p, [c]) == Fed(Step(p, c).0, Step(p, c).1)
  {
    assert [c][1..] == "";
  }

  /** Characters that are neither structural nor part of a string pass through. */
  lemma {:induction false} FeedPlain(p: Parser, s: string)
    requires Quiet(p) && forall i :: 0 <= i < |s| ==> s[i] in {'[', ']'} || !Structural(s[i])
    ensures Through(p, s)
    decreases |s|
  {
    if s != "" {
      var q := Step(p, s[0]).0;
      FeedPlain(q, s[1..]);
      assert [s[0]] + s[1..] == s;
      assert p.emitted + [s[0]] + s[1..] == p.emitted + ([s[0]] + s[1..]);
    }
  }

  /** What is kept of a name: its plain characters; escapes vanish. */
  function Kept(i: Item): string { if i.Plain? then [i.c] else "" }

  function Stripped(items: seq<Item>): string { if items == [] then "" else Kept(items[0]) + Stripped(items[1..]) }

  function Room(name: string, s: string): string {
    name + s[..Min(|s|, if |name| < NAME_ROOM - 1 then NAME_ROOM - 1 - |name| else 0)]
  }

  lemma RoomTwice(name: string, a: string, b: string)
    ensures Room(Room(name, a), b) == Room(name, a + b)
  {
    if |name| + |a| < NAME_ROOM - 1 {
      assert Room(name, a) == name + a;
    }
  }

  function Naming(p: Parser, s: string): Parser { if p.state == InFieldName then p.(name := Room(p.name, s)) else p }

  predicate GoodItem(i: Item) { i.Plain? ==> i.c != '"' && i.c != '\\' && i.c != '\0' }

  lemma FeedItem(p: Parser, i: Item)
    requires p.inString && !p.escape && GoodItem(i)
    ensures Feed(p, ShowItem(i)) == Fed(Emit(Naming(p, Kept(i)), ShowItem(i)), false)
  {
    hide Feed;
    if i.Plain? {
      FeedOne(p, i.c);
    } else {
      FeedOne(p, '\\');
      var q := Step(p, '\\').0;
      FeedOne(q, i.c);
      assert ['\\', i.c] == ['\\'] + [i.c];
      FeedSplits(p, ['\\'], [i.c]);
      assert p.emitted + ['\\'] + [i.c] == p.emitted + ['\\', i.c];
    }
  }

  lemma NamingTwice(p: Parser, a: string, x: string, b: string, y: string)
    ensures Emit(Naming(Emit(Naming(p, a), x), b), y) == Emit(Naming(p, a + b), x + y)
  {
    RoomTwice(p.name, a, b);
    assert p.emitted + x + y == p.emitted + (x + y);
  }

  lemma StillInString(p: Parser, i: Item)
    requires p.inString && !p.escape
    ensures var q := Emit(Naming(p, Kept(i)), ShowItem(i)); q.inString && !q.escape
  {
  }

  /** The inside of a string. */
  lemma {:induction false} FeedItems(p: Parser, items: seq<Item>)
    requires p.inString && !p.escape && GoodItems(items)
    ensures Feed(p, ShowItems(items)) == Fed(Emit(Naming(p, Stripped(items)), ShowItems(items)), false)
    decreases |items|
  {
    if items == [] {
      assert Room(p.name, "") == p.name && p.emitted + "" == p.emitted;
    } else {
      var i, rest := items[0], items[1..];
      assert ShowItems(items) == ShowItem(i) + ShowItems(rest) && Stripped(items) == Kept(i) + Stripped(rest);
      assert GoodItem(i);
      hide *;
      FeedItem(p, i);
      StillInString(p, i);
      assert GoodItems(rest) by { KeepGood(items); }
      FeedItems(Emit(Naming(p, Kept(i)), ShowItem(i)), rest);
      FeedSplits(p, ShowItem(i), ShowItems(rest));
      assert Then(Feed(p, ShowItem(i)), ShowItems(rest)) == Feed(Emit(Naming(p, Kept(i)), ShowItem(i)), ShowItems(rest)) by {
        ThenGoesOn(p, ShowItem(i), ShowItems(rest));
      }
      NamingTwice(p, Kept(i), ShowItem(i), Stripped(rest), ShowItems(rest));
    }
  }

  lemma KeepGood(items: seq<Item>)
    requires GoodItems(items) && items != []
    ensures GoodItems(items[1..])
  {
  }

  lemma ThenGoesOn(p: Parser, a: string, b: string)
    requires !Feed(p, a).done
    ensures Then(Feed(p, a), b) == Feed(Feed(p, a).p, b)
  {
  }

  predicate StartsName(p: Parser) { p.state == SeekingField && p.depth == 1 }

  /** At the opening quotation mark, and at the closing one. */
  function Opened(p: Parser): Parser {
    if StartsName(p) then p.(inString := true, state := InFieldName, name := "") else p.(inString := true)
  }

  function Closed(p: Parser): Parser {
    p.(inString := false, state := if p.state == InFieldName && p.depth == 1 then ExpectColon else p.state)
  }

  lemma QuoteOpens(p: Parser)
    requires Quiet(p)
    ensures Feed(p, "\"") == Fed(Emit(Opened(p), "\""), false)
  {
    FeedOne(p, '"');
  }

  lemma QuoteCloses(p: Parser)
    requires p.inString && !p.escape
    ensures Feed(p, "\"") == Fed(Emit(Closed(p), "\""), false)
  {
    FeedOne(p, '"');
  }

  lemma GoesOn(p: Parser, a: string, b: string)
    requires !Feed(p, a).done
    ensures Feed(p, a + b) == Feed(Feed(p, a).p, b)
  {
    hide Feed;
    FeedSplits(p, a, b);
  }

  /** What the three parts of a string come to. */
  lemma QuotesTogether(p: Parser, kept: string, body: string)
    requires Quiet(p) && p.state != InFieldName
    ensures var q := Emit(Opened(p), "\"");
            var r := Emit(Naming(q, kept), body);
            && q.inString && !q.escape && r.inString && !r.escape
            && Emit(Closed(r), "\"")
               == Emit(if StartsName(p) then p.(state := ExpectColon, name := Room("", kept)) else p, "\"" + body + "\"")
  {
    hide Room;
    assert p.emitted + "\"" + body + "\"" == p.emitted + ("\"" + body + "\"");
  }

  lemma FeedQuoted(p: Parser, items: seq<Item>)
    requires Quiet(p) && p.state != InFieldName && GoodItems(items)
    ensures Feed(p, Quoted(items))
         == Fed(Emit(if StartsName(p) then p.(state := ExpectColon, name := Room("", Stripped(items))) else p, Quoted(items)), false)
  {
    hide Feed, Emit, Naming, Opened, Closed, Stripped, ShowItems, Room, StartsName;
    var body := ShowItems(items);
    var q := Emit(Opened(p), "\"");
    QuotesTogether(p, Stripped(items), body);
    QuoteOpens(p);
    FeedItems(q, items);
    GoesOn(p, "\"", body);
    QuoteCloses(Emit(Naming(q, Stripped(items)), body));
    GoesOn(p, "\"" + body, "\"");
  }

  // Below the top level only braces and quotes matter.

  predicate Inside(p: Parser) {
    Quiet(p) && p.depth >= 2 && p.state in {SeekingField, InValue} && p.captureDepth <= 2
  }

  /** An object that does not complete the capture. */
  lemma Braced(p: Parser, s: string)
    requires Quiet(p) && Through(Emit(p.(depth := p.depth + 1), "{"), s)
    requires p.state == InValue ==> p.captureDepth <= p.depth
    ensures Through(p, "{" + s + "}")
  {
    var q := Emit(p.(depth := p.depth + 1), "{");
    FeedOne(p, '{');
    FeedOne(Emit(q, s), '}');
    hide Feed;
    FeedSplits(p, "{" + s, "}");
    FeedSplits(p, "{", s);
    assert p.emitted + "{" + s + "}" == p.emitted + ("{" + s + "}");
  }

  lemma {:induction false} FeedNested(p: Parser, v: Value)
    requires Inside(p) && Good(v)
    ensures Through(p, Show(v))
    decreases v, 0
  {
    hide Feed, ShowFields, Stripped, Room;
    match v
    case Literal(text) => FeedPlain(p, text);
    case Text(items) => FeedQuoted(p, items);
    case Array(pad, elems) =>
      FeedPlain(p, "[" + pad);
      FeedNestedFields(Emit(p, "[" + pad), elems, false);
      ThroughBoth(p, "[" + pad, ShowFields(elems));
      FeedPlain(Emit(p, "[" + pad + ShowFields(elems)), "]");
      ThroughBoth(p, "[" + pad + ShowFields(elems), "]");
    case Object(pad, members) =>
      var q := Emit(p.(depth := p.depth + 1), "{");
      FeedPlain(q, pad);
      FeedNestedFields(Emit(q, pad), members, true);
      ThroughBoth(q, pad, ShowFields(members));
      Braced(p, pad + ShowFields(members));
      assert Show(v) == "{" + (pad + ShowFields(members)) + "}";
  }

  lemma FeedNestedKey(p: Parser, k: Key, named: bool)
    requires Inside(p) && GoodKey(k, named)
    ensures Through(p, ShowKey(k))
  {
    match k
    case Bare(pre) => FeedPlain(p, pre);
    case Named(pre, name, mid, gap) =>
      FeedPlain(p, pre);
      FeedQuoted(Emit(p, pre), name);
      ThroughBoth(p, pre, Quoted(name));
      FeedPlain(Emit(p, pre + Quoted(name)), mid);
      ThroughBoth(p, pre + Quoted(name), mid);
      FeedOne(Emit(p, pre + Quoted(name) + mid), ':');
      ThroughBoth(p, pre + Quoted(name) + mid, ":");
      FeedPlain(Emit(p, pre + Quoted(name) + mid + ":"), gap);
      ThroughBoth(p, pre + Quoted(name) + mid + ":", gap);
  }

  lemma {:induction false} FeedNestedFields(p: Parser, fs: Fields, named: bool)
    requires Inside(p) && GoodFields(fs, named)
    ensures Through(p, ShowFields(fs))
    decreases fs, 0
  {
    match fs
    case NoFields => assert p.emitted + "" == p.emitted;
    case Field(key, value, post, rest) =>
      FeedNestedKey(p, key, named);
      FeedNested(Emit(p, ShowKey(key)), value);
      ThroughBoth(p, ShowKey(key), Show(value));
      FeedPlain(Emit(p, ShowKey(key) + Show(value)), post);
      ThroughBoth(p, ShowKey(key) + Show(value), post);
      var s := ShowKey(key) + Show(value) + post;
      if rest == NoFields {
        assert ShowFields(fs) == s;
      } else {
        FeedOne(Emit(p, s), ',');
        ThroughBoth(p, s, ",");
        FeedNestedFields(Emit(p, s + ","), rest, named);
        ThroughBoth(p, s + ",", ShowFields(rest));
        assert ShowFields(fs) == s + "," + ShowFields(rest);
      }
  }

  // The top level: depth 1, nothing captured so far.

  predicate Between(p: Parser) {
    && Quiet(p) && p.depth == 1 && !p.capturing && !p.found && p.emitted == ""
    && p.state != InFieldName && p.captureDepth in {-1, 2}
  }

  predicate AtValue(p: Parser) { Between(p) && p.state in {SeekingField, InValue} }

  /** The text ends between members again, without completing anything. */
  predicate Skips(p: Parser, s: string) { !Feed(p, s).done && Between(Feed(p, s).p) }

  lemma SkipsBoth(p: Parser, a: string, b: string)
    requires Skips(p, a) && Skips(Feed(p, a).p, b)
    ensures Skips(p, a + b) && Feed(p, a + b).p == Feed(Feed(p, a).p, b).p
  {
    FeedSplits(p, a, b);
  }

  lemma SkipPlain(p: Parser, s: string)
    requires Between(p) && forall i :: 0 <= i < |s| ==> s[i] in {'[', ']'} || !Structural(s[i])
    ensures Skips(p, s) && Feed(p, s).p == p
  {
    FeedPlain(p, s);
  }

  lemma SkipComma(p: Parser)
    requires Between(p)
    ensures Skips(p, ",") && AtValue(Feed(p, ",").p) && Feed(p, ",").p.state == SeekingField
  {
    FeedOne(p, ',');
  }

  lemma SkipObject(p: Parser, pad: string, members: Fields)
    requires AtValue(p) && Good(Object(pad, members))
    ensures Skips(p, Show(Object(pad, members)))
  {
    var q := p.(depth := 2);
    FeedOne(p, '{');
    FeedPlain(q, pad);
    FeedNestedFields(q, members, true);
    FeedOne(q, '}');
    hide Feed;
    FeedSplits(p, "{" + pad + ShowFields(members), "}");
    FeedSplits(p, "{" + pad, ShowFields(members));
    FeedSplits(p, "{", pad);
  }

  lemma {:induction false} SkipValue(p: Parser, v: Value)
    requires AtValue(p) && Good(v)
    ensures Skips(p, Show(v))
    decreases v, 0
  {
    match v
    case Literal(text) => SkipPlain(p, text);
    case Text(items) => FeedQuoted(p, items);
    case Array(pad, elems) =>
      SkipPlain(p, "[" + pad);
      SkipElements(p, elems);
      SkipsBoth(p, "[" + pad, ShowFields(elems));
      var q := Feed(p, "[" + pad + ShowFields(elems)).p;
      SkipPlain(q, "]");
      SkipsBoth(p, "[" + pad + ShowFields(elems), "]");
    case Object(pad, members) => SkipObject(p, pad, members);
  }

  lemma FeedNothing(p: Parser)
    ensures Feed(p, "") == Fed(p, false)
  {
  }

  lemma {:induction false} SkipElements(p: Parser, fs: Fields)
    requires AtValue(p) && GoodFields(fs, false)
    ensures Skips(p, ShowFields(fs))
    decreases fs, 0
  {
    hide Feed, Show, Good;
    match fs
    case NoFields => FeedNothing(p);
    case Field(key, value, post, rest) =>
      SkipPlain(p, key.pre);
      SkipValue(p, value);
      SkipsBoth(p, key.pre, Show(value));
      var q := Feed(p, key.pre + Show(value)).p;
      SkipPlain(q, post);
      SkipsBoth(p, key.pre + Show(value), post);
      var s := key.pre + Show(value) + post;
      if rest == NoFields {
        assert ShowFields(fs) == s;
      } else {
        SkipComma(q);
        SkipsBoth(p, s, ",");
        var r := Feed(p, s + ",").p;
        SkipElements(r, rest);
        SkipsBoth(p, s + ",", ShowFields(rest));
        assert ShowFields(fs) == s + "," + ShowFields(rest);
      }
  }

  /** Names compare as their plain characters, whatever the buffer cut off. */
  lemma NameCompares(items: seq<Item>, wanted: string)
    requires GoodItems(items) && |wanted| < NAME_ROOM - 1
    ensures CString(Room("", Stripped(items))) == wanted <==> Stripped(items) == wanted
  {
    var s := Stripped(items);
    StrippedHasNoNul(items);
    NoNulKeeps(Room("", s));
    assert Room("", s) == s[..Min(|s|, NAME_ROOM - 1)];
  }

  lemma {:induction false} StrippedHasNoNul(items: seq<Item>)
    requires GoodItems(items)
    ensures forall i :: 0 <= i < |Stripped(items)| ==> Stripped(items)[i] != '\0'
  {
    if items != [] {
      StrippedHasNoNul(items[1..]);
    }
  }

  lemma {:induction false} NoNulKeeps(s: string)
    requires forall i :: 0 <= i < |s| ==> s[i] != '\0'
    ensures CString(s) == s
  {
    if s != "" {
      NoNulKeeps(s[1..]);
    }
  }

  predicate AtMember(p: Parser) { Between(p) && p.state == SeekingField }

  /** A member name up to and including the colon. */
  lemma FeedName(p: Parser, pre: string, name: seq<Item>, mid: string)
    requires AtMember(p) && AllSpace(pre) && GoodItems(name) && AllSpace(mid)
    ensures Feed(p, pre + Quoted(name) + mid + ":")
         == Fed(StepColon(p.(state := ExpectColon, name := Room("", Stripped(name)))), false)
  {
    var q := p.(state := ExpectColon, name := Room("", Stripped(name)));
    FeedPlain(p, pre);
    FeedQuoted(p, name);
    FeedPlain(q, mid);
    FeedOne(q, ':');
    hide Feed;
    FeedSplits(p, pre + Quoted(name) + mid, ":");
    FeedSplits(p, pre + Quoted(name), mid);
    FeedSplits(p, pre, Quoted(name));
  }

  /** A member under any other name is skipped, whatever its value holds. */
  lemma SkipMember(p: Parser, key: Key, value: Value, post: string)
    requires AtMember(p) && GoodKey(key, true) && Good(value) && AllSpace(post) && Stripped(key.name) != NODE
    ensures Skips(p, ShowKey(key) + Show(value) + post)
  {
    var colon := key.pre + Quoted(key.name) + key.mid + ":";
    FeedName(p, key.pre, key.name, key.mid);
    NameCompares(key.name, NODE);
    var q := Feed(p, colon).p;
    assert AtValue(q);
    hide Feed;
    SkipPlain(q, key.gap);
    SkipsBoth(p, colon, key.gap);
    SkipValue(q, value);
    SkipsBoth(p, ShowKey(key), Show(value));
    var r := Feed(p, ShowKey(key) + Show(value)).p;
    SkipPlain(r, post);
    SkipsBoth(p, ShowKey(key) + Show(value), post);
  }

  // The member that is extracted.

  /** Some member's name, escapes dropped, reads Node. */
  predicate HasNode(ms: Fields) { ms.Field? && (IsNode(ms.key) || HasNode(ms.rest)) }

  predicate IsNode(k: Key) { k.Named? && Stripped(k.name) == NODE }

  /** The first such member. */
  function NodeOf(ms: Fields): (m: Fields)
    requires HasNode(ms)
    ensures m.Field? && IsNode(m.key)
  {
    if IsNode(ms.key) then ms else NodeOf(ms.rest)
  }

  /** The members' text up to the end of its value. */
  function UpToNode(ms: Fields): string
    requires HasNode(ms)
  {
    if IsNode(ms.key) then ShowKey(ms.key) + Show(ms.value)
    else ShowKey(ms.key) + Show(ms.value) + ms.post + "," + UpToNode(ms.rest)
  }

  function Opening(lead: string, pad: string): string { lead + "{" + pad }

  function Whole(lead: string, pad: string, ms: Fields): string { Opening(lead, pad) + ShowFields(ms) + "}" }

  /** What the consumer is handed: the member on its own in an object. */
  function Extract(gap: string, v: Value): string { "{" + NODE_FIELD + gap + Show(v) + "}" }

  lemma {:induction false} UpToNodeIsPrefix(ms: Fields)
    requires HasNode(ms)
    ensures UpToNode(ms) <= ShowFields(ms)
  {
    if !IsNode(ms.key) {
      UpToNodeIsPrefix(ms.rest);
      var s := ShowKey(ms.key) + Show(ms.value) + ms.post + ",";
      assert UpToNode(ms) == s + UpToNode(ms.rest) && ShowFields(ms) == s + ShowFields(ms.rest);
    }
  }

  /** Feeding s completes the capture at its last character and no sooner. */
  predicate Completes(p: Parser, s: string, out: string) {
    s != "" && !Feed(p, s[..|s| - 1]).done && Feed(p, s).done && Feed(p, s).p.emitted == out && Feed(p, s).p.found
  }

  lemma CompletesAfter(p: Parser, a: string, b: string, out: string)
    requires !Feed(p, a).done && Completes(Feed(p, a).p, b, out)
    ensures Completes(p, a + b, out)
  {
    FeedSplits(p, a, b);
    FeedSplits(p, a, b[..|b| - 1]);
    assert (a + b)[..|a + b| - 1] == a + b[..|b| - 1];
  }

  predicate Capturing(q: Parser) {
    Quiet(q) && q.capturing && q.found && q.captureDepth == 2 && q.depth == 1 && q.state == InValue
  }

  lemma CaptureStarts(p: Parser, key: Key)
    requires AtMember(p) && GoodKey(key, true) && IsNode(key)
    ensures var f := Feed(p, key.pre + Quoted(key.name) + key.mid + ":");
            !f.done && Capturing(f.p) && f.p.emitted == "{" + NODE_FIELD
  {
    FeedName(p, key.pre, key.name, key.mid);
    NameCompares(key.name, NODE);
  }

  lemma NodeCompletes(p: Parser, key: Key, value: Value)
    requires AtMember(p) && GoodKey(key, true) && Good(value) && IsNode(key) && value.Object?
    ensures Completes(p, ShowKey(key) + Show(value), Extract(key.gap, value))
  {
    var colon := key.pre + Quoted(key.name) + key.mid + ":";
    var body := value.pad + ShowFields(value.members);
    assert key.gap + "{" + body + "}" == key.gap + Show(value);
    assert colon + (key.gap + Show(value)) == ShowKey(key) + Show(value);
    hide Feed, Quoted, ShowFields, Completes;
    CaptureStarts(p, key);
    var q := Feed(p, colon).p;
    ObjectCompletes(q, key.gap, value.pad, value.members);
    assert q.emitted + key.gap + Show(value) + "}" == Extract(key.gap, value);
    CompletesAfter(p, colon, key.gap + Show(value), Extract(key.gap, value));
  }

  lemma ObjectText(front: string, gap: string, pad: string, ms: Fields)
    ensures front + (gap + "{" + (pad + ShowFields(ms))) + "}}" == front + gap + Show(Object(pad, ms)) + "}"
  {
    hide ShowFields;
    assert Show(Object(pad, ms)) == "{" + pad + ShowFields(ms) + "}";
  }

  lemma BraceCompletes(r: Parser)
    requires Quiet(r) && r.capturing && r.found && r.captureDepth == 2 && r.depth == 2 && r.state == InValue
    ensures Feed(r, "}").done && Feed(r, "}").p.emitted == r.emitted + "}}" && Feed(r, "}").p.found
  {
    FeedOne(r, '}');
    assert r.emitted + "}" + "}" == r.emitted + "}}";
  }

  lemma ObjectCompletes(q: Parser, gap: string, pad: string, ms: Fields)
    requires Capturing(q) && AllSpace(gap) && AllSpace(pad) && GoodFields(ms, true)
    ensures Completes(q, gap + "{" + (pad + ShowFields(ms)) + "}", q.emitted + gap + Show(Object(pad, ms)) + "}")
  {
    var s := gap + "{" + (pad + ShowFields(ms));
    hide Feed, Step, Show, ShowFields, GoodFields;
    ObjectText(q.emitted, gap, pad, ms);
    ObjectFills(q, gap, pad, ms);
    BraceCompletes(Feed(q, s).p);
    FeedSplits(q, s, "}");
    assert (s + "}")[..|s + "}"| - 1] == s;
  }

  lemma GapAndBrace(q: Parser, gap: string)
    requires Quiet(q) && AllSpace(gap)
    ensures Feed(q, gap + "{") == Fed(Emit(q.(depth := q.depth + 1), gap + "{"), false)
  {
    FeedPlain(q, gap);
    FeedOne(Emit(q, gap), '{');
    FeedSplits(q, gap, "{");
    assert q.emitted + gap + "{" == q.emitted + (gap + "{");
  }

  /** Up to but not including its closing brace. */
  lemma ObjectFills(q: Parser, gap: string, pad: string, ms: Fields)
    requires Capturing(q) && AllSpace(gap) && AllSpace(pad) && GoodFields(ms, true)
    ensures var s := gap + "{" + (pad + ShowFields(ms));
            Feed(q, s) == Fed(Emit(q.(depth := 2), s), false)
  {
    var fields := ShowFields(ms);
    var body := pad + fields;
    var r := Emit(q.(depth := 2), gap + "{");
    hide Feed, Step, ShowFields, GoodFields;
    GapAndBrace(q, gap);
    FeedPlain(r, pad);
    FeedNestedFields(Emit(r, pad), ms, true);
    ThroughBoth(r, pad, fields);
    FeedSplits(q, gap + "{", body);
    assert q.emitted + (gap + "{") + body == q.emitted + (gap + "{" + body);
  }

  lemma {:induction false} MembersComplete(p: Parser, ms: Fields)
    requires AtMember(p) && GoodFields(ms, true) && HasNode(ms) && NodeOf(ms).value.Object?
    ensures Completes(p, UpToNode(ms), Extract(NodeOf(ms).key.gap, NodeOf(ms).value))
    decreases ms
  {
    hide Feed, Step, Show, ShowKey, Good, Between, Completes, Extract;
    if IsNode(ms.key) {
      NodeCompletes(p, ms.key, ms.value);
    } else {
      var s := ShowKey(ms.key) + Show(ms.value) + ms.post + ",";
      SkipMemberAndComma(p, ms.key, ms.value, ms.post);
      MembersComplete(Feed(p, s).p, ms.rest);
      CompletesAfter(p, s, UpToNode(ms.rest), Extract(NodeOf(ms).key.gap, NodeOf(ms).value));
      assert UpToNode(ms) == s + UpToNode(ms.rest);
    }
  }

  lemma FeedOpening(lead: string, pad: string)
    requires AllSpace(lead) && AllSpace(pad)
    ensures !Feed(START, Opening(lead, pad)).done && AtMember(Feed(START, Opening(lead, pad)).p)
  {
    var q := START.(depth := 1);
    FeedPlain(START, lead);
    FeedOne(START, '{');
    FeedPlain(q, pad);
    hide Feed;
    FeedSplits(START, lead + "{", pad);
    FeedSplits(START, lead, "{");
  }

  lemma TextCompletes(lead: string, pad: string, ms: Fields)
    requires AllSpace(lead) && AllSpace(pad) && GoodFields(ms, true) && HasNode(ms) && NodeOf(ms).value.Object?
    ensures Completes(START, Opening(lead, pad) + UpToNode(ms), Extract(NodeOf(ms).key.gap, NodeOf(ms).value))
  {
    FeedOpening(lead, pad);
    MembersComplete(Feed(START, Opening(lead, pad)).p, ms);
    CompletesAfter(START, Opening(lead, pad), UpToNode(ms), Extract(NodeOf(ms).key.gap, NodeOf(ms).value));
  }

  lemma PrefixNotDone(p: Parser, s: string, k: nat)
    requires k < |s| && !Feed(p, s[..|s| - 1]).done
    ensures !Feed(p, s[..k]).done
  {
    FeedSplits(p, s[..k], s[k..|s| - 1]);
    assert s[..k] + s[k..|s| - 1] == s[..|s| - 1];
  }

  lemma WholeStarts(lead: string, pad: string, ms: Fields, tail: string)
    requires HasNode(ms)
    ensures Opening(lead, pad) + UpToNode(ms) <= Whole(lead, pad, ms) + tail
  {
    UpToNodeIsPrefix(ms);
    hide UpToNode, ShowFields, Opening;
    assert Whole(lead, pad, ms) + tail == Opening(lead, pad) + (ShowFields(ms) + ("}" + tail));
  }

  /** However the text arrives, the member is complete exactly when its closing brace has arrived, and then the output is
      that member alone, whatever came before it and whatever follows. */
  lemma NodeExtracted(lead: string, pad: string, ms: Fields, pieces: seq<string>, tail: string)
    requires AllSpace(lead) && AllSpace(pad) && GoodFields(ms, true) && HasNode(ms) && NodeOf(ms).value.Object?
    requires Concat(pieces) <= Whole(lead, pad, ms) + tail
    ensures var f := FeedAll(START, pieces);
            && (f.done <==> |Concat(pieces)| >= |Opening(lead, pad) + UpToNode(ms)|)
            && (f.done ==> f.p.emitted == Extract(NodeOf(ms).key.gap, NodeOf(ms).value) && f.p.found)
  {
    hide Feed, FeedAll, UpToNode, ShowFields, Opening, GoodFields, HasNode, NodeOf, Extract, Whole, AllSpace;
    var all, end := Concat(pieces), Opening(lead, pad) + UpToNode(ms);
    TextCompletes(lead, pad, ms);
    PiecesDoNotMatter(START, pieces);
    WholeStarts(lead, pad, ms, tail);
    if |all| >= |end| {
      assert all[..|end|] == end && end + all[|end|..] == all;
      FeedSplits(START, end, all[|end|..]);
    } else {
      assert all == end[..|all|];
      PrefixNotDone(START, end, |all|);
    }
  }

  // The conditions are exact.

  /** Only a closing brace outside strings completes a capture. */
  lemma {:induction false} DoneAtBrace(p: Parser, s: string)
    requires Feed(p, s).done && s != "" && !Feed(p, s[..|s| - 1]).done
    ensures s[|s| - 1] == '}'
  {
    var k := |s| - 1;
    FeedSplits(p, s[..k], [s[k]]);
    assert s[..k] + [s[k]] == s;
    FeedOne(Feed(p, s[..k]).p, s[k]);
  }

  /** The end of the value is where extraction completes if and only if the value is an object. */
  lemma CompletesIffObject(lead: string, pad: string, ms: Fields)
    requires AllSpace(lead) && AllSpace(pad) && GoodFields(ms, true) && HasNode(ms)
    ensures var end := Opening(lead, pad) + UpToNode(ms);
            (Feed(START, end).done && !Feed(START, end[..|end| - 1]).done) <==> NodeOf(ms).value.Object?
  {
    var end := Opening(lead, pad) + UpToNode(ms);
    if NodeOf(ms).value.Object? {
      TextCompletes(lead, pad, ms);
    } else if Feed(START, end).done && !Feed(START, end[..|end| - 1]).done {
      DoneAtBrace(START, end);
      EndOfValue(ms);
    }
  }

  lemma {:induction false} EndOfValue(ms: Fields)
    requires GoodFields(ms, true) && HasNode(ms) && !NodeOf(ms).value.Object?
    ensures UpToNode(ms) != "" && UpToNode(ms)[|UpToNode(ms)| - 1] != '}'
  {
    if IsNode(ms.key) {
      var t := Show(ms.value);
      assert t != "" && t[|t| - 1] != '}';
    } else {
      EndOfValue(ms.rest);
    }
  }

  /** Without such a member nothing is ever captured or completed. */
  lemma NodeAbsent(lead: string, pad: string, ms: Fields, pieces: seq<string>)
    requires AllSpace(lead) && AllSpace(pad) && GoodFields(ms, true) && !HasNode(ms)
    requires Concat(pieces) == Whole(lead, pad, ms)
    ensures var f := FeedAll(START, pieces); !f.done && !f.p.found && f.p.emitted == ""
  {
    PiecesDoNotMatter(START, pieces);
    FeedOpening(lead, pad);
    SkipMembers(Feed(START, Opening(lead, pad)).p, ms);
    FeedSplits(START, Opening(lead, pad), ShowFields(ms) + "}");
    assert Opening(lead, pad) + (ShowFields(ms) + "}") == Whole(lead, pad, ms);
    var q := Feed(START, Opening(lead, pad)).p;
    FeedSplits(q, ShowFields(ms), "}");
    FeedOne(Feed(q, ShowFields(ms)).p, '}');
  }

  lemma SkipMemberAndComma(p: Parser, key: Key, value: Value, post: string)
    requires AtMember(p) && GoodKey(key, true) && Good(value) && AllSpace(post) && Stripped(key.name) != NODE
    ensures var s := ShowKey(key) + Show(value) + post + ",";
            Skips(p, s) && AtMember(Feed(p, s).p)
  {
    hide Feed, Step, Show, ShowKey, Good;
    var s := ShowKey(key) + Show(value) + post;
    SkipMember(p, key, value, post);
    SkipComma(Feed(p, s).p);
    SkipsBoth(p, s, ",");
  }

  lemma {:induction false} SkipMembers(p: Parser, ms: Fields)
    requires AtMember(p) && GoodFields(ms, true) && !HasNode(ms)
    ensures Skips(p, ShowFields(ms))
    decreases ms
  {
    hide Feed, Show, ShowKey, Good, Between, ShowFields, AllSpace, Stripped;
    ShowFieldsUnfolds(ms);
    if ms.NoFields? {
      SkipNothing(p);
    } else if ms.rest == NoFields {
      SkipMember(p, ms.key, ms.value, ms.post);
    } else {
      var s := ShowKey(ms.key) + Show(ms.value) + ms.post + ",";
      SkipMemberAndComma(p, ms.key, ms.value, ms.post);
      SkipMembers(Feed(p, s).p, ms.rest);
      SkipsBoth(p, s, ShowFields(ms.rest));
    }
  }

  lemma SkipNothing(p: Parser)
    requires AtMember(p)
    ensures Skips(p, "")
  {
  }

  lemma ShowFieldsUnfolds(ms: Fields)
    ensures ShowFields(ms)
         == if ms.NoFields? then "" else if ms.rest == NoFields then ShowKey(ms.key) + Show(ms.value) + ms.post
            else ShowKey(ms.key) + Show(ms.value) + ms.post + "," + ShowFields(ms.rest)
  {
    if ms.Field? && ms.rest != NoFields {
      hide ShowKey, Show;
      assert ShowFields(ms) == ShowKey(ms.key) + Show(ms.value) + ms.post + ("," + ShowFields(ms.rest));
    }
  }

  /** A member named Node is passed over if an earlier name reads Node once its escapes are dropped: here N\node. */
  lemma EscapedNameComesFirst(v: Value, w: Value)
    requires Good(v) && Good(w) && v.Object?
    ensures var stray := Named("", [Plain('N'), Escaped('n'), Plain('o'), Plain('d'), Plain('e')], "", "");
            var proper := Named("", [Plain('N'), Plain('o'), Plain('d'), Plain('e')], "", "");
            var ms := Field(stray, v, "", Field(proper, w, "", NoFields));
            Feed(START, Whole("", "", ms)).done && Feed(START, Whole("", "", ms)).p.emitted == Extract("", v)
  {
    var stray := Named("", [Plain('N'), Escaped('n'), Plain('o'), Plain('d'), Plain('e')], "", "");
    var proper := Named("", [Plain('N'), Plain('o'), Plain('d'), Plain('e')], "", "");
    var ms := Field(stray, v, "", Field(proper, w, "", NoFields));
    StrippedStray();
    var text := Whole("", "", ms);
    hide Feed, FeedAll, Whole, Opening, UpToNode, Extract, GoodFields, NodeOf, HasNode, Show, Stripped;
    StrayGood(v, w);
    assert Concat([text]) == text == text + "";
    NodeExtracted("", "", ms, [text], "");
    PiecesDoNotMatter(START, [text]);
    StrayEnds(v, w);
  }

  lemma StrayGood(v: Value, w: Value)
    requires Good(v) && Good(w)
    ensures var stray := Named("", [Plain('N'), Escaped('n'), Plain('o'), Plain('d'), Plain('e')], "", "");
            var proper := Named("", [Plain('N'), Plain('o'), Plain('d'), Plain('e')], "", "");
            var ms := Field(stray, v, "", Field(proper, w, "", NoFields));
            GoodFields(ms, true) && HasNode(ms) && NodeOf(ms) == ms
  {
    StrippedStray();
  }

  /** The first member ends before the text does. */
  lemma StrayEnds(v: Value, w: Value)
    ensures var stray := Named("", [Plain('N'), Escaped('n'), Plain('o'), Plain('d'), Plain('e')], "", "");
            var proper := Named("", [Plain('N'), Plain('o'), Plain('d'), Plain('e')], "", "");
            var ms := Field(stray, v, "", Field(proper, w, "", NoFields));
            HasNode(ms) && |Opening("", "") + UpToNode(ms)| <= |Whole("", "", ms)|
  {
    StrippedStray();
    var stray := Named("", [Plain('N'), Escaped('n'), Plain('o'), Plain('d'), Plain('e')], "", "");
    var proper := Named("", [Plain('N'), Plain('o'), Plain('d'), Plain('e')], "", "");
    var ms := Field(stray, v, "", Field(proper, w, "", NoFields));
    hide Whole, Opening, UpToNode, ShowFields, Stripped;
    WholeStarts("", "", ms, "");
  }

  lemma StrippedStray()
    ensures Stripped([Plain('N'), Escaped('n'), Plain('o'), Plain('d'), Plain('e')]) == NODE
  {
    var e := [Plain('e')];
    assert Stripped(e) == "e";
    assert Stripped([Plain('d')] + e) == "de";
    assert Stripped([Plain('o')] + ([Plain('d')] + e)) == "ode";
    assert Stripped([Escaped('n')] + ([Plain('o')] + ([Plain('d')] + e))) == "ode";
    assert [Plain('N')] + ([Escaped('n')] + ([Plain('o')] + ([Plain('d')] + e)))
           == [Plain('N'), Escaped('n'), Plain('o'), Plain('d'), Plain('e')];
  }

  // The object.

  lemma {:induction false} CStringReads(s: string, w: string)
    requires forall i :: 0 <= i < |w| ==> w[i] != '\0'
    ensures CString(s) == w <==> |w| <= |s| && s[..|w|] == w && (|s| > |w| ==> s[|w|] == '\0')
    decreases |s|
  {
    if s != "" && s[0] != '\0' && w != "" {
      CStringReads(s[1..], w[1..]);
      assert w == [w[0]] + w[1..];
      assert |w| <= |s| ==> s[..|w|] == [s[0]] + s[1..][..|w| - 1];
    }
  }

  class JsonStreamParser {
    var state: State
    var braceDepth: int
    var outputPos: nat
    var inString: bool
    var escapeNext: bool
    var capturing: bool
    var captureDepth: int
    var foundNode: bool
    const fieldName: array<char>
    var fieldNamePos: nat
    ghost var emitted: string

    ghost predicate Valid()
      reads this, fieldName
    {
      && fieldName.Length == NAME_ROOM && fieldNamePos < NAME_ROOM
      && (state == ExpectColon ==> fieldName[fieldNamePos] == '\0')
    }

    ghost function Value(): Parser
      reads this, fieldName
      requires Valid()
    {
      Parser(state, braceDepth, inString, escapeNext, capturing, captureDepth, foundNode, fieldName[..fieldNamePos], emitted)
    }

    /** The output holds as much of what was emitted as fits, with room left for a terminator. */
    ghost predicate Holds(output: array<char>)
      reads this, output
    {
      output.Length > 0 && outputPos == Min(|emitted|, output.Length - 1) && output[..outputPos] == emitted[..outputPos]
    }

    constructor ()
      ensures Valid() && Value() == START && fresh(fieldName) && outputPos == 0
    {
      state, braceDepth, outputPos, inString, escapeNext := SeekingField, 0, 0, false, false;
      capturing, captureDepth, foundNode, fieldNamePos, emitted := false, -1, false, 0, "";
      fieldName := new char[NAME_ROOM](_ => '\0');
    }

    method Reset()
      requires fieldName.Length == NAME_ROOM
      modifies this, fieldName
      ensures Valid() && Value() == START && outputPos == 0
    {
      state, braceDepth, outputPos, inString, escapeNext := SeekingField, 0, 0, false, false;
      capturing, captureDepth, foundNode, fieldNamePos, emitted := false, -1, false, 0, "";
      var i := 0;
      while i < NAME_ROOM
        modifies fieldName
      {
        fieldName[i] := '\0';
        i := i + 1;
      }
    }

    /** One character to the output, if there is room. */
    method Put(c: char, output: array<char>)
      requires Holds(output)
      modifies this`outputPos, this`emitted, output
      ensures Holds(output) && emitted == old(emitted) + [c]
    {
      if outputPos < output.Length - 1 {
        output[outputPos] := c;
        outputPos := outputPos + 1;
      }
      emitted := emitted + [c];
    }

    method PutAll(s: string, output: array<char>)
      requires Holds(output)
      modifies this`outputPos, this`emitted, output
      ensures Holds(output) && emitted == old(emitted) + s
    {
      var j := 0;
      while j < |s|
        invariant j <= |s| && Holds(output) && emitted == old(emitted) + s[..j]
      {
        Put(s[j], output);
        j := j + 1;
      }
      assert s[..j] == s;
    }

    method PutIfCapturing(c: char, output: array<char>)
      requires Valid() && Holds(output) && output != fieldName
      modifies this`outputPos, this`emitted, output
      ensures Valid() && Holds(output) && Value() == Emit(old(Value()), [c])
    {
      if capturing {
        Put(c, output);
      }
    }

    method InString(c: char, output: array<char>)
      requires Valid() && Holds(output) && output != fieldName
      modifies this, fieldName, output
      ensures Valid() && Holds(output) && Value() == StepInString(old(Value()), c)
    {
      if escapeNext {
        escapeNext := false;
      } else if c == '\\' {
        escapeNext := true;
      } else if c == '"' {
        inString := false;
        if state == InFieldName && braceDepth == 1 {
          fieldName[fieldNamePos] := '\0';
          state := ExpectColon;
        }
      } else if state == InFieldName && fieldNamePos < NAME_ROOM - 1 {
        fieldName[fieldNamePos] := c;
        fieldNamePos := fieldNamePos + 1;
      }
      assert Emit(Value(), [c]) == StepInString(old(Value()), c);
      PutIfCapturing(c, output);
    }

    /** strcmp */
    method NameIs(wanted: string) returns (same: bool)
      requires Valid() && fieldName[fieldNamePos] == '\0' && |wanted| < NAME_ROOM
      requires forall i :: 0 <= i < |wanted| ==> wanted[i] != '\0'
      ensures same <==> CString(fieldName[..fieldNamePos]) == wanted
    {
      CStringReads(fieldName[..fieldNamePos], wanted);
      var i := 0;
      while i < |wanted| && fieldName[i] == wanted[i]
        invariant i <= |wanted| && fieldName[..i] == wanted[..i] && i <= fieldNamePos
      {
        i := i + 1;
      }
      same := i == |wanted| && fieldName[i] == '\0';
    }

    method StartCapture(output: array<char>)
      requires Valid() && Holds(output) && output != fieldName
      modifies this, output
      ensures Valid() && Holds(output)
      ensures var p := old(Value());
              Value() == p.(capturing := true, captureDepth := p.depth + 1, found := true, state := InValue,
                            emitted := p.emitted + (if p.emitted == "" then "{" else "") + NODE_FIELD)
    {
      capturing, captureDepth, foundNode := true, braceDepth + 1, true;
      if outputPos == 0 && outputPos < output.Length - 1 {
        Put('{', output);
      } else if emitted == "" {
        emitted := "{";
      }
      PutAll(NODE_FIELD, output);
      state := InValue;
    }

    method Colon(output: array<char>)
      requires Valid() && Holds(output) && output != fieldName
      modifies this, output
      ensures Valid() && Holds(output) && Value() == StepColon(old(Value()))
    {
      if state == ExpectColon {
        var node := NameIs(NODE);
        if node {
          StartCapture(output);
          return;
        }
        var derp := NameIs(DERP_MAP);
        if derp {
          capturing := false;
          captureDepth := braceDepth + 1;
        }
        state := InValue;
      }
      PutIfCapturing(':', output);
    }

    method CloseBrace(output: array<char>) returns (done: bool)
      requires Valid() && Holds(output) && output != fieldName && !inString
      modifies this, output
      ensures Valid() && Holds(output) && (Value(), done) == Step(old(Value()), '}')
      ensures done ==> output[outputPos] == '\0'
    {
      PutIfCapturing('}', output);
      braceDepth := braceDepth - 1;
      if state == InValue && braceDepth < captureDepth {
        if capturing {
          Put('}', output);
          output[outputPos] := '\0';
          return true;
        }
        capturing, state, captureDepth := false, SeekingField, -1;
      }
      return false;
    }

    method OneChar(c: char, output: array<char>) returns (done: bool)
      requires Valid() && Holds(output) && output != fieldName
      modifies this, fieldName, output
      ensures Valid() && Holds(output) && (Value(), done) == Step(old(Value()), c)
      ensures done ==> output[outputPos] == '\0'
    {
      hide CString;
      done := false;
      if inString {
        InString(c, output);
      } else if c == '"' {
        inString := true;
        if state == SeekingField && braceDepth == 1 {
          state := InFieldName;
          fieldNamePos := 0;
        }
        PutIfCapturing(c, output);
      } else if c == ':' {
        Colon(output);
      } else if c == '{' {
        braceDepth := braceDepth + 1;
        PutIfCapturing(c, output);
      } else if c == '}' {
        done := CloseBrace(output);
      } else if c == ',' {
        PutIfCapturing(c, output);
        if braceDepth == 1 {
          state := SeekingField;
          fieldNamePos := 0;
        }
      } else {
        PutIfCapturing(c, output);
      }
    }

    method FeedData(data: string, output: array<char>) returns (done: bool)
      requires Valid() && Holds(output) && output != fieldName
      modifies this, fieldName, output
      ensures Valid() && Holds(output) && Fed(Value(), done) == Feed(old(Value()), data)
      ensures done ==> output[outputPos] == '\0'
    {
      hide Step;
      var i := 0;
      while i < |data|
        invariant i <= |data| && Valid() && Holds(output)
        invariant Feed(Value(), data[i..]) == Feed(old(Value()), data)
      {
        ghost var p := Value();
        done := OneChar(data[i], output);
        assert data[i..][0] == data[i] && data[i..][1..] == data[i + 1..];
        if done {
          return;
        }
        i := i + 1;
      }
      return false;
    }
  }
}
