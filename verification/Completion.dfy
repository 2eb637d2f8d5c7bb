/** The completion detector has_complete_json_ of components/tailscale/http2_session.cpp. */
module Completion {
  import opened Bytes
  import opened Json

  // What the detector looks for.

  datatype Scan = Scan(depth: int, inString: bool, escaped: bool)

  function Clean(d: int): Scan { Scan(d, false, false) }

  function ScanStep(sc: Scan, c: char): Scan {
    if sc.escaped then sc.(escaped := false)
    else if c == '\\' then sc.(escaped := true)
    else if c == '"' then sc.(inString := !sc.inString)
    else if sc.inString then sc
    else if c == '{' then sc.(depth := sc.depth + 1)
    else if c == '}' then sc.(depth := sc.depth - 1)
    else sc
  }

  function ScanAll(sc: Scan, s: string): Scan
    decreases |s|
  {
    if s == "" then sc else ScanAll(ScanStep(sc, s[0]), s[1..])
  }

  predicate IsBlank(c: char) { c in {' ', '\t', '\n', '\U{b}', '\U{c}', '\r'} }
  predicate AllBlank(s: string) { forall i :: 0 <= i < |s| ==> IsBlank(s[i]) }

  const EARLY: nat := 1000
  const WINDOW: nat := 100

  /** A brace past the first thousand bytes that closes everything, with nothing but blanks in the hundred bytes after it. */
  predicate EarlyExit(b: string, start: nat, i: nat)
    requires start <= i < |b|
  {
    var sc := ScanAll(Clean(0), b[start..i]);
    i > EARLY && b[i] == '}' && !sc.inString && !sc.escaped && sc.depth == 1 && AllBlank(b[i + 1..Min(|b|, i + WINDOW)])
  }

  /** The last visible byte of the last hundred is a brace.  A buffer shorter than that has no such window. */
  predicate EndsInBrace(b: string, start: nat) {
    |b| >= WINDOW && exists j :: start <= j < |b| && |b| - WINDOW <= j && b[j] == '}' && AllBlank(b[j + 1..])
  }

  predicate JsonComplete(b: string, start: nat)
    requires start <= |b|
  {
    || (exists i :: start <= i < |b| && EarlyExit(b, start, i))
    || (var sc := ScanAll(Clean(0), b[start..]); sc.depth == 0 && !sc.inString && EndsInBrace(b, start))
  }

  function Code(c: char): byte { c as int % 256 }

  /** The length in front of a body, little-endian. */
  function Announced(b: string): nat
    requires |b| >= 4
  {
    FromLe32([Code(b[0]), Code(b[1]), Code(b[2]), Code(b[3])])
  }

  predicate HasPrefix(b: string) { |b| >= 5 && b[0] != '{' && b[4] == '{' }

  predicate IsMsgPack(c: char) {
    0x80 <= Code(c) <= 0x8f || 0xa0 <= Code(c) <= 0xbf || Code(c) == 0xde || Code(c) == 0xdf
  }

  predicate Complete(b: string) {
    if |b| < 2 || (HasPrefix(b) && |b| < (4 + Announced(b)) % TWO32) then false
    else
      var start := if HasPrefix(b) then 4 else 0;
      if IsMsgPack(b[start]) then |b| >= 1024
      else b[start] == '{' && JsonComplete(b, start)
  }

  // The grammar's texts.

  lemma {:induction false} ScanSplits(sc: Scan, a: string, b: string)
    ensures ScanAll(sc, a + b) == ScanAll(ScanAll(sc, a), b)
    decreases |a|
  {
    if a == "" {
      assert a + b == b;
    } else {
      assert (a + b)[1..] == a[1..] + b;
      ScanSplits(ScanStep(sc, a[0]), a[1..], b);
    }
  }

  lemma ScanOne(sc: Scan, c: char)
    ensures ScanAll(sc, [c]) == ScanStep(sc, c)
  {
    assert [c][1..] == "";
  }

  /** s takes one state to another without ever going below depth d. */
  predicate Runs(sc: Scan, s: string, to: Scan, d: int) {
    ScanAll(sc, s) == to && forall k :: 0 <= k <= |s| ==> ScanAll(sc, s[..k]).depth >= d
  }

  lemma RunsBoth(sc: Scan, a: string, mid: Scan, b: string, to: Scan, d: int)
    requires Runs(sc, a, mid, d) && Runs(mid, b, to, d)
    ensures Runs(sc, a + b, to, d)
  {
    ScanSplits(sc, a, b);
    forall k | 0 <= k <= |a + b| ensures ScanAll(sc, (a + b)[..k]).depth >= d {
      if k <= |a| {
        assert (a + b)[..k] == a[..k];
      } else {
        assert (a + b)[..k] == a + b[..k - |a|];
        ScanSplits(sc, a, b[..k - |a|]);
      }
    }
  }

  lemma RunsOne(sc: Scan, c: char, d: int)
    requires sc.depth >= d && ScanStep(sc, c).depth >= d
    ensures Runs(sc, [c], ScanStep(sc, c), d)
  {
    ScanOne(sc, c);
    assert forall k :: 0 <= k <= 1 ==> [c][..k] == if k == 0 then "" else [c];
  }

  predicate Keeps(d: int, s: string) { Runs(Clean(d), s, Clean(d), d) }

  predicate Inert(c: char) { c != '"' && c != '{' && c != '}' && c != '\\' }

  lemma {:induction false} PlainKeeps(d: int, s: string)
    requires forall i :: 0 <= i < |s| ==> Inert(s[i])
    ensures Keeps(d, s)
  {
    if s != "" {
      RunsOne(Clean(d), s[0], d);
      PlainKeeps(d, s[1..]);
      RunsBoth(Clean(d), [s[0]], Clean(d), s[1..], Clean(d), d);
      assert [s[0]] + s[1..] == s;
    }
  }

  /** In a string the depth stands still. */
  lemma {:induction false} ItemsKeep(d: int, items: seq<Item>)
    requires GoodItems(items)
    ensures Runs(Scan(d, true, false), ShowItems(items), Scan(d, true, false), d)
    decreases |items|
  {
    var sc := Scan(d, true, false);
    if items != [] {
      var i := items[0];
      if i.Plain? {
        RunsOne(sc, i.c, d);
      } else {
        RunsOne(sc, '\\', d);
        RunsOne(Scan(d, true, true), i.c, d);
        RunsBoth(sc, ['\\'], Scan(d, true, true), [i.c], sc, d);
        assert ['\\'] + [i.c] == ShowItem(i);
      }
      ItemsKeep(d, items[1..]);
      RunsBoth(sc, ShowItem(i), sc, ShowItems(items[1..]), sc, d);
    }
  }

  lemma QuotedKeeps(d: int, items: seq<Item>)
    requires GoodItems(items)
    ensures Keeps(d, Quoted(items))
  {
    RunsOne(Clean(d), '"', d);
    ItemsKeep(d, items);
    RunsBoth(Clean(d), "\"", Scan(d, true, false), ShowItems(items), Scan(d, true, false), d);
    RunsOne(Scan(d, true, false), '"', d);
    RunsBoth(Clean(d), "\"" + ShowItems(items), Scan(d, true, false), "\"", Clean(d), d);
  }

  lemma KeepsBoth(d: int, a: string, b: string)
    requires Keeps(d, a) && Keeps(d, b)
    ensures Keeps(d, a + b)
  {
    RunsBoth(Clean(d), a, Clean(d), b, Clean(d), d);
  }

  /** Anything balanced one level down, in braces. */
  lemma BracedKeeps(d: int, s: string)
    requires Keeps(d + 1, s)
    ensures Keeps(d, "{" + s + "}")
  {
    RunsOne(Clean(d), '{', d);
    RunsBoth(Clean(d), "{", Clean(d + 1), s, Clean(d + 1), d);
    RunsOne(Clean(d + 1), '}', d);
    RunsBoth(Clean(d), "{" + s, Clean(d + 1), "}", Clean(d), d);
  }

  lemma {:induction false} ValueKeeps(d: int, v: Value)
    requires Good(v)
    ensures Keeps(d, Show(v))
    decreases v, 0
  {
    hide Runs, ScanAll;
    match v
    case Literal(text) => LiteralKeeps(d, text);
    case Text(items) => QuotedKeeps(d, items);
    case Array(pad, elems) =>
      PlainKeeps(d, "[" + pad);
      FieldsKeep(d, elems, false);
      KeepsBoth(d, "[" + pad, ShowFields(elems));
      PlainKeeps(d, "]");
      KeepsBoth(d, "[" + pad + ShowFields(elems), "]");
    case Object(pad, members) =>
      PlainKeeps(d + 1, pad);
      FieldsKeep(d + 1, members, true);
      KeepsBoth(d + 1, pad, ShowFields(members));
      BracedKeeps(d, pad + ShowFields(members));
      assert Show(v) == "{" + (pad + ShowFields(members)) + "}";
  }

  lemma LiteralKeeps(d: int, text: string)
    requires IsLiteral(text)
    ensures Keeps(d, text)
  {
    PlainKeeps(d, text);
  }

  lemma KeyKeeps(d: int, k: Key, named: bool)
    requires GoodKey(k, named)
    ensures Keeps(d, ShowKey(k))
  {
    hide Runs, ScanAll;
    match k
    case Bare(pre) => PlainKeeps(d, pre);
    case Named(pre, name, mid, gap) =>
      PlainKeeps(d, pre);
      QuotedKeeps(d, name);
      KeepsBoth(d, pre, Quoted(name));
      PlainKeeps(d, mid);
      KeepsBoth(d, pre + Quoted(name), mid);
      PlainKeeps(d, ":");
      KeepsBoth(d, pre + Quoted(name) + mid, ":");
      PlainKeeps(d, gap);
      KeepsBoth(d, pre + Quoted(name) + mid + ":", gap);
  }

  lemma {:induction false} FieldsKeep(d: int, fs: Fields, named: bool)
    requires GoodFields(fs, named)
    ensures Keeps(d, ShowFields(fs))
    decreases fs, 0
  {
    hide Runs, ScanAll;
    match fs
    case NoFields => PlainKeeps(d, "");
    case Field(key, value, post, rest) =>
      var s := ShowKey(key) + Show(value) + post;
      KeyKeeps(d, key, named);
      ValueKeeps(d, value);
      KeepsBoth(d, ShowKey(key), Show(value));
      PlainKeeps(d, post);
      KeepsBoth(d, ShowKey(key) + Show(value), post);
      if rest == NoFields {
        assert ShowFields(fs) == s;
      } else {
        PlainKeeps(d, ",");
        KeepsBoth(d, s, ",");
        FieldsKeep(d, rest, named);
        KeepsBoth(d, s + ",", ShowFields(rest));
        assert ShowFields(fs) == s + "," + ShowFields(rest);
      }
  }

  // What the detector makes of them.

  /** Inside an object the depth is at least one; after its last brace it is back at zero. */
  lemma ObjectDepth(v: Value, k: nat)
    requires Good(v) && v.Object? && k <= |Show(v)|
    ensures k == |Show(v)| ==> ScanAll(Clean(0), Show(v)[..k]) == Clean(0)
    ensures 0 < k < |Show(v)| ==> ScanAll(Clean(0), Show(v)[..k]).depth >= 1
  {
    var inner := v.pad + ShowFields(v.members);
    var t := "{" + inner + "}";
    assert Show(v) == t;
    if k == |t| {
      ValueKeeps(0, v);
      assert t[..k] == t;
    } else if 0 < k {
      PlainKeeps(1, v.pad);
      FieldsKeep(1, v.members, true);
      KeepsBoth(1, v.pad, ShowFields(v.members));
      ScanOne(Clean(0), '{');
      ScanSplits(Clean(0), "{", inner[..k - 1]);
      assert t[..k] == "{" + inner[..k - 1];
    }
  }

  lemma {:induction false} BlanksKeep(tail: string)
    requires AllBlank(tail)
    ensures ScanAll(Clean(0), tail) == Clean(0)
  {
    PlainKeeps(0, tail);
  }

  /** Only an object's last brace brings the depth to zero. */
  lemma OnlyLastBraceCloses(b: string, start: nat, v: Value, tail: string, i: nat)
    requires Good(v) && v.Object? && AllBlank(tail) && start <= i < |b| && b[start..] == Show(v) + tail
    ensures EarlyExit(b, start, i) ==> i == start + |Show(v)| - 1
  {
    hide Show, Good, ScanAll;
    var t := Show(v);
    var k := i - start;
    assert b[start..i] == (t + tail)[..k] && b[i] == (t + tail)[k];
    if k < |t| - 1 && EarlyExit(b, start, i) {
      ScanSplits(Clean(0), t[..k], [t[k]]);
      assert t[..k] + [t[k]] == t[..k + 1] && (t + tail)[..k] == t[..k];
      ScanOne(ScanAll(Clean(0), t[..k]), t[k]);
      ObjectDepth(v, k + 1);
    }
  }

  /** Just before its last brace an object is one level deep. */
  lemma BeforeLastBrace(v: Value)
    requires Good(v) && v.Object?
    ensures var n := |Show(v)| - 1;
            n > 0 && Show(v)[n] == '}' && ScanAll(Clean(0), Show(v)[..n]) == Clean(1)
  {
    var inner := v.pad + ShowFields(v.members);
    var t := "{" + inner + "}";
    assert Show(v) == t && t[..|t| - 1] == "{" + inner;
    PlainKeeps(1, v.pad);
    FieldsKeep(1, v.members, true);
    KeepsBoth(1, v.pad, ShowFields(v.members));
    ScanOne(Clean(0), '{');
    ScanSplits(Clean(0), "{", inner);
  }

  lemma LastBraceCloses(b: string, start: nat, v: Value, tail: string)
    requires Good(v) && v.Object? && AllBlank(tail) && start <= |b| && b[start..] == Show(v) + tail
    ensures var i := start + |Show(v)| - 1; start <= i < |b| && (EarlyExit(b, start, i) <==> i > EARLY)
  {
    hide Show, Good, ScanAll;
    BeforeLastBrace(v);
    var t := Show(v);
    var n := |t| - 1;
    var i := start + n;
    assert b[start..i] == t[..n] && b[i] == (t + tail)[n];
    assert forall j :: i + 1 <= j < |b| ==> b[j] == b[start..][j - start] == tail[j - (i + 1)];
  }

  lemma WholeCompletes(b: string, start: nat, v: Value, tail: string)
    requires Good(v) && v.Object? && AllBlank(tail) && start <= |b| && b[start..] == Show(v) + tail
    ensures JsonComplete(b, start) <==> start + |Show(v)| - 1 > EARLY || (|b| >= WINDOW && |tail| < WINDOW)
  {
    var t := Show(v);
    var i := start + |t| - 1;
    LastBraceCloses(b, start, v, tail);
    forall j | start <= j < |b| ensures EarlyExit(b, start, j) ==> j == i {
      OnlyLastBraceCloses(b, start, v, tail, j);
    }
    ScanSplits(Clean(0), t, tail);
    ObjectDepth(v, |t|);
    assert t[..|t|] == t;
    BlanksKeep(tail);
    WindowSeesBrace(b, start, v, tail);
  }

  lemma WindowSeesBrace(b: string, start: nat, v: Value, tail: string)
    requires Good(v) && v.Object? && AllBlank(tail) && start <= |b| && b[start..] == Show(v) + tail
    ensures EndsInBrace(b, start) <==> |b| >= WINDOW && |tail| < WINDOW
  {
    hide Good;
    var t := Show(v);
    var i := start + |t| - 1;
    assert t[|t| - 1] == '}';
    assert b[i] == b[start..][|t| - 1];
    assert forall j :: i < j < |b| ==> b[j] == b[start..][j - start] == tail[j - (i + 1)];
    assert AllBlank(b[i + 1..]);
  }

  lemma PrefixDoesNot(b: string, start: nat, v: Value, k: nat)
    requires Good(v) && v.Object? && start <= |b| && k < |Show(v)| && b[start..] == Show(v)[..k]
    ensures !JsonComplete(b, start)
  {
    var t := Show(v);
    forall i | start <= i < |b| ensures !EarlyExit(b, start, i) {
      var n := i - start;
      assert b[start..i] == t[..n] && b[i] == t[n];
      ScanSplits(Clean(0), t[..n], [t[n]]);
      assert t[..n] + [t[n]] == t[..n + 1];
      ScanOne(ScanAll(Clean(0), t[..n]), t[n]);
      ObjectDepth(v, n + 1);
    }
    ObjectDepth(v, k);
  }

  /** A whole object, with what blanks follow it, is recognised exactly when its last brace lies past the first
      thousand bytes, or the buffer has a hundred bytes and the brace is among the last hundred.  So one of fewer
      than a hundred bytes is not. */
  lemma ObjectComplete(v: Value, tail: string)
    requires Good(v) && v.Object? && AllBlank(tail)
    ensures Complete(Show(v) + tail)
            <==> |Show(v)| > EARLY + 1 || (|Show(v) + tail| >= WINDOW && |tail| < WINDOW)
  {
    var b := Show(v) + tail;
    assert b[0..] == b && b[0] == '{';
    WholeCompletes(b, 0, v, tail);
  }

  /** Without blanks after it: a hundred bytes or more. */
  lemma CompleteIffHundred(v: Value)
    requires Good(v) && v.Object?
    ensures Complete(Show(v)) <==> |Show(v)| >= WINDOW
  {
    ObjectComplete(v, "");
    assert Show(v) + "" == Show(v);
  }

  /** No proper prefix is taken for a whole object. */
  lemma PrefixIncomplete(v: Value, k: nat)
    requires Good(v) && v.Object? && k < |Show(v)|
    ensures !Complete(Show(v)[..k])
  {
    var b := Show(v)[..k];
    if k >= 2 {
      assert b[0..] == b && b[0] == '{';
      PrefixDoesNot(b, 0, v, k);
    }
  }

  lemma BehindPrefix(p: string, body: string)
    requires |p| == 4 && p[0] != '{' && Announced(p) + 4 < TWO32 && body != "" && body[0] == '{'
    ensures Complete(p + body) <==> |body| >= Announced(p) && JsonComplete(p + body, 4)
  {
    hide JsonComplete, FromLe32;
    var b := p + body;
    assert b[..4] == p && b[4] == '{';
    assert Announced(b) == Announced(p);
  }

  /** Behind its length a whole object is recognised from 96 bytes on, and no part of it is, unless the length's first
      byte is itself an opening brace. */
  lemma PrefixedComplete(p: string, v: Value, k: nat)
    requires Good(v) && v.Object? && k <= |Show(v)| && |p| == 4 && |Show(v)| + 4 < TWO32
    requires Announced(p) == |Show(v)| && p[0] != '{'
    ensures Complete(p + Show(v)[..k]) <==> k == |Show(v)| && k >= WINDOW - 4
  {
    hide JsonComplete, FromLe32, Good;
    var t := Show(v);
    var b := p + t[..k];
    if k > 0 {
      assert t[0] == '{';
      BehindPrefix(p, t[..k]);
      if k == |t| {
        assert t[..k] == t == t + "" && b[4..] == t;
        WholeCompletes(b, 4, v, "");
      }
    }
  }

  // A length whose first byte is an opening brace.  It is read as text.

  /** What the detector looks for in a text behind four bytes that have left it in some state: a brace past the first
      thousand bytes that closes everything, or everything closed at the end. */
  predicate ClosedFrom(u: string, sc: Scan) {
    || (exists j :: 0 <= j < |u| && 4 + j > EARLY && CloseFrom(u, j, sc))
    || (var end := ScanAll(sc, u); end.depth == 0 && !end.inString && |u| >= WINDOW - 4 && LastIsBrace(u))
  }

  predicate CloseFrom(u: string, j: nat, sc: Scan)
    requires j < |u|
  {
    u[j] == '}' && ScanAll(sc, u[..j]) == Clean(1) && AllBlank(u[j + 1..Min(|u|, j + WINDOW)])
  }

  /** A backslash in front of an opening brace only takes the brace away. */
  function AtBrace(sc: Scan): Scan {
    if sc.escaped then Scan(if sc.inString then sc.depth else sc.depth - 1, sc.inString, false) else sc
  }

  /** The same when the bytes end outside strings, in terms of the text alone: a depth of d. */
  predicate ClosedTo(u: string, d: int) {
    || (exists j :: 0 <= j < |u| && 4 + j > EARLY && EarlyClose(u, j, d))
    || (var sc := ScanAll(Clean(0), u); sc.depth == d && !sc.inString && |u| >= WINDOW - 4 && LastIsBrace(u))
  }

  predicate EarlyClose(u: string, j: nat, d: int)
    requires j < |u|
  {
    u[j] == '}' && ScanAll(Clean(0), u[..j]) == Clean(d + 1) && AllBlank(u[j + 1..Min(|u|, j + WINDOW)])
  }

  predicate LastIsBrace(u: string) {
    exists j :: 0 <= j < |u| && |u| - WINDOW <= j && u[j] == '}' && AllBlank(u[j + 1..])
  }

  /** Another depth to start from is another depth all the way. */
  lemma {:induction false} ScanShifts(sc: Scan, e: int, s: string)
    ensures ScanAll(sc.(depth := sc.depth + e), s) == var r := ScanAll(sc, s); r.(depth := r.depth + e)
    decreases |s|
  {
    if s != "" {
      assert ScanStep(sc.(depth := sc.depth + e), s[0]) == var r := ScanStep(sc, s[0]); r.(depth := r.depth + e);
      ScanShifts(ScanStep(sc, s[0]), e, s[1..]);
    }
  }

  lemma ScanBehind(p: string, u: string)
    requires u != "" && u[0] == '{'
    ensures ScanAll(Clean(0), p + u) == ScanAll(AtBrace(ScanAll(Clean(0), p)), u)
  {
    ScanSplits(Clean(0), p, u);
  }

  lemma EarlyBehind(p: string, u: string, i: nat)
    requires |p| == 4 && (u == "" || u[0] == '{') && EARLY < i < |p + u|
    ensures EarlyExit(p + u, 0, i) <==> CloseFrom(u, i - 4, AtBrace(ScanAll(Clean(0), p)))
  {
    hide ScanAll, AllBlank;
    var b, j := p + u, i - 4;
    ScanBehind(p, u[..j]);
    assert b[0..i] == p + u[..j];
    assert b[i + 1..Min(|b|, i + WINDOW)] == u[j + 1..Min(|u|, j + WINDOW)];
  }

  lemma BraceAhead(b: string, j: nat)
    requires j < 4 < |b| && b[4] == '{'
    ensures !AllBlank(b[j + 1..])
  {
    assert b[j + 1..][3 - j] == '{';
  }

  lemma BraceBehind(p: string, u: string)
    requires |p| == 4 && (u == "" || u[0] == '{')
    ensures EndsInBrace(p + u, 0) <==> |u| >= WINDOW - 4 && LastIsBrace(u)
  {
    var b := p + u;
    forall j | 4 <= j < |b| ensures b[j + 1..] == u[j - 3..] && b[j] == u[j - 4] {
      assert b[j] == u[j - 4];
    }
    if |b| >= WINDOW {
      BraceAhead(b, 0);
      BraceAhead(b, 1);
      BraceAhead(b, 2);
      BraceAhead(b, 3);
      if LastIsBrace(u) {
        var j :| 0 <= j < |u| && |u| - WINDOW <= j && u[j] == '}' && AllBlank(u[j + 1..]);
        assert b[j + 4] == '}' && b[j + 5..] == u[j + 1..];
      }
    }
  }

  /** Whatever the stray bytes are, they do no more than set the state in which the text is read. */
  lemma ReadFrom(p: string, u: string)
    requires |p| == 4 && p[0] == '{' && (u == "" || u[0] == '{')
    ensures Complete(p + u) <==> ClosedFrom(u, AtBrace(ScanAll(Clean(0), p)))
  {
    hide ScanAll, EarlyExit, CloseFrom, EndsInBrace, LastIsBrace, AtBrace;
    var b := p + u;
    var sc := AtBrace(ScanAll(Clean(0), p));
    assert b[0..] == b && b[0] == '{';
    if u != "" {
      ScanBehind(p, u);
    }
    BraceBehind(p, u);
    forall i | EARLY < i < |b| ensures EarlyExit(b, 0, i) <==> CloseFrom(u, i - 4, sc) {
      EarlyBehind(p, u, i);
    }
    forall i | 0 <= i <= EARLY && i < |b| ensures !EarlyExit(b, 0, i) {
      NotEarly(b, i);
    }
    if j :| 0 <= j < |u| && 4 + j > EARLY && CloseFrom(u, j, sc) {
      assert EarlyExit(b, 0, 4 + j);
    }
  }

  /** If they end outside strings, they only lift the depth. */
  lemma ReadAsText(p: string, u: string, d: int)
    requires |p| == 4 && p[0] == '{' && (u == "" || u[0] == '{') && AtBrace(ScanAll(Clean(0), p)) == Clean(d)
    ensures Complete(p + u) <==> ClosedTo(u, -d)
  {
    hide ScanAll, AtBrace, AllBlank, LastIsBrace, Complete;
    ReadFrom(p, u);
    ScanShifts(Clean(0), d, u);
    var e := -d;
    forall j | 0 <= j < |u| ensures CloseFrom(u, j, Clean(d)) <==> EarlyClose(u, j, e) {
      ScanShifts(Clean(0), d, u[..j]);
    }
    hide CloseFrom, EarlyClose;
  }

  lemma NotEarly(b: string, i: nat)
    requires i < |b| && i <= EARLY
    ensures !EarlyExit(b, 0, i)
  {
  }

  /** In an object no brace but the last closes to zero, and none goes below. */
  lemma ClosesLast(v: Value, k: nat, j: nat, d: int)
    requires Good(v) && v.Object? && j < k <= |Show(v)| && d <= 0 && EarlyClose(Show(v)[..k], j, d)
    ensures d == 0 && j + 1 == |Show(v)|
  {
    hide Show, Good, ScanAll, AllBlank;
    var t := Show(v);
    assert t[..k][..j] == t[..j] && t[..k][j] == t[j];
    ScanSplits(Clean(0), t[..j], [t[j]]);
    assert t[..j] + [t[j]] == t[..j + 1];
    ScanOne(ScanAll(Clean(0), t[..j]), t[j]);
    ObjectDepth(v, j + 1);
  }

  /** When their braces leave the depth at zero, the whole object is recognised as it is behind any other length, and no
      part of it; when they leave it open, nothing ever is. */
  lemma BraceLengthIff(p: string, v: Value, k: nat, d: int)
    requires Good(v) && v.Object? && k <= |Show(v)| && |p| == 4 && p[0] == '{'
    requires AtBrace(ScanAll(Clean(0), p)) == Clean(d) && d >= 0
    ensures Complete(p + Show(v)[..k]) <==> d == 0 && k == |Show(v)| && k >= WINDOW - 4
  {
    var t := Show(v);
    var u := t[..k];
    ReadAsText(p, u, d);
    hide Show, Good, ScanAll, EarlyClose, AllBlank, Complete;
    ObjectDepth(v, k);
    var e := -d;
    forall j | 0 <= j < k && EarlyClose(u, j, e) ensures d == 0 && j + 1 == |t| {
      ClosesLast(v, k, j, e);
    }
    if k == |t| {
      BeforeLastBrace(v);
      assert u == t;
      BlankEnd(u);
    }
    assert k == 0 ==> u == "";
  }

  /** When their braces leave it below zero, the whole object is recognised if and only if a brace inside it, which closes
      to that many open ones, has a whole window of blanks behind it. */
  lemma BraceLengthBelow(p: string, v: Value, open: int)
    requires Good(v) && v.Object? && |p| == 4 && p[0] == '{' && AtBrace(ScanAll(Clean(0), p)) == Clean(-open) && open > 0
    ensures Complete(p + Show(v)) <==> ClosesInside(Show(v), open)
  {
    var t := Show(v);
    hide Show, Good, ScanAll, AllBlank, Complete, EarlyClose, LastIsBrace;
    OpensWithBrace(v);
    ReadAsText(p, t, -open);
    ObjectDepth(v, |t|);
    assert t[..|t|] == t;
    forall j | 0 <= j < |t| && EarlyClose(t, j, open) ensures j <= |t| - WINDOW {
      NotLast(v, j, open);
    }
  }

  predicate ClosesInside(t: string, open: int) {
    exists j :: 0 <= j < |t| && j <= |t| - WINDOW && 4 + j > EARLY && EarlyClose(t, j, open)
  }

  lemma OpensWithBrace(v: Value)
    requires v.Object?
    ensures Show(v) != "" && Show(v)[0] == '{'
  {
  }

  lemma NotLast(v: Value, j: nat, d: int)
    requires Good(v) && v.Object? && j < |Show(v)| && d > 0 && EarlyClose(Show(v), j, d)
    ensures j <= |Show(v)| - WINDOW
  {
    hide Show, Good, ScanAll;
    var t := Show(v);
    BeforeLastBrace(v);
    assert t[..|t|] == t;
    assert j < |t| - 1;
    BraceAfter(t, j, Min(|t|, j + WINDOW));
  }

  /** Blanks do not reach over the last brace. */
  lemma BraceAfter(t: string, j: nat, m: nat)
    requires j + 1 < |t| && j < m <= |t| && t[|t| - 1] == '}'
    ensures AllBlank(t[j + 1..m]) ==> m < |t|
  {
    if m == |t| {
      assert t[j + 1..m][m - j - 2] == '}';
    }
  }

  lemma BlankEnd(u: string)
    requires u != "" && u[|u| - 1] == '}'
    ensures LastIsBrace(u)
  {
    assert AllBlank(u[|u|..]);
  }

  /** For one: the bytes of length 32123 are a pair of braces and two zeros, and an object of that length is recognised. */
  lemma StrayBraceCloses(v: Value)
    requires Good(v) && v.Object? && |Show(v)| == 32123
    ensures var p := ['{', '}', '\0', '\0'];
            Announced(p) == |Show(v)| && Complete(p + Show(v))
  {
    hide Show, Good, ScanAll, Complete;
    var p := ['{', '}', '\0', '\0'];
    ScanFour(p);
    BraceLengthIff(p, v, |Show(v)|, 0);
    assert Show(v)[..|Show(v)|] == Show(v);
  }

  lemma ScanFour(p: string)
    requires |p| == 4
    ensures ScanAll(Clean(0), p) == ScanStep(ScanStep(ScanStep(ScanStep(Clean(0), p[0]), p[1]), p[2]), p[3])
  {
    hide ScanStep;
    assert p == [p[0]] + ([p[1]] + ([p[2]] + [p[3]]));
    ScanOne(Clean(0), p[0]);
    var s1 := ScanStep(Clean(0), p[0]);
    ScanSplits(Clean(0), [p[0]], [p[1]] + ([p[2]] + [p[3]]));
    ScanOne(s1, p[1]);
    var s2 := ScanStep(s1, p[1]);
    ScanSplits(s1, [p[1]], [p[2]] + [p[3]]);
    ScanOne(s2, p[2]);
    ScanSplits(s2, [p[2]], [p[3]]);
    ScanOne(ScanStep(s2, p[2]), p[3]);
  }

  lemma ShortLengthsInert(p: string)
    requires |p| == 4 && p[0] == '{' && Announced(p) < 8704 && forall i :: 0 <= i < 4 ==> (p[i] as int) < 256
    ensures Inert(p[1]) && Inert(p[2]) && Inert(p[3]) && Announced(p) % 256 == 123
  {
    assert forall i :: 1 <= i < 4 ==> p[i] as int < 34;
  }

  /** With nothing but inert bytes behind the brace nothing is ever recognised. */
  lemma BraceLengthNeverCompletes(p: string, v: Value, k: nat)
    requires Good(v) && v.Object? && k <= |Show(v)| && |p| == 4 && p[0] == '{' && Inert(p[1]) && Inert(p[2]) && Inert(p[3])
    ensures !Complete(p + Show(v)[..k])
  {
    ScanFour(p);
    BraceLengthIff(p, v, k, 1);
  }

  /** So it is for every length below 8704 whose first byte is a brace. */
  lemma ShortBraceLengthNeverCompletes(p: string, v: Value, k: nat)
    requires Good(v) && v.Object? && k <= |Show(v)| && |p| == 4 && p[0] == '{'
    requires Announced(p) < 8704 && forall i :: 0 <= i < 4 ==> (p[i] as int) < 256
    ensures !Complete(p + Show(v)[..k])
  {
    ShortLengthsInert(p);
    BraceLengthNeverCompletes(p, v, k);
  }

  /** Reading on from inside a string, every quotation mark means its opposite. */
  lemma {:induction false} ScanFlips(a: Scan, b: Scan, s: string)
    requires a.inString == !b.inString && a.escaped == b.escaped
    ensures ScanAll(a, s).inString == !ScanAll(b, s).inString && ScanAll(a, s).escaped == ScanAll(b, s).escaped
    decreases |s|
  {
    if s != "" {
      ScanFlips(ScanStep(a, s[0]), ScanStep(b, s[0]), s[1..]);
    }
  }

  lemma {:induction false} BlanksStay(sc: Scan, s: string)
    requires AllBlank(s)
    ensures ScanAll(sc, s).inString == sc.inString
    decreases |s|
  {
    if s != "" {
      BlanksStay(ScanStep(sc, s[0]), s[1..]);
    }
  }

  /** Bytes that end inside a string: the whole object is recognised if and only if reading on from there, with the
      inside and the outside of its strings exchanged, finds a brace past the first thousand bytes that closes everything
      and has blanks behind it.  At the end the last string is open. */
  lemma QuoteLengthIff(p: string, v: Value, d: int)
    requires Good(v) && v.Object? && |p| == 4 && p[0] == '{' && AtBrace(ScanAll(Clean(0), p)) == Scan(d, true, false)
    ensures Complete(p + Show(v))
            <==> exists j :: 0 <= j < |Show(v)| && 4 + j > EARLY && CloseFrom(Show(v), j, Scan(d, true, false))
  {
    hide Show, Good, ScanAll, Complete, CloseFrom, LastIsBrace;
    var t := Show(v);
    OpensWithBrace(v);
    ReadFrom(p, t);
    ScanFlips(Scan(d, true, false), Clean(0), t);
    ObjectDepth(v, |t|);
    assert t[..|t|] == t;
  }

  /** Such a brace is one that the text has in a string; of a part too, nothing is recognised without one. */
  lemma QuoteLengthNeedsBrace(p: string, u: string)
    requires |p| == 4 && p[0] == '{' && (u == "" || u[0] == '{')
    requires AtBrace(ScanAll(Clean(0), p)).inString && Complete(p + u)
    ensures exists j :: 0 <= j < |u| && u[j] == '}' && ScanAll(Clean(0), u[..j]).inString
  {
    hide ScanAll, Complete, AtBrace, AllBlank;
    ReadFrom(p, u);
    var sc := AtBrace(ScanAll(Clean(0), p));
    NoEscape(ScanAll(Clean(0), p));
    var j :| 0 <= j < |u| && u[j] == '}' && !ScanAll(sc, u[..j]).inString by {
      if e :| 0 <= e < |u| && 4 + e > EARLY && CloseFrom(u, e, sc) {
        assert !ScanAll(sc, u[..e]).inString;
      } else {
        var e :| 0 <= e < |u| && |u| - WINDOW <= e && u[e] == '}' && AllBlank(u[e + 1..]);
        LastOutside(sc, u, e);
      }
    }
    ScanFlips(sc, Clean(0), u[..j]);
  }

  lemma NoEscape(sc: Scan)
    ensures !AtBrace(sc).escaped
  {
  }

  lemma LastOutside(sc: Scan, u: string, i: nat)
    requires i < |u| && u[i] == '}' && AllBlank(u[i + 1..]) && !ScanAll(sc, u).inString
    ensures !ScanAll(sc, u[..i]).inString
  {
    hide ScanAll;
    assert u == u[..i] + ([u[i]] + u[i + 1..]);
    ScanSplits(sc, u[..i], [u[i]] + u[i + 1..]);
    var mid := ScanAll(sc, u[..i]);
    ScanSplits(mid, [u[i]], u[i + 1..]);
    ScanOne(mid, u[i]);
    BlanksStay(ScanStep(mid, u[i]), u[i + 1..]);
  }

  // The detector.

  /** The hundred bytes after a closing brace, for blanks. */
  method BlanksFollow(b: string, i: nat) returns (blank: bool)
    requires i < |b|
    ensures blank <==> AllBlank(b[i + 1..Min(|b|, i + WINDOW)])
  {
    var j := i + 1;
    while j < |b| && j < i + WINDOW
      invariant i < j && j <= Min(|b|, i + WINDOW) && forall k :: i < k < j ==> IsBlank(b[k])
    {
      if !IsBlank(b[j]) {
        assert b[i + 1..Min(|b|, i + WINDOW)][j - (i + 1)] == b[j];
        return false;
      }
      j := j + 1;
    }
    return true;
  }

  /** Backwards from the end; the bound is an unsigned difference, so it wraps for a short buffer. */
  method EndsWithBrace(b: string, start: nat) returns (ends: bool)
    requires start <= |b| < TWO32
    ensures ends <==> EndsInBrace(b, start)
  {
    var bound := (|b| - WINDOW) % TWO32;
    var i: nat := |b|;
    while i > start && i > bound
      invariant i <= |b| && forall k :: i <= k < |b| ==> IsBlank(b[k])
      invariant |b| >= WINDOW ==> i >= bound
    {
      if !IsBlank(b[i - 1]) {
        if b[i - 1] == '}' {
          return true;
        }
        forall j | start <= j < |b| && b[j] == '}' ensures !AllBlank(b[j + 1..]) {
          assert b[j + 1..][i - 1 - (j + 1)] == b[i - 1];
        }
        return false;
      }
      i := i - 1;
    }
    return false;
  }

  method ScanJson(b: string, start: nat) returns (complete: bool)
    requires start <= |b| < TWO32
    ensures complete <==> JsonComplete(b, start)
  {
    hide EndsInBrace;
    var depth, inString, escaped := 0, false, false;
    var i := start;
    while i < |b|
      invariant start <= i <= |b| && ScanAll(Clean(0), b[start..i]) == Scan(depth, inString, escaped)
      invariant forall j :: start <= j < i ==> !EarlyExit(b, start, j)
    {
      var c := b[i];
      StepOn(b, start, i);
      if escaped {
        escaped := false;
      } else if c == '\\' {
        escaped := true;
      } else if c == '"' {
        inString := !inString;
      } else if !inString {
        if c == '{' {
          depth := depth + 1;
        } else if c == '}' {
          depth := depth - 1;
          if depth == 0 && i > EARLY {
            var blank := BlanksFollow(b, i);
            if blank || i + 1 >= |b| {
              assert EarlyExit(b, start, i);
              return true;
            }
          }
        }
      }
      i := i + 1;
    }
    assert b[start..i] == b[start..];
    if depth != 0 || inString {
      return false;
    }
    complete := EndsWithBrace(b, start);
  }

  lemma StepOn(b: string, start: nat, i: nat)
    requires start <= i < |b|
    ensures ScanAll(Clean(0), b[start..i + 1]) == ScanStep(ScanAll(Clean(0), b[start..i]), b[i])
  {
    ScanSplits(Clean(0), b[start..i], [b[i]]);
    assert b[start..i] + [b[i]] == b[start..i + 1];
    ScanOne(ScanAll(Clean(0), b[start..i]), b[i]);
  }

  method HasCompleteJson(b: string) returns (complete: bool)
    requires |b| < TWO32
    ensures complete <==> Complete(b)
  {
    if |b| < 2 {
      return false;
    }
    var start := 0;
    if |b| >= 5 {
      if b[0] != '{' && b[4] == '{' {
        var expected := Code(b[0]) as nat + Code(b[1]) as nat * 256 + Code(b[2]) as nat * TWO16 + Code(b[3]) as nat * TWO24;
        start := 4;
        if |b| < (4 + expected) % TWO32 {
          return false;
        }
      }
    }
    if IsMsgPack(b[start]) {
      return |b| >= 1024;
    }
    if b[start] != '{' {
      return false;
    }
    complete := ScanJson(b, start);
  }
}
