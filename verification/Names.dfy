/** Protocol names in components/tailscale/noise/src/protocol/names.c: Noise_XXpsk3_25519_ChaChaPoly_BLAKE2s and the
    like, parsed into identifiers and printed from them. */
module Names {
  import opened Bytes

  datatype Mapping = Mapping(id: int, name: string)

  const CIPHER: nat := 67 * 256      // 'C'
  const HASH: nat := 72 * 256
  const DH: nat := 68 * 256
  const PATTERN: nat := 80 * 256
  const MODIFIER: nat := 77 * 256
  const PREFIX: nat := 78 * 256

  const MAX_MODIFIERS: nat := 16

  function Category(id: int): int { id / 256 * 256 }

  /** The algorithms of this build, the patterns and the modifiers. */
  const TABLE: seq<Mapping> := [
    Mapping(CIPHER + 1, "ChaChaPoly"), Mapping(HASH + 1, "BLAKE2s"), Mapping(DH + 1, "25519"),
    Mapping(PATTERN + 1, "N"), Mapping(PATTERN + 2, "X"), Mapping(PATTERN + 3, "K"),
    Mapping(PATTERN + 4, "NN"), Mapping(PATTERN + 5, "NK"), Mapping(PATTERN + 6, "NX"),
    Mapping(PATTERN + 7, "XN"), Mapping(PATTERN + 8, "XK"), Mapping(PATTERN + 9, "XX"),
    Mapping(PATTERN + 10, "KN"), Mapping(PATTERN + 11, "KK"), Mapping(PATTERN + 12, "KX"),
    Mapping(PATTERN + 13, "IN"), Mapping(PATTERN + 14, "IK"), Mapping(PATTERN + 15, "IX"),
    Mapping(MODIFIER + 1, "fallback"), Mapping(MODIFIER + 2, "hfs"),
    Mapping(MODIFIER + 20, "psk0"), Mapping(MODIFIER + 21, "psk1"), Mapping(MODIFIER + 22, "psk2"), Mapping(MODIFIER + 23, "psk3"),
    Mapping(PREFIX + 1, "Noise")]

  predicate IsUpper(c: char) { 'A' <= c <= 'Z' }
  predicate AllUpper(s: string) { forall i :: 0 <= i < |s| ==> IsUpper(s[i]) }
  predicate Without(s: string, c: char) { forall i :: 0 <= i < |s| ==> s[i] != c }

  /** A name that can stand in a protocol name; patterns are capitals, and no modifier starts with one. */
  predicate GoodName(m: Mapping) {
    && m.name != "" && m.id > 0 && Without(m.name, '_') && Without(m.name, '+') && Without(m.name, '\0')
    && (Category(m.id) == PATTERN ==> AllUpper(m.name))
    && (Category(m.id) == MODIFIER ==> !IsUpper(m.name[0]))
  }

  predicate Unique(t: seq<Mapping>) {
    forall i, j :: 0 <= i < j < |t| && Category(t[i].id) == Category(t[j].id) ==> t[i].name != t[j].name && t[i].id != t[j].id
  }

  predicate Lawful(t: seq<Mapping>) { Unique(t) && forall i :: 0 <= i < |t| ==> GoodName(t[i]) }

  /** Length, first and last character tell all the names of the table apart. */
  function Key(name: string): (nat, char, char)
    requires name != ""
  {
    (|name|, name[0], name[|name| - 1])
  }

  function IdOfKey(k: (nat, char, char)): nat {
    if k == (10, 'C', 'y') then CIPHER + 1
    else if k == (7, 'B', 's') then HASH + 1
    else if k == (5, '2', '9') then DH + 1
    else if k == (1, 'N', 'N') then PATTERN + 1
    else if k == (1, 'X', 'X') then PATTERN + 2
    else if k == (1, 'K', 'K') then PATTERN + 3
    else if k == (2, 'N', 'N') then PATTERN + 4
    else if k == (2, 'N', 'K') then PATTERN + 5
    else if k == (2, 'N', 'X') then PATTERN + 6
    else if k == (2, 'X', 'N') then PATTERN + 7
    else if k == (2, 'X', 'K') then PATTERN + 8
    else if k == (2, 'X', 'X') then PATTERN + 9
    else if k == (2, 'K', 'N') then PATTERN + 10
    else if k == (2, 'K', 'K') then PATTERN + 11
    else if k == (2, 'K', 'X') then PATTERN + 12
    else if k == (2, 'I', 'N') then PATTERN + 13
    else if k == (2, 'I', 'K') then PATTERN + 14
    else if k == (2, 'I', 'X') then PATTERN + 15
    else if k == (8, 'f', 'k') then MODIFIER + 1
    else if k == (3, 'h', 's') then MODIFIER + 2
    else if k == (4, 'p', '0') then MODIFIER + 20
    else if k == (4, 'p', '1') then MODIFIER + 21
    else if k == (4, 'p', '2') then MODIFIER + 22
    else if k == (4, 'p', '3') then MODIFIER + 23
    else if k == (5, 'N', 'e') then PREFIX + 1
    else 0
  }

  lemma ShortPatternRow(i: nat)
    requires 3 <= i < 10
    ensures GoodName(TABLE[i])
  {
  }

  lemma PatternRow(i: nat)
    requires 10 <= i < 18
    ensures GoodName(TABLE[i])
  {
  }

  lemma AlgorithmRow(i: nat)
    requires i < 3 || 22 <= i < |TABLE|
    ensures GoodName(TABLE[i])
  {
  }

  lemma ModifierRow(i: nat)
    requires 18 <= i < 22
    ensures GoodName(TABLE[i])
  {
  }

  lemma PatternKey(i: nat)
    requires 3 <= i < 18
    ensures TABLE[i].name != "" && IdOfKey(Key(TABLE[i].name)) == TABLE[i].id
  {
  }

  lemma OtherKey(i: nat)
    requires i < 3 || 18 <= i < |TABLE|
    ensures TABLE[i].name != "" && IdOfKey(Key(TABLE[i].name)) == TABLE[i].id
  {
  }

  /** Every name can stand in a protocol name, and no two of a category are alike. */
  lemma TableIsLawful()
    ensures Lawful(TABLE)
  {
    hide TABLE, IdOfKey, Key, GoodName, Category;
    IdsDiffer();
    forall i: nat | i < |TABLE| ensures GoodName(TABLE[i]) {
      GoodRow(i);
    }
    forall i, j | 0 <= i < j < |TABLE| ensures TABLE[i].name != TABLE[j].name {
      RowKey(i);
      RowKey(j);
    }
  }

  function IdAt(i: nat): nat {
    if i == 0 then CIPHER + 1 else if i == 1 then HASH + 1 else if i == 2 then DH + 1
    else if i < 18 then PATTERN + i - 2
    else if i < 20 then MODIFIER + i - 17
    else if i < 24 then MODIFIER + i
    else PREFIX + 1
  }

  lemma IdsAre()
    ensures |TABLE| == 25 && forall i :: 0 <= i < |TABLE| ==> TABLE[i].id == IdAt(i)
  {
  }

  lemma IdsDiffer()
    ensures forall i, j :: 0 <= i < j < |TABLE| ==> TABLE[i].id != TABLE[j].id
  {
    hide TABLE;
    IdsAre();
  }

  lemma GoodRow(i: nat)
    requires i < |TABLE|
    ensures GoodName(TABLE[i])
  {
    hide TABLE, GoodName;
    assert |TABLE| == 25 by { TableSize(); }
    if i < 3 || 22 <= i {
      AlgorithmRow(i);
    } else if i < 10 {
      ShortPatternRow(i);
    } else if i < 18 {
      PatternRow(i);
    } else {
      ModifierRow(i);
    }
  }

  lemma TableSize()
    ensures |TABLE| == 25
  {
  }

  lemma RowKey(i: nat)
    requires i < |TABLE|
    ensures TABLE[i].name != "" && IdOfKey(Key(TABLE[i].name)) == TABLE[i].id
  {
    hide TABLE, IdOfKey, Key;
    TableSize();
    if 3 <= i < 18 {
      PatternKey(i);
    } else {
      OtherKey(i);
    }
  }

  // Lookups.

  predicate InCategory(category: nat, id: int) { category == 0 || Category(id) == category }

  function NameToId(t: seq<Mapping>, category: nat, name: string): int {
    if t == [] then 0
    else if InCategory(category, t[0].id) && t[0].name == name then t[0].id
    else NameToId(t[1..], category, name)
  }

  function IdToName(t: seq<Mapping>, category: nat, id: int): Option<string> {
    if t == [] then None
    else if InCategory(category, t[0].id) && t[0].id == id then Some(t[0].name)
    else IdToName(t[1..], category, id)
  }

  /** The two lookups undo each other. */
  lemma {:induction false} LookupsInvert(t: seq<Mapping>, category: nat, id: int, name: string)
    requires Lawful(t) && category != 0
    ensures (id != 0 && NameToId(t, category, name) == id) <==> IdToName(t, category, id) == Some(name)
    decreases |t|
  {
    if t != [] {
      var rest := t[1..];
      assert Lawful(rest);
      LookupsInvert(rest, category, id, name);
      assert GoodName(t[0]);
      if InCategory(category, t[0].id) {
        RestHasNo(rest, category, t[0]);
      }
    }
  }

  lemma {:induction false} RestHasNo(t: seq<Mapping>, category: nat, m: Mapping)
    requires category != 0 && InCategory(category, m.id)
    requires forall j :: 0 <= j < |t| && Category(t[j].id) == Category(m.id) ==> t[j].name != m.name && t[j].id != m.id
    ensures NameToId(t, category, m.name) == 0 && IdToName(t, category, m.id) == None
    decreases |t|
  {
    if t != [] {
      assert Category(t[0].id) == category ==> t[0].id != m.id && t[0].name != m.name;
      RestHasNo(t[1..], category, m);
    }
  }

  lemma {:induction false} LookedUpIsGood(t: seq<Mapping>, category: nat, id: int)
    requires Lawful(t) && category != 0 && IdToName(t, category, id).Some?
    ensures GoodName(Mapping(id, IdToName(t, category, id).value)) && Category(id) == category
    decreases |t|
  {
    assert GoodName(t[0]);
    if !(InCategory(category, t[0].id) && t[0].id == id) {
      assert Lawful(t[1..]);
      LookedUpIsGood(t[1..], category, id);
    }
  }

  // Lists joined by a plus sign.

  /** How far up to the first c, or the end. */
  function Cut(s: string, c: char): (k: nat)
    ensures k <= |s| && Without(s[..k], c) && (k < |s| ==> s[k] == c)
  {
    if s == "" || s[0] == c then 0 else
      var k := 1 + Cut(s[1..], c);
      assert s[..k] == [s[0]] + s[1..][..k - 1];
      k
  }

  lemma {:induction false} CutOf(a: string, c: char, rest: string)
    requires Without(a, c)
    ensures Cut(a + [c] + rest, c) == |a| && Cut(a, c) == |a|
  {
    if a != "" {
      CutOf(a[1..], c, rest);
      assert (a + [c] + rest)[1..] == a[1..] + [c] + rest;
    }
  }

  datatype Ids = Ids(ids: seq<int>) | UnknownName | TooMany

  function Cons(id: int, rest: Ids): Ids { if rest.Ids? then Ids([id] + rest.ids) else rest }

  /** The identifiers after the first one; `room` is what is left of the caller's array. */
  function ParseRest(t: seq<Mapping>, category: nat, s: string, room: nat): Ids
    decreases |s|
  {
    if s == "" then Ids([])
    else
      var k := Cut(s, '+');
      var id := NameToId(t, category, s[..k]);
      if id == 0 || k + 1 == |s| then UnknownName
      else if room == 0 then TooMany
      else Cons(id, ParseRest(t, category, if k < |s| then s[k + 1..] else "", room - 1))
  }

  /** Names joined by a plus sign, if every identifier has one. */
  function Join(t: seq<Mapping>, category: nat, ids: seq<int>): Option<string> {
    if ids == [] then Some("")
    else match IdToName(t, category, ids[0])
      case None => None
      case Some(name) =>
        if |ids| == 1 then Some(name)
        else match Join(t, category, ids[1..])
          case None => None
          case Some(rest) => Some(name + "+" + rest)
  }

  lemma {:induction false} JoinStarts(t: seq<Mapping>, category: nat, ids: seq<int>)
    requires Lawful(t) && category != 0 && Join(t, category, ids).Some? && ids != []
    ensures var s, name := Join(t, category, ids).value, IdToName(t, category, ids[0]).value;
            name != "" && s != "" && s[0] == name[0]
  {
    LookedUpIsGood(t, category, ids[0]);
  }

  lemma ParseOne(t: seq<Mapping>, category: nat, id: int, name: string, room: nat)
    requires Lawful(t) && category != 0 && IdToName(t, category, id) == Some(name)
    ensures ParseRest(t, category, name, room) == if room == 0 then TooMany else Ids([id])
  {
    LookedUpIsGood(t, category, id);
    LookupsInvert(t, category, id, name);
    CutOf(name, '+', "");
    assert name[..|name|] == name;
  }

  lemma ParseFirst(t: seq<Mapping>, category: nat, id: int, name: string, rest: string, room: nat)
    requires Lawful(t) && category != 0 && IdToName(t, category, id) == Some(name) && rest != ""
    ensures ParseRest(t, category, name + "+" + rest, room)
         == if room == 0 then TooMany else Cons(id, ParseRest(t, category, rest, room - 1))
  {
    LookedUpIsGood(t, category, id);
    LookupsInvert(t, category, id, name);
    CutOf(name, '+', rest);
    var s := name + "+" + rest;
    assert s == name + ['+'] + rest && s[..|name|] == name && s[|name| + 1..] == rest;
  }

  lemma JoinUnfolds(t: seq<Mapping>, category: nat, ids: seq<int>) returns (name: string, rest: string)
    requires Lawful(t) && category != 0 && |ids| > 1 && Join(t, category, ids).Some?
    ensures IdToName(t, category, ids[0]) == Some(name) && Join(t, category, ids[1..]) == Some(rest)
    ensures rest != "" && Join(t, category, ids).value == name + "+" + rest
  {
    name, rest := IdToName(t, category, ids[0]).value, Join(t, category, ids[1..]).value;
    JoinStarts(t, category, ids[1..]);
  }

  lemma ParseFew(t: seq<Mapping>, category: nat, ids: seq<int>, room: nat)
    requires Lawful(t) && category != 0 && Join(t, category, ids).Some? && |ids| <= 1
    ensures ParseRest(t, category, Join(t, category, ids).value, room) == if |ids| <= room then Ids(ids) else TooMany
  {
    if ids != [] {
      hide ParseRest;
      ParseOne(t, category, ids[0], IdToName(t, category, ids[0]).value, room);
      assert ids == [ids[0]];
    }
  }

  /** Parsing a joined list gives its identifiers, if there is room. */
  lemma {:induction false} ParseJoined(t: seq<Mapping>, category: nat, ids: seq<int>, room: nat)
    requires Lawful(t) && category != 0 && Join(t, category, ids).Some?
    ensures ParseRest(t, category, Join(t, category, ids).value, room) == if |ids| <= room then Ids(ids) else TooMany
    decreases |ids|
  {
    hide ParseRest, Lawful, Join, IdToName;
    if |ids| <= 1 {
      ParseFew(t, category, ids, room);
    } else {
      var name, rest := JoinUnfolds(t, category, ids);
      ParseFirst(t, category, ids[0], name, rest, room);
      if room > 0 {
        ParseJoined(t, category, ids[1..], room - 1);
        assert ids == [ids[0]] + ids[1..];
      }
    }
  }

  lemma JoinFirst(t: seq<Mapping>, category: nat, id: int, later: seq<int>)
    requires IdToName(t, category, id).Some? && Join(t, category, later).Some?
    ensures var name := IdToName(t, category, id).value;
            Join(t, category, [id] + later) == Some(if later == [] then name else name + "+" + Join(t, category, later).value)
  {
    assert ([id] + later)[1..] == later;
  }

  lemma ParseUnfolds(t: seq<Mapping>, category: nat, s: string, room: nat) returns (id: int, name: string, rest: string)
    requires Lawful(t) && category != 0 && s != "" && ParseRest(t, category, s, room).Ids?
    ensures room > 0 && |rest| < |s| && IdToName(t, category, id) == Some(name)
    ensures s == if rest == "" then name else name + "+" + rest
    ensures ParseRest(t, category, rest, room - 1).Ids?
    ensures ParseRest(t, category, s, room).ids == [id] + ParseRest(t, category, rest, room - 1).ids
  {
    var k := Cut(s, '+');
    id, name, rest := NameToId(t, category, s[..k]), s[..k], if k < |s| then s[k + 1..] else "";
    LookupsInvert(t, category, id, s[..k]);
  }

  /** Only a joined list parses. */
  lemma {:induction false} ParsedIsJoined(t: seq<Mapping>, category: nat, s: string, room: nat)
    requires Lawful(t) && category != 0 && ParseRest(t, category, s, room).Ids?
    ensures var ids := ParseRest(t, category, s, room).ids;
            Join(t, category, ids) == Some(s) && |ids| <= room && (ids == [] <==> s == "")
    decreases |s|
  {
    if s != "" {
      hide ParseRest, Join, IdToName, Lawful;
      var id, name, rest := ParseUnfolds(t, category, s, room);
      ParsedIsJoined(t, category, rest, room - 1);
      JoinFirst(t, category, id, ParseRest(t, category, rest, room - 1).ids);
    }
  }

  // Whole names.

  datatype ProtocolId = ProtocolId(prefix: int, pattern: int, modifiers: seq<int>, dh: int, cipher: int, hash: int,
                                   hybrid: int, reserved: seq<int>)

  function Zeroes(n: nat): seq<int> { seq(n, _ => 0) }

  const CLEARED: ProtocolId := ProtocolId(0, 0, Zeroes(MAX_MODIFIERS), 0, 0, 0, 0, Zeroes(4))

  /** The modifiers before the first empty slot. */
  function Active(ms: seq<int>): (r: seq<int>)
    ensures |r| <= |ms| && r == ms[..|r|] && (forall i :: 0 <= i < |r| ==> r[i] != 0) && (|r| < |ms| ==> ms[|r|] == 0)
  {
    if ms == [] || ms[0] == 0 then [] else [ms[0]] + Active(ms[1..])
  }

  predicate AllZero(ms: seq<int>) { forall i :: 0 <= i < |ms| ==> ms[i] == 0 }

  /** The slots after the modifiers and the reserved ones are empty. */
  predicate WellFormed(id: ProtocolId) {
    && |id.modifiers| == MAX_MODIFIERS && id.modifiers == Active(id.modifiers) + Zeroes(MAX_MODIFIERS - |Active(id.modifiers)|)
    && |id.reserved| == 4
  }

  function DhIds(id: ProtocolId): seq<int> { if id.hybrid == 0 then [id.dh] else [id.dh, id.hybrid] }

  function PatternText(t: seq<Mapping>, pattern: int, ms: seq<int>): Option<string> {
    match IdToName(t, PATTERN, pattern)
    case None => None
    case Some(p) =>
      match Join(t, MODIFIER, ms)
      case None => None
      case Some(m) => Some(p + m)
  }

  function Print(t: seq<Mapping>, id: ProtocolId): Option<string> {
    var prefix, pattern := IdToName(t, PREFIX, id.prefix), PatternText(t, id.pattern, Active(id.modifiers));
    var dh, cipher, hash := Join(t, DH, DhIds(id)), IdToName(t, CIPHER, id.cipher), IdToName(t, HASH, id.hash);
    if prefix.None? || pattern.None? || dh.None? || cipher.None? || hash.None? || !AllZero(id.reserved) then None
    else Some(prefix.value + "_" + (pattern.value + "_" + (dh.value + "_" + (cipher.value + "_" + hash.value))))
  }

  function UpperRun(s: string): (k: nat)
    ensures k <= |s| && AllUpper(s[..k]) && (k < |s| ==> !IsUpper(s[k]))
  {
    if s == "" || !IsUpper(s[0]) then 0 else
      var k := 1 + UpperRun(s[1..]);
      assert s[..k] == [s[0]] + s[1..][..k - 1];
      k
  }

  function ParsePattern(t: seq<Mapping>, s: string, room: nat): Ids {
    var k := UpperRun(s);
    var id := NameToId(t, PATTERN, s[..k]);
    if (k < |s| && s[k] == '+') || id == 0 then UnknownName
    else if room == 0 then TooMany
    else Cons(id, ParseRest(t, MODIFIER, s[k..], room - 1))
  }

  /** A list whose first name may be of another category. */
  function ParseList(t: seq<Mapping>, category1: nat, category2: nat, s: string, room: nat): Ids {
    var k := Cut(s, '+');
    var id := NameToId(t, category1, s[..k]);
    if id == 0 || k + 1 == |s| then UnknownName
    else if room == 0 then TooMany
    else Cons(id, ParseRest(t, category2, if k < |s| then s[k + 1..] else "", room - 1))
  }

  function ParseIds(t: seq<Mapping>, category1: nat, category2: nat, s: string, room: nat): Ids {
    if category1 == PATTERN && category2 == MODIFIER then ParsePattern(t, s, room)
    else ParseList(t, category1, if category2 == 0 then category1 else category2, s, room)
  }

  function ParseDual(t: seq<Mapping>, s: string, room: nat): Ids { ParseIds(t, DH, DH, s, room) }

  /** A field up to its underscore, and what follows. */
  function TakeField(s: string): (r: Option<(string, string)>)
    ensures r.Some? ==> Without(r.value.0, '_') && s == r.value.0 + "_" + r.value.1
  {
    var k := Cut(s, '_');
    if k < |s| then assert s == s[..k] + "_" + s[k + 1..]; Some((s[..k], s[k + 1..])) else None
  }

  function Parse(t: seq<Mapping>, s: string): Option<ProtocolId> {
    match TakeField(s)
    case None => None
    case Some(f1) =>
      match TakeField(f1.1)
      case None => None
      case Some(f2) =>
        match TakeField(f2.1)
        case None => None
        case Some(f3) =>
          match TakeField(f3.1)
          case None => None
          case Some(f4) => if Without(f4.1, '_') then FromFields(t, f1.0, f2.0, f3.0, f4.0, f4.1) else None
  }

  function FromFields(t: seq<Mapping>, f1: string, f2: string, f3: string, f4: string, f5: string): Option<ProtocolId> {
    var prefix, pattern, dh := NameToId(t, PREFIX, f1), ParsePattern(t, f2, MAX_MODIFIERS + 1), ParseDual(t, f3, 2);
    var cipher, hash := NameToId(t, CIPHER, f4), NameToId(t, HASH, f5);
    if prefix == 0 || !pattern.Ids? || !dh.Ids? || cipher == 0 || hash == 0
       || |pattern.ids| == 0 || |pattern.ids| > MAX_MODIFIERS + 1 || |dh.ids| == 0 then None
    else
      Some(ProtocolId(prefix, pattern.ids[0], pattern.ids[1..] + Zeroes(MAX_MODIFIERS + 1 - |pattern.ids|),
                      dh.ids[0], cipher, hash, if |dh.ids| > 1 then dh.ids[1] else 0, Zeroes(4)))
  }

  lemma {:induction false} UpperRunOf(a: string, b: string)
    requires AllUpper(a) && (b == "" || !IsUpper(b[0]))
    ensures UpperRun(a + b) == |a|
  {
    if a == "" {
      assert a + b == b;
    } else {
      UpperRunOf(a[1..], b);
      assert (a + b)[1..] == a[1..] + b;
    }
  }

  /** A pattern field parses to a pattern and its modifiers exactly when it is their text. */
  lemma PatternIff(t: seq<Mapping>, s: string, pattern: int, ms: seq<int>)
    requires Lawful(t)
    ensures ParsePattern(t, s, MAX_MODIFIERS + 1) == Ids([pattern] + ms)
            <==> PatternText(t, pattern, ms) == Some(s) && |ms| <= MAX_MODIFIERS
  {
    if PatternText(t, pattern, ms) == Some(s) {
      var p, m := IdToName(t, PATTERN, pattern).value, Join(t, MODIFIER, ms).value;
      LookedUpIsGood(t, PATTERN, pattern);
      LookupsInvert(t, PATTERN, pattern, p);
      if ms != [] {
        JoinStarts(t, MODIFIER, ms);
        LookedUpIsGood(t, MODIFIER, ms[0]);
      }
      UpperRunOf(p, m);
      assert s[..|p|] == p && s[|p|..] == m;
      ParseJoined(t, MODIFIER, ms, MAX_MODIFIERS);
    }
    if ParsePattern(t, s, MAX_MODIFIERS + 1) == Ids([pattern] + ms) {
      var k := UpperRun(s);
      LookupsInvert(t, PATTERN, NameToId(t, PATTERN, s[..k]), s[..k]);
      ParsedIsJoined(t, MODIFIER, s[k..], MAX_MODIFIERS);
      var rest := ParseRest(t, MODIFIER, s[k..], MAX_MODIFIERS).ids;
      assert ([pattern] + ms)[1..] == ms && ([NameToId(t, PATTERN, s[..k])] + rest)[1..] == rest;
      assert s == s[..k] + s[k..];
    }
  }

  lemma {:induction false} NoEmptyName(t: seq<Mapping>, category: nat)
    requires Lawful(t)
    ensures NameToId(t, category, "") == 0
    decreases |t|
  {
    if t != [] {
      assert GoodName(t[0]) && Lawful(t[1..]);
      NoEmptyName(t[1..], category);
    }
  }

  lemma DualIff(t: seq<Mapping>, s: string, ids: seq<int>)
    requires Lawful(t) && ids != []
    ensures ParseDual(t, s, 2) == Ids(ids) <==> Join(t, DH, ids) == Some(s) && |ids| <= 2
  {
    if s == "" {
      NoEmptyName(t, DH);
    }
    if Join(t, DH, ids) == Some(s) {
      JoinStarts(t, DH, ids);
      ParseJoined(t, DH, ids, 2);
    }
    if s != "" && ParseRest(t, DH, s, 2).Ids? {
      ParsedIsJoined(t, DH, s, 2);
    }
  }

  lemma TakeOf(f: string, rest: string)
    requires Without(f, '_')
    ensures TakeField(f + "_" + rest) == Some((f, rest))
  {
    CutOf(f, '_', rest);
    var s := f + "_" + rest;
    assert s == f + ['_'] + rest && s[..|f|] == f && s[|f| + 1..] == rest;
  }

  lemma {:induction false} JoinWithout(t: seq<Mapping>, category: nat, ids: seq<int>)
    requires Lawful(t) && category != 0 && Join(t, category, ids).Some?
    ensures Without(Join(t, category, ids).value, '_')
    decreases |ids|
  {
    if ids != [] {
      LookedUpIsGood(t, category, ids[0]);
      if |ids| > 1 {
        JoinWithout(t, category, ids[1..]);
      }
    }
  }

  lemma {:induction false} ActiveOf(ms: seq<int>, n: nat)
    requires forall i :: 0 <= i < |ms| ==> ms[i] != 0
    ensures Active(ms + Zeroes(n)) == ms
  {
    if ms == [] {
      assert ms + Zeroes(n) == Zeroes(n);
    } else {
      assert (ms + Zeroes(n))[1..] == ms[1..] + Zeroes(n);
      ActiveOf(ms[1..], n);
    }
  }

  lemma {:induction false} JoinedNonzero(t: seq<Mapping>, category: nat, ids: seq<int>)
    requires Lawful(t) && category != 0 && Join(t, category, ids).Some?
    ensures forall i :: 0 <= i < |ids| ==> ids[i] != 0
    decreases |ids|
  {
    if ids != [] {
      LookedUpIsGood(t, category, ids[0]);
      if |ids| > 1 {
        JoinedNonzero(t, category, ids[1..]);
      }
    }
  }

  /** The five fields of a printed name. */
  predicate Fields(t: seq<Mapping>, id: ProtocolId, f1: string, f2: string, f3: string, f4: string, f5: string) {
    && IdToName(t, PREFIX, id.prefix) == Some(f1) && PatternText(t, id.pattern, Active(id.modifiers)) == Some(f2)
    && Join(t, DH, DhIds(id)) == Some(f3) && IdToName(t, CIPHER, id.cipher) == Some(f4)
    && IdToName(t, HASH, id.hash) == Some(f5) && AllZero(id.reserved)
  }

  lemma FromFieldsIff(t: seq<Mapping>, id: ProtocolId, f1: string, f2: string, f3: string, f4: string, f5: string)
    requires Lawful(t)
    ensures FromFields(t, f1, f2, f3, f4, f5) == Some(id) <==> WellFormed(id) && Fields(t, id, f1, f2, f3, f4, f5)
  {
    hide NameToId, IdToName, Lawful, ParsePattern, ParseDual, Join, PatternText, Active;
    LookupsInvert(t, PREFIX, id.prefix, f1);
    LookupsInvert(t, CIPHER, id.cipher, f4);
    LookupsInvert(t, HASH, id.hash, f5);
    DualIff(t, f3, DhIds(id));
    if WellFormed(id) && Fields(t, id, f1, f2, f3, f4, f5) {
      PatternIff(t, f2, id.pattern, Active(id.modifiers));
      assert ([id.pattern] + Active(id.modifiers))[1..] == Active(id.modifiers);
      assert id.reserved == Zeroes(4);
    }
    if FromFields(t, f1, f2, f3, f4, f5) == Some(id) {
      var ids := ParsePattern(t, f2, MAX_MODIFIERS + 1).ids;
      assert ids == [ids[0]] + ids[1..];
      PatternIff(t, f2, id.pattern, ids[1..]);
      PatternNonzero(t, f2, id.pattern, ids[1..]);
      ActiveOf(ids[1..], MAX_MODIFIERS + 1 - |ids|);
      DualNonzero(t, f3);
    }
  }

  lemma PatternNonzero(t: seq<Mapping>, s: string, pattern: int, ms: seq<int>)
    requires Lawful(t) && PatternText(t, pattern, ms) == Some(s)
    ensures forall i :: 0 <= i < |ms| ==> ms[i] != 0
  {
    JoinedNonzero(t, MODIFIER, ms);
  }

  lemma DualNonzero(t: seq<Mapping>, s: string)
    requires Lawful(t) && ParseDual(t, s, 2).Ids? && ParseDual(t, s, 2).ids != []
    ensures var ids := ParseDual(t, s, 2).ids; |ids| <= 2 && (forall i :: 0 <= i < |ids| ==> ids[i] != 0)
    ensures var ids := ParseDual(t, s, 2).ids; ids == if |ids| > 1 then [ids[0], ids[1]] else [ids[0]]
  {
    var ids := ParseDual(t, s, 2).ids;
    DualIff(t, s, ids);
    JoinedNonzero(t, DH, ids);
  }

  /** A name parses to an identifier exactly when the identifier is well formed and prints as that name: parsing undoes
      printing, and printing undoes parsing. */
  lemma ParseIffPrint(t: seq<Mapping>, s: string, id: ProtocolId)
    requires Lawful(t)
    ensures Parse(t, s) == Some(id) <==> WellFormed(id) && Print(t, id) == Some(s)
  {
    hide FromFields, WellFormed, IdToName, PatternText, Join, Lawful;
    if Parse(t, s) == Some(id) {
      var f1 := TakeField(s).value;
      var f2 := TakeField(f1.1).value;
      var f3 := TakeField(f2.1).value;
      var f4 := TakeField(f3.1).value;
      FromFieldsIff(t, id, f1.0, f2.0, f3.0, f4.0, f4.1);
      assert s == f1.0 + "_" + (f2.0 + "_" + (f3.0 + "_" + (f4.0 + "_" + f4.1)));
    }
    if WellFormed(id) && Print(t, id) == Some(s) {
      PrintedParses(t, id);
    }
  }

  /** Printing joins five fields, none of which holds an underscore. */
  lemma PrintedFields(t: seq<Mapping>, id: ProtocolId) returns (f1: string, f2: string, f3: string, f4: string, f5: string)
    requires Lawful(t) && Print(t, id).Some?
    ensures Fields(t, id, f1, f2, f3, f4, f5)
    ensures Without(f1, '_') && Without(f2, '_') && Without(f3, '_') && Without(f4, '_') && Without(f5, '_')
    ensures Print(t, id).value == f1 + "_" + (f2 + "_" + (f3 + "_" + (f4 + "_" + f5)))
  {
    f1, f2 := IdToName(t, PREFIX, id.prefix).value, PatternText(t, id.pattern, Active(id.modifiers)).value;
    f3, f4, f5 := Join(t, DH, DhIds(id)).value, IdToName(t, CIPHER, id.cipher).value, IdToName(t, HASH, id.hash).value;
    var p, m := IdToName(t, PATTERN, id.pattern).value, Join(t, MODIFIER, Active(id.modifiers)).value;
    JoinWithout(t, MODIFIER, Active(id.modifiers));
    JoinWithout(t, DH, DhIds(id));
    hide Join, Active, DhIds, Without;
    LookedUpIsGood(t, PREFIX, id.prefix);
    LookedUpIsGood(t, PATTERN, id.pattern);
    LookedUpIsGood(t, CIPHER, id.cipher);
    LookedUpIsGood(t, HASH, id.hash);
    hide Lawful, IdToName;
    WithoutBoth(p, m, '_');
  }

  lemma WithoutBoth(a: string, b: string, c: char)
    requires Without(a, c) && Without(b, c)
    ensures Without(a + b, c)
  {
  }

  lemma PrintedParses(t: seq<Mapping>, id: ProtocolId)
    requires Lawful(t) && WellFormed(id) && Print(t, id).Some?
    ensures Parse(t, Print(t, id).value) == Some(id)
  {
    hide FromFields, Print, Lawful, WellFormed, Without, TakeField, Fields;
    var f1, f2, f3, f4, f5 := PrintedFields(t, id);
    var r4 := f4 + "_" + f5;
    var r3 := f3 + "_" + r4;
    var r2 := f2 + "_" + r3;
    TakeOf(f1, r2);
    TakeOf(f2, r3);
    TakeOf(f3, r4);
    TakeOf(f4, f5);
    FromFieldsIff(t, id, f1, f2, f3, f4, f5);
  }

  // The parser.

  method FindId(t: seq<Mapping>, category: nat, name: string) returns (id: int)
    ensures id == NameToId(t, category, name)
  {
    var i := 0;
    while i < |t|
      invariant i <= |t| && NameToId(t[i..], category, name) == NameToId(t, category, name)
    {
      assert t[i..][1..] == t[i + 1..];
      if InCategory(category, t[i].id) {
        if t[i].name == name {
          return t[i].id;
        }
      }
      i := i + 1;
    }
    return 0;
  }

  method FindName(t: seq<Mapping>, category: nat, id: int) returns (name: Option<string>)
    ensures name == IdToName(t, category, id)
  {
    var i := 0;
    while i < |t|
      invariant i <= |t| && IdToName(t[i..], category, id) == IdToName(t, category, id)
    {
      assert t[i..][1..] == t[i + 1..];
      if InCategory(category, t[i].id) {
        if t[i].id == id {
          return Some(t[i].name);
        }
      }
      i := i + 1;
    }
    return None;
  }

  method FindChar(s: string, from: nat, c: char) returns (end: nat)
    requires from <= |s|
    ensures end == from + Cut(s[from..], c) && end <= |s|
  {
    end := from;
    while end < |s| && s[end] != c
      invariant from <= end <= |s| && end + Cut(s[end..], c) == from + Cut(s[from..], c)
    {
      assert s[end..][1..] == s[end + 1..];
      end := end + 1;
    }
  }

  method FindLower(s: string) returns (end: nat)
    ensures end == UpperRun(s)
  {
    end := 0;
    while end < |s| && s[end] >= 'A' && s[end] <= 'Z'
      invariant end <= |s| && end + UpperRun(s[end..]) == UpperRun(s)
    {
      assert s[end..][1..] == s[end + 1..];
      end := end + 1;
    }
  }

  /** One name of a list and the place of the next; 0 if the name is unknown or the list ends in a plus sign. */
  method NextName(t: seq<Mapping>, category: nat, name: string, posn: nat, ghost room: nat) returns (id: int, next: nat)
    requires posn < |name|
    ensures posn < next <= |name|
    ensures ParseRest(t, category, name[posn..], room)
         == if id == 0 then UnknownName
            else if room == 0 then TooMany
            else Cons(id, ParseRest(t, category, name[next..], room - 1))
  {
    ghost var s := name[posn..];
    var end := FindChar(name, posn, '+');
    id := FindId(t, category, name[posn..end]);
    assert name[posn..end] == s[..end - posn];
    next := if end < |name| then end + 1 else end;
    if end < |name| {
      assert s[end - posn + 1..] == name[next..];
      if end + 1 >= |name| {
        id := 0;
      }
    } else {
      assert name[next..] == "";
    }
  }

  /** The names after the first one, into ids from index on.  The length of the whole list, or -1 for an unknown name
      and -2 for one too many. */
  method RestToIds(t: seq<Mapping>, category: nat, name: string, from: nat, ids: array<int>, start: nat) returns (n: int)
    requires from <= |name| && start <= ids.Length
    modifies ids
    ensures match ParseRest(t, category, name[from..], ids.Length - start)
            case Ids(l) => n == start + |l| <= ids.Length && ids[..n] == old(ids[..start]) + l
            case UnknownName => n == -1
            case TooMany => n == -2
  {
    hide ParseRest;
    var posn, index := from, start;
    ghost var goal := ParseRest(t, category, name[from..], ids.Length - start);
    ghost var found: seq<int> := [];
    PrependNothing(goal);
    while posn < |name|
      invariant from <= posn <= |name| && start <= index <= ids.Length && index == start + |found|
      invariant ids[..index] == old(ids[..start]) + found
      invariant goal == Prepend(found, ParseRest(t, category, name[posn..], ids.Length - index))
      decreases |name| - posn
    {
      var id, next := NextName(t, category, name, posn, ids.Length - index);
      if id == 0 {
        return -1;
      }
      posn := next;
      if index >= ids.Length {
        return -2;
      }
      ids[index] := id;
      index := index + 1;
      PrependStep(found, id, ParseRest(t, category, name[posn..], ids.Length - index));
      found := found + [id];
    }
    NothingLeft(t, category, name[posn..], ids.Length - index);
    return index;
  }

  lemma NothingLeft(t: seq<Mapping>, category: nat, s: string, room: nat)
    requires s == ""
    ensures ParseRest(t, category, s, room) == Ids([])
  {
  }

  lemma PrependNothing(rest: Ids)
    ensures Prepend([], rest) == rest
  {
  }

  function Prepend(found: seq<int>, rest: Ids): Ids { if rest.Ids? then Ids(found + rest.ids) else rest }

  lemma PrependStep(found: seq<int>, id: int, rest: Ids)
    ensures Prepend(found, Cons(id, rest)) == Prepend(found + [id], rest)
  {
    assert rest.Ids? ==> found + ([id] + rest.ids) == (found + [id]) + rest.ids;
  }

  method NameListToIds(t: seq<Mapping>, ids: array<int>, name: string, category1: nat, category2: nat) returns (n: int)
    modifies ids
    ensures match ParseIds(t, category1, category2, name, ids.Length)
            case Ids(l) => n == |l| <= ids.Length && ids[..n] == l
            case UnknownName => n == -1
            case TooMany => n == -2
  {
    hide ParseRest, NameToId;
    var second := if category2 == 0 then category1 else category2;
    var end, id;
    if category1 == PATTERN && second == MODIFIER {
      end := FindLower(name);
      if end < |name| && name[end] == '+' {
        return -1;
      }
      id := FindId(t, category1, name[..end]);
    } else {
      end := FindChar(name, 0, '+');
      assert name[0..] == name;
      id := FindId(t, category1, name[..end]);
      if end < |name| {
        end := end + 1;
        if end >= |name| {
          return -1;
        }
      }
    }
    if id == 0 {
      return -1;
    }
    if ids.Length == 0 {
      return -2;
    }
    ids[0] := id;
    assert end == |name| ==> name[end..] == "";
    n := RestToIds(t, second, name, end, ids, 1);
  }

  lemma LastField(s: string)
    ensures Cut(s, '_') == |s| <==> Without(s, '_')
  {
    if Without(s, '_') {
      CutOf(s, '_', "");
    } else {
      assert s[..|s|] == s;
    }
  }

  /** One field with one name in it. */
  method ParseField(t: seq<Mapping>, category: nat, name: string, posn: nat, last: bool, ok: bool)
    returns (id: int, next: nat, ok': bool)
    requires posn <= |name|
    ensures next <= |name| && (!ok ==> !ok')
    ensures ok && last ==> (ok' <==> Without(name[posn..], '_') && NameToId(t, category, name[posn..]) != 0)
                           && (ok' ==> id == NameToId(t, category, name[posn..]))
    ensures ok && !last ==>
      match TakeField(name[posn..])
      case None => !ok'
      case Some(f) => name[next..] == f.1 && id == NameToId(t, category, f.0) && (ok' <==> id != 0)
  {
    hide NameToId, Cut;
    if !ok {
      return 0, posn, false;
    }
    ghost var s := name[posn..];
    LastField(s);
    next := FindChar(name, posn, '_');
    assert name[posn..next] == s[..next - posn];
    var end := next;
    if last {
      if next < |name| {
        return 0, next, false;
      }
      assert s[..next - posn] == s;
    } else {
      if next >= |name| {
        return 0, next, false;
      }
      next := next + 1;
      assert s[end - posn + 1..] == name[next..];
    }
    id := FindId(t, category, name[posn..end]);
    ok' := id != 0;
  }

  /** One field with a list of names in it. */
  method ParseListField(t: seq<Mapping>, category1: nat, category2: nat, name: string, posn: nat, ids: array<int>, ok: bool)
    returns (n: int, next: nat, ok': bool)
    requires posn <= |name|
    modifies ids
    ensures next <= |name| && (!ok ==> !ok')
    ensures ok ==>
      match TakeField(name[posn..])
      case None => !ok'
      case Some(f) =>
        match ParseIds(t, category1, category2, f.0, ids.Length)
        case Ids(l) => name[next..] == f.1 && (ok' <==> l != []) && (ok' ==> n == |l| <= ids.Length && ids[..n] == l)
        case _ => !ok'
  {
    hide ParseIds, Cut;
    if !ok {
      return 0, posn, false;
    }
    ghost var s := name[posn..];
    next := FindChar(name, posn, '_');
    if next >= |name| {
      return 0, next, false;
    }
    assert name[posn..next] == s[..next - posn] && s[next - posn + 1..] == name[next + 1..];
    n := NameListToIds(t, ids, name[posn..next], category1, category2);
    next := next + 1;
    ok' := n >= 1;
  }

  method ProtocolNameToId(t: seq<Mapping>, name: string) returns (ok: bool, id: ProtocolId)
    requires Lawful(t)
    ensures Parse(t, name) == if ok then Some(id) else None
    ensures !ok ==> id == CLEARED
  {
    hide NameToId, ParsePattern, ParseList, TakeField, Lawful;
    var posn, n, m: int := 0, 0, 0;
    var list, pair := new int[MAX_MODIFIERS + 1], new int[2];
    id := CLEARED;
    ok := true;
    assert name[0..] == name;
    var prefix, cipher, hash;
    prefix, posn, ok := ParseField(t, PREFIX, name, posn, false, ok);
    n, posn, ok := ParseListField(t, PATTERN, MODIFIER, name, posn, list, ok);
    m, posn, ok := ParseListField(t, DH, DH, name, posn, pair, ok);
    cipher, posn, ok := ParseField(t, CIPHER, name, posn, false, ok);
    hash, posn, ok := ParseField(t, HASH, name, posn, true, ok);
    if !ok {
      return;
    }
    id := ProtocolId(prefix, list[0], list[1..n] + Zeroes(MAX_MODIFIERS + 1 - n), pair[0], cipher, hash,
                     if m >= 2 then pair[1] else 0, Zeroes(4));
  }

  // The printer.

  datatype FormatError = Fine | UnknownId | InvalidLength

  function Append(a: Option<string>, b: Option<string>): Option<string> {
    if a.Some? && b.Some? then Some(a.value + b.value) else None
  }

  lemma AppendAssociates(a: Option<string>, b: Option<string>, c: Option<string>)
    ensures Append(Append(a, b), c) == Append(a, Append(b, c))
  {
    assert a.Some? && b.Some? && c.Some? ==> a.value + b.value + c.value == a.value + (b.value + c.value);
  }

  /** While all is well the text so far is in the buffer; after an error it has no printed form or does not fit. */
  ghost predicate Formatted(name: array<char>, posn: nat, err: FormatError, text: Option<string>)
    reads name
  {
    if err == Fine then text.Some? && posn == |text.value| <= name.Length && name[..posn] == text.value
    else text.None? || |text.value| >= name.Length
  }

  function Separator(term: char): string { if term == '\0' then "" else [term] }

  /** One name and its separator; a terminator is written but not counted. */
  method FormatField(t: seq<Mapping>, category: nat, id: int, name: array<char>, posn: nat, term: char, err: FormatError,
                     ghost text: Option<string>)
    returns (posn': nat, err': FormatError)
    requires Formatted(name, posn, err, text)
    modifies name
    ensures Formatted(name, posn', err', Append(Append(text, IdToName(t, category, id)), Some(Separator(term))))
    ensures err' == Fine && term == '\0' ==> posn' < name.Length && name[posn'] == '\0'
  {
    posn', err' := posn, err;
    if err != Fine {
      return;
    }
    var found := FindName(t, category, id);
    if found.None? {
      err' := UnknownId;
      return;
    }
    var alg := found.value;
    if |alg| >= name.Length - posn {
      err' := InvalidLength;
      return;
    }
    forall i | 0 <= i < |alg| {
      name[posn + i] := alg[i];
    }
    posn' := posn + |alg|;
    assert name[..posn'] == text.value + alg;
    if term != '\0' {
      name[posn'] := term;
      posn' := posn' + 1;
    } else {
      name[posn'] := '\0';
      assert text.value + alg + "" == text.value + alg;
    }
  }

  /** The modifiers from the k-th on, joined, and the underscore after them. */
  function ModifiersFrom(t: seq<Mapping>, ms: seq<int>, k: nat): Option<string>
    requires k <= |ms|
  {
    if k == |ms| then Some("") else Append(Join(t, MODIFIER, ms[k..]), Some("_"))
  }

  lemma OneModifier(t: seq<Mapping>, ms: seq<int>, k: nat, text: Option<string>)
    requires k < |ms|
    ensures var sep := if k + 1 < |ms| then "+" else "_";
            Append(text, ModifiersFrom(t, ms, k))
            == Append(Append(Append(text, IdToName(t, MODIFIER, ms[k])), Some(sep)), ModifiersFrom(t, ms, k + 1))
  {
    var name := IdToName(t, MODIFIER, ms[k]);
    assert ms[k..][1..] == ms[k + 1..];
    if k + 1 < |ms| {
      AppendAssociates(name, Some("+"), Join(t, MODIFIER, ms[k + 1..]));
      AppendAssociates(Append(name, Some("+")), Join(t, MODIFIER, ms[k + 1..]), Some("_"));
      AppendAssociates(Append(text, name), Some("+"), ModifiersFrom(t, ms, k + 1));
      AppendAssociates(text, name, Append(Some("+"), ModifiersFrom(t, ms, k + 1)));
      AppendAssociates(name, Some("+"), ModifiersFrom(t, ms, k + 1));
      assert Join(t, MODIFIER, ms[k..]) == Append(Append(name, Some("+")), Join(t, MODIFIER, ms[k + 1..]));
    } else {
      AppendAssociates(text, name, Some("_"));
      var all := Append(Append(text, name), Some("_"));
      assert all.Some? ==> all.value + "" == all.value;
    }
  }

  method FormatModifiers(t: seq<Mapping>, ms: seq<int>, name: array<char>, posn: nat, err: FormatError, ghost text: Option<string>)
    returns (posn': nat, err': FormatError)
    requires |ms| == MAX_MODIFIERS && Formatted(name, posn, err, text)
    modifies name
    ensures Formatted(name, posn', err', Append(text, ModifiersFrom(t, Active(ms), 0)))
  {
    posn', err' := posn, err;
    ghost var sofar := text;
    assert forall i :: 0 <= i < |Active(ms)| ==> ms[i] == Active(ms)[i];
    var k := 0;
    while k < MAX_MODIFIERS && ms[k] != 0
      invariant k <= |Active(ms)| && Formatted(name, posn', err', sofar)
      invariant Append(sofar, ModifiersFrom(t, Active(ms), k)) == Append(text, ModifiersFrom(t, Active(ms), 0))
    {
      var term := '+';
      if k + 1 >= MAX_MODIFIERS || ms[k + 1] == 0 {
        term := '_';
      }
      OneModifier(t, Active(ms), k, sofar);
      posn', err' := FormatField(t, MODIFIER, ms[k], name, posn', term, err', sofar);
      sofar := Append(Append(sofar, IdToName(t, MODIFIER, ms[k])), Some(Separator(term)));
      k := k + 1;
    }
    assert sofar.Some? ==> sofar.value + "" == sofar.value;
  }

  /** Everything printed, in the order it is printed. */
  function Pieces(t: seq<Mapping>, id: ProtocolId): Option<string> {
    var ms := Active(id.modifiers);
    var a := Append(Append(Some(""), IdToName(t, PREFIX, id.prefix)), Some("_"));
    var b := Append(Append(a, IdToName(t, PATTERN, id.pattern)), Some(if ms == [] then "_" else ""));
    var c := Append(b, ModifiersFrom(t, ms, 0));
    var d := if id.hybrid == 0 then Append(Append(c, IdToName(t, DH, id.dh)), Some("_"))
             else Append(Append(Append(Append(c, IdToName(t, DH, id.dh)), Some("+")), IdToName(t, DH, id.hybrid)), Some("_"));
    var e := Append(Append(d, IdToName(t, CIPHER, id.cipher)), Some("_"));
    Append(Append(e, IdToName(t, HASH, id.hash)), Some(""))
  }

  lemma Shift(x: string, y: string, z: string)
    ensures x + y + "_" + z == x + (y + "_" + z)
  {
  }

  /** The pattern with its modifiers, and the key agreement with its second name, as pieces. */
  lemma PatternPieces(t: seq<Mapping>, pattern: int, ms: seq<int>, a: Option<string>)
    ensures Append(Append(Append(a, IdToName(t, PATTERN, pattern)), Some(if ms == [] then "_" else "")), ModifiersFrom(t, ms, 0))
         == Append(Append(a, PatternText(t, pattern, ms)), Some("_"))
  {
    hide IdToName;
    var q := IdToName(t, PATTERN, pattern);
    assert ms[0..] == ms;
    if a.Some? && q.Some? {
      assert a.value + q.value + "" == a.value + q.value && q.value + "" == q.value;
      assert a.value + q.value + "_" + "" == a.value + q.value + "_";
      if Join(t, MODIFIER, ms).Some? {
        var m := Join(t, MODIFIER, ms).value;
        assert a.value + q.value + (m + "_") == a.value + (q.value + m) + "_";
      }
    }
  }

  lemma DhPieces(t: seq<Mapping>, id: ProtocolId, c: Option<string>)
    ensures (if id.hybrid == 0 then Append(Append(c, IdToName(t, DH, id.dh)), Some("_"))
             else Append(Append(Append(Append(c, IdToName(t, DH, id.dh)), Some("+")), IdToName(t, DH, id.hybrid)), Some("_")))
         == Append(Append(c, Join(t, DH, DhIds(id))), Some("_"))
  {
    hide IdToName;
    var x, y := IdToName(t, DH, id.dh), IdToName(t, DH, id.hybrid);
    assert Join(t, DH, [id.hybrid]) == y;
    assert [id.dh, id.hybrid][1..] == [id.hybrid];
    if c.Some? && x.Some? && y.Some? {
      assert c.value + x.value + "+" + y.value == c.value + (x.value + "+" + y.value);
    }
  }

  lemma PiecesMakeName(t: seq<Mapping>, id: ProtocolId)
    ensures AllZero(id.reserved) ==> Pieces(t, id) == Print(t, id)
    ensures !AllZero(id.reserved) ==> Print(t, id).None?
  {
    hide IdToName, Join, PatternText, Active, ModifiersFrom, DhIds;
    var ms := Active(id.modifiers);
    var p, q, d := IdToName(t, PREFIX, id.prefix), PatternText(t, id.pattern, ms), Join(t, DH, DhIds(id));
    var c, h := IdToName(t, CIPHER, id.cipher), IdToName(t, HASH, id.hash);
    var x1 := Append(Append(Some(""), p), Some("_"));
    var x2 := Append(Append(x1, q), Some("_"));
    var x3 := Append(Append(x2, d), Some("_"));
    PatternPieces(t, id.pattern, ms, x1);
    DhPieces(t, id, x2);
    assert Pieces(t, id) == Append(Append(Append(Append(x3, c), Some("_")), h), Some(""));
    if p.Some? && q.Some? && d.Some? && c.Some? && h.Some? {
      var r4 := c.value + "_" + h.value;
      var r3 := d.value + "_" + r4;
      assert "" + p.value == p.value;
      Shift(x3.value, c.value, h.value);
      Shift(x2.value, d.value, r4);
      Shift(x1.value, q.value, r3);
      assert x3.value + c.value + "_" + h.value + "" == x3.value + c.value + "_" + h.value;
    }
  }

  /** Succeeds exactly when the identifier has a printed form and the buffer has room for it and its terminator. */
  method ProtocolIdToName(t: seq<Mapping>, name: array<char>, id: ProtocolId) returns (err: FormatError)
    requires |id.modifiers| == MAX_MODIFIERS && |id.reserved| == 4
    modifies name
    ensures err == Fine <==> Print(t, id).Some? && |Print(t, id).value| + 1 <= name.Length
    ensures err == Fine ==> name[..|Print(t, id).value|] == Print(t, id).value && name[|Print(t, id).value|] == '\0'
    ensures err != Fine && name.Length > 0 ==> name[0] == '\0'
  {
    hide IdToName, Join, Active;
    if name.Length == 0 {
      return InvalidLength;
    }
    PiecesMakeName(t, id);
    ghost var ms := Active(id.modifiers);
    FirstActive(id.modifiers);
    var posn;
    err := Fine;
    assert name[..0] == "";
    ghost var text: Option<string> := Some("");
    posn, err := FormatField(t, PREFIX, id.prefix, name, 0, '_', err, text);
    text := Append(Append(text, IdToName(t, PREFIX, id.prefix)), Some("_"));
    var term := if id.modifiers[0] != 0 then '\0' else '_';
    posn, err := FormatField(t, PATTERN, id.pattern, name, posn, term, err, text);
    text := Append(Append(text, IdToName(t, PATTERN, id.pattern)), Some(Separator(term)));
    posn, err := FormatModifiers(t, id.modifiers, name, posn, err, text);
    text := Append(text, ModifiersFrom(t, ms, 0));
    if id.hybrid == 0 {
      posn, err := FormatField(t, DH, id.dh, name, posn, '_', err, text);
      text := Append(Append(text, IdToName(t, DH, id.dh)), Some("_"));
    } else {
      posn, err := FormatField(t, DH, id.dh, name, posn, '+', err, text);
      text := Append(Append(text, IdToName(t, DH, id.dh)), Some("+"));
      posn, err := FormatField(t, DH, id.hybrid, name, posn, '_', err, text);
      text := Append(Append(text, IdToName(t, DH, id.hybrid)), Some("_"));
    }
    posn, err := FormatField(t, CIPHER, id.cipher, name, posn, '_', err, text);
    text := Append(Append(text, IdToName(t, CIPHER, id.cipher)), Some("_"));
    posn, err := FormatField(t, HASH, id.hash, name, posn, '\0', err, text);
    assert Pieces(t, id) == Append(Append(text, IdToName(t, HASH, id.hash)), Some(""));
    if err == Fine {
      var reserved := ReservedEmpty(id.reserved);
      if !reserved {
        err := UnknownId;
      }
    }
    if err != Fine {
      name[0] := '\0';
    }
  }

  method ReservedEmpty(reserved: seq<int>) returns (empty: bool)
    ensures empty <==> AllZero(reserved)
  {
    var i := 0;
    while i < |reserved|
      invariant i <= |reserved| && forall j :: 0 <= j < i ==> reserved[j] == 0
    {
      if reserved[i] != 0 {
        return false;
      }
      i := i + 1;
    }
    return true;
  }

  lemma FirstActive(ms: seq<int>)
    requires ms != []
    ensures ms[0] == 0 <==> Active(ms) == []
  {
  }

  /** The name of the handshake that the component runs, with the identifiers of noise/include/noise/protocol/constants.h. */
  lemma ComponentName()
    ensures Parse(TABLE, "Noise_IK_25519_ChaChaPoly_BLAKE2s")
            == Some(ProtocolId(0x4E01, 0x500E, Zeroes(16), 0x4401, 0x4301, 0x4801, 0, Zeroes(4)))
  {
    hide TABLE, Parse, IdToName, Lawful, Join, Active;
    var id := ProtocolId(0x4E01, 0x500E, Zeroes(16), 0x4401, 0x4301, 0x4801, 0, Zeroes(4));
    TableIsLawful();
    ComponentFields();
    NoModifiers();
    assert "IK" + "" == "IK";
    assert "Noise" + "_" + ("IK" + "_" + ("25519" + "_" + ("ChaChaPoly" + "_" + "BLAKE2s"))) == "Noise_IK_25519_ChaChaPoly_BLAKE2s";
    assert [] + Zeroes(16) == Zeroes(16);
    ParseIffPrint(TABLE, "Noise_IK_25519_ChaChaPoly_BLAKE2s", id);
  }

  lemma NoModifiers()
    ensures Active(Zeroes(16)) == [] && Join(TABLE, MODIFIER, []) == Some("")
  {
  }

  lemma ComponentFields()
    ensures IdToName(TABLE, PREFIX, 0x4E01) == Some("Noise") && IdToName(TABLE, PATTERN, 0x500E) == Some("IK")
    ensures IdToName(TABLE, CIPHER, 0x4301) == Some("ChaChaPoly") && IdToName(TABLE, HASH, 0x4801) == Some("BLAKE2s")
    ensures Join(TABLE, DH, [0x4401]) == Some("25519")
  {
    hide IdToName, Lawful;
    ComponentRows();
    TableIsLawful();
    RowFound(TABLE, PREFIX, 24);
    RowFound(TABLE, PATTERN, 16);
    RowFound(TABLE, CIPHER, 0);
    RowFound(TABLE, HASH, 1);
    RowFound(TABLE, DH, 2);
    OneJoined(0x4401);
  }

  lemma OneJoined(id: int)
    ensures Join(TABLE, DH, [id]) == IdToName(TABLE, DH, id)
  {
    hide TABLE, IdToName;
    assert [id][1..] == [];
  }

  lemma ComponentRows()
    ensures TABLE[24] == Mapping(0x4E01, "Noise") && TABLE[16] == Mapping(0x500E, "IK") && TABLE[0] == Mapping(0x4301, "ChaChaPoly")
    ensures TABLE[1] == Mapping(0x4801, "BLAKE2s") && TABLE[2] == Mapping(0x4401, "25519") && |TABLE| == 25
  {
  }

  lemma {:induction false} RowFound(t: seq<Mapping>, category: nat, i: nat)
    requires Lawful(t) && i < |t| && InCategory(category, t[i].id) && Category(t[i].id) == category
    ensures IdToName(t, category, t[i].id) == Some(t[i].name)
    decreases |t|
  {
    if i > 0 {
      assert t[1..][i - 1] == t[i];
      assert InCategory(category, t[0].id) ==> t[0].id != t[i].id;
      RowFound(t[1..], category, i - 1);
    }
  }
}
