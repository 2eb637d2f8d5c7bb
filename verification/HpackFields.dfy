/** The other forms a header field may have in a block (section 6 of RFC 7541), and which of them the status reader of
    components/tailscale/http2_session.cpp reads as the standard does. */
module HpackFields {
  import opened Bytes
  import opened Hpack

  /** A literal with incremental indexing, without indexing, or never indexed: sections 6.2.1 to 6.2.3. */
  datatype Form = Incremental | Without | Never

  /** An entry of the static table, a value under the name of one, or a name and a value. */
  datatype Field = Indexed(index: nat) | Named(form: Form, index: nat, value: bytes) | New(form: Form, header: Header)

  const STATIC_ENTRIES: nat := 61

  predicate Static(f: Field) { !f.New? ==> 1 <= f.index <= STATIC_ENTRIES }

  // On the wire.

  function FirstByte(f: Form): byte { match f case Incremental => 64 case Without => 0 case Never => 16 }

  /** The largest value of the prefix that follows it. */
  function Limit(f: Form): nat { if f == Incremental then 63 else 15 }

  /** Section 5.1: an integer in the low bits of a byte, and more bytes if it does not fit. */
  function Int(first: byte, limit: nat, n: nat): bytes
    requires first as nat + limit < 256
  {
    if n < limit then [first + n] else [first + limit] + Rest(n - limit)
  }

  function FieldBytes(f: Field): bytes {
    match f
    case Indexed(i) => Int(128, 127, i)
    case Named(form, i, value) => Int(FirstByte(form), Limit(form), i) + Str(value)
    case New(form, h) => [FirstByte(form)] + Str(h.name) + Str(h.value)
  }

  function FieldsBlock(fs: seq<Field>): bytes { if fs == [] then [] else FieldBytes(fs[0]) + FieldsBlock(fs[1..]) }

  // Read as the standard has it.

  function DecodeInt(b: bytes, limit: nat): (r: Option<(nat, nat)>)
    ensures r.Some? ==> 0 < r.value.1
  {
    if b == [] then None
    else if b[0] as nat % (limit + 1) < limit then Some((b[0] as nat % (limit + 1), 1))
    else match DecodeRest(b[1..])
      case None => None
      case Some(v) => Some((limit + v.0, v.1 + 1))
  }

  /** A field and what follows it.  A change of the dynamic table's size is not a field. */
  function DecodeField(b: bytes): (r: Option<(Field, bytes)>)
    ensures r.Some? ==> |r.value.1| < |b|
  {
    if b == [] || 32 <= b[0] < 64 then None
    else if b[0] >= 128 then
      match DecodeInt(b, 127)
      case None => None
      case Some(v) => if v.1 > |b| then None else Some((Indexed(v.0), b[v.1..]))
    else DecodeLiteralField(b, if b[0] >= 64 then Incremental else if b[0] >= 16 then Never else Without)
  }

  function DecodeLiteralField(b: bytes, form: Form): (r: Option<(Field, bytes)>)
    requires b != []
    ensures r.Some? ==> |r.value.1| < |b|
  {
    match DecodeInt(b, Limit(form))
    case None => None
    case Some(v) =>
      if v.1 > |b| then None
      else match DecodeStr(b[v.1..])
        case None => None
        case Some(s) =>
          if v.0 != 0 then Some((Named(form, v.0, s.0), s.1))
          else match DecodeStr(s.1)
            case None => None
            case Some(t) => Some((New(form, Header(s.0, t.0)), t.1))
  }

  function DecodeFields(b: bytes): Option<seq<Field>>
    decreases |b|
  {
    if b == [] then Some([])
    else match DecodeField(b)
      case None => None
      case Some(f) =>
        match DecodeFields(f.1)
        case None => None
        case Some(rest) => Some([f.0] + rest)
  }

  lemma IntRoundTrip(first: byte, limit: nat, n: nat, tail: bytes)
    requires (first, limit) in {(128, 127), (64, 63), (0, 15), (16, 15)}
    ensures var b := Int(first, limit, n);
            DecodeInt(b + tail, limit) == Some((n, |b|)) && b != [] && first <= b[0] && b[0] as nat <= first as nat + limit
  {
    hide Rest, DecodeRest;
    LowBits(first, limit, if n < limit then n else limit);
    if n >= limit {
      RestRoundTrip(n - limit, tail);
      assert (Int(first, limit, n) + tail)[1..] == Rest(n - limit) + tail;
    }
  }

  lemma LowBits(first: byte, limit: nat, n: nat)
    requires (first, limit) in {(128, 127), (64, 63), (0, 15), (16, 15)} && n <= limit
    ensures (first as nat + n) % (limit + 1) == n
  {
  }

  lemma IndexedRoundTrip(i: nat, tail: bytes)
    ensures DecodeField(FieldBytes(Indexed(i)) + tail) == Some((Indexed(i), tail))
  {
    hide Int, DecodeInt;
    IntRoundTrip(128, 127, i, tail);
    assert (Int(128, 127, i) + tail)[|Int(128, 127, i)|..] == tail;
  }

  lemma NamedRoundTrip(form: Form, i: nat, value: bytes, tail: bytes)
    requires i > 0
    ensures DecodeField(FieldBytes(Named(form, i, value)) + tail) == Some((Named(form, i, value), tail))
  {
    hide Int, DecodeInt, Str, DecodeStr;
    var b := Int(FirstByte(form), Limit(form), i);
    IntRoundTrip(FirstByte(form), Limit(form), i, Str(value) + tail);
    StrRoundTrip(value, tail);
    assert FieldBytes(Named(form, i, value)) + tail == b + (Str(value) + tail);
    assert (b + (Str(value) + tail))[|b|..] == Str(value) + tail;
  }

  lemma NewRoundTrip(form: Form, h: Header, tail: bytes)
    ensures DecodeField(FieldBytes(New(form, h)) + tail) == Some((New(form, h), tail))
  {
    hide Int, DecodeInt, Str, DecodeStr;
    var rest := Str(h.name) + (Str(h.value) + tail);
    IntRoundTrip(FirstByte(form), Limit(form), 0, rest);
    assert Int(FirstByte(form), Limit(form), 0) == [FirstByte(form)] by { ZeroFits(form); }
    StrRoundTrip(h.name, Str(h.value) + tail);
    StrRoundTrip(h.value, tail);
    assert FieldBytes(New(form, h)) + tail == [FirstByte(form)] + rest;
    assert ([FirstByte(form)] + rest)[1..] == rest;
  }

  lemma ZeroFits(form: Form)
    ensures Int(FirstByte(form), Limit(form), 0) == [FirstByte(form)]
  {
  }

  /** Every list of fields comes back from its block. */
  lemma {:induction false} FieldsRoundTrip(fs: seq<Field>)
    requires forall f :: f in fs ==> Static(f)
    ensures DecodeFields(FieldsBlock(fs)) == Some(fs)
    decreases |fs|
  {
    if fs != [] {
      hide FieldBytes, DecodeField;
      assert Static(fs[0]);
      var rest := FieldsBlock(fs[1..]);
      match fs[0] {
        case Indexed(i) => IndexedRoundTrip(i, rest);
        case Named(form, i, value) => NamedRoundTrip(form, i, value, rest);
        case New(form, h) => NewRoundTrip(form, h, rest);
      }
      NotNothing(fs[0]);
      FieldsRoundTrip(fs[1..]);
      assert fs == [fs[0]] + fs[1..];
    }
  }

  lemma NotNothing(f: Field)
    ensures FieldBytes(f) != []
  {
  }

  // The status.

  /** Entries 8 to 14 of the static table (Appendix A of RFC 7541): 200, 204, 206, 304, 400, 404 and 500. */
  function StaticStatus(i: nat): Option<bytes> {
    match i
    case 8 => Some([50, 48, 48])
    case 9 => Some([50, 48, 52])
    case 10 => Some([50, 48, 54])
    case 11 => Some([51, 48, 52])
    case 12 => Some([52, 48, 48])
    case 13 => Some([52, 48, 52])
    case 14 => Some([53, 48, 48])
    case _ => None
  }

  /** The text of the status, if the field is one: all seven entries have that name. */
  function StatusText(f: Field): Option<bytes> {
    match f
    case Indexed(i) => StaticStatus(i)
    case Named(_, i, value) => if StaticStatus(i).Some? then Some(value) else None
    case New(_, h) => if h.name == STATUS then Some(h.value) else None
  }

  /** What the standard says the status is: the first there is. */
  function StatusMeant(fs: seq<Field>): Option<bytes> {
    if fs == [] then None else if StatusText(fs[0]).Some? then StatusText(fs[0]) else StatusMeant(fs[1..])
  }

  /** Exactly three digits, the first not zero. */
  predicate StatusDigits(t: bytes) { |t| == 3 && IsDigit(t[0]) && t[0] != 48 && IsDigit(t[1]) && IsDigit(t[2]) }

  function NumberOf(t: bytes): int
    requires StatusDigits(t)
  {
    100 * (t[0] - 48) as int + 10 * (t[1] - 48) as int + (t[2] - 48) as int
  }

  /** The fields the reader gets past: entries of the table other than 8, whatever they mean, and short new literals. */
  predicate Passed(f: Field) {
    match f
    case Indexed(i) => 1 <= i <= STATIC_ENTRIES && i != 8
    case Named(_, _, _) => false
    case New(form, h) => form == Without && Short(h) && h.name != STATUS
  }

  lemma PassedOne(f: Field, rest: bytes)
    requires Passed(f)
    ensures Status(FieldBytes(f) + rest) == Status(rest)
  {
    var b := FieldBytes(f) + rest;
    match f
    case Indexed(i) => assert b[1..] == rest;
    case New(form, h) =>
      assert b == Hpack.Literal(h) + rest;
      StatusOfFirst(h, rest);
  }

  lemma {:induction false} PassedAll(before: seq<Field>, after: seq<Field>)
    requires forall f :: f in before ==> Passed(f)
    ensures Status(FieldsBlock(before + after)) == Status(FieldsBlock(after))
    decreases |before|
  {
    hide FieldBytes, Status, Passed;
    if before == [] {
      assert before + after == after;
    } else {
      assert before[0] in before && (before + after)[0] == before[0] && (before + after)[1..] == before[1..] + after;
      PassedOne(before[0], FieldsBlock(before[1..] + after));
      PassedAll(before[1..], after);
    }
  }

  /** What the reader takes from a status field, given what follows it. */
  function ReadAs(f: Field, rest: bytes): int
    requires StatusText(f).Some?
  {
    match f
    case Indexed(i) => if i == 8 then 200 else Status(rest)
    case Named(form, i, value) => if form == Without then Shifted(rest) else -1
    case New(form, h) => if form == Without then Int16(Atoi(Seen(h.value))) else -1
  }

  /** Of a value without a name: it has been taken for a name, so that what follows is taken for its value. */
  function Shifted(rest: bytes): int {
    match ShortStr(rest)
    case None => -1
    case Some(v) => Status(v.1)
  }

  lemma StatusFieldRead(f: Field, rest: bytes)
    requires StatusText(f).Some? && (f.Named? ==> |f.value| < PREFIX && f.value != STATUS)
    ensures Status(FieldBytes(f) + rest) == ReadAs(f, rest)
  {
    match f
    case Indexed(i) => IndexedRead(i, rest);
    case Named(form, i, value) => NamedRead(form, i, value, rest);
    case New(form, h) => NewRead(form, h, rest);
  }

  lemma IndexedRead(i: nat, rest: bytes)
    requires StaticStatus(i).Some?
    ensures Status(FieldBytes(Indexed(i)) + rest) == if i == 8 then 200 else Status(rest)
  {
    assert FieldBytes(Indexed(i)) == [128 + i];
    assert ([128 + i] + rest)[1..] == rest;
  }

  lemma NamedRead(form: Form, i: nat, value: bytes, rest: bytes)
    requires StaticStatus(i).Some? && |value| < PREFIX && value != STATUS
    ensures Status(FieldBytes(Named(form, i, value)) + rest) == if form == Without then Shifted(rest) else -1
  {
    hide Str, ShortStr, Atoi;
    var b := [FirstByte(form) + i] + (Str(value) + rest);
    assert FieldBytes(Named(form, i, value)) + rest == b;
    assert b[1..] == Str(value) + rest;
    ShortStrAgrees(value, rest);
  }

  lemma NewRead(form: Form, h: Header, rest: bytes)
    requires h.name == STATUS
    ensures Status(FieldBytes(New(form, h)) + rest) == if form == Without then Int16(Atoi(Seen(h.value))) else -1
  {
    hide Str, ShortStr, Atoi, Seen;
    var b := [FirstByte(form)] + (Str(h.name) + Str(h.value) + rest);
    assert FieldBytes(New(form, h)) + rest == b;
    if form == Without {
      assert b == Hpack.Literal(h) + rest;
      StatusOfFirst(h, rest);
    }
  }

  /** When the status the reader gives is the one that is meant: of the fields before it the first status may be none but
      one of the six entries the reader passes over.  It is right exactly for entry 8, for a literal without indexing that
      has a new name, and otherwise only when something behind the status happens to be read as the same number. */
  lemma StatusIff(before: seq<Field>, f: Field, after: seq<Field>, t: bytes)
    requires (forall g :: g in before ==> Passed(g) && StatusText(g).None?) && Static(f) && StatusText(f) == Some(t) && StatusDigits(t)
    ensures StatusMeant(before + [f] + after) == Some(t)
    ensures Status(FieldsBlock(before + [f] + after)) == NumberOf(t)
            <==> match f
                 case Indexed(i) => i == 8 || Status(FieldsBlock(after)) == NumberOf(t)
                 case Named(form, _, _) => form == Without && Shifted(FieldsBlock(after)) == NumberOf(t)
                 case New(form, _) => form == Without
  {
    hide FieldBytes, Status, Shifted;
    MeantBehind(before, f, after);
    assert before + [f] + after == before + ([f] + after);
    PassedAll(before, [f] + after);
    assert ([f] + after)[1..] == after;
    StatusFieldRead(f, FieldsBlock(after));
    DigitsRead(t);
  }

  lemma DigitsRead(t: bytes)
    requires StatusDigits(t)
    ensures Int16(Atoi(t)) == NumberOf(t) && 100 <= NumberOf(t) < 1000 && Seen(t) == t
    ensures t == [50, 48, 48] ==> NumberOf(t) == 200
  {
    var s1 := t[1..];
    var s2 := s1[1..];
    var a0 := (t[0] - 48) as nat;
    var a1 := 10 * a0 + (t[1] - 48) as nat;
    assert s2[1..] == [];
    assert Digits([], 10 * a1 + (t[2] - 48) as nat) == 10 * a1 + (t[2] - 48) as nat;
    assert Digits(t, 0) == Digits(s1, a0) == Digits(s2, a1) == 10 * a1 + (t[2] - 48) as nat;
  }

  lemma {:induction false} MeantBehind(before: seq<Field>, f: Field, after: seq<Field>)
    requires (forall g :: g in before ==> StatusText(g).None?) && StatusText(f).Some?
    ensures StatusMeant(before + [f] + after) == StatusText(f)
    decreases |before|
  {
    if before == [] {
      assert (before + [f] + after)[0] == f;
    } else {
      assert before[0] in before && (before + [f] + after)[1..] == before[1..] + [f] + after;
      MeantBehind(before[1..], f, after);
    }
  }

  /** A status that stands in an indexed field, and nowhere else, is read right if and only if it is 200. */
  lemma IndexedIff(before: seq<Field>, i: nat, after: seq<Field>)
    requires forall g :: g in before || g in after ==> Passed(g) && StatusText(g).None?
    requires 8 <= i <= 14
    ensures StatusMeant(before + [Indexed(i)] + after) == StaticStatus(i)
    ensures Status(FieldsBlock(before + [Indexed(i)] + after)) == NumberOf(StaticStatus(i).value) <==> i == 8
  {
    var t := StaticStatus(i).value;
    StatusIff(before, Indexed(i), after, t);
    DigitsRead(t);
    PassedAll(after, []);
    assert after + [] == after;
  }

  /** A 404 in one byte is not seen. */
  lemma NotFoundUnseen()
    ensures DecodeFields([0x8D]) == Some([Indexed(13)]) && StatusMeant([Indexed(13)]) == Some([52, 48, 52])
    ensures Status([0x8D]) == -1 && Status([0x88]) == 200
  {
    FieldsRoundTrip([Indexed(13)]);
    assert FieldsBlock([Indexed(13)]) == [0x8D];
    assert [0x8D as byte][1..] == [];
  }

  /** Nor is the 302 of Appendix C.5.1 of RFC 7541, a literal with incremental indexing under the name of entry 8. */
  lemma FoundUnseen()
    ensures DecodeFields([0x48, 3, 51, 48, 50]) == Some([Named(Incremental, 8, [51, 48, 50])])
    ensures Status([0x48, 3, 51, 48, 50]) == -1
  {
    var f := Named(Incremental, 8, [51, 48, 50]);
    FieldsRoundTrip([f]);
    assert FieldsBlock([f]) == FieldBytes(f) + [] == FieldBytes(f);
    assert FieldBytes(f) == [0x48, 3, 51, 48, 50];
  }
}
