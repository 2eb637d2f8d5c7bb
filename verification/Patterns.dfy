/** The base patterns of noise/src/protocol/patterns.c, the pskN modifiers, and what both give to a handshake: every
    one of them meets the conditions of Agreement, so parties that follow it always agree. */
module Patterns {
  import opened Bytes
  import opened NoiseBase
  import opened CipherState
  import opened SymmetricState
  import opened DhState
  import opened Handshake
  import opened HandshakeState
  import opened Agreement

  const MAX_TOKENS: nat := 64
  const HEADER: nat := 2        // the flags, in front of the tokens

  /** Local is the initiator. */
  datatype Flags = Flags(ls: bool, le: bool, lr: bool, rs: bool, re: bool, rr: bool)

  datatype Pattern = Pattern(flags: Flags, tokens: seq<Token>)

  datatype Name = N | K | X | NN | NK | NX | XN | XK | XX | KN | KK | KX | IN | IK | IX

  function Reversed(f: Flags): Flags { Flags(f.rs, f.re, f.rr, f.ls, f.le, f.lr) }

  function Lookup(n: Name): Pattern {
    match n
    case N => Pattern(Flags(false, true, false, true, false, true), [E, ES, End])
    case K => Pattern(Flags(true, true, true, true, false, true), [E, ES, SS, End])
    case X => Pattern(Flags(true, true, false, true, false, true), [E, ES, S, SS, End])
    case NN => Pattern(Flags(false, true, false, false, true, false), [E, FlipDir, E, EE, End])
    case NK => Pattern(Flags(false, true, false, true, true, true), [E, ES, FlipDir, E, EE, End])
    case NX => Pattern(Flags(false, true, false, true, true, false), [E, FlipDir, E, EE, S, ES, End])
    case XN => Pattern(Flags(true, true, false, false, true, false), [E, FlipDir, E, EE, FlipDir, S, SE, End])
    case XK => Pattern(Flags(true, true, false, true, true, true), [E, ES, FlipDir, E, EE, FlipDir, S, SE, End])
    case XX => Pattern(Flags(true, true, false, true, true, false), [E, FlipDir, E, EE, S, ES, FlipDir, S, SE, End])
    case KN => Pattern(Flags(true, true, true, false, true, false), [E, FlipDir, E, EE, SE, End])
    case KK => Pattern(Flags(true, true, true, true, true, true), [E, ES, SS, FlipDir, E, EE, SE, End])
    case KX => Pattern(Flags(true, true, true, true, true, false), [E, FlipDir, E, EE, SE, S, ES, End])
    case IN => Pattern(Flags(true, true, false, false, true, false), [E, S, FlipDir, E, EE, SE, End])
    case IK => Pattern(Flags(true, true, false, true, true, true), [E, ES, S, SS, FlipDir, E, EE, SE, End])
    case IX => Pattern(Flags(true, true, false, true, true, false), [E, S, FlipDir, E, EE, SE, S, ES, End])
  }

  // What the letters of a name mean, section 7.5 of the Noise Protocol Framework: the side has no static key, one that is known, one
  // that it transmits, or one that it transmits at once.

  datatype Letter = Keyless | Premessage | Transmitted | Immediate

  /** The letters for the initiator and the responder; a one-way pattern has one, and its responder's key is known. */
  function Letters(n: Name): (Letter, Letter) {
    match n
    case N => (Keyless, Premessage) case K => (Premessage, Premessage) case X => (Immediate, Premessage)
    case NN => (Keyless, Keyless) case NK => (Keyless, Premessage) case NX => (Keyless, Transmitted)
    case XN => (Transmitted, Keyless) case XK => (Transmitted, Premessage) case XX => (Transmitted, Transmitted)
    case KN => (Premessage, Keyless) case KK => (Premessage, Premessage) case KX => (Premessage, Transmitted)
    case IN => (Immediate, Keyless) case IK => (Immediate, Premessage) case IX => (Immediate, Transmitted)
  }

  predicate OneWay(n: Name) { n in {N, K, X} }

  function When(c: bool, ts: seq<Token>): seq<Token> { if c then ts else [] }

  /** Every message sends an ephemeral, if it is the side's first, and a static key where the letter has it; keys are mixed
      as soon as both are there, the ephemerals first. */
  function TokensMeant(i: Letter, r: Letter, oneWay: bool): seq<Token> {
    [E] + When(r.Premessage?, [ES]) + When(i.Immediate?, [S]) + When(r.Premessage? && (i.Premessage? || i.Immediate?), [SS])
    + When(!oneWay, [FlipDir, E, EE] + When(i.Premessage? || i.Immediate?, [SE]) + When(r.Transmitted?, [S, ES]))
    + When(i.Transmitted?, [FlipDir, S, SE]) + [End]
  }

  function FlagsMeant(i: Letter, r: Letter, oneWay: bool): Flags {
    Flags(!i.Keyless?, true, i.Premessage?, !r.Keyless?, !oneWay, r.Premessage?)
  }

  /** The table holds for every name exactly what the name says. */
  lemma TableIsMeant(n: Name)
    ensures Meant(n)
  {
    hide Meant;
    match n
    case N => NMeant();
    case K => KMeant();
    case X => XMeant();
    case NN => NNMeant();
    case NK => NKMeant();
    case NX => NXMeant();
    case XN => XNMeant();
    case XK => XKMeant();
    case XX => XXMeant();
    case KN => KNMeant();
    case KK => KKMeant();
    case KX => KXMeant();
    case IN => INMeant();
    case IK => IKMeant();
    case IX => IXMeant();
  }

  predicate Meant(n: Name) {
    var (i, r) := Letters(n); Lookup(n) == Pattern(FlagsMeant(i, r, OneWay(n)), TokensMeant(i, r, OneWay(n)))
  }

  lemma NMeant() ensures Meant(N) {}
  lemma KMeant() ensures Meant(K) {}
  lemma XMeant() ensures Meant(X) {}
  lemma NNMeant() ensures Meant(NN) {}
  lemma NKMeant() ensures Meant(NK) {}
  lemma NXMeant() ensures Meant(NX) {}
  lemma XNMeant() ensures Meant(XN) {}
  lemma XKMeant() ensures Meant(XK) {}
  lemma XXMeant() ensures Meant(XX) {}
  lemma KNMeant() ensures Meant(KN) {}
  lemma KKMeant() ensures Meant(KK) {}
  lemma KXMeant() ensures Meant(KX) {}
  lemma INMeant() ensures Meant(IN) {}
  lemma IKMeant() ensures Meant(IK) {}
  lemma IXMeant() ensures Meant(IX) {}

  /** What the flags ask of the side they call local. */
  function RequirementsOf(f: Flags, psk: bool): Requirements { Requirements(f.ls || f.lr, f.rr, psk, f.lr, f.rr) }

  function PresenceOf(f: Flags): Presence { Presence(f.ls, f.le, f.rs, f.re) }

  // The pskN modifier.

  datatype Expansion = Expanded(tokens: seq<Token>) | UnknownName | TooLong

  /** The messages from the msg-th on, with a psk token at the end of the n-th. */
  function InsertPsk(input: seq<Token>, msg: nat, n: nat, prev: Token): Option<seq<Token>>
    decreases |input|
  {
    if input == [] then None
    else
      var t := input[0];
      var ends := t == FlipDir || t == End;
      if ends && msg == n && prev == Psk then None
      else
        var extra := if ends && msg == n then [Psk] else [];
        if t == End then (if msg + 1 <= n then None else Some(extra + [End]))
        else match InsertPsk(input[1..], if ends then msg + 1 else msg, n, t)
          case None => None
          case Some(rest) => Some(extra + [t] + rest)
  }

  function Expand(input: seq<Token>, n: nat): Expansion {
    if n == 0 && input != [] && input[0] == Psk then UnknownName
    else match InsertPsk(input, 1, n, End)
      case None => UnknownName
      case Some(rest) =>
        var out := if n == 0 then [Psk] + rest else rest;
        if HEADER + |out| > MAX_TOKENS then TooLong else Expanded(out)
  }

  function ExpandAll(input: seq<Token>, psks: seq<nat>): Expansion
    decreases |psks|
  {
    if psks == [] then Expanded(input)
    else match Expand(input, psks[0])
      case Expanded(out) => ExpandAll(out, psks[1..])
      case failed => failed
  }

  // Where the modifier puts the token.

  predicate EndsMessage(t: Token) { t == FlipDir || t == End }

  /** A list up to its end. */
  function Cut(ts: seq<Token>): seq<Token> { if ts == [] then [] else if ts[0] == End then [End] else [ts[0]] + Cut(ts[1..]) }

  function Flips(ts: seq<Token>): nat { if ts == [] then 0 else (if ts[0] == FlipDir then 1 else 0) + Flips(ts[1..]) }

  /** A psk token right behind the last token of the message that so many others come before. */
  predicate PskBehind(plain: seq<Token>, out: seq<Token>, i: nat, before: nat) {
    i < |plain| && EndsMessage(plain[i]) && Flips(plain[..i]) == before && out == plain[..i] + [Psk] + plain[i..]
  }

  ghost predicate PskIn(plain: seq<Token>, out: seq<Token>, before: nat) { exists i :: PskBehind(plain, out, i, before) }

  /** In the n-th message, counted from msg; in none, if that has passed. */
  lemma {:induction false} InsertPlaces(input: seq<Token>, msg: nat, n: nat, prev: Token)
    requires InsertPsk(input, msg, n, prev).Some?
    ensures var out := InsertPsk(input, msg, n, prev).value;
            if n < msg then out == Cut(input) else PskIn(Cut(input), out, n - msg)
    decreases |input|
  {
    hide InsertPsk, Cut, PskBehind;
    InsertUnfolds(input, msg, n, prev);
    CutUnfolds(input);
    var t, out := input[0], InsertPsk(input, msg, n, prev).value;
    if t == End {
      EndPlaces(input, msg, n, prev);
    } else {
      var ends := EndsMessage(t);
      var msg' := if ends then msg + 1 else msg;
      InsertPlaces(input[1..], msg', n, t);
      var rest, plain := InsertPsk(input[1..], msg', n, t).value, Cut(input[1..]);
      if ends && msg == n {
        PskFirst(t, plain);
        assert PskBehind(Cut(input), out, 0, n - msg);
      } else if msg' <= n {
        var i: nat :| PskBehind(plain, rest, i, n - msg');
        PskFurther(t, plain, rest, i, n - msg');
        assert PskBehind(Cut(input), out, i + 1, n - msg);
      }
    }
  }

  lemma CutUnfolds(ts: seq<Token>)
    requires ts != []
    ensures Cut(ts) == if ts[0] == End then [End] else [ts[0]] + Cut(ts[1..])
  {
  }

  lemma PskFirst(t: Token, plain: seq<Token>)
    requires EndsMessage(t)
    ensures PskBehind([t] + plain, [Psk] + ([t] + plain), 0, 0)
  {
    var ts := [t] + plain;
    assert ts[..0] + [Psk] + ts[0..] == [Psk] + ts;
  }

  lemma PskFurther(t: Token, plain: seq<Token>, rest: seq<Token>, i: nat, before: nat)
    requires PskBehind(plain, rest, i, before)
    ensures PskBehind([t] + plain, [t] + rest, i + 1, before + if t == FlipDir then 1 else 0)
  {
    assert ([t] + plain)[..i + 1] == [t] + plain[..i] && ([t] + plain)[i + 1..] == plain[i..];
    assert ([t] + plain[..i])[1..] == plain[..i];
  }

  lemma EndPlaces(input: seq<Token>, msg: nat, n: nat, prev: Token)
    requires InsertPsk(input, msg, n, prev).Some? && input != [] && input[0] == End
    ensures var out := InsertPsk(input, msg, n, prev).value;
            if n < msg then out == [End] else n == msg && PskBehind([End], out, 0, 0)
  {
  }

  /** psk0 puts the token in front of everything, and pskN at the end of the N-th message (section 9 of the Noise Protocol Framework). */
  lemma ExpandPlaces(input: seq<Token>, n: nat)
    requires Expand(input, n).Expanded? && Cut(input) == input
    ensures var out := Expand(input, n).tokens;
            if n == 0 then out == [Psk] + input else PskIn(input, out, n - 1)
  {
    InsertPlaces(input, 1, n, End);
  }

  // Legality as a property of lists.

  predicate LegalList(ts: seq<Token>, w: Role, k: Known, iStatic: bool, rStatic: bool)
    decreases |ts|
  {
    if ts == [] || ts[0] == End then true
    else if ts[0] == FlipDir then LegalList(ts[1..], Other(w), k, iStatic, rStatic)
    else
      && (ts[0] == S ==> if w == Initiator then iStatic else rStatic)
      && CanMix(k, ts[0])
      && LegalList(ts[1..], w, Learn(k, w, ts[0]), iStatic, rStatic)
  }

  lemma {:induction false} LegalOnLists(tokens: seq<Token>, pos: nat, w: Role, k: Known, iStatic: bool, rStatic: bool)
    requires pos <= |tokens|
    ensures Legal(tokens, pos, w, k, iStatic, rStatic) == LegalList(tokens[pos..], w, k, iStatic, rStatic)
    decreases |tokens| - pos
  {
    if pos < |tokens| {
      assert tokens[pos..][1..] == tokens[pos + 1..];
      if tokens[pos] == FlipDir {
        LegalOnLists(tokens, pos + 1, Other(w), k, iStatic, rStatic);
      } else {
        LegalOnLists(tokens, pos + 1, w, Learn(k, w, tokens[pos]), iStatic, rStatic);
      }
    }
  }

  lemma LegalUnfolds(ts: seq<Token>, w: Role, k: Known, iStatic: bool, rStatic: bool)
    requires ts != []
    ensures var t, rest := ts[0], ts[1..];
            LegalList(ts, w, k, iStatic, rStatic)
            == (t == End || (if t == FlipDir then LegalList(rest, Other(w), k, iStatic, rStatic)
                             else (t == S ==> if w == Initiator then iStatic else rStatic) && CanMix(k, t)
                                  && LegalList(rest, w, Learn(k, w, t), iStatic, rStatic)))
  {
  }

  /** A psk token in front changes nobody's knowledge. */
  lemma PskInFront(ts: seq<Token>, w: Role, k: Known, iStatic: bool, rStatic: bool)
    ensures LegalList([Psk] + ts, w, k, iStatic, rStatic) == LegalList(ts, w, k, iStatic, rStatic)
  {
    LegalUnfolds([Psk] + ts, w, k, iStatic, rStatic);
    assert ([Psk] + ts)[1..] == ts;
  }

  lemma InsertUnfolds(input: seq<Token>, msg: nat, n: nat, prev: Token)
    requires InsertPsk(input, msg, n, prev).Some?
    ensures input != []
    ensures var t := input[0];
            var ends := t == FlipDir || t == End;
            var more := InsertPsk(input[1..], if ends then msg + 1 else msg, n, t);
            && (t == End || more.Some?)
            && var plain := [t] + (if t == End then [] else more.value);
            InsertPsk(input, msg, n, prev).value == if ends && msg == n then [Psk] + plain else plain
  {
  }

  /** Wherever it is inserted. */
  lemma {:induction false} InsertKeepsLegal(input: seq<Token>, msg: nat, n: nat, prev: Token,
                                            w: Role, k: Known, iStatic: bool, rStatic: bool)
    requires LegalList(input, w, k, iStatic, rStatic) && InsertPsk(input, msg, n, prev).Some?
    ensures LegalList(InsertPsk(input, msg, n, prev).value, w, k, iStatic, rStatic)
    decreases |input|
  {
    hide LegalList, InsertPsk;
    InsertUnfolds(input, msg, n, prev);
    var t := input[0];
    var ends := t == FlipDir || t == End;
    var rest := if t == End then [] else InsertPsk(input[1..], if ends then msg + 1 else msg, n, t).value;
    var plain := [t] + rest;
    assert plain[0] == t && plain[1..] == rest;
    LegalUnfolds(input, w, k, iStatic, rStatic);
    LegalUnfolds(plain, w, k, iStatic, rStatic);
    PskInFront(plain, w, k, iStatic, rStatic);
    if t == FlipDir {
      InsertKeepsLegal(input[1..], msg + 1, n, t, Other(w), k, iStatic, rStatic);
    } else if t != End {
      InsertKeepsLegal(input[1..], msg, n, t, w, Learn(k, w, t), iStatic, rStatic);
    }
  }

  /** It adds only psk tokens, and the list still ends. */
  lemma {:induction false} InsertKeepsRest(input: seq<Token>, msg: nat, n: nat, prev: Token)
    requires InsertPsk(input, msg, n, prev).Some?
    ensures var out := InsertPsk(input, msg, n, prev).value;
            out != [] && out[|out| - 1] == End && forall i :: 0 <= i < |out| ==> out[i] == Psk || out[i] in input
    decreases |input|
  {
    if input[0] != End {
      InsertKeepsRest(input[1..], if input[0] == FlipDir then msg + 1 else msg, n, input[0]);
    }
  }

  predicate Ends(ts: seq<Token>) { ts != [] && ts[|ts| - 1] == End }

  lemma {:induction false} ExpandAllKeeps(input: seq<Token>, psks: seq<nat>, k: Known, iStatic: bool, rStatic: bool)
    requires Ends(input) && LegalList(input, Initiator, k, iStatic, rStatic) && ExpandAll(input, psks).Expanded?
    ensures var out := ExpandAll(input, psks).tokens;
            Ends(out) && LegalList(out, Initiator, k, iStatic, rStatic) && forall t :: t in out && t != Psk ==> t in input
    decreases |psks|
  {
    if psks != [] {
      hide InsertPsk, LegalList;
      var rest := InsertPsk(input, 1, psks[0], End).value;
      InsertKeepsLegal(input, 1, psks[0], End, Initiator, k, iStatic, rStatic);
      InsertKeepsRest(input, 1, psks[0], End);
      assert ([Psk] + rest)[1..] == rest;
      ExpandAllKeeps(Expand(input, psks[0]).tokens, psks[1..], k, iStatic, rStatic);
    }
  }

  // The base patterns.

  function Fresh(f: Flags): Known { Known(false, f.lr, false, f.rr) }

  predicate LegalPattern(p: Pattern) {
    LegalList(p.tokens, Initiator, Fresh(p.flags), p.flags.ls || p.flags.lr, p.flags.rs || p.flags.rr)
  }

  lemma ShortLegal(n: Name)
    requires n in {N, K, X, NN}
    ensures LegalPattern(Lookup(n))
  {
  }

  /** The responder's first message, up to the mixing of the ephemerals. */
  lemma Answered(ts: seq<Token>, k: Known, iStatic: bool, rStatic: bool)
    requires |ts| > 3 && ts[0] == FlipDir && ts[1] == E && ts[2] == EE && k.ie
    ensures LegalList(ts, Initiator, k, iStatic, rStatic) == LegalList(ts[3..], Responder, k.(re := true), iStatic, rStatic)
  {
    hide LegalList;
    var t1 := ts[1..];
    var t2 := t1[1..];
    LegalUnfolds(ts, Initiator, k, iStatic, rStatic);
    LegalUnfolds(t1, Responder, k, iStatic, rStatic);
    LegalUnfolds(t2, Responder, k.(re := true), iStatic, rStatic);
    assert t2[1..] == ts[3..];
  }

  /** KN, KK, IN and IK end with the initiator's static key mixed. */
  lemma MixedLast(ts: seq<Token>, rr: bool)
    requires ts == [SE, End]
    ensures LegalList(ts, Responder, Known(true, true, true, rr), true, rr)
  {
    hide LegalList;
    var t1 := ts[1..];
    LegalUnfolds(ts, Responder, Known(true, true, true, rr), true, rr);
    LegalUnfolds(t1, Responder, Known(true, true, true, rr), true, rr);
  }

  /** NX ends with the responder's static key sent. */
  lemma ShownLast(ts: seq<Token>)
    requires ts == [S, ES, End]
    ensures LegalList(ts, Responder, Known(true, false, true, false), false, true)
  {
    hide LegalList;
    var t1 := ts[1..];
    var t2 := t1[1..];
    LegalUnfolds(ts, Responder, Known(true, false, true, false), false, true);
    LegalUnfolds(t1, Responder, Known(true, false, true, true), false, true);
    LegalUnfolds(t2, Responder, Known(true, false, true, true), false, true);
  }

  /** KX and IX with both. */
  lemma MixedAndShown(ts: seq<Token>)
    requires ts == [SE, S, ES, End]
    ensures LegalList(ts, Responder, Known(true, true, true, false), true, true)
  {
    hide LegalList;
    var t1 := ts[1..];
    var t2 := t1[1..];
    var t3 := t2[1..];
    LegalUnfolds(ts, Responder, Known(true, true, true, false), true, true);
    LegalUnfolds(t1, Responder, Known(true, true, true, false), true, true);
    LegalUnfolds(t2, Responder, Known(true, true, true, true), true, true);
    LegalUnfolds(t3, Responder, Known(true, true, true, true), true, true);
  }

  /** XN and XK with the initiator's, in a third message. */
  lemma SentLast(ts: seq<Token>, rr: bool)
    requires ts == [FlipDir, S, SE, End]
    ensures LegalList(ts, Responder, Known(true, false, true, rr), true, rr)
  {
    hide LegalList;
    var t1 := ts[1..];
    var t2 := t1[1..];
    var t3 := t2[1..];
    LegalUnfolds(ts, Responder, Known(true, false, true, rr), true, rr);
    LegalUnfolds(t1, Initiator, Known(true, false, true, rr), true, rr);
    LegalUnfolds(t2, Initiator, Known(true, true, true, rr), true, rr);
    LegalUnfolds(t3, Initiator, Known(true, true, true, rr), true, rr);
  }

  /** XX with both sent, the initiator's in a third message. */
  lemma BothSent(ts: seq<Token>)
    requires ts == [S, ES, FlipDir, S, SE, End]
    ensures LegalList(ts, Responder, Known(true, false, true, false), true, true)
  {
    hide LegalList;
    var t1 := ts[1..];
    LegalUnfolds(ts, Responder, Known(true, false, true, false), true, true);
    LegalUnfolds(t1, Responder, Known(true, false, true, true), true, true);
    SentLast(t1[1..], true);
  }

  lemma KnownLegal()
    ensures LegalPattern(Lookup(NK))
  {
    hide LegalList;
    var t0 := Lookup(NK).tokens;
    var t1 := t0[1..];
    var t2 := t1[1..];
    LegalUnfolds(t0, Initiator, Known(false, false, false, true), false, true);
    LegalUnfolds(t1, Initiator, Known(true, false, false, true), false, true);
    Answered(t2, Known(true, false, false, true), false, true);
    LegalUnfolds(t2[3..], Responder, Known(true, false, true, true), false, true);
  }

  lemma SentLegal()
    ensures LegalPattern(Lookup(NX))
  {
    hide LegalList;
    var t0 := Lookup(NX).tokens;
    var t1 := t0[1..];
    LegalUnfolds(t0, Initiator, Known(false, false, false, false), false, true);
    Answered(t1, Known(true, false, false, false), false, true);
    ShownLast(t1[3..]);
  }

  lemma SentLateLegal()
    ensures LegalPattern(Lookup(XN))
  {
    hide LegalList;
    var t0 := Lookup(XN).tokens;
    var t1 := t0[1..];
    LegalUnfolds(t0, Initiator, Known(false, false, false, false), true, false);
    Answered(t1, Known(true, false, false, false), true, false);
    SentLast(t1[3..], false);
  }

  lemma MixedLegal()
    ensures LegalPattern(Lookup(XK))
  {
    hide LegalList;
    var t0 := Lookup(XK).tokens;
    var t1 := t0[1..];
    var t2 := t1[1..];
    LegalUnfolds(t0, Initiator, Known(false, false, false, true), true, true);
    LegalUnfolds(t1, Initiator, Known(true, false, false, true), true, true);
    Answered(t2, Known(true, false, false, true), true, true);
    SentLast(t2[3..], true);
  }

  lemma TwoWayLegal()
    ensures LegalPattern(Lookup(XX))
  {
    hide LegalList;
    var t0 := Lookup(XX).tokens;
    var t1 := t0[1..];
    LegalUnfolds(t0, Initiator, Known(false, false, false, false), true, true);
    Answered(t1, Known(true, false, false, false), true, true);
    BothSent(t1[3..]);
  }

  lemma KnownInitiatorLegal()
    ensures LegalPattern(Lookup(KN))
  {
    hide LegalList;
    var t0 := Lookup(KN).tokens;
    var t1 := t0[1..];
    LegalUnfolds(t0, Initiator, Known(false, true, false, false), true, false);
    Answered(t1, Known(true, true, false, false), true, false);
    MixedLast(t1[3..], false);
  }

  lemma BothLegal()
    ensures LegalPattern(Lookup(KK))
  {
    hide LegalList;
    var t0 := Lookup(KK).tokens;
    var t1 := t0[1..];
    var t2 := t1[1..];
    var t3 := t2[1..];
    LegalUnfolds(t0, Initiator, Known(false, true, false, true), true, true);
    LegalUnfolds(t1, Initiator, Known(true, true, false, true), true, true);
    LegalUnfolds(t2, Initiator, Known(true, true, false, true), true, true);
    Answered(t3, Known(true, true, false, true), true, true);
    MixedLast(t3[3..], true);
  }

  lemma KnownSentLegal()
    ensures LegalPattern(Lookup(KX))
  {
    hide LegalList;
    var t0 := Lookup(KX).tokens;
    var t1 := t0[1..];
    LegalUnfolds(t0, Initiator, Known(false, true, false, false), true, true);
    Answered(t1, Known(true, true, false, false), true, true);
    MixedAndShown(t1[3..]);
  }

  lemma ImmediateLegal()
    ensures LegalPattern(Lookup(IN))
  {
    hide LegalList;
    var t0 := Lookup(IN).tokens;
    var t1 := t0[1..];
    var t2 := t1[1..];
    LegalUnfolds(t0, Initiator, Known(false, false, false, false), true, false);
    LegalUnfolds(t1, Initiator, Known(true, false, false, false), true, false);
    Answered(t2, Known(true, true, false, false), true, false);
    MixedLast(t2[3..], false);
  }

  /** IK once the initiator's static key is to be sent. */
  lemma SentAndMixed(ts: seq<Token>)
    requires ts == [S, SS, FlipDir, E, EE, SE, End]
    ensures LegalList(ts, Initiator, Known(true, false, false, true), true, true)
  {
    hide LegalList;
    var t1 := ts[1..];
    var t2 := t1[1..];
    LegalUnfolds(ts, Initiator, Known(true, false, false, true), true, true);
    LegalUnfolds(t1, Initiator, Known(true, true, false, true), true, true);
    Answered(t2, Known(true, true, false, true), true, true);
    MixedLast(t2[3..], true);
  }

  lemma ImmediateKnownLegal()
    ensures LegalPattern(Lookup(IK))
  {
    hide LegalList;
    var t0 := Lookup(IK).tokens;
    var t1 := t0[1..];
    LegalUnfolds(t0, Initiator, Known(false, false, false, true), true, true);
    LegalUnfolds(t1, Initiator, Known(true, false, false, true), true, true);
    SentAndMixed(t1[1..]);
  }

  lemma ImmediateSentLegal()
    ensures LegalPattern(Lookup(IX))
  {
    hide LegalList;
    var t0 := Lookup(IX).tokens;
    var t1 := t0[1..];
    var t2 := t1[1..];
    LegalUnfolds(t0, Initiator, Known(false, false, false, false), true, true);
    LegalUnfolds(t1, Initiator, Known(true, false, false, false), true, true);
    Answered(t2, Known(true, true, false, false), true, true);
    MixedAndShown(t2[3..]);
  }

  /** In every base pattern static keys are sent only by a side that has one, and keys are mixed only when known. */
  lemma BaseLegal(n: Name)
    ensures LegalPattern(Lookup(n)) && Ends(Lookup(n).tokens)
  {
    hide LegalPattern;
    match n
    case N => ShortLegal(N);
    case K => ShortLegal(K);
    case X => ShortLegal(X);
    case NN => ShortLegal(NN);
    case NK => KnownLegal();
    case KN => KnownInitiatorLegal();
    case NX => SentLegal();
    case XN => SentLateLegal();
    case XK => MixedLegal();
    case KK => BothLegal();
    case XX => TwoWayLegal();
    case KX => KnownSentLegal();
    case IN => ImmediateLegal();
    case IK => ImmediateKnownLegal();
    case IX => ImmediateSentLegal();
  }

  /** Every object a Diffie-Hellman token names, on either side, is one the flags call for. */
  predicate CallsFor(f: Flags, t: Token) {
    && (t == EE ==> f.le && f.re) && (t == ES ==> f.le && f.rs) && (t == SE ==> f.ls && f.re) && (t == SS ==> f.ls && f.rs)
  }

  lemma BaseCallsFor(n: Name)
    ensures forall t :: t in Lookup(n).tokens ==> CallsFor(Lookup(n).flags, t)
  {
  }

  /** What a pattern with its modifiers expands to fits the objects made for it, in both roles. */
  lemma ExpansionFits(n: Name, psks: seq<nat>)
    requires ExpandAll(Lookup(n).tokens, psks).Expanded?
    ensures var ts := ExpandAll(Lookup(n).tokens, psks).tokens;
            && Fits(ts, Initiator, PresenceOf(Lookup(n).flags)) && Fits(ts, Responder, PresenceOf(Reversed(Lookup(n).flags)))
  {
    hide Lookup, LegalPattern, LegalList, ExpandAll;
    var p := Lookup(n);
    var ts := ExpandAll(p.tokens, psks).tokens;
    BaseLegal(n);
    ExpandLegal(n, psks);
    BaseCallsFor(n);
    forall i | 0 <= i < |ts| && IsDh(ts[i])
      ensures CallsFor(p.flags, ts[i])
    {
      assert ts[i] in ts;
    }
  }

  lemma ExpandLegal(n: Name, psks: seq<nat>)
    requires ExpandAll(Lookup(n).tokens, psks).Expanded?
    ensures var p := Lookup(n);
            var ts := ExpandAll(p.tokens, psks).tokens;
            && Ends(ts) && (forall t :: t in ts && t != Psk ==> t in p.tokens)
            && LegalList(ts, Initiator, Fresh(p.flags), p.flags.ls || p.flags.lr, p.flags.rs || p.flags.rr)
  {
    hide Lookup, LegalList, ExpandAll;
    var p := Lookup(n);
    BaseLegal(n);
    ExpandAllKeeps(p.tokens, psks, Fresh(p.flags), p.flags.ls || p.flags.lr, p.flags.rs || p.flags.rr);
  }

  /** A pair of fresh parties for a named pattern. */
  ghost predicate Follows(z: Noise, i: Party, r: Party, n: Name, psks: seq<nat>) {
    && ExpandAll(Lookup(n).tokens, psks) == Expanded(i.tokens) && i.pos == 0
    && i.reqs == RequirementsOf(Lookup(n).flags, psks != []) && r.reqs == RequirementsOf(Reversed(Lookup(n).flags), psks != [])
    && Configured(z, i, r)
  }

  /** For each base pattern with any pskN modifiers the whole handshake agrees, with nothing left to assume about it. */
  lemma PatternAgrees(z: Noise, i: Party, r: Party, n: Name, psks: seq<nat>, ds: seq<Delivery>)
    requires LawfulNoise(z) && Follows(z, i, r, n, psks) && Start(z, i).Ok? && Start(z, r).Ok?
    requires forall m :: 0 <= m < |ds| ==> GoodDelivery(z, ds[m])
    ensures var out := Run(z, Start(z, i).value, Start(z, r).value, ds);
            && !out.ReadRefused?
            && (out.Reached? ==>
                  && Recovered(out, ds) && Complementary(out.writer, out.reader)
                  && out.writer.sym == out.reader.sym
                  && SplitFor(z, out.writer).0 == SplitFor(z, out.reader).1
                  && SplitFor(z, out.writer).1 == SplitFor(z, out.reader).0)
  {
    hide Lookup, LegalList, ExpandAll, Run, Start, SplitFor, Recovered, Legal;
    var f := Lookup(n).flags;
    ExpandLegal(n, psks);
    assert i.tokens[0..] == i.tokens;
    LegalOnLists(i.tokens, 0, Initiator, Fresh(f), f.ls || f.lr, f.rs || f.rr);
    HandshakeAgrees(z, i, r, ds);
  }

  /** The expansion, token by token. */
  method ExpandPsk(input: seq<Token>, n: nat) returns (r: Expansion)
    requires Ends(input) && HEADER + |input| <= MAX_TOKENS
    ensures r == Expand(input, n)
  {
    hide InsertPsk;
    var out: seq<Token> := [];
    if n == 0 {
      if input[0] == Psk {
        return UnknownName;
      }
      out := [Psk];
    }
    ghost var front := out;
    var i, msg, prev := 0, 1, End;
    ghost var goal := InsertPsk(input, 1, n, End);
    assert input[0..] == input && (goal.Some? ==> out + goal.value == front + goal.value);
    while input[i] != End
      invariant i < |input| && After(out, InsertPsk(input[i..], msg, n, prev)) == After(front, goal)
      decreases |input| - i
    {
      var t := input[i];
      InsertOne(input[i..], msg, n, prev, out);
      assert out + [] == out;
      assert input[i..][1..] == input[i + 1..];
      if t == FlipDir {
        if msg == n {
          if prev == Psk {
            return UnknownName;
          }
          out := out + [Psk];
        }
        msg := msg + 1;
      }
      out := out + [t];
      prev := t;
      i := i + 1;
    }
    InsertOne(input[i..], msg, n, prev, out);
    assert out + [] == out;
    if msg == n {
      if prev == Psk {
        return UnknownName;
      }
      out := out + [Psk];
    }
    out := out + [End];
    if msg + 1 <= n {
      return UnknownName;
    }
    if HEADER + |out| > MAX_TOKENS {
      return TooLong;
    }
    return Expanded(out);
  }

  function After(front: seq<Token>, rest: Option<seq<Token>>): Option<seq<Token>> {
    if rest.Some? then Some(front + rest.value) else None
  }

  lemma InsertOne(input: seq<Token>, msg: nat, n: nat, prev: Token, out: seq<Token>)
    requires input != []
    ensures var t := input[0];
            var ends := t == FlipDir || t == End;
            var extra := if ends && msg == n then [Psk] else [];
            After(out, InsertPsk(input, msg, n, prev)) ==
              if ends && msg == n && prev == Psk then None
              else if t == End then (if msg + 1 <= n then None else Some(out + extra + [End]))
              else After(out + extra + [t], InsertPsk(input[1..], if ends then msg + 1 else msg, n, t))
  {
    var t := input[0];
    var ends := t == FlipDir || t == End;
    var extra := if ends && msg == n then [Psk] else [];
    if t == End {
      assert out + (extra + [End]) == out + extra + [End];
    } else {
      var rest := InsertPsk(input[1..], if ends then msg + 1 else msg, n, t);
      assert rest.Some? ==> out + (extra + [t] + rest.value) == out + extra + [t] + rest.value;
    }
  }
}
