/** components/tailscale/crypto_box_simple.cpp: Salsa20 and HSalsa20 on word arrays, the XSalsa20 stream in its plain and
    its split form, and the NaCl box on top.  Poly1305 and Curve25519 are parameters. */
module Salsa {
  import opened Bytes

  type Word = x: int | 0 <= x < 0x1_0000_0000
  type Words = seq<Word>

  // The Salsa20 specification, sections 2 to 8.

  function Add(a: Word, b: Word): Word { (a + b) % TWO32 }

  function Xor32(a: Word, b: Word): Word {
    Pow2Constants();
    XorBits(a, b, 32)
  }

  lemma Pow2Pos(n: nat)
    ensures Pow2(n) > 0
  {
  }

  /** x <<< n */
  function Rotl(x: Word, n: nat): Word
    requires 0 < n < 32
  {
    Pow2Pos(32 - n);
    (x as int * Pow2(n) % TWO32 + x as int / Pow2(32 - n)) % TWO32
  }

  datatype Quad = Quad(a: Word, b: Word, c: Word, d: Word)

  function QuarterRound(q: Quad): Quad {
    var z1 := Xor32(q.b, Rotl(Add(q.a, q.d), 7));
    var z2 := Xor32(q.c, Rotl(Add(z1, q.a), 9));
    var z3 := Xor32(q.d, Rotl(Add(z2, z1), 13));
    var z0 := Xor32(q.a, Rotl(Add(z3, z2), 18));
    Quad(z0, z1, z2, z3)
  }

  function QuarterOf(y: Words, i: nat, j: nat, k: nat, l: nat): Quad
    requires i < |y| && j < |y| && k < |y| && l < |y|
  {
    QuarterRound(Quad(y[i], y[j], y[k], y[l]))
  }

  function RowRound(y: Words): (z: Words)
    requires |y| == 16
    ensures |z| == 16
  {
    var r0, r1 := QuarterOf(y, 0, 1, 2, 3), QuarterOf(y, 5, 6, 7, 4);
    var r2, r3 := QuarterOf(y, 10, 11, 8, 9), QuarterOf(y, 15, 12, 13, 14);
    [r0.a, r0.b, r0.c, r0.d, r1.d, r1.a, r1.b, r1.c, r2.c, r2.d, r2.a, r2.b, r3.b, r3.c, r3.d, r3.a]
  }

  function ColumnRound(x: Words): (y: Words)
    requires |x| == 16
    ensures |y| == 16
  {
    var c0, c1 := QuarterOf(x, 0, 4, 8, 12), QuarterOf(x, 5, 9, 13, 1);
    var c2, c3 := QuarterOf(x, 10, 14, 2, 6), QuarterOf(x, 15, 3, 7, 11);
    [c0.a, c1.d, c2.c, c3.b, c0.b, c1.a, c2.d, c3.c, c0.c, c1.b, c2.a, c3.d, c0.d, c1.c, c2.b, c3.a]
  }

  function Rounds(x: Words, n: nat): (y: Words)
    requires |x| == 16
    ensures |y| == 16
  {
    if n == 0 then x else RowRound(ColumnRound(Rounds(x, n - 1)))
  }

  function LittleEndian(ws: Words): (b: bytes)
    ensures |b| == 4 * |ws|
  {
    if ws == [] then [] else LittleEndian(ws[..|ws| - 1]) + Le32(ws[|ws| - 1])
  }

  function WordAt(b: bytes, i: nat): Word
    requires i + 4 <= |b|
  {
    FromLe32(b[i..])
  }

  const SIGMA: Words := [0x61707865, 0x3320646e, 0x79622d32, 0x6b206574]

  /** The constants on the diagonal, the key in two halves, and sixteen bytes between them. */
  function Matrix(k: bytes, input: bytes): (m: Words)
    requires |k| == 32 && |input| == 16
    ensures |m| == 16
  {
    [SIGMA[0], WordAt(k, 0), WordAt(k, 4), WordAt(k, 8), WordAt(k, 12), SIGMA[1],
     WordAt(input, 0), WordAt(input, 4), WordAt(input, 8), WordAt(input, 12),
     SIGMA[2], WordAt(k, 16), WordAt(k, 20), WordAt(k, 24), WordAt(k, 28), SIGMA[3]]
  }

  function Le64(n: nat): bytes { Le32(n % TWO32) + Le32(n / TWO32 % TWO32) }

  function Sum(a: Words, b: Words): (r: Words)
    requires |a| == |b|
    ensures |r| == |a|
  {
    seq(|a|, i requires 0 <= i < |a| => Add(a[i], b[i]))
  }

  /** Sixty-four bytes of key stream. */
  function Block(k: bytes, n: bytes, counter: nat): (b: bytes)
    requires |k| == 32 && |n| == 8
    ensures |b| == 64
  {
    var m := Matrix(k, n + Le64(counter));
    LittleEndian(Sum(Rounds(m, 10), m))
  }

  function HSalsa(k: bytes, input: bytes): (r: bytes)
    requires |k| == 32 && |input| == 16
    ensures |r| == 32
  {
    var x := Rounds(Matrix(k, input), 10);
    LittleEndian([x[0], x[5], x[10], x[15], x[6], x[7], x[8], x[9]])
  }

  /** len bytes of key stream from a block counter of 64 bits. */
  function Stream(k: bytes, n: bytes, counter: nat, len: nat): (r: bytes)
    requires |k| == 32 && |n| == 8
    ensures |r| == len
    decreases len
  {
    if len < 64 then Block(k, n, counter)[..len]
    else Block(k, n, counter) + Stream(k, n, (counter + 1) % TWO64, len - 64)
  }

  /** XSalsa20: a key for the stream from the first sixteen bytes of the nonce. */
  function XStream(k: bytes, n: bytes, len: nat): (r: bytes)
    requires |k| == 32 && |n| == 24
    ensures |r| == len
  {
    Stream(HSalsa(k, n[..16]), n[16..], 0, len)
  }

  lemma Xor32Zero(x: Word)
    ensures Xor32(0, x) == x && Xor32(x, 0) == x
  {
    Pow2Constants();
    XorBitsWithZero(x, 32);
  }

  lemma Xor32One(x: Word)
    requires x % 2 == 0
    ensures Xor32(1, x) == x + 1
  {
    Pow2Constants();
    HalfFits(x);
    XorBitsWithZero(x / 2, 31);
  }

  lemma HalfFits(x: Word)
    ensures x / 2 < Pow2(31)
  {
    Pow2Constants();
    assert Pow2(32) == 2 * Pow2(31);
  }

  lemma Pow2Examples()
    ensures Pow2(7) == 0x80 && Pow2(25) == 0x200_0000 && Pow2(9) == 0x200 && Pow2(23) == 0x80_0000
    ensures Pow2(13) == 0x2000 && Pow2(19) == 0x8_0000 && Pow2(18) == 0x4_0000 && Pow2(14) == 0x4000
  {
    assert Pow2(13) == 16 * Pow2(9) && Pow2(14) == 2 * Pow2(13) && Pow2(18) == 16 * Pow2(14) && Pow2(19) == 2 * Pow2(18);
    assert Pow2(23) == 16 * Pow2(19) && Pow2(25) == 4 * Pow2(23);
  }

  /** The four rotations there are, by multiplying and dividing. */
  lemma Rotations(x: Word)
    ensures Rotl(x, 7) == (x * 0x80 % TWO32 + x / 0x200_0000) % TWO32
    ensures Rotl(x, 9) == (x * 0x200 % TWO32 + x / 0x80_0000) % TWO32
    ensures Rotl(x, 13) == (x * 0x2000 % TWO32 + x / 0x8_0000) % TWO32
    ensures Rotl(x, 18) == (x * 0x4_0000 % TWO32 + x / 0x4000) % TWO32
  {
    Pow2Examples();
  }

  lemma QuarterExample1()
    ensures QuarterRound(Quad(1, 0, 0, 0)) == Quad(0x08008145, 0x00000080, 0x00010200, 0x20500000)
  {
    hide Xor32, Rotl;
    Rotations(0x1);
    Rotations(0x81);
    Rotations(0x10280);
    Rotations(0x20510200);
    assert Rotl(0x1, 7) == 0x80;
    assert Rotl(0x81, 9) == 0x10200;
    assert Rotl(0x10280, 13) == 0x20500000;
    assert Rotl(0x20510200, 18) == 0x8008144;
    Xor32Zero(0x80);
    Xor32Zero(0x10200);
    Xor32Zero(0x20500000);
    Xor32One(0x8008144);
  }

  lemma QuarterExample2()
    ensures QuarterRound(Quad(0, 1, 0, 0)) == Quad(0x88000100, 0x00000001, 0x00000200, 0x00402000)
  {
    hide Xor32, Rotl;
    Rotations(0x0);
    Rotations(0x1);
    Rotations(0x201);
    Rotations(0x402200);
    assert Rotl(0x0, 7) == 0x0;
    assert Rotl(0x1, 9) == 0x200;
    assert Rotl(0x201, 13) == 0x402000;
    assert Rotl(0x402200, 18) == 0x88000100;
    Xor32Zero(1);
    Xor32Zero(0x200);
    Xor32Zero(0x402000);
    Xor32Zero(0x88000100);
  }

  lemma QuarterExample3()
    ensures QuarterRound(Quad(0, 0, 1, 0)) == Quad(0x80040000, 0x00000000, 0x00000001, 0x00002000)
  {
    hide Xor32, Rotl;
    Rotations(0x0);
    Rotations(0x1);
    Rotations(0x2001);
    assert Rotl(0x0, 7) == 0x0;
    assert Rotl(0x0, 9) == 0x0;
    assert Rotl(0x1, 13) == 0x2000;
    assert Rotl(0x2001, 18) == 0x80040000;
    Xor32Zero(0x0);
    Xor32Zero(1);
    Xor32Zero(0x2000);
    Xor32Zero(0x80040000);
  }

  lemma QuarterExample4()
    ensures QuarterRound(Quad(0, 0, 0, 1)) == Quad(0x00048044, 0x00000080, 0x00010000, 0x20100001)
  {
    hide Xor32, Rotl;
    Rotations(0x1);
    Rotations(0x80);
    Rotations(0x10080);
    Rotations(0x20110001);
    assert Rotl(0x1, 7) == 0x80;
    assert Rotl(0x80, 9) == 0x10000;
    assert Rotl(0x10080, 13) == 0x20100000;
    assert Rotl(0x20110001, 18) == 0x48044;
    Xor32Zero(0x80);
    Xor32Zero(0x10000);
    Xor32One(0x20100000);
    Xor32Zero(0x48044);
  }

  /** Examples of section 3 of the Salsa20 specification: a one for each word of the four in turn. */
  lemma QuarterExamples()
    ensures QuarterRound(Quad(1, 0, 0, 0)) == Quad(0x08008145, 0x00000080, 0x00010200, 0x20500000)
    ensures QuarterRound(Quad(0, 1, 0, 0)) == Quad(0x88000100, 0x00000001, 0x00000200, 0x00402000)
    ensures QuarterRound(Quad(0, 0, 1, 0)) == Quad(0x80040000, 0x00000000, 0x00000001, 0x00002000)
    ensures QuarterRound(Quad(0, 0, 0, 1)) == Quad(0x00048044, 0x00000080, 0x00010000, 0x20100001)
  {
    hide QuarterRound;
    QuarterExample1();
    QuarterExample2();
    QuarterExample3();
    QuarterExample4();
  }

  function Transposed(x: Words): (y: Words)
    requires |x| == 16
    ensures |y| == 16
  {
    [x[0], x[4], x[8], x[12], x[1], x[5], x[9], x[13], x[2], x[6], x[10], x[14], x[3], x[7], x[11], x[15]]
  }

  /** Section 5: the column round is the row round of the transposed matrix, transposed back. */
  lemma ColumnsAreRows(x: Words)
    requires |x| == 16
    ensures ColumnRound(x) == Transposed(RowRound(Transposed(x)))
  {
    hide QuarterRound;
  }

  /** Section 4: the rows are rotated so that each begins at the diagonal. */
  lemma RowsBeginAtDiagonal(y: Words, i: nat)
    requires |y| == 16 && i < 4
    ensures InRow(RowRound(y), i) == QuarterRound(InRow(y, i))
  {
    hide QuarterRound;
    if i < 2 {
      assert i == 0 || i == 1;
    } else {
      assert i == 2 || i == 3;
    }
  }

  /** Row i from the diagonal on. */
  function InRow(y: Words, i: nat): Quad
    requires |y| == 16 && i < 4
  {
    Quad(y[4 * i + i], y[4 * i + (i + 1) % 4], y[4 * i + (i + 2) % 4], y[4 * i + (i + 3) % 4])
  }

  /** Section 8: the bytes of the matrix are "expand 32-byte k" in four parts, the key in two between them, and the input
      in the middle. */
  lemma MatrixBytes(k: bytes, input: bytes)
    requires |k| == 32 && |input| == 16
    ensures LittleEndian(Matrix(k, input))
            == [101, 120, 112, 97] + k[..16] + [110, 100, 32, 51] + input + [50, 45, 98, 121] + k[16..] + [116, 101, 32, 107]
  {
    hide LittleEndian;
    var m := Matrix(k, input);
    WordsAt(k[..16], k, 0);
    WordsAt(k[16..], k, 16);
    WordsAt(input, input, 0);
    SigmaBytes();
    assert m == [SIGMA[0]] + m[1..5] + [SIGMA[1]] + m[6..10] + [SIGMA[2]] + m[11..15] + [SIGMA[3]];
    LittleEndianJoins([SIGMA[0]] + m[1..5] + [SIGMA[1]] + m[6..10] + [SIGMA[2]] + m[11..15], [SIGMA[3]]);
    LittleEndianJoins([SIGMA[0]] + m[1..5] + [SIGMA[1]] + m[6..10] + [SIGMA[2]], m[11..15]);
    LittleEndianJoins([SIGMA[0]] + m[1..5] + [SIGMA[1]] + m[6..10], [SIGMA[2]]);
    LittleEndianJoins([SIGMA[0]] + m[1..5] + [SIGMA[1]], m[6..10]);
    LittleEndianJoins([SIGMA[0]] + m[1..5], [SIGMA[1]]);
    LittleEndianJoins([SIGMA[0]], m[1..5]);
    assert m[1..5] == [WordAt(k, 0), WordAt(k, 4), WordAt(k, 8), WordAt(k, 12)];
    assert m[11..15] == [WordAt(k, 16), WordAt(k, 20), WordAt(k, 24), WordAt(k, 28)];
    assert m[6..10] == [WordAt(input, 0), WordAt(input, 4), WordAt(input, 8), WordAt(input, 12)];
  }

  lemma SigmaBytes()
    ensures LittleEndian([SIGMA[0]]) == [101, 120, 112, 97] && LittleEndian([SIGMA[1]]) == [110, 100, 32, 51]
    ensures LittleEndian([SIGMA[2]]) == [50, 45, 98, 121] && LittleEndian([SIGMA[3]]) == [116, 101, 32, 107]
  {
    OneWord(SIGMA[0]);
    OneWord(SIGMA[1]);
    OneWord(SIGMA[2]);
    OneWord(SIGMA[3]);
  }

  lemma OneWord(w: Word)
    ensures LittleEndian([w]) == Le32(w)
  {
    assert [w][..0] == [];
    assert LittleEndian([]) + Le32(w) == Le32(w);
  }

  lemma {:induction false} LittleEndianJoins(a: Words, b: Words)
    ensures LittleEndian(a + b) == LittleEndian(a) + LittleEndian(b)
    decreases |b|
  {
    if b == [] {
      assert a + b == a;
    } else {
      assert (a + b)[..|a + b| - 1] == a + b[..|b| - 1];
      LittleEndianJoins(a, b[..|b| - 1]);
    }
  }

  /** Four words read from sixteen bytes are those bytes. */
  lemma WordsAt(part: bytes, b: bytes, at: nat)
    requires |part| == 16 && at + 16 <= |b| && part == b[at..at + 16]
    ensures LittleEndian([WordAt(b, at), WordAt(b, at + 4), WordAt(b, at + 8), WordAt(b, at + 12)]) == part
  {
    hide LittleEndian;
    var w0, w1, w2, w3 := WordAt(b, at), WordAt(b, at + 4), WordAt(b, at + 8), WordAt(b, at + 12);
    LittleEndianJoins([w0] + [w1] + [w2], [w3]);
    LittleEndianJoins([w0] + [w1], [w2]);
    LittleEndianJoins([w0], [w1]);
    OneWord(w0);
    OneWord(w1);
    OneWord(w2);
    OneWord(w3);
    assert [w0, w1, w2, w3] == [w0] + [w1] + [w2] + [w3];
    WordBytes(b, at);
    WordBytes(b, at + 4);
    WordBytes(b, at + 8);
    WordBytes(b, at + 12);
    assert part == b[at..at + 4] + b[at + 4..at + 8] + b[at + 8..at + 12] + b[at + 12..at + 16];
  }

  lemma WordBytes(b: bytes, at: nat)
    requires at + 4 <= |b|
    ensures Le32(WordAt(b, at)) == b[at..at + 4]
  {
    var c := b[at..at + 4];
    assert WordAt(b, at) == c[0] as nat + 256 * (c[1] as nat + 256 * (c[2] as nat + 256 * c[3] as nat));
    BytesOf(c[0], c[1], c[2], c[3]);
  }

  lemma BytesOf(b0: byte, b1: byte, b2: byte, b3: byte)
    ensures Le32(b0 as nat + 256 * (b1 as nat + 256 * (b2 as nat + 256 * b3 as nat))) == [b0, b1, b2, b3]
  {
    var n2 := b2 as nat + 256 * b3 as nat;
    var n1 := b1 as nat + 256 * n2;
    var n0 := b0 as nat + 256 * n1;
    assert n0 / 256 == n1 && n1 / 256 == n2 && n2 / 256 == b3 as nat;
  }

  // On arrays.

  method Quarter(x: array<Word>, i: nat, j: nat, k: nat, l: nat)
    requires x.Length == 16 && i < 16 && j < 16 && k < 16 && l < 16
    requires i != j && i != k && i != l && j != k && j != l && k != l
    modifies x
    ensures var q := QuarterOf(old(x[..]), i, j, k, l);
            x[..] == old(x[..])[i := q.a][j := q.b][k := q.c][l := q.d]
  {
    hide Xor32, Rotl, Add;
    x[j] := Xor32(x[j], Rotl(Add(x[i], x[l]), 7));
    x[k] := Xor32(x[k], Rotl(Add(x[j], x[i]), 9));
    x[l] := Xor32(x[l], Rotl(Add(x[k], x[j]), 13));
    x[i] := Xor32(x[i], Rotl(Add(x[l], x[k]), 18));
  }

  /** In place, one quadruple after the other, comes to the same as all at once. */
  method Columns(x: array<Word>)
    requires x.Length == 16
    modifies x
    ensures x[..] == ColumnRound(old(x[..]))
  {
    hide QuarterRound;
    Quarter(x, 0, 4, 8, 12);
    Quarter(x, 5, 9, 13, 1);
    Quarter(x, 10, 14, 2, 6);
    Quarter(x, 15, 3, 7, 11);
  }

  method Rows(x: array<Word>)
    requires x.Length == 16
    modifies x
    ensures x[..] == RowRound(old(x[..]))
  {
    hide QuarterRound;
    Quarter(x, 0, 1, 2, 3);
    Quarter(x, 5, 6, 7, 4);
    Quarter(x, 10, 11, 8, 9);
    Quarter(x, 15, 12, 13, 14);
  }

  method TwentyRounds(x: array<Word>)
    requires x.Length == 16
    modifies x
    ensures x[..] == Rounds(old(x[..]), 10)
  {
    hide RowRound, ColumnRound;
    var i := 0;
    while i < 10
      invariant i <= 10 && x[..] == Rounds(old(x[..]), i)
    {
      Columns(x);
      Rows(x);
      i := i + 1;
    }
  }

  /** Words out in little-endian order. */
  method StoreWords(out: array<byte>, at: nat, x: Words)
    requires at + 4 * |x| <= out.Length
    modifies out
    ensures out[..] == old(out[..at]) + LittleEndian(x) + old(out[at + 4 * |x|..])
  {
    hide LittleEndian, Le32;
    var i := 0;
    ghost var whole, done := out[..], LittleEndian(x[..0]);
    LittleEndianStep(x, 0);
    while i < |x|
      invariant i <= |x| && done == LittleEndian(x[..i]) && |done| == 4 * i
      invariant out[..] == whole[..at] + done + whole[at + |done|..]
    {
      LittleEndianStep(x, i);
      ghost var before := out[..];
      Blit(out, at + 4 * i, Le32(x[i]));
      Appended(whole, at, done, before, Le32(x[i]), out[..]);
      done := done + Le32(x[i]);
      i := i + 1;
    }
    assert x[..i] == x;
  }

  lemma LittleEndianStep(x: Words, i: nat)
    ensures i < |x| ==> LittleEndian(x[..i + 1]) == LittleEndian(x[..i]) + Le32(x[i])
    ensures LittleEndian(x[..0]) == []
  {
    if i < |x| {
      assert x[..i + 1][..i] == x[..i];
    }
  }

  method LoadMatrix(k: bytes, input: bytes) returns (x: array<Word>)
    requires |k| == 32 && |input| == 16
    ensures fresh(x) && x.Length == 16 && x[..] == Matrix(k, input)
  {
    hide WordAt;
    var m: Words := [SIGMA[0], WordAt(k, 0), WordAt(k, 4), WordAt(k, 8), WordAt(k, 12), SIGMA[1],
                     WordAt(input, 0), WordAt(input, 4), WordAt(input, 8), WordAt(input, 12),
                     SIGMA[2], WordAt(k, 16), WordAt(k, 20), WordAt(k, 24), WordAt(k, 28), SIGMA[3]];
    x := CopyWords(m);
  }

  method CopyWords(m: Words) returns (x: array<Word>)
    ensures fresh(x) && x[..] == m
  {
    x := new Word[|m|];
    var i := 0;
    while i < |m|
      invariant i <= |m| && x[..i] == m[..i]
    {
      x[i] := m[i];
      i := i + 1;
    }
  }

  method AddInput(x: array<Word>, input: Words)
    requires x.Length == |input|
    modifies x
    ensures x[..] == Sum(old(x[..]), input)
  {
    var i := 0;
    while i < |input|
      invariant i <= |input| && forall j :: i <= j < |input| ==> x[j] == old(x[j])
      invariant forall j :: 0 <= j < i ==> x[j] == Add(old(x[j]), input[j])
    {
      x[i] := Add(x[i], input[i]);
      i := i + 1;
    }
  }

  method SalsaBlock(out: array<byte>, at: nat, n: bytes, k: bytes, counter: nat)
    requires |k| == 32 && |n| == 8 && at + 64 <= out.Length
    modifies out
    ensures out[..] == old(out[..at]) + Block(k, n, counter) + old(out[at + 64..])
  {
    hide Matrix, Rounds, LittleEndian, Sum;
    var x := LoadMatrix(k, n + Le64(counter));
    var input := x[..];
    TwentyRounds(x);
    AddInput(x, input);
    StoreWords(out, at, x[..]);
  }

  method HSalsa20(input: bytes, k: bytes) returns (r: bytes)
    requires |k| == 32 && |input| == 16
    ensures r == HSalsa(k, input)
  {
    hide Matrix, Rounds, LittleEndian;
    var x := LoadMatrix(k, input);
    TwentyRounds(x);
    var out := new byte[32];
    StoreWords(out, 0, [x[0], x[5], x[10], x[15], x[6], x[7], x[8], x[9]]);
    r := out[..];
  }

  lemma StreamStep(k: bytes, n: bytes, counter: nat, len: nat, out: bytes)
    requires |k| == 32 && |n| == 8 && len >= 64
    ensures out + Stream(k, n, counter, len) == out + Block(k, n, counter) + Stream(k, n, (counter + 1) % TWO64, len - 64)
  {
    hide Block;
    var b, rest := Block(k, n, counter), Stream(k, n, (counter + 1) % TWO64, len - 64);
    assert out + (b + rest) == out + b + rest;
  }

  method PartialBlock(c: array<byte>, at: nat, len: nat, n: bytes, k: bytes, counter: nat)
    requires |k| == 32 && |n| == 8 && at + len <= c.Length && len <= 64
    modifies c
    ensures c[..] == old(c[..at]) + Block(k, n, counter)[..len] + old(c[at + len..])
  {
    hide Block;
    var block := new byte[64];
    SalsaBlock(block, 0, n, k, counter);
    assert block[..] == Block(k, n, counter);
    Blit(c, at, block[..len]);
  }

  lemma StreamEnds(k: bytes, n: bytes, counter: nat, len: nat)
    requires |k| == 32 && |n| == 8 && len < 64
    ensures Stream(k, n, counter, len) == Block(k, n, counter)[..len]
  {
  }

  /** Whole blocks straight into the output, the last piece through a buffer. */
  method StreamInto(c: array<byte>, at: nat, len: nat, n: bytes, k: bytes, start: nat)
    requires |k| == 32 && |n| == 8 && at + len <= c.Length && start < TWO64
    modifies c
    ensures c[..] == old(c[..at]) + Stream(k, n, start, len) + old(c[at + len..])
  {
    hide Block, Stream;
    ghost var whole, out := c[..], [];
    var counter, done;
    counter, done, out := WholeBlocks(c, at, len, n, k, start);
    StreamEnds(k, n, counter, len - done);
    if len > done {
      ghost var before := c[..];
      PartialBlock(c, at + done, len - done, n, k, counter);
      Appended(whole, at, out, before, Block(k, n, counter)[..len - done], c[..]);
    }
  }

  method WholeBlocks(c: array<byte>, at: nat, len: nat, n: bytes, k: bytes, start: nat)
    returns (counter: nat, done: nat, ghost out: bytes)
    requires |k| == 32 && |n| == 8 && at + len <= c.Length && start < TWO64
    modifies c
    ensures done <= len < done + 64 && counter < TWO64 && |out| == done
    ensures Stream(k, n, start, len) == out + Stream(k, n, counter, len - done)
    ensures c[..] == old(c[..])[..at] + out + old(c[..])[at + done..]
  {
    hide Block, Stream;
    counter, done := start, 0;
    ghost var whole := c[..];
    out := [];
    while len - done >= 64
      invariant done <= len && counter < TWO64 && |out| == done
      invariant Stream(k, n, start, len) == out + Stream(k, n, counter, len - done)
      invariant c[..] == whole[..at] + out + whole[at + |out|..]
    {
      ghost var b, before := Block(k, n, counter), c[..];
      StreamStep(k, n, counter, len - done, out);
      SalsaBlock(c, at + done, n, k, counter);
      Appended(whole, at, out, before, b, c[..]);
      out := out + b;
      done := done + 64;
      counter := (counter + 1) % TWO64;
    }
  }

  /** The message xored with the plain stream. */
  method XStreamXor(m: bytes, n: bytes, k: bytes) returns (c: bytes)
    requires |k| == 32 && |n| == 24
    ensures c == XorEach(m, XStream(k, n, |m|))
  {
    hide HSalsa, Stream;
    var subkey := HSalsa20(n[..16], k);
    var keystream := new byte[|m|];
    StreamInto(keystream, 0, |m|, n[16..], subkey, 0);
    assert keystream[..] == XStream(k, n, |m|);
    c := XorWith(m, keystream);
  }

  method XorWith(m: bytes, keystream: array<byte>) returns (c: bytes)
    requires keystream.Length == |m|
    ensures c == XorEach(m, keystream[..])
  {
    c := [];
    var i := 0;
    while i < |m|
      invariant i <= |m| && |c| == i && forall j :: 0 <= j < i ==> c[j] == Xor(m[j], keystream[j])
    {
      c := c + [Xor(m[i], keystream[i])];
      i := i + 1;
    }
  }

  /** Half of block 0, then the stream from block 1. */
  method Skip32(len: nat, n: bytes, subkey: bytes) returns (out: array<byte>)
    requires |subkey| == 32 && |n| == 24
    ensures fresh(out) && out[..] == Stream(subkey, n[16..], 0, 32 + len)[32..]
  {
    hide Stream, Block;
    out := new byte[len];
    if len < 32 {
      SkipShort(subkey, n[16..], len);
    } else {
      SkipLong(subkey, n[16..], len);
    }
    if len == 0 {
      return;
    }
    OneBlock(subkey, n[16..]);
    var half := SecondHalf(n[16..], subkey);
    var take := if len < 32 then len else 32;
    Blit(out, 0, half[..take]);
    if take < len {
      StreamInto(out, take, len - take, n[16..], subkey, 1);
    }
  }

  method SecondHalf(n: bytes, k: bytes) returns (half: bytes)
    requires |k| == 32 && |n| == 8
    ensures half == Stream(k, n, 0, 64)[32..]
  {
    hide Stream;
    var block0 := new byte[64];
    StreamInto(block0, 0, 64, n, k, 0);
    half := block0[32..];
  }

  lemma SkipShort(k: bytes, n: bytes, len: nat)
    requires |k| == 32 && |n| == 8 && len < 32
    ensures Stream(k, n, 0, 32 + len)[32..] == Block(k, n, 0)[32..][..len]
  {
    hide Block;
    var b := Block(k, n, 0);
    assert b[..32 + len][32..] == b[32..][..len];
  }

  lemma SkipLong(k: bytes, n: bytes, len: nat)
    requires |k| == 32 && |n| == 8 && len >= 32
    ensures Stream(k, n, 0, 32 + len)[32..] == Block(k, n, 0)[32..] + Stream(k, n, 1, len - 32)
  {
    hide Block;
    var b, rest := Block(k, n, 0), Stream(k, n, 1, len - 32);
    assert (b + rest)[32..] == b[32..] + rest;
  }

  lemma OneBlock(k: bytes, n: bytes)
    requires |k| == 32 && |n| == 8
    ensures Stream(k, n, 0, 64) == Block(k, n, 0) && Stream(k, n, 1, 0) == []
  {
    hide Block;
    assert Stream(k, n, 1, 0) == [];
  }

  // The box.

  datatype Curve = Curve(multiply: (bytes, bytes) -> Option<bytes>, publicOf: bytes -> bytes)    // secret key, public key
  datatype Mac = Mac(tag: (bytes, bytes) -> bytes)                                                // key, message

  /** Both sides compute the same secret, of 32 bytes; tags have sixteen. */
  ghost predicate LawfulCurve(v: Curve) {
    && (forall a, b :: v.multiply(a, v.publicOf(b)) == v.multiply(b, v.publicOf(a)))
    && (forall a, p :: v.multiply(a, p).Some? ==> |v.multiply(a, p).value| == 32)
  }

  ghost predicate LawfulMac(a: Mac) { forall k, m :: |a.tag(k, m)| == 16 }

  function BeforeNm(v: Curve, pk: bytes, sk: bytes): Option<bytes> {
    match v.multiply(sk, pk)
    case None => None
    case Some(s) => if |s| == 32 then Some(HSalsa(s, Zeros(16))) else None
  }

  /** The standard construction: the plain stream over thirty-two zeros and the message gives the authenticator's key
      and the ciphertext. */
  function SealedWhole(m: bytes, n: bytes, k: bytes): (r: bytes)
    requires |k| == 32 && |n| == 24
    ensures |r| == 32 + |m|
  {
    var whole := Zeros(32) + m;
    XorEach(whole, XStream(k, n, |whole|))
  }

  function Box(a: Mac, m: bytes, n: bytes, k: bytes): bytes
    requires |k| == 32 && |n| == 24
  {
    var whole := SealedWhole(m, n, k);
    a.tag(whole[..32], whole[32..]) + whole[32..]
  }

  function OpenBox(a: Mac, c: bytes, n: bytes, k: bytes): Option<bytes>
    requires |k| == 32 && |n| == 24
  {
    if |c| < 16 || c[..16] != a.tag(XStream(k, n, 32), c[16..]) then None
    else Some(XorEach(c[16..], XStream(k, n, |c| + 16)[32..]))
  }

  /** A longer stream starts with a shorter one. */
  lemma {:induction false} StreamPrefix(k: bytes, n: bytes, counter: nat, a: nat, b: nat)
    requires |k| == 32 && |n| == 8 && a <= b
    ensures Stream(k, n, counter, a) == Stream(k, n, counter, b)[..a]
    decreases a
  {
    hide Block;
    if a >= 64 {
      StreamPrefix(k, n, (counter + 1) % TWO64, a - 64, b - 64);
    }
  }

  lemma WholeParts(m: bytes, n: bytes, k: bytes)
    requires |k| == 32 && |n| == 24
    ensures SealedWhole(m, n, k)[..32] == XStream(k, n, 32)
    ensures SealedWhole(m, n, k)[32..] == XorEach(m, XStream(k, n, 32 + |m|)[32..])
  {
    hide Stream, HSalsa, Xor;
    StreamPrefix(HSalsa(k, n[..16]), n[16..], 0, 32, 32 + |m|);
    var r, ks := SealedWhole(m, n, k), XStream(k, n, 32 + |m|);
    forall i | 0 <= i < 32 ensures r[i] == ks[i] {
      XorZero(ks[i]);
    }
    assert r[..32] == ks[..32];
  }

  lemma XorZero(b: byte)
    ensures Xor(0, b) == b
  {
    Pow2Constants();
    XorBitsWithZero(b, 8);
  }

  /** A box opens to a message exactly when it is the box of that message. */
  lemma OpensIffBoxed(a: Mac, c: bytes, m: bytes, n: bytes, k: bytes)
    requires LawfulMac(a) && |k| == 32 && |n| == 24
    ensures OpenBox(a, c, n, k) == Some(m) <==> c == Box(a, m, n, k)
  {
    hide Stream, HSalsa, Xor;
    WholeParts(m, n, k);
    var ks := XStream(k, n, 32 + |m|)[32..];
    if c == Box(a, m, n, k) {
      assert c[16..] == SealedWhole(m, n, k)[32..];
      XorEachCancels(m, ks);
    }
    if OpenBox(a, c, n, k) == Some(m) {
      XorEachCancels(c[16..], ks);
      assert c == c[..16] + c[16..];
    }
  }

  /** What one side seals for the other, the other opens. */
  lemma BoxAgrees(v: Curve, a: Mac, m: bytes, n: bytes, ska: bytes, skb: bytes)
    requires LawfulCurve(v) && LawfulMac(a) && |n| == 24
    ensures BeforeNm(v, v.publicOf(skb), ska) == BeforeNm(v, v.publicOf(ska), skb)
    ensures BeforeNm(v, v.publicOf(skb), ska).Some? ==>
      var k := BeforeNm(v, v.publicOf(skb), ska).value;
      OpenBox(a, Box(a, m, n, k), n, BeforeNm(v, v.publicOf(ska), skb).value) == Some(m)
  {
    hide HSalsa, OpenBox, Box;
    var s := BeforeNm(v, v.publicOf(skb), ska);
    assert v.multiply(ska, v.publicOf(skb)) == v.multiply(skb, v.publicOf(ska));
    if s.Some? {
      OpensIffBoxed(a, Box(a, m, n, s.value), m, n, s.value);
    }
  }

  /** The split keystream in the code comes to the standard construction. */
  method BoxEasyAfterNm(a: Mac, c: array<byte>, m: bytes, n: bytes, k: bytes)
    requires LawfulMac(a) && |k| == 32 && |n| == 24 && c.Length == 16 + |m|
    modifies c
    ensures c[..] == Box(a, m, n, k)
  {
    hide Box, XStream, XorEach, LawfulMac;
    ZerosXored(XStream(k, n, 32));
    var polyKey := XStreamXor(Zeros(32), n, k);
    var ct := Mask(m, n, k);
    BoxParts(a, m, n, k);
    Blit(c, 16, ct);
    assert c[16..] == ct;
    var tag := a.tag(polyKey, c[16..]);
    Blit(c, 0, tag);
    assert c[..] == tag + ct;
  }

  /** A box is the authenticator and the ciphertext. */
  lemma BoxParts(a: Mac, m: bytes, n: bytes, k: bytes)
    requires LawfulMac(a) && |k| == 32 && |n| == 24
    ensures var ct := XorEach(m, XStream(k, n, 32 + |m|)[32..]);
            var tag := a.tag(XStream(k, n, 32), ct);
            |tag| == 16 && Box(a, m, n, k) == tag + ct
  {
    hide XStream, XorEach;
    WholeParts(m, n, k);
  }

  lemma ZerosXored(s: bytes)
    ensures XorEach(Zeros(|s|), s) == s
  {
    hide Xor;
    forall i | 0 <= i < |s| ensures XorEach(Zeros(|s|), s)[i] == s[i] {
      XorZero(s[i]);
    }
  }

  /** The message under the keystream that skips the authenticator's key. */
  method Mask(m: bytes, n: bytes, k: bytes) returns (c: bytes)
    requires |k| == 32 && |n| == 24
    ensures c == XorEach(m, XStream(k, n, 32 + |m|)[32..])
  {
    hide Stream, HSalsa;
    var subkey := HSalsa20(n[..16], k);
    c := [];
    if |m| > 0 {
      var keystream := Skip32(|m|, n, subkey);
      c := XorWith(m, keystream);
    }
  }

  method BoxOpenEasyAfterNm(a: Mac, c: bytes, n: bytes, k: bytes) returns (ok: bool, m: bytes)
    requires LawfulMac(a) && |k| == 32 && |n| == 24
    ensures OpenBox(a, c, n, k) == if ok then Some(m) else None
  {
    hide Stream, HSalsa, XStream;
    if |c| < 16 {
      return false, [];
    }
    ZerosXored(XStream(k, n, 32));
    var polyKey := XStreamXor(Zeros(32), n, k);
    if a.tag(polyKey, c[16..]) != c[..16] {
      return false, [];
    }
    m := Mask(c[16..], n, k);
    ok := true;
  }

  method BoxEasy(v: Curve, a: Mac, c: array<byte>, m: bytes, n: bytes, pk: bytes, sk: bytes) returns (ok: bool)
    requires LawfulCurve(v) && LawfulMac(a) && |n| == 24 && c.Length == 16 + |m|
    modifies c
    ensures match BeforeNm(v, pk, sk)
            case None => !ok && c[..] == old(c[..])
            case Some(k) => ok && c[..] == Box(a, m, n, k)
  {
    hide HSalsa, Box;
    var shared := v.multiply(sk, pk);
    if shared.None? {
      return false;
    }
    var k := HSalsa20(Zeros(16), shared.value);
    BoxEasyAfterNm(a, c, m, n, k);
    return true;
  }

  method BoxOpenEasy(v: Curve, a: Mac, c: bytes, n: bytes, pk: bytes, sk: bytes) returns (ok: bool, m: bytes)
    requires LawfulCurve(v) && LawfulMac(a) && |n| == 24
    ensures match BeforeNm(v, pk, sk)
            case None => !ok
            case Some(k) => OpenBox(a, c, n, k) == if ok then Some(m) else None
  {
    hide HSalsa, OpenBox;
    var shared := v.multiply(sk, pk);
    if shared.None? {
      return false, [];
    }
    var k := HSalsa20(Zeros(16), shared.value);
    ok, m := BoxOpenEasyAfterNm(a, c, n, k);
  }
}
