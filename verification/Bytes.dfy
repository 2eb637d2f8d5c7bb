/** Bytes as bounded integers, exclusive-or, and the big- and little-endian
    integer layouts used on the wire. */
module Bytes {

  type byte = x: int | 0 <= x < 256
  type bytes = seq<byte>

  datatype Option<+T> = None | Some(value: T)

  const TWO16: nat := 0x1_0000
  const TWO24: nat := 0x100_0000
  const TWO32: nat := 0x1_0000_0000
  const TWO64: nat := 0x1_0000_0000_0000_0000

  function Min(a: nat, b: nat): nat { if a <= b then a else b }

  function Pow2(n: nat): nat { if n == 0 then 1 else 2 * Pow2(n - 1) }

  /** Exclusive-or of the low `width` bits of a and b. */
  function XorBits(a: nat, b: nat, width: nat): (r: nat)
    ensures r < Pow2(width)
  {
    if width == 0 then 0
    else (if a % 2 == b % 2 then 0 else 1) + 2 * XorBits(a / 2, b / 2, width - 1)
  }

  lemma {:induction false} XorBitsAssociates(a: nat, b: nat, c: nat, width: nat)
    ensures XorBits(XorBits(a, b, width), c, width) == XorBits(a, XorBits(b, c, width), width)
  {
    if width > 0 {
      XorBitsAssociates(a / 2, b / 2, c / 2, width - 1);
      XorBitsHalves(a, b, width);
      XorBitsHalves(b, c, width);
    }
  }

  lemma XorBitsHalves(a: nat, b: nat, width: nat)
    requires width > 0
    ensures XorBits(a, b, width) / 2 == XorBits(a / 2, b / 2, width - 1)
    ensures XorBits(a, b, width) % 2 == if a % 2 == b % 2 then 0 else 1
  {
  }

  lemma {:induction false} XorBitsWithZero(a: nat, width: nat)
    requires a < Pow2(width)
    ensures XorBits(a, 0, width) == a && XorBits(0, a, width) == a
  {
    if width > 0 {
      XorBitsWithZero(a / 2, width - 1);
    }
  }

  lemma {:induction false} XorBitsWithSelf(a: nat, width: nat)
    ensures XorBits(a, a, width) == 0
  {
    if width > 0 {
      XorBitsWithSelf(a / 2, width - 1);
    }
  }

  lemma Pow2Constants()
    ensures Pow2(8) == 256 && Pow2(32) == TWO32
  {
    assert Pow2(4) == 16;
    assert Pow2(8) == 256;
    assert Pow2(12) == 4096;
    assert Pow2(16) == TWO16;
    assert Pow2(20) == 16 * TWO16;
    assert Pow2(24) == TWO24;
    assert Pow2(28) == 16 * TWO24;
  }

  function Xor(a: byte, b: byte): byte {
    Pow2Constants();
    XorBits(a, b, 8)
  }

  lemma XorCancels(a: byte, b: byte)
    ensures Xor(Xor(a, b), b) == a
  {
    Pow2Constants();
    XorBitsAssociates(a, b, b, 8);
    XorBitsWithSelf(b, 8);
    XorBitsWithZero(a, 8);
  }

  lemma XorAssociates(a: byte, b: byte, c: byte)
    ensures Xor(Xor(a, b), c) == Xor(a, Xor(b, c))
  {
    XorBitsAssociates(a, b, c, 8);
  }

  function XorEach(a: bytes, b: bytes): (r: bytes)
    requires |a| <= |b|
    ensures |r| == |a|
    ensures forall i :: 0 <= i < |a| ==> r[i] == Xor(a[i], b[i])
  {
    seq(|a|, i requires 0 <= i < |a| => Xor(a[i], b[i]))
  }

  lemma XorEachCancels(a: bytes, b: bytes)
    requires |a| <= |b|
    ensures XorEach(XorEach(a, b), b) == a
  {
    forall i | 0 <= i < |a| ensures XorEach(XorEach(a, b), b)[i] == a[i] {
      XorCancels(a[i], b[i]);
    }
  }

  function Zeros(n: nat): (r: bytes)
    ensures |r| == n && forall i :: 0 <= i < n ==> r[i] == 0
  {
    seq(n, _ => 0)
  }

  predicate IsZero(b: bytes) { forall i :: 0 <= i < |b| ==> b[i] == 0 }

  function Concat<T>(parts: seq<seq<T>>): seq<T> {
    if parts == [] then [] else parts[0] + Concat(parts[1..])
  }

  lemma ConcatHead<T>(parts: seq<seq<T>>)
    requires parts != []
    ensures parts[0] <= Concat(parts)
  {
  }

  lemma {:induction false} ConcatSplits<T>(a: seq<seq<T>>, b: seq<seq<T>>)
    ensures Concat(a + b) == Concat(a) + Concat(b)
  {
    hide Concat;
    if a == [] {
      ConcatNothing<T>();
      assert a + b == b;
    } else {
      ConcatUnfolds(a);
      ConcatUnfolds(a + b);
      ConcatSplits(a[1..], b);
      assert (a + b)[1..] == a[1..] + b;
    }
  }

  lemma ConcatNothing<T>()
    ensures Concat<T>([]) == []
  {
  }

  lemma ConcatUnfolds<T>(parts: seq<seq<T>>)
    requires parts != []
    ensures Concat(parts) == parts[0] + Concat(parts[1..])
  {
  }

  lemma ConcatLast<T>(parts: seq<seq<T>>, last: seq<T>)
    ensures Concat(parts + [last]) == Concat(parts) + last
  {
    assert Concat([last]) == last;
    hide Concat;
    ConcatSplits(parts, [last]);
  }

  /** The parts up to one, and that one. */
  lemma ConcatTakes<T>(parts: seq<seq<T>>, i: nat)
    requires i < |parts|
    ensures Concat(parts[..i + 1]) == Concat(parts[..i]) + parts[i] && Concat(parts[..i + 1]) <= Concat(parts)
  {
    hide Concat;
    ConcatLast(parts[..i], parts[i]);
    assert parts[..i + 1] == parts[..i] + [parts[i]];
    ConcatSplits(parts[..i + 1], parts[i + 1..]);
    assert parts == parts[..i + 1] + parts[i + 1..];
  }

  // Integer layouts.  Values too wide for the field are truncated, as the casts do.

  function Be16(n: nat): (r: bytes) ensures |r| == 2 { [n / 256 % 256, n % 256] }
  function Be24(n: nat): (r: bytes) ensures |r| == 3 { [n / TWO16 % 256, n / 256 % 256, n % 256] }
  function Be32(n: nat): (r: bytes) ensures |r| == 4 { [n / TWO24 % 256, n / TWO16 % 256, n / 256 % 256, n % 256] }
  function Le32(n: nat): (r: bytes) ensures |r| == 4 { [n % 256, n / 256 % 256, n / TWO16 % 256, n / TWO24 % 256] }

  function FromBe(b: bytes): nat { if b == [] then 0 else FromBe(b[..|b| - 1]) * 256 + b[|b| - 1] as nat }

  function FromBe16(b: bytes): (n: nat) requires |b| >= 2 ensures n < TWO16 { b[0] as nat * 256 + b[1] as nat }
  function FromBe24(b: bytes): (n: nat) requires |b| >= 3 ensures n < TWO24 { b[0] as nat * TWO16 + b[1] as nat * 256 + b[2] as nat }
  function FromBe32(b: bytes): (n: nat) requires |b| >= 4 ensures n < TWO32 {
    b[0] as nat * TWO24 + b[1] as nat * TWO16 + b[2] as nat * 256 + b[3] as nat
  }
  function FromLe32(b: bytes): (n: nat) requires |b| >= 4 ensures n < TWO32 {
    b[0] as nat + b[1] as nat * 256 + b[2] as nat * TWO16 + b[3] as nat * TWO24
  }

  lemma Be16RoundTrip(n: nat) requires n < TWO16 ensures FromBe16(Be16(n)) == n {}
  lemma Be24RoundTrip(n: nat) requires n < TWO24 ensures FromBe24(Be24(n)) == n {}
  lemma Be32RoundTrip(n: nat)
    requires n < TWO32
    ensures FromBe32(Be32(n)) == n
  {
    assert n / 256 / 256 == n / TWO16 && n / TWO16 / 256 == n / TWO24 && n / TWO24 < 256;
  }

  /** The readers look only at the front of what they are given. */
  lemma FrontReads(b: bytes, front: bytes)
    requires front <= b
    ensures |front| == 2 ==> FromBe16(b) == FromBe16(front)
    ensures |front| == 3 ==> FromBe24(b) == FromBe24(front)
    ensures |front| == 4 ==> FromBe32(b) == FromBe32(front)
  {
    assert forall i :: 0 <= i < |front| ==> b[i] == front[i];
  }

  lemma WindowFront(d: bytes, at: nat, len: nat, size: nat)
    requires len <= size && at + size <= |d|
    ensures d[at..at + len] == d[at..at + size][..len]
  {
  }

  /** One piece more, between what stays in front and what stays behind. */
  lemma Appended(whole: bytes, at: nat, done: bytes, before: bytes, piece: bytes, after: bytes)
    requires at + |done| + |piece| <= |whole| && before == whole[..at] + done + whole[at + |done|..]
    requires after == before[..at + |done|] + piece + before[at + |done| + |piece|..]
    ensures after == whole[..at] + (done + piece) + whole[at + |done + piece|..]
  {
  }

  /** Copies src into data at the given offset (memcpy); the rest of the array keeps its contents. */
  method Blit(data: array<byte>, at: nat, src: bytes)
    requires at + |src| <= data.Length
    modifies data
    ensures data[..] == old(data[..at]) + src + old(data[at + |src|..])
  {
    forall i | 0 <= i < |src| {
      data[at + i] := src[i];
    }
    assert data[..at] == old(data[..at]);
    assert data[at..at + |src|] == src;
    assert data[at + |src|..] == old(data[at + |src|..]);
    assert data[..] == data[..at] + data[at..at + |src|] + data[at + |src|..];
  }
}
