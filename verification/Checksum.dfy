/** The Internet checksum and the TCP/IP packets of components/tailscale/tailscale.cpp, against section 1 of RFC 1071. */
module Checksum {
  import opened Bytes

  // Sums.

  /** Sixteen-bit big-endian words, an odd last byte padded with zero. */
  function Sum16(b: bytes): nat {
    if b == [] then 0
    else if |b| == 1 then b[0] as nat * 256
    else b[0] as nat * 256 + b[1] as nat + Sum16(b[2..])
  }

  /** Carries added back in until none are left. */
  function Fold(sum: nat): (r: nat)
    ensures r < TWO16
  {
    if sum < TWO16 then sum else Fold(sum % TWO16 + sum / TWO16)
  }

  const ONES: nat := 0xFFFF

  /** Folding is the sum modulo 65535, except that only zero folds to zero. */
  lemma {:induction false} FoldIs(sum: nat)
    ensures Fold(sum) == if sum == 0 then 0 else (sum - 1) % ONES + 1
  {
    if sum >= TWO16 {
      var hi, lo := sum / TWO16, sum % TWO16;
      FoldIs(lo + hi);
      SameResidue(hi, lo);
    }
  }

  lemma SameResidue(hi: nat, lo: nat)
    requires lo + hi > 0
    ensures (hi * TWO16 + lo - 1) % ONES == (lo + hi - 1) % ONES
  {
    Residue(hi, lo + hi - 1);
  }

  lemma {:induction false} Residue(k: nat, x: nat)
    ensures (k * ONES + x) % ONES == x % ONES
  {
    if k > 0 {
      Residue(k - 1, x);
      assert (k * ONES + x) == ((k - 1) * ONES + x) + ONES;
      assert ((k - 1) * ONES + x + ONES) % ONES == ((k - 1) * ONES + x) % ONES;
    }
  }

  function Complement(sum: nat): (r: nat)
    ensures r < TWO16
  {
    ONES - Fold(sum)
  }

  /** With its own complement added a sum folds to all ones. */
  lemma ComplementVerifies(sum: nat)
    ensures Fold(sum + Complement(sum)) == ONES
  {
    FoldIs(sum);
    FoldIs(sum + Complement(sum));
    if sum > 0 {
      var q := (sum - 1) / ONES;
      assert sum - 1 == q * ONES + (sum - 1) % ONES;
      assert sum + Complement(sum) - 1 == q * ONES + (ONES - 1);
      Residue(q, ONES - 1);
    }
  }

  lemma {:induction false} SumSplits(a: bytes, b: bytes)
    requires |a| % 2 == 0
    ensures Sum16(a + b) == Sum16(a) + Sum16(b)
    decreases |a|
  {
    if a == [] {
      assert a + b == b;
    } else {
      assert (a + b)[2..] == a[2..] + b;
      SumSplits(a[2..], b);
    }
  }

  /** A word stored over zeros at an even place adds itself to the sum. */
  lemma StoredAdds(b: bytes, at: nat, word: nat)
    requires at % 2 == 0 && at + 2 <= |b| && b[at] == 0 && b[at + 1] == 0 && word < TWO16
    ensures Sum16(b[..at] + Be16(word) + b[at + 2..]) == Sum16(b) + word
  {
    hide Sum16, Be16;
    Be16RoundTrip(word);
    var rest := b[at + 2..];
    var stored := b[..at] + Be16(word) + rest;
    assert stored == b[..at] + (Be16(word) + rest) && b == b[..at] + b[at..];
    SumSplits(b[..at], Be16(word) + rest);
    SumSplits(b[..at], b[at..]);
    FirstWord(b, at);
    FirstWord(stored, at);
    assert stored[at..] == Be16(word) + rest && stored[at + 2..] == rest;
  }

  // The two checksum functions.  Their accumulators have 32 bits.

  /** An addition in thirty-two bits that has room. */
  method Accumulate(sum: nat, n: nat) returns (r: nat)
    requires sum + n < TWO32
    ensures r == sum + n
  {
    r := (sum + n) % TWO32;
  }

  method FoldWords(start: nat) returns (sum: nat)
    ensures sum == Fold(start)
  {
    sum := start;
    while sum / TWO16 != 0
      invariant Fold(sum) == Fold(start)
      decreases sum
    {
      sum := sum % TWO16 + sum / TWO16;
    }
  }

  lemma NothingToSum(b: bytes)
    requires b == []
    ensures Sum16(b) == 0
  {
  }

  /** For the even header lengths that IP has. */
  method CalculateIpChecksum(header: bytes) returns (checksum: nat)
    requires |header| % 2 == 0 && |header| <= 60
    ensures checksum == Complement(Sum16(header))
  {
    var sum := SumHeader(header);
    sum := FoldWords(sum);
    return ONES - sum;
  }

  method SumHeader(header: bytes) returns (sum: nat)
    requires |header| % 2 == 0 && |header| <= 60
    ensures sum == Sum16(header)
  {
    hide Sum16;
    assert header[0..] == header;
    var i: nat := 0;
    sum := 0;
    while i < |header|
      invariant i <= |header| && i % 2 == 0 && sum + Sum16(header[i..]) == Sum16(header)
      invariant sum <= i * ONES
    {
      FirstWord(header, i);
      sum := Accumulate(sum, header[i] as nat * 256 + header[i + 1] as nat);
      i := i + 2;
    }
    NothingToSum(header[i..]);
  }

  /** Addresses, protocol and length. */
  function PseudoSum(ip: bytes, tcpLen: nat): nat
    requires |ip| >= 20
  {
    Sum16(ip[12..20]) + 6 + tcpLen
  }

  /** Section 3.1 of RFC 793: the words of a header of both addresses, a zero, the protocol 6 and the length. */
  lemma PseudoIs(ip: bytes, tcpLen: nat)
    requires |ip| >= 20 && tcpLen < TWO16
    ensures PseudoSum(ip, tcpLen) == Sum16(ip[12..20] + [0, 6, tcpLen / 256, tcpLen % 256])
  {
    Sum16Joins(ip[12..20], [0, 6, tcpLen / 256, tcpLen % 256]);
    var tail: bytes := [0, 6, tcpLen / 256, tcpLen % 256];
    var rest := tail[2..];
    assert rest == [tcpLen / 256, tcpLen % 256] && rest[2..] == [];
    assert Sum16(rest) == tcpLen + Sum16([]);
  }

  lemma {:induction false} Sum16Joins(a: bytes, b: bytes)
    requires |a| % 2 == 0
    ensures Sum16(a + b) == Sum16(a) + Sum16(b)
    decreases |a|
  {
    if a == [] {
      assert a + b == b;
    } else {
      assert (a + b)[2..] == a[2..] + b;
      Sum16Joins(a[2..], b);
    }
  }

  lemma FirstWord(b: bytes, i: nat)
    requires i + 2 <= |b|
    ensures Sum16(b[i..]) == b[i] as nat * 256 + b[i + 1] as nat + Sum16(b[i + 2..])
  {
    assert b[i..][2..] == b[i + 2..];
  }

  lemma AddressWords(b: bytes)
    requires |b| == 8
    ensures Sum16(b) == b[0] as nat * 256 + b[1] as nat + (b[2] as nat * 256 + b[3] as nat)
                        + (b[4] as nat * 256 + b[5] as nat) + (b[6] as nat * 256 + b[7] as nat)
  {
    assert b[0..] == b && b[8..] == [];
    FirstWord(b, 0);
    FirstWord(b, 2);
    FirstWord(b, 4);
    FirstWord(b, 6);
  }

  method CalculateTcpChecksum(ip: bytes, tcp: bytes) returns (checksum: nat)
    requires |ip| >= 20 && |tcp| < TWO16
    ensures checksum == Complement(PseudoSum(ip, |tcp|) + Sum16(tcp))
  {
    var sum := PseudoHeader(ip, |tcp|);
    sum := SumWords(sum, tcp);
    sum := FoldWords(sum);
    return ONES - sum;
  }

  method PseudoHeader(ip: bytes, tcpLen: nat) returns (sum: nat)
    requires |ip| >= 20 && tcpLen < TWO16
    ensures sum == PseudoSum(ip, tcpLen) < 8 * TWO16
  {
    hide Sum16;
    AddressWords(ip[12..20]);
    sum := 0;
    sum := Accumulate(sum, ip[12] as nat * 256 + ip[13] as nat);
    sum := Accumulate(sum, ip[14] as nat * 256 + ip[15] as nat);
    sum := Accumulate(sum, ip[16] as nat * 256 + ip[17] as nat);
    sum := Accumulate(sum, ip[18] as nat * 256 + ip[19] as nat);
    sum := Accumulate(sum, 6);
    sum := Accumulate(sum, tcpLen);
  }

  /** Adds the words of a segment; thirty-two bits are enough for any that IP can carry. */
  method SumWords(start: nat, tcp: bytes) returns (sum: nat)
    requires start < 8 * TWO16 && |tcp| < TWO16
    ensures sum == start + Sum16(tcp)
  {
    sum := start;
    var i := 0;
    while i < |tcp|
      invariant i <= |tcp| + 1 && (i % 2 == 0) && (i > |tcp| ==> sum == start + Sum16(tcp))
      invariant i <= |tcp| ==> sum + Sum16(tcp[i..]) == start + Sum16(tcp)
      invariant sum <= start + i / 2 * ONES
      decreases |tcp| - i
    {
      if i + 1 < |tcp| {
        FirstWord(tcp, i);
        sum := Accumulate(sum, tcp[i] as nat * 256 + tcp[i + 1] as nat);
      } else {
        sum := Accumulate(sum, tcp[i] as nat * 256);
      }
      i := i + 2;
    }
    assert i == |tcp| ==> tcp[i..] == [];
  }

  // Packets.

  datatype Segment = Segment(srcPort: nat, dstPort: nat, seqNo: nat, ackNo: nat, flags: byte, payload: bytes)

  predicate GoodSegment(g: Segment) {
    g.srcPort < TWO16 && g.dstPort < TWO16 && g.seqNo < TWO32 && g.ackNo < TWO32 && |g.payload| <= 1500 - 40
  }

  /** Version, length, identification, no fragments, lifetime, protocol, checksum and addresses. */
  function IpHeader(total: nat, checksum: nat, ours: bytes, theirs: bytes): (r: bytes)
    requires |ours| == 4 && |theirs| == 4
    ensures |r| == 20
  {
    [0x45, 0] + Be16(total) + [0, 0, 0x40, 0, 64, 6] + Be16(checksum) + ours + theirs
  }

  function TcpHeader(g: Segment, checksum: nat): (r: bytes)
    ensures |r| == 20
  {
    Be16(g.srcPort) + Be16(g.dstPort) + Be32(g.seqNo) + Be32(g.ackNo) + [0x50, g.flags, 0x20, 0] + Be16(checksum) + [0, 0]
  }

  /** The packet with both checksums in place. */
  function Packet(ours: bytes, theirs: bytes, g: Segment): bytes
    requires |ours| == 4 && |theirs| == 4
  {
    var bare := IpHeader(40 + |g.payload|, 0, ours, theirs);
    var tcp := TcpHeader(g, 0) + g.payload;
    IpHeader(40 + |g.payload|, Complement(Sum16(bare)), ours, theirs)
    + (TcpHeader(g, Complement(PseudoSum(bare, |tcp|) + Sum16(tcp))) + g.payload)
  }

  /** Both checks of the receiver: each sum, its checksum included, folds to all ones. */
  lemma PacketVerifies(ours: bytes, theirs: bytes, g: Segment)
    requires |ours| == 4 && |theirs| == 4
    ensures var p := Packet(ours, theirs, g);
            && Fold(Sum16(p[..20])) == ONES
            && Fold(PseudoSum(p[..20], |p| - 20) + Sum16(p[20..])) == ONES
  {
    hide Complement, Sum16, PseudoSum, Fold, IpHeader, TcpHeader;
    var total := 40 + |g.payload|;
    var bare, tcp := IpHeader(total, 0, ours, theirs), TcpHeader(g, 0) + g.payload;
    var p := Packet(ours, theirs, g);
    var c, d := Complement(Sum16(bare)), Complement(PseudoSum(bare, |tcp|) + Sum16(tcp));
    assert p[..20] == IpHeader(total, c, ours, theirs) && p[20..] == TcpHeader(g, d) + g.payload;
    IpHeaderWith(total, c, ours, theirs);
    StoredAdds(bare, 10, c);
    ComplementVerifies(Sum16(bare));
    PseudoSame(total, c, ours, theirs, |tcp|);
    TcpHeaderWith(g, d);
    StoredAdds(tcp, 16, d);
    ComplementVerifies(PseudoSum(bare, |tcp|) + Sum16(tcp));
  }

  /** What a router reads: version 4 and a header of five words, the length, TCP, the sender's address and the receiver's. */
  lemma PacketRoutes(ours: bytes, theirs: bytes, g: Segment)
    requires |ours| == 4 && |theirs| == 4 && |g.payload| <= 1500 - 40
    ensures var p := Packet(ours, theirs, g);
            && |p| == 40 + |g.payload| && p[0] == 0x45 && 256 * p[2] as nat + p[3] as nat == |p| && p[9] == 6 && p[8] == 64
            && p[12..16] == ours && p[16..20] == theirs
  {
    hide Complement, Sum16, PseudoSum, TcpHeader;
    var bare, tcp := IpHeader(40 + |g.payload|, 0, ours, theirs), TcpHeader(g, 0) + g.payload;
    var c := Complement(Sum16(bare));
    IpHeaderReads(40 + |g.payload|, c, ours, theirs);
    var p := Packet(ours, theirs, g);
    assert p[..20] == IpHeader(40 + |g.payload|, c, ours, theirs);
    assert p[12..16] == p[..20][12..16] && p[16..20] == p[..20][16..20];
    assert forall i :: 0 <= i < 20 ==> p[i] == p[..20][i];
  }

  lemma IpHeaderReads(total: nat, checksum: nat, ours: bytes, theirs: bytes)
    requires |ours| == 4 && |theirs| == 4 && total < TWO16
    ensures var h := IpHeader(total, checksum, ours, theirs);
            && h[0] == 0x45 && 256 * h[2] as nat + h[3] as nat == total && h[8] == 64 && h[9] == 6
            && h[12..16] == ours && h[16..20] == theirs
  {
  }

  // The receiver's parse.

  datatype Parsed = Parsed(srcIp: nat, segment: Segment)

  /** Nothing when the packet is too small for its headers, or when its length fields do not add up. */
  function Parse(p: bytes): Option<Parsed> {
    if |p| == 0 then None
    else
      var ihl := p[0] as nat % 16 * 4;
      if |p| < ihl + 20 || |p| < 20 then None
      else
        var tcp := p[ihl..];
        var offset := tcp[12] as nat / 16 * 4;
        var total := FromBe16(p[2..]);
        if total < ihl + offset || |p| < total then None
        else Some(Parsed(FromBe32(p[12..]), Segment(FromBe16(tcp), FromBe16(tcp[2..]), FromBe32(tcp[4..]), FromBe32(tcp[8..]),
                                                    tcp[13], tcp[offset..total - ihl])))
  }

  /** What was sent is what is read: ports, numbers, flags and payload, whatever padding follows. */
  lemma ParseRecovers(ours: bytes, theirs: bytes, g: Segment, padding: bytes)
    requires |ours| == 4 && |theirs| == 4 && GoodSegment(g)
    ensures Parse(Packet(ours, theirs, g) + padding) == Some(Parsed(FromBe32(ours), g))
  {
    hide Complement, Sum16, PseudoSum, Be16, Be32, FromBe16, FromBe32, IpHeader, TcpHeader;
    var total := 40 + |g.payload|;
    var bare, bareTcp := IpHeader(total, 0, ours, theirs), TcpHeader(g, 0) + g.payload;
    var c, d := Complement(Sum16(bare)), Complement(PseudoSum(bare, |bareTcp|) + Sum16(bareTcp));
    var ip, tcp := IpHeader(total, c, ours, theirs), TcpHeader(g, d) + g.payload;
    var q := Packet(ours, theirs, g) + padding;
    IpParses(total, c, ours, theirs, tcp + padding);
    assert q == ip + (tcp + padding);
    TcpFront(g, d);
    TcpParses(g, tcp, padding);
    assert q[20..] == tcp + padding;
  }

  lemma IpParses(total: nat, checksum: nat, ours: bytes, theirs: bytes, rest: bytes)
    requires |ours| == 4 && |theirs| == 4 && total < TWO16
    ensures var q := IpHeader(total, checksum, ours, theirs) + rest;
            q[0] == 0x45 && FromBe16(q[2..]) == total && FromBe32(q[12..]) == FromBe32(ours)
  {
    hide Be16, FromBe16, FromBe32;
    var q := IpHeader(total, checksum, ours, theirs) + rest;
    Be16RoundTrip(total);
    assert q[2..][..2] == Be16(total) && q[12..][..4] == ours;
    FrontReads(q[2..], Be16(total));
    FrontReads(q[12..], ours);
  }

  /** The checksum comes after everything the receiver reads. */
  lemma TcpFront(g: Segment, checksum: nat)
    ensures TcpHeader(g, checksum)[..16] == TcpHeader(g, 0)[..16]
  {
  }

  lemma TcpParses(g: Segment, tcp: bytes, padding: bytes)
    requires GoodSegment(g) && |tcp| == 20 + |g.payload| && tcp[..16] == TcpHeader(g, 0)[..16] && tcp[20..] == g.payload
    ensures var t := tcp + padding;
            && FromBe16(t) == g.srcPort && FromBe16(t[2..]) == g.dstPort && FromBe32(t[4..]) == g.seqNo
            && FromBe32(t[8..]) == g.ackNo && t[12] == 0x50 && t[13] == g.flags && t[20..20 + |g.payload|] == g.payload
  {
    hide Be16, Be32, FromBe16, FromBe32, TcpHeader;
    var t, h := tcp + padding, TcpHeader(g, 0);
    TcpFields(g);
    assert t[..16] == h[..16];
    SamePart(t, h, 16, 0, 2);
    SamePart(t, h, 16, 2, 4);
    SamePart(t, h, 16, 4, 8);
    SamePart(t, h, 16, 8, 12);
    Be16RoundTrip(g.srcPort);
    Be16RoundTrip(g.dstPort);
    Be32RoundTrip(g.seqNo);
    Be32RoundTrip(g.ackNo);
    assert t == t[0..];
    FieldReads(t, 0, Be16(g.srcPort));
    FieldReads(t, 2, Be16(g.dstPort));
    FieldReads(t, 4, Be32(g.seqNo));
    FieldReads(t, 8, Be32(g.ackNo));
    assert t[12] == t[..16][12] && t[13] == t[..16][13] && h[12] == h[..16][12] && h[13] == h[..16][13];
  }

  lemma TcpFields(g: Segment)
    ensures var h := TcpHeader(g, 0);
            && h[0..2] == Be16(g.srcPort) && h[2..4] == Be16(g.dstPort) && h[4..8] == Be32(g.seqNo)
            && h[8..12] == Be32(g.ackNo) && h[12] == 0x50 && h[13] == g.flags
  {
    hide Be16, Be32;
  }

  lemma SamePart(a: bytes, b: bytes, n: nat, from: nat, to: nat)
    requires from <= to <= n <= |a| && n <= |b| && a[..n] == b[..n]
    ensures a[from..to] == b[from..to]
  {
    assert a[from..to] == a[..n][from..to] && b[from..to] == b[..n][from..to];
  }

  lemma FieldReads(b: bytes, at: nat, field: bytes)
    requires at + |field| <= |b| && b[at..at + |field|] == field
    ensures |field| == 2 ==> FromBe16(b[at..]) == FromBe16(field)
    ensures |field| == 4 ==> FromBe32(b[at..]) == FromBe32(field)
  {
    hide FromBe16, FromBe32;
    assert b[at..][..|field|] == b[at..at + |field|];
    FrontReads(b[at..], field);
  }

  // Building a packet in a buffer.

  const PACKET_ROOM: nat := 1500

  method Put(packet: array<byte>, at: nat, src: bytes)
    requires at + |src| <= packet.Length
    modifies packet
    ensures forall i :: 0 <= i < |src| ==> packet[at + i] == src[i]
    ensures forall i :: 0 <= i < at || at + |src| <= i < packet.Length ==> packet[i] == old(packet[i])
  {
    forall i | 0 <= i < |src| {
      packet[at + i] := src[i];
    }
  }

  method StoreIp(packet: array<byte>, total: nat, ours: bytes, theirs: bytes)
    requires packet.Length == PACKET_ROOM && |ours| == 4 && |theirs| == 4
    requires forall i :: 0 <= i < 20 ==> packet[i] == 0
    modifies packet
    ensures packet[..20] == IpHeader(total, 0, ours, theirs)
    ensures forall i :: 20 <= i < packet.Length ==> packet[i] == old(packet[i])
  {
    hide Be16;
    Put(packet, 0, [0x45, 0] + Be16(total) + [0, 0, 0x40, 0, 64, 6]);
    Put(packet, 12, ours);
    Put(packet, 16, theirs);
    BeZero();
    assert packet[..20] == [0x45, 0] + Be16(total) + [0, 0, 0x40, 0, 64, 6] + [0, 0] + ours + theirs;
  }

  lemma BeZero()
    ensures Be16(0) == [0, 0]
  {
  }

  method StoreTcp(packet: array<byte>, g: Segment)
    requires packet.Length == PACKET_ROOM && |g.payload| <= PACKET_ROOM - 40
    requires forall i :: 36 <= i < 40 ==> packet[i] == 0
    modifies packet
    ensures packet[20..40 + |g.payload|] == TcpHeader(g, 0) + g.payload
    ensures forall i :: 0 <= i < 20 ==> packet[i] == old(packet[i])
  {
    hide Be16, Be32;
    var front := Be16(g.srcPort) + Be16(g.dstPort) + Be32(g.seqNo) + Be32(g.ackNo) + [0x50, g.flags, 0x20, 0];
    Put(packet, 20, front);
    Put(packet, 40, g.payload);
    BeZero();
    assert TcpHeader(g, 0) == front + [0, 0, 0, 0];
    ghost var all := packet[20..40 + |g.payload|];
    assert forall i :: 0 <= i < 16 ==> all[i] == front[i];
    assert all == front + [0, 0, 0, 0] + g.payload;
  }

  lemma IpHeaderWith(total: nat, c: nat, ours: bytes, theirs: bytes)
    requires |ours| == 4 && |theirs| == 4
    ensures IpHeader(total, c, ours, theirs) == IpHeader(total, 0, ours, theirs)[..10] + Be16(c) + IpHeader(total, 0, ours, theirs)[12..]
    ensures IpHeader(total, c, ours, theirs)[12..20] == IpHeader(total, 0, ours, theirs)[12..20]
    ensures IpHeader(total, 0, ours, theirs)[10] == 0 && IpHeader(total, 0, ours, theirs)[11] == 0
  {
    BeZero();
    hide Be16;
  }

  lemma TcpHeaderWith(g: Segment, c: nat)
    ensures TcpHeader(g, c) + g.payload == (TcpHeader(g, 0) + g.payload)[..16] + Be16(c) + (TcpHeader(g, 0) + g.payload)[18..]
    ensures TcpHeader(g, 0)[16] == 0 && TcpHeader(g, 0)[17] == 0
  {
    BeZero();
    hide Be16, Be32;
  }

  /** Two bytes over what is there, the rest as it was. */
  method PutTwo(packet: array<byte>, from: nat, at: nat, to: nat, sum: nat)
    requires from + at + 2 <= to <= packet.Length
    modifies packet
    ensures packet[from..to] == old(packet[from..to])[..at] + Be16(sum) + old(packet[from..to])[at + 2..]
    ensures packet[..from] == old(packet[..from])
    ensures packet[to..] == old(packet[to..])
  {
    hide Be16;
    Put(packet, from + at, Be16(sum));
  }

  /** The IP header with its checksum over what is there before. */
  method SealIp(packet: array<byte>, total: nat, ours: bytes, theirs: bytes)
    requires packet.Length == PACKET_ROOM && |ours| == 4 && |theirs| == 4
    requires forall i :: 0 <= i < packet.Length ==> packet[i] == 0
    modifies packet
    ensures packet[..20] == IpHeader(total, Complement(Sum16(IpHeader(total, 0, ours, theirs))), ours, theirs)
    ensures forall i :: 20 <= i < packet.Length ==> packet[i] == 0
  {
    hide Sum16, Fold, IpHeader, Be16, Complement;
    StoreIp(packet, total, ours, theirs);
    var ipChecksum := CalculateIpChecksum(packet[..20]);
    IpHeaderWith(total, ipChecksum, ours, theirs);
    ghost var tail := packet[20..];
    PutTwo(packet, 0, 10, 20, ipChecksum);
    assert packet[0..20] == packet[..20];
    assert forall i :: 20 <= i < packet.Length ==> packet[i] == packet[20..][i - 20] == tail[i - 20];
  }

  /** The TCP header and payload behind it, with the checksum over both and the addresses. */
  method SealTcp(packet: array<byte>, g: Segment)
    requires packet.Length == PACKET_ROOM && 40 + |g.payload| <= PACKET_ROOM
    requires forall i :: 20 <= i < packet.Length ==> packet[i] == 0
    modifies packet
    ensures packet[..20] == old(packet[..20])
    ensures var tcp := TcpHeader(g, 0) + g.payload;
            packet[20..40 + |g.payload|] == TcpHeader(g, Complement(PseudoSum(packet[..20], |tcp|) + Sum16(tcp))) + g.payload
  {
    hide Sum16, Fold, TcpHeader, Be16, Complement, PseudoSum;
    ghost var ip := packet[..20];
    StoreTcp(packet, g);
    assert packet[..20] == ip;
    var total := 40 + |g.payload|;
    var tcpChecksum := CalculateTcpChecksum(packet[..20], packet[20..total]);
    TcpHeaderWith(g, tcpChecksum);
    PutTwo(packet, 20, 16, total, tcpChecksum);
  }

  /** Zeros, headers, and each checksum over what is there before it is stored. */
  method BuildPacket(ours: bytes, theirs: bytes, g: Segment) returns (packet: bytes)
    requires |ours| == 4 && |theirs| == 4
    ensures packet == if 40 + |g.payload| > PACKET_ROOM then [] else Packet(ours, theirs, g)
  {
    hide Sum16, Fold, IpHeader, TcpHeader, Complement;
    var total := 40 + |g.payload|;
    if total > PACKET_ROOM {
      return [];
    }
    var p := new byte[PACKET_ROOM](_ => 0);
    SealIp(p, total, ours, theirs);
    SealTcp(p, g);
    packet := p[..total];
    PseudoSame(total, Complement(Sum16(IpHeader(total, 0, ours, theirs))), ours, theirs, 20 + |g.payload|);
    assert packet == p[..20] + p[20..total];
  }

  /** The pseudo-header is the same before and after the IP checksum is stored. */
  lemma PseudoSame(total: nat, c: nat, ours: bytes, theirs: bytes, tcpLen: nat)
    requires |ours| == 4 && |theirs| == 4
    ensures PseudoSum(IpHeader(total, c, ours, theirs), tcpLen) == PseudoSum(IpHeader(total, 0, ours, theirs), tcpLen)
  {
    hide IpHeader;
    IpHeaderWith(total, c, ours, theirs);
  }
}
