/**
 The IGMP report and leave packets and their checksums. The checksum of the IGMP message is computed over
 the IP header as well, which is right nevertheless: a header with its checksum in place adds nothing.
 rte_raw_cksum, which is not part of this repository, is taken as the sum of section 1 of RFC 1071.
 */
module IgmpChecksum {

  type Byte = x: int | 0 <= x < 256

  /** A 16-bit word as this host reads it from memory, and writes it. */
  function Load(a: Byte, b: Byte, little: bool): (w: nat)
    ensures w <= 65535
  {
    var first, second: int := a, b;
    if little then first + 256 * second else 256 * first + second
  }

  function Store(w: nat, little: bool): (s: seq<Byte>)
    requires w <= 65535
    ensures |s| == 2 && Load(s[0], s[1], little) == w
  {
    if little then [w % 256, w / 256] else [w / 256, w % 256]
  }

  /** The sum of the 16-bit words; all lengths here are even. */
  function WordSum(b: seq<Byte>, little: bool): (s: nat)
  {
    if |b| < 2 then 0 else Load(b[0], b[1], little) + WordSum(b[2..], little)
  }

  function Fold(s: nat): (r: nat) { s / 0x1_0000 + s % 0x1_0000 }

  /** rte_raw_cksum: the carries are added back in, twice. */
  function RawCksum(b: seq<Byte>, little: bool): (r: nat)
  {
    Fold(Fold(WordSum(b, little)))
  }

  /** iphdr_cksum */
  function Cksum(raw: nat): (c: nat)
    requires raw <= 65535
    ensures c <= 65535
  {
    if raw == 0xffff then raw else 0xffff - raw
  }

  /** Addresses in network byte order. */
  function Address(a: nat): (s: seq<Byte>)
    ensures |s| == 4
  {
    [a / 0x100_0000 % 256, a / 0x1_0000 % 256, a / 256 % 256, a % 256]
  }

  /** The IPv4 header of an IGMP packet, with this checksum. */
  function IpHeader(src: nat, dst: nat, checksum: seq<Byte>): (h: seq<Byte>)
    requires |checksum| == 2
    ensures |h| == 20
  {
    [0x45, 0xc0, 0, 28, 0, 0, 0, 0, 1, 2] + checksum + (Address(src) + Address(dst))
  }

  /** The IGMP message. */
  function Message(kind: Byte, group: nat, checksum: seq<Byte>): (m: seq<Byte>)
    requires |checksum| == 2
    ensures |m| == 8
  {
    [kind, 0] + checksum + Address(group)
  }

  const REPORT: Byte := 0x16
  const LEAVE: Byte := 0x17
  /** 224.0.0.2 */
  const ALL_ROUTERS: nat := 0xe000_0002

  function Destination(kind: Byte, group: nat): nat { if kind == REPORT then group else ALL_ROUTERS }

  // ---- Sums ----

  lemma {:induction false} SumConcat(a: seq<Byte>, b: seq<Byte>, little: bool)
    requires |a| % 2 == 0
    ensures WordSum(a + b, little) == WordSum(a, little) + WordSum(b, little)
    decreases |a|
  {
    if a == [] {
      assert a + b == b;
    } else {
      assert (a + b)[2..] == a[2..] + b;
      SumConcat(a[2..], b, little);
    }
  }

  lemma {:induction false} SumBound(b: seq<Byte>, little: bool)
    ensures 2 * WordSum(b, little) <= |b| * 65535
    ensures |b| >= 2 && (b[0] > 0 || b[1] > 0) ==> WordSum(b, little) > 0
    decreases |b|
  {
    if |b| >= 2 { SumBound(b[2..], little); }
  }

  /** Folding keeps the sum modulo 65535, and gives zero only for zero. */
  lemma FoldTwice(s: nat)
    requires s < 0x1_0000_0000
    ensures var r := Fold(Fold(s)); r <= 65535 && r % 65535 == s % 65535 && (r == 0 <==> s == 0)
  {
    FoldOnce(s);
    FoldOnce(Fold(s));
  }

  lemma FoldOnce(s: nat)
    requires s < 0x1_0000_0000
    ensures Fold(s) % 65535 == s % 65535 && (Fold(s) == 0 <==> s == 0)
    ensures Fold(s) <= 0x1_fffe && (s <= 0x1_fffe ==> Fold(s) <= 65535)
  {
    assert s == Fold(s) + 65535 * (s / 0x1_0000);
    ModShift(Fold(s), s / 0x1_0000);
  }

  lemma ModShift(a: nat, k: nat)
    ensures (a + 65535 * k) % 65535 == a % 65535
  {
  }

  /** One word of a packet set to the checksum of the rest makes the whole a multiple of 65535. */
  lemma CksumCancels(s: nat)
    requires s < 0x1_0000_0000
    ensures Fold(Fold(s)) <= 65535 && (s + Cksum(Fold(Fold(s)))) % 65535 == 0
  {
    FoldTwice(s);
    var r := Fold(Fold(s));
    Multiples(s, r, Cksum(r));
  }

  lemma Multiples(s: nat, r: nat, c: nat)
    requires s % 65535 == r % 65535 && r <= 65535 && c == (if r == 0xffff then r else 0xffff - r)
    ensures (s + c) % 65535 == 0
  {
    AddMod(s, c);
    AddMod(r, c);
  }

  lemma AddMod(a: nat, b: nat)
    ensures (a + b) % 65535 == (a % 65535 + b) % 65535
  {
    ModShift(a % 65535 + b, a / 65535);
    assert a + b == a % 65535 + b + 65535 * (a / 65535);
  }

  /** What section 1 of RFC 1071 asks of a packet with its checksum in place. */
  predicate Verifies(b: seq<Byte>, little: bool)
  {
    RawCksum(b, little) == 0xffff
  }

  lemma MultipleVerifies(s: nat)
    requires 0 < s < 0x1_0000_0000 && s % 65535 == 0
    ensures Fold(Fold(s)) == 0xffff
  {
    FoldTwice(s);
  }

  // ---- The packet ----

  /** igmp2template: header and message with both checksums. */
  function Packet(src: nat, group: nat, kind: Byte, little: bool): (p: seq<Byte>)
    ensures |p| == 28
  {
    var dst := Destination(kind, group);
    var zero := IpHeader(src, dst, [0, 0]);
    CksumOfBytes(zero, little);
    var header := IpHeader(src, dst, Store(Cksum(RawCksum(zero, little)), little));
    var all := header + Message(kind, group, [0, 0]);
    CksumOfBytes(all, little);
    header + Message(kind, group, Store(Cksum(RawCksum(all, little)), little))
  }

  lemma CksumOfBytes(b: seq<Byte>, little: bool)
    requires |b| <= 28
    ensures WordSum(b, little) < 0x1_0000_0000 && RawCksum(b, little) <= 65535
  {
    SumBound(b, little);
    FoldTwice(WordSum(b, little));
  }

  /** A checksum field adds its value to the sum. */
  lemma FieldAdds(before: seq<Byte>, w: nat, after: seq<Byte>, little: bool)
    requires |before| % 2 == 0 && w <= 65535
    ensures WordSum(before + Store(w, little) + after, little) == WordSum(before + [0, 0] + after, little) + w
  {
    hide Load, Store, WordSum;
    SumConcat(before + Store(w, little), after, little);
    SumConcat(before, Store(w, little), little);
    SumConcat(before + [0, 0], after, little);
    SumConcat(before, [0, 0], little);
    OneWord(Store(w, little), little);
    OneWord([0, 0], little);
    ZeroWord(little);
  }

  lemma ZeroWord(little: bool)
    ensures Load(0, 0, little) == 0
  {
  }

  lemma OneWord(s: seq<Byte>, little: bool)
    requires |s| == 2
    ensures WordSum(s, little) == Load(s[0], s[1], little)
  {
    assert s[2..] == [];
  }

  /** The two halves of a packet, each with its checksum in place. */
  lemma PacketParts(src: nat, group: nat, kind: Byte, little: bool)
    ensures var p, zero := Packet(src, group, kind, little), IpHeader(src, Destination(kind, group), [0, 0]);
            && RawCksum(zero, little) <= 65535
            && p[..20] == IpHeader(src, Destination(kind, group), Store(Cksum(RawCksum(zero, little)), little))
    ensures var p := Packet(src, group, kind, little);
            var all := p[..20] + Message(kind, group, [0, 0]);
            && RawCksum(all, little) <= 65535
            && p[20..] == Message(kind, group, Store(Cksum(RawCksum(all, little)), little))
  {
    hide Address, Load, Store, Fold, Cksum, WordSum, Message;
    var dst := Destination(kind, group);
    var zero := IpHeader(src, dst, [0, 0]);
    CksumOfBytes(zero, little);
    var header := IpHeader(src, dst, Store(Cksum(RawCksum(zero, little)), little));
    CksumOfBytes(header + Message(kind, group, [0, 0]), little);
    assert Packet(src, group, kind, little)[..20] == header;
  }

  /** Adding its checksum to a header makes it a multiple of 65535, and it verifies. */
  lemma FilledVerifies(src: nat, dst: nat, little: bool)
    ensures var raw := RawCksum(IpHeader(src, dst, [0, 0]), little);
            && raw <= 65535
            && var header := IpHeader(src, dst, Store(Cksum(raw), little));
               WordSum(header, little) % 65535 == 0 && Verifies(header, little)
  {
    hide Address, Load, Store, Fold, Cksum, WordSum;
    var zero := IpHeader(src, dst, [0, 0]);
    CksumOfBytes(zero, little);
    var c := Cksum(RawCksum(zero, little));
    var header := IpHeader(src, dst, Store(c, little));
    FieldAdds([0x45, 0xc0, 0, 28, 0, 0, 0, 0, 1, 2], c, Address(src) + Address(dst), little);
    CksumCancels(WordSum(zero, little));
    CksumOfBytes(header, little);
    SumBound(header, little);
    MultipleVerifies(WordSum(header, little));
  }

  /** The header, with its checksum in place, is a multiple of 65535, and verifies. */
  lemma HeaderVerifies(src: nat, group: nat, kind: Byte, little: bool)
    ensures var p := Packet(src, group, kind, little);
            WordSum(p[..20], little) % 65535 == 0 && Verifies(p[..20], little)
  {
    hide Address, Load, Store, Fold, Packet, Cksum, WordSum, RawCksum, IpHeader, Message;
    PacketParts(src, group, kind, little);
    FilledVerifies(src, Destination(kind, group), little);
  }

  /**
   The IGMP checksum is right although it was computed over the IP header as well: the message alone
   verifies, for every group and host address, on hosts of either byte order.
   */
  lemma MessageVerifies(src: nat, group: nat, kind: Byte, little: bool)
    requires kind == REPORT || kind == LEAVE
    ensures Verifies(Packet(src, group, kind, little)[20..], little)
  {
    var p := Packet(src, group, kind, little);
    var header, zero := p[..20], Message(kind, group, [0, 0]);
    HeaderVerifies(src, group, kind, little);
    CksumOfBytes(header + zero, little);
    var c := Cksum(RawCksum(header + zero, little));
    var message := Message(kind, group, Store(c, little));
    assert p[20..] == message by { PacketParts(src, group, kind, little); }
    hide Address, Load, Store, Fold, Packet, Cksum, WordSum;
    SumConcat(header, zero, little);
    CksumCancels(WordSum(header + zero, little));
    FieldAdds([kind, 0], c, Address(group), little);
    Drop(WordSum(header, little), WordSum(zero, little) + c);
    CksumOfBytes(message, little);
    SumBound(message, little);
    MultipleVerifies(WordSum(message, little));
  }

  lemma Drop(a: nat, b: nat)
    requires a % 65535 == 0 && (a + b) % 65535 == 0
    ensures b % 65535 == 0
  {
    AddMod(a, b);
  }

  // ---- The packet in memory ----

  /** Multicast addresses are mapped to the Ethernet by their low 23 bits (section 6.4 of RFC 1112). */
  function GroupMac(group: nat): (m: seq<Byte>)
    ensures |m| == 6
  {
    [0x01, 0x00, 0x5e, group / 0x1_0000 % 128, group / 256 % 256, group % 256]
  }

  lemma MacTellsLowBits(group: nat)
    ensures var m := GroupMac(group);
            var a, b: int := m[3], m[4];
            (a * 256 + b) * 256 + m[5] == group % 0x80_0000
  {
    var low := group % 0x80_0000;
    LowBits(group, low, group / 0x80_0000);
  }

  lemma LowBits(g: nat, low: nat, q: nat)
    requires g == 0x80_0000 * q + low && low < 0x80_0000
    ensures g / 0x1_0000 % 128 == low / 0x1_0000 && g / 256 % 256 == low / 256 % 256 && g % 256 == low % 256
  {
    Split(g, low, 128 * q, 0x1_0000);
    Split(g, low, 0x8000 * q, 256);
    Split(low / 0x1_0000 + 128 * q, low / 0x1_0000, q, 128);
    Split(low / 256 + 0x8000 * q, low / 256, 128 * q, 256);
  }

  lemma Split(g: nat, low: nat, q: nat, d: nat)
    requires d > 0 && g == d * q + low
    ensures g / d == q + low / d && g % d == low % d
  {
    var x := g / d - q;
    assert low == d * (g / d) - d * q + g % d;
    Scale(d, g / d, q);
    Unique(low, d, x, g % d);
  }

  lemma Scale(d: int, a: int, b: int)
    ensures d * (a - b) == d * a - d * b
  {
  }

  lemma Unique(n: nat, d: nat, q: int, r: nat)
    requires d > 0 && n == d * q + r && r < d
    ensures n / d == q && n % d == r
  {
    Scale(d, n / d, q);
    var e := n / d - q;
    assert d * e == r - n % d;
    if e > 0 { Larger(d, e); }
    if e < 0 { Larger(d, -e); Scale(d, 0, e); }
  }

  lemma Larger(d: nat, e: int)
    requires e > 0
    ensures d * e >= d
  {
  }

  /** The whole frame of igmp2template: Ethernet, IP and IGMP. */
  function Frame(mac: seq<Byte>, src: nat, group: nat, kind: Byte, little: bool): (f: seq<Byte>)
    requires |mac| == 6
    ensures |f| == 42
  {
    GroupMac(group) + mac + [0x08, 0x00] + Packet(src, group, kind, little)
  }

  /** Four bytes as a number, the highest first. */
  function BigEndian(s: seq<Byte>): nat
    requires |s| == 4
  {
    var a, b, c, d: int := s[0], s[1], s[2], s[3];
    ((a * 256 + b) * 256 + c) * 256 + d
  }

  lemma AddressIs(a: nat)
    requires a < 0x1_0000_0000
    ensures BigEndian(Address(a)) == a
  {
    var q := a / 256;
    assert a / 0x1_0000 == q / 256 && a / 0x100_0000 == q / 256 / 256;
  }

  lemma CksumIsNotZero(raw: nat)
    requires raw <= 65535
    ensures Cksum(raw) != 0 && (Cksum(raw) == 0xffff - raw || Cksum(raw) == raw == 0xffff)
  {
  }

  /**
   A frame, byte by byte. Ethernet: the group's address, the sender's, the type of IPv4. IP: version 4 and five
   words of header, the precedence of network control, 28 bytes in all, no fragments, one hop, protocol 2,
   the checksum, the two addresses. IGMP: the type, no response time, the checksum, the group.
   */
  predicate IsReport(b: seq<Byte>, mac: seq<Byte>, src: nat, dst: nat, group: nat, kind: Byte, little: bool)
    requires |b| == 42
  {
    && b[..3] == [0x01, 0x00, 0x5e] && BigEndian([0] + b[3..6]) == group % 0x80_0000
    && b[6..12] == mac && b[12..14] == [0x08, 0x00]
    && b[14..24] == [0x45, 0xc0, 0, 28, 0, 0, 0, 0, 1, 2]
    && b[24..26] != [0, 0] && Verifies(b[14..34], little)
    && BigEndian(b[26..30]) == src && BigEndian(b[30..34]) == dst
    && b[34] == kind && b[35] == 0 && b[36..38] != [0, 0] && BigEndian(b[38..42]) == group
    && Verifies(b[34..42], little)
  }

  lemma StoredIsNotZero(w: nat, little: bool)
    requires 0 < w <= 65535
    ensures Store(w, little) != [0, 0]
  {
  }

  /** The IP header of a packet, field by field. */
  lemma HeaderBytes(src: nat, group: nat, kind: Byte, little: bool)
    requires src < 0x1_0000_0000 && group < 0x1_0000_0000
    ensures var p := Packet(src, group, kind, little);
            && p[..10] == [0x45, 0xc0, 0, 28, 0, 0, 0, 0, 1, 2] && p[10..12] != [0, 0]
            && BigEndian(p[12..16]) == src
            && BigEndian(p[16..20]) == (if kind == 0x16 then group else 0xe000_0002)
  {
    var dst := Destination(kind, group);
    var raw := RawCksum(IpHeader(src, dst, [0, 0]), little);
    PacketParts(src, group, kind, little);
    AddressIs(src);
    AddressIs(dst);
    CksumIsNotZero(raw);
    StoredIsNotZero(Cksum(raw), little);
    var p, w := Packet(src, group, kind, little), Store(Cksum(raw), little);
    hide Packet, Address, Store, Cksum, RawCksum, BigEndian;
    var h := p[..20];
    assert p[..10] == h[..10] && p[10..12] == h[10..12] == w && p[12..16] == h[12..16] == Address(src);
    assert p[16..20] == h[16..20] == Address(dst);
  }

  /** And the IGMP message. */
  lemma MessageBytes(src: nat, group: nat, kind: Byte, little: bool)
    requires src < 0x1_0000_0000 && group < 0x1_0000_0000
    ensures var p := Packet(src, group, kind, little);
            && p[20] == kind && p[21] == 0 && p[22..24] != [0, 0] && BigEndian(p[24..28]) == group
  {
    PacketParts(src, group, kind, little);
    var p := Packet(src, group, kind, little);
    var raw := RawCksum(p[..20] + Message(kind, group, [0, 0]), little);
    AddressIs(group);
    CksumIsNotZero(raw);
    StoredIsNotZero(Cksum(raw), little);
    var w := Store(Cksum(raw), little);
    hide Packet, Address, Store, Cksum, RawCksum, BigEndian;
    var m := p[20..];
    assert p[20] == m[0] && p[21] == m[1] && p[22..24] == m[2..4] == w && p[24..28] == m[4..8] == Address(group);
  }

  /** The frame of a report or of a leave message, byte by byte. */
  lemma FrameIsReport(mac: seq<Byte>, src: nat, group: nat, kind: Byte, little: bool)
    requires |mac| == 6 && src < 0x1_0000_0000 && group < 0x1_0000_0000 && (kind == 0x16 || kind == 0x17)
    ensures IsReport(Frame(mac, src, group, kind, little), mac, src, if kind == 0x16 then group else 0xe000_0002,
                     group, kind, little)
  {
    HeaderBytes(src, group, kind, little);
    MessageBytes(src, group, kind, little);
    HeaderVerifies(src, group, kind, little);
    MessageVerifies(src, group, kind, little);
    MacBytes(group);
    FrameSlices(GroupMac(group), mac, Packet(src, group, kind, little));
    hide Packet, GroupMac, Verifies, BigEndian;
  }

  lemma MacBytes(group: nat)
    ensures var m := GroupMac(group); m[..3] == [0x01, 0x00, 0x5e] && BigEndian([0] + m[3..6]) == group % 0x80_0000
  {
    MacTellsLowBits(group);
  }

  lemma FrameSlices(m: seq<Byte>, mac: seq<Byte>, p: seq<Byte>)
    requires |m| == |mac| == 6 && |p| == 28
    ensures var f := m + mac + [0x08, 0x00] + p;
            && f[..3] == m[..3] && f[3..6] == m[3..6] && f[6..12] == mac && f[12..14] == [0x08, 0x00]
            && f[14..24] == p[..10] && f[24..26] == p[10..12] && f[26..30] == p[12..16] && f[30..34] == p[16..20]
            && f[34] == p[20] && f[35] == p[21] && f[36..38] == p[22..24] && f[38..42] == p[24..28]
            && f[14..34] == p[..20] && f[34..42] == p[20..]
  {
  }

  /** Writes bytes into the buffer at an offset. */
  method Put(buf: array<Byte>, at: nat, bytes: seq<Byte>)
    requires at + |bytes| <= buf.Length
    modifies buf
    ensures buf[at..at + |bytes|] == bytes
    ensures forall i :: 0 <= i < buf.Length && (i < at || i >= at + |bytes|) ==> buf[i] == old(buf[i])
  {
    forall i | 0 <= i < |bytes| {
      buf[at + i] := bytes[i];
    }
  }

  /** rte_raw_cksum over part of the buffer. */
  method Sum(buf: array<Byte>, at: nat, len: nat, little: bool) returns (raw: nat)
    requires at + len <= buf.Length && len % 2 == 0
    ensures raw == RawCksum(buf[at..at + len], little)
  {
    var s, i := 0, 0;
    while i < len
      invariant 0 <= i <= len && i % 2 == 0
      invariant s + WordSum(buf[at + i..at + len], little) == WordSum(buf[at..at + len], little)
    {
      s := s + Load(buf[at + i], buf[at + i + 1], little);
      assert buf[at + i..at + len][2..] == buf[at + i + 2..at + len];
      i := i + 2;
    }
    raw := Fold(Fold(s));
  }

  /** The IP header without its checksum. */
  method PutHeader(buf: array<Byte>, src: nat, dst: nat)
    requires buf.Length == 42
    modifies buf
    ensures buf[14..34] == IpHeader(src, dst, [0, 0])
    ensures buf[..14] == old(buf[..14]) && buf[34..] == old(buf[34..])
  {
    hide Address;
    Put(buf, 14, [0x45, 0xc0, 0, 28, 0, 0, 0, 0, 1, 2]);
    ghost var fields := buf[14..24];
    Put(buf, 24, [0, 0]);
    Put(buf, 26, Address(src) + Address(dst));
    assert buf[14..24] == fields;
    assert buf[14..34] == buf[14..24] + buf[24..26] + buf[26..34];
  }

  /** Fills in the checksum at an offset, computed over `len` bytes from the IP header on. */
  method PutCksum(buf: array<Byte>, at: nat, len: nat, little: bool)
    requires buf.Length == 42 && 14 <= at && at + 2 <= 42 && len <= 28 && len % 2 == 0
    modifies buf
    ensures RawCksum(old(buf[14..14 + len]), little) <= 65535
    ensures buf[..] == Filled(old(buf[..]), at, Store(Cksum(RawCksum(old(buf[14..14 + len]), little)), little))
  {
    hide Store, RawCksum, Cksum;
    var raw := Sum(buf, 14, len, little);
    CksumOfBytes(buf[14..14 + len], little);
    Put(buf, at, Store(Cksum(raw), little));
    assert buf[..] == buf[..at] + buf[at..at + 2] + buf[at + 2..];
  }

  /** Filling in a field of two bytes. */
  function Filled(b: seq<Byte>, at: nat, w: seq<Byte>): (r: seq<Byte>)
    requires at + 2 <= |b| && |w| == 2
    ensures |r| == |b|
  {
    b[..at] + w + b[at + 2..]
  }

  /** Filling in a field, seen from a part of the buffer. */
  lemma FilledPart(b: seq<Byte>, at: nat, w: seq<Byte>, lo: nat, hi: nat)
    requires lo <= hi <= |b| && at + 2 <= |b| && |w| == 2
    requires (lo <= at && at + 2 <= hi) || hi <= at || at + 2 <= lo
    ensures Filled(b, at, w)[lo..hi] == if lo <= at && at + 2 <= hi then Filled(b[lo..hi], at - lo, w) else b[lo..hi]
  {
    hide Filled;
    var part := Filled(b, at, w)[lo..hi];
    if lo <= at && at + 2 <= hi {
      forall i | 0 <= i < hi - lo ensures part[i] == Filled(b[lo..hi], at - lo, w)[i] {
        FilledAt(b, at, w, lo + i);
        FilledAt(b[lo..hi], at - lo, w, i);
      }
    } else {
      forall i | 0 <= i < hi - lo ensures part[i] == b[lo..hi][i] {
        FilledAt(b, at, w, lo + i);
      }
    }
  }

  lemma FilledAt(b: seq<Byte>, at: nat, w: seq<Byte>, i: nat)
    requires at + 2 <= |b| && |w| == 2 && i < |b|
    ensures Filled(b, at, w)[i] == if at <= i < at + 2 then w[i - at] else b[i]
  {
  }

  /** The IP header with its checksum. */
  method FillHeader(buf: array<Byte>, src: nat, group: nat, kind: Byte, little: bool)
    requires buf.Length == 42
    modifies buf
    ensures buf[14..34] == Packet(src, group, kind, little)[..20]
    ensures buf[..14] == old(buf[..14])
  {
    hide Address, Store, RawCksum, Cksum, Packet;
    var dst := Destination(kind, group);
    PutHeader(buf, src, dst);
    ghost var b := buf[..];
    PutCksum(buf, 24, 20, little);
    PacketParts(src, group, kind, little);
    ghost var w := Store(Cksum(RawCksum(IpHeader(src, dst, [0, 0]), little)), little);
    FilledPart(b, 24, w, 14, 34);
    FilledPart(b, 24, w, 0, 14);
    assert b[14..34] == IpHeader(src, dst, [0, 0]);
    HeaderFilled(src, dst, w);
    assert buf[14..34] == buf[..][14..34] && buf[..14] == buf[..][0..14];
  }

  lemma HeaderFilled(src: nat, dst: nat, w: seq<Byte>)
    requires |w| == 2
    ensures Filled(IpHeader(src, dst, [0, 0]), 10, w) == IpHeader(src, dst, w)
  {
    hide Address;
  }

  lemma MessageFilled(kind: Byte, group: nat, w: seq<Byte>)
    requires |w| == 2
    ensures Filled(Message(kind, group, [0, 0]), 2, w) == Message(kind, group, w)
  {
    hide Address;
  }

  /** The IGMP message with its checksum, computed over the IP header and the message. */
  method FillMessage(buf: array<Byte>, src: nat, group: nat, kind: Byte, little: bool)
    requires buf.Length == 42 && buf[14..34] == Packet(src, group, kind, little)[..20]
    modifies buf
    ensures buf[14..42] == Packet(src, group, kind, little)
    ensures buf[..14] == old(buf[..14])
  {
    hide Address, Store, RawCksum, Cksum, Packet, Message, Filled;
    ghost var header, zero := buf[14..34], Message(kind, group, [0, 0]);
    Put(buf, 34, Message(kind, group, [0, 0]));
    ghost var b := buf[..];
    assert b[14..34] == header && b[34..42] == zero && b[14..42] == header + zero;
    PutCksum(buf, 36, 28, little);
    PacketParts(src, group, kind, little);
    ghost var w := Store(Cksum(RawCksum(header + zero, little)), little);
    FilledPart(b, 36, w, 34, 42);
    FilledPart(b, 36, w, 14, 34);
    FilledPart(b, 36, w, 0, 14);
    MessageFilled(kind, group, w);
    assert buf[14..42] == buf[..][14..34] + buf[..][34..42];
    ghost var p := Packet(src, group, kind, little);
    assert p == p[..20] + p[20..];
  }

  lemma WholeFrame(b: seq<Byte>, eth: seq<Byte>, packet: seq<Byte>)
    requires |b| == 42 && b[..14] == eth && b[14..42] == packet
    ensures b == eth + packet
  {
    assert b == b[..14] + b[14..42];
  }

  /** igmp2template; false for any other type of message. `buf` is the packet buffer, whatever it held before. */
  method Template(buf: array<Byte>, mac: seq<Byte>, src: nat, group: nat, kind: Byte, little: bool) returns (ok: bool)
    requires buf.Length == 42 && |mac| == 6
    modifies buf
    ensures ok == (kind == 0x16 || kind == 0x17)
    ensures ok ==> buf[..] == Frame(mac, src, group, kind, little)
    ensures ok && src < 0x1_0000_0000 && group < 0x1_0000_0000 ==>
              IsReport(buf[..], mac, src, if kind == 0x16 then group else 0xe000_0002, group, kind, little)
  {
    if src < 0x1_0000_0000 && group < 0x1_0000_0000 && (kind == REPORT || kind == LEAVE) {
      FrameIsReport(mac, src, group, kind, little);
    }
    hide IsReport;
    if kind != REPORT && kind != LEAVE {
      return false;
    }
    hide GroupMac, Packet;
    ghost var eth := GroupMac(group) + mac + [0x08, 0x00];
    Put(buf, 0, GroupMac(group) + mac + [0x08, 0x00]);
    assert buf[..14] == buf[0..0 + 14] == eth;
    FillHeader(buf, src, group, kind, little);
    FillMessage(buf, src, group, kind, little);
    WholeFrame(buf[..], eth, Packet(src, group, kind, little));
    return true;
  }
}
