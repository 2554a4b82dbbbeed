/** Packing of 10-bit words in bytes: four words in five bytes, as a big-endian stream of bits. */
module TenBit {

  type Byte = bv8

  /** The byte that holds the first bits of word `pos`; the rest are in the byte after it. */
  function FirstByte(pos: nat): nat { pos / 4 * 5 + pos % 4 }

  predicate InRange(size: nat, pos: nat) { FirstByte(pos) + 1 < size }

  /** get10bitsWord */
  function Get10(buf: seq<Byte>, pos: nat): (w: bv32)
    requires InRange(|buf|, pos)
    ensures w < 1024
  {
    var o := pos % 4;
    var p := FirstByte(pos);
    Join(buf[p], buf[p + 1], o)
  }

  /** One word from its two bytes, with the masks and shifts of tools.h for each place in a group of four. */
  function Join(b1: Byte, b2: Byte, o: nat): (w: bv32)
    requires o < 4
    ensures w < 1024
  {
    var x, y := b1 as bv32, b2 as bv32;
    if o == 0 then ((x & 0xFF) << 2) + ((y & 0xC0) >> 6)
    else if o == 1 then ((x & 0x3F) << 4) + ((y & 0xF0) >> 4)
    else if o == 2 then ((x & 0x0F) << 6) + ((y & 0xFC) >> 2)
    else ((x & 0x03) << 8) + (y & 0xFF)
  }

  function Low8(x: bv32): Byte { (x & 0xFF) as Byte }

  function NewFirst(b1: Byte, w: bv32, o: nat): Byte
    requires o < 4
  {
    var x := b1 as bv32;
    Low8(if o == 0 then (x & 0x00) | ((w >> 2) & 0xFF)
         else if o == 1 then (x & 0xC0) | ((w >> 4) & 0x3F)
         else if o == 2 then (x & 0xF0) | ((w >> 6) & 0x0F)
         else (x & 0xFC) | ((w >> 8) & 0x03))
  }

  function NewSecond(b2: Byte, w: bv32, o: nat): Byte
    requires o < 4
  {
    var y := b2 as bv32;
    Low8(if o == 0 then (y & 0x3F) | ((w << 6) & 0xC0)
         else if o == 1 then (y & 0x0F) | ((w << 4) & 0xF0)
         else if o == 2 then (y & 0x03) | ((w << 2) & 0xFC)
         else (y & 0x00) | (w & 0xFF))
  }

  /** The buffer after set10bitsWord. */
  function Put10(buf: seq<Byte>, pos: nat, w: bv32): (buf': seq<Byte>)
    requires InRange(|buf|, pos)
    ensures |buf'| == |buf|
  {
    var o := pos % 4;
    var p := FirstByte(pos);
    buf[p := NewFirst(buf[p], w, o)][p + 1 := NewSecond(buf[p + 1], w, o)]
  }

  /** Bit i of a byte, counted from its most significant one. */
  predicate ByteBit(b: Byte, i: nat)
    requires i < 8
  {
    if i == 0 then b & 0x80 != 0 else if i == 1 then b & 0x40 != 0
    else if i == 2 then b & 0x20 != 0 else if i == 3 then b & 0x10 != 0
    else if i == 4 then b & 0x08 != 0 else if i == 5 then b & 0x04 != 0
    else if i == 6 then b & 0x02 != 0 else b & 0x01 != 0
  }

  /** Bit i of a 10-bit word, counted from its most significant one. */
  predicate WordBit(w: bv32, i: nat)
    requires i < 10
  {
    if i == 0 then w & 0x200 != 0 else if i == 1 then w & 0x100 != 0
    else ByteBit(Low8(w), i - 2)
  }

  /** Bit i of a buffer read as a big-endian stream of bits. */
  predicate StreamBit(buf: seq<Byte>, i: nat)
    requires i / 8 < |buf|
  {
    ByteBit(buf[i / 8], i % 8)
  }

  /** The ten bits of a word straddle two bytes. */
  predicate PairBit(b1: Byte, b2: Byte, i: nat)
    requires i < 16
  {
    if i < 8 then ByteBit(b1, i) else ByteBit(b2, i - 8)
  }

  lemma JoinBits0(b1: Byte, b2: Byte, i: nat)
    requires i < 10
    ensures WordBit(Join(b1, b2, 0), i) == PairBit(b1, b2, 0 + i)
  {
  }

  lemma JoinFirst1(b1: Byte, b2: Byte, i: nat)
    requires i < 6
    ensures WordBit(Join(b1, b2, 1), i) == PairBit(b1, b2, 2 + i)
  {
  }

  lemma JoinSecond1(b1: Byte, b2: Byte, i: nat)
    requires 6 <= i < 10
    ensures WordBit(Join(b1, b2, 1), i) == PairBit(b1, b2, 2 + i)
  {
  }

  lemma JoinBits1(b1: Byte, b2: Byte, i: nat)
    requires i < 10
    ensures WordBit(Join(b1, b2, 1), i) == PairBit(b1, b2, 2 + i)
  {
    hide WordBit, Join, PairBit;
    if i < 6 { JoinFirst1(b1, b2, i); } else { JoinSecond1(b1, b2, i); }
  }

  lemma JoinFirst2(b1: Byte, b2: Byte, i: nat)
    requires i < 4
    ensures WordBit(Join(b1, b2, 2), i) == PairBit(b1, b2, 4 + i)
  {
  }

  lemma JoinSecond2(b1: Byte, b2: Byte, i: nat)
    requires 4 <= i < 10
    ensures WordBit(Join(b1, b2, 2), i) == PairBit(b1, b2, 4 + i)
  {
  }

  lemma JoinBits2(b1: Byte, b2: Byte, i: nat)
    requires i < 10
    ensures WordBit(Join(b1, b2, 2), i) == PairBit(b1, b2, 4 + i)
  {
    hide WordBit, Join, PairBit;
    if i < 4 { JoinFirst2(b1, b2, i); } else { JoinSecond2(b1, b2, i); }
  }

  lemma JoinBits3(b1: Byte, b2: Byte, i: nat)
    requires i < 10
    ensures WordBit(Join(b1, b2, 3), i) == PairBit(b1, b2, 6 + i)
  {
  }

  lemma JoinBits(b1: Byte, b2: Byte, o: nat, i: nat)
    requires o < 4 && i < 10
    ensures WordBit(Join(b1, b2, o), i) == PairBit(b1, b2, 2 * o + i)
  {
    hide Join, WordBit, PairBit;
    if o == 0 { JoinBits0(b1, b2, i); }
    else if o == 1 { JoinBits1(b1, b2, i); }
    else if o == 2 { JoinBits2(b1, b2, i); }
    else { JoinBits3(b1, b2, i); }
  }

  lemma WordPosition(pos: nat, i: nat)
    requires i < 10
    ensures (10 * pos + i) / 8 == FirstByte(pos) + (2 * (pos % 4) + i) / 8
    ensures (10 * pos + i) % 8 == (2 * (pos % 4) + i) % 8
  {
  }

  /** get10bitsWord reads bits 10*pos .. 10*pos+9 of the stream, most significant first. */
  lemma GetReadsStream(buf: seq<Byte>, pos: nat, i: nat)
    requires InRange(|buf|, pos) && i < 10
    ensures (10 * pos + i) / 8 < |buf|
    ensures WordBit(Get10(buf, pos), i) == StreamBit(buf, 10 * pos + i)
  {
    hide Join, ByteBit, WordBit;
    WordPosition(pos, i);
    var p := FirstByte(pos);
    JoinBits(buf[p], buf[p + 1], pos % 4, i);
  }

  lemma PutBits0(b1: Byte, b2: Byte, w: bv32, i: nat)
    requires i < 16
    ensures PairBit(NewFirst(b1, w, 0), NewSecond(b2, w, 0), i)
         == if 0 <= i < 10 then WordBit(w, i - 0) else PairBit(b1, b2, i)
  {
    if i < 8 {
      assert ByteBit(NewFirst(b1, w, 0), i) == WordBit(w, i);
    } else {
      assert ByteBit(NewSecond(b2, w, 0), i - 8)
          == if i < 10 then WordBit(w, i - 0) else ByteBit(b2, i - 8);
    }
  }

  lemma PutBits1(b1: Byte, b2: Byte, w: bv32, i: nat)
    requires i < 16
    ensures PairBit(NewFirst(b1, w, 1), NewSecond(b2, w, 1), i)
         == if 2 <= i < 12 then WordBit(w, i - 2) else PairBit(b1, b2, i)
  {
    if i < 8 {
      assert ByteBit(NewFirst(b1, w, 1), i) == if 2 <= i then WordBit(w, i - 2) else ByteBit(b1, i);
    } else {
      assert ByteBit(NewSecond(b2, w, 1), i - 8)
          == if i < 12 then WordBit(w, i - 2) else ByteBit(b2, i - 8);
    }
  }

  lemma PutBits2(b1: Byte, b2: Byte, w: bv32, i: nat)
    requires i < 16
    ensures PairBit(NewFirst(b1, w, 2), NewSecond(b2, w, 2), i)
         == if 4 <= i < 14 then WordBit(w, i - 4) else PairBit(b1, b2, i)
  {
    if i < 8 {
      assert ByteBit(NewFirst(b1, w, 2), i) == if 4 <= i then WordBit(w, i - 4) else ByteBit(b1, i);
    } else {
      assert ByteBit(NewSecond(b2, w, 2), i - 8)
          == if i < 14 then WordBit(w, i - 4) else ByteBit(b2, i - 8);
    }
  }

  lemma PutBits3(b1: Byte, b2: Byte, w: bv32, i: nat)
    requires i < 16
    ensures PairBit(NewFirst(b1, w, 3), NewSecond(b2, w, 3), i)
         == if 6 <= i < 16 then WordBit(w, i - 6) else PairBit(b1, b2, i)
  {
    if i < 8 {
      assert ByteBit(NewFirst(b1, w, 3), i) == if 6 <= i then WordBit(w, i - 6) else ByteBit(b1, i);
    } else {
      assert ByteBit(NewSecond(b2, w, 3), i - 8)
          == WordBit(w, i - 6);
    }
  }

  lemma PutBits(b1: Byte, b2: Byte, w: bv32, o: nat, i: nat)
    requires o < 4 && i < 16
    ensures PairBit(NewFirst(b1, w, o), NewSecond(b2, w, o), i)
         == if 2 * o <= i < 2 * o + 10 then WordBit(w, i - 2 * o) else PairBit(b1, b2, i)
  {
    hide NewFirst, NewSecond, WordBit, PairBit;
    if o == 0 { PutBits0(b1, b2, w, i); }
    else if o == 1 { PutBits1(b1, b2, w, i); }
    else if o == 2 { PutBits2(b1, b2, w, i); }
    else { PutBits3(b1, b2, w, i); }
  }

  /** set10bitsWord replaces exactly bits 10*pos .. 10*pos+9 of the stream. */
  lemma PutWritesStream(buf: seq<Byte>, pos: nat, w: bv32, i: nat)
    requires InRange(|buf|, pos) && i / 8 < |buf|
    ensures StreamBit(Put10(buf, pos, w), i)
         == if 10 * pos <= i < 10 * pos + 10 then WordBit(w, i - 10 * pos) else StreamBit(buf, i)
  {
    hide NewFirst, NewSecond, ByteBit, WordBit;
    var p, o := FirstByte(pos), pos % 4;
    assert 10 * pos == 8 * p + 2 * o;
    if i / 8 == p || i / 8 == p + 1 {
      PutBits(buf[p], buf[p + 1], w, o, i - 8 * p);
    }
  }

  lemma SameBitsSameByte(a: Byte, b: Byte)
    requires a & 0x80 == b & 0x80 && a & 0x40 == b & 0x40 && a & 0x20 == b & 0x20 && a & 0x10 == b & 0x10
    requires a & 0x08 == b & 0x08 && a & 0x04 == b & 0x04 && a & 0x02 == b & 0x02 && a & 0x01 == b & 0x01
    ensures a == b
  {
  }

  lemma SameBitsSameWord(v: bv32, w: bv32)
    requires v < 1024 && w < 1024
    requires WordBit(v, 0) == WordBit(w, 0) && WordBit(v, 1) == WordBit(w, 1) && Low8(v) == Low8(w)
    ensures v == w
  {
  }

  lemma ByteFromBits(a: Byte, b: Byte)
    requires forall i :: 0 <= i < 8 ==> ByteBit(a, i) == ByteBit(b, i)
    ensures a == b
  {
    assert ByteBit(a, 0) == ByteBit(b, 0) && ByteBit(a, 1) == ByteBit(b, 1);
    assert ByteBit(a, 2) == ByteBit(b, 2) && ByteBit(a, 3) == ByteBit(b, 3);
    assert ByteBit(a, 4) == ByteBit(b, 4) && ByteBit(a, 5) == ByteBit(b, 5);
    assert ByteBit(a, 6) == ByteBit(b, 6) && ByteBit(a, 7) == ByteBit(b, 7);
    SameBitsSameByte(a, b);
  }

  /** A word below 1024 is determined by its ten bits. */
  lemma WordFromBits(v: bv32, w: bv32)
    requires v < 1024 && w < 1024
    requires forall i :: 0 <= i < 10 ==> WordBit(v, i) == WordBit(w, i)
    ensures v == w
  {
    hide ByteBit, Low8;
    forall i | 0 <= i < 8
      ensures ByteBit(Low8(v), i) == ByteBit(Low8(w), i)
    {
      assert WordBit(v, i + 2) == WordBit(w, i + 2);
    }
    ByteFromBits(Low8(v), Low8(w));
    SameBitsSameWord(v, w);
  }

  /** Reading back gives the low ten bits written, and every other position reads as before. */
  lemma SetThenGet(buf: seq<Byte>, pos: nat, w: bv32, at: nat)
    requires InRange(|buf|, pos) && InRange(|buf|, at)
    ensures Get10(Put10(buf, pos, w), at) == if at == pos then w & 0x3FF else Get10(buf, at)
  {
    hide Get10, Put10, StreamBit, WordBit;
    var buf' := Put10(buf, pos, w);
    forall i | 0 <= i < 10
      ensures WordBit(Get10(buf', at), i) == if at == pos then WordBit(w, i) else WordBit(Get10(buf, at), i)
    {
      GetReadsStream(buf', at, i);
      PutWritesStream(buf, pos, w, 10 * at + i);
      if at != pos { GetReadsStream(buf, at, i); }
    }
    if at == pos {
      forall i | 0 <= i < 10 ensures WordBit(w & 0x3FF, i) == WordBit(w, i) { MaskKeepsBits(w, i); }
    }
    WordFromBits(Get10(buf', at), if at == pos then w & 0x3FF else Get10(buf, at));
  }

  lemma MaskKeepsBits(w: bv32, i: nat)
    requires i < 10
    ensures WordBit(w & 0x3FF, i) == WordBit(w, i)
  {
  }

  /** get10bitsWord on the caller's buffer: the ten bits of the stream that start at bit 10 * pos. */
  method GetTenBitsWord(buffer: array<Byte>, pos: nat) returns (w: bv32)
    requires InRange(buffer.Length, pos)
    ensures w < 1024 && w == Get10(buffer[..], pos)
    ensures forall i :: 0 <= i < 10 ==>
              (10 * pos + i) / 8 < buffer.Length && WordBit(w, i) == StreamBit(buffer[..], 10 * pos + i)
  {
    hide StreamBit, WordBit, Join;
    var p, o := FirstByte(pos), pos % 4;
    w := Join(buffer[p], buffer[p + 1], o);
    forall i | 0 <= i < 10
      ensures (10 * pos + i) / 8 < buffer.Length && WordBit(w, i) == StreamBit(buffer[..], 10 * pos + i)
    {
      GetReadsStream(buffer[..], pos, i);
    }
  }

  /** set10bitsWord on the caller's buffer: those ten bits of the stream become the word's, no other changes. */
  method SetTenBitsWord(buffer: array<Byte>, pos: nat, w: bv32)
    requires InRange(buffer.Length, pos)
    modifies buffer
    ensures buffer[..] == Put10(old(buffer[..]), pos, w)
    ensures forall i: nat :: i / 8 < buffer.Length ==> BitWritten(old(buffer[..]), buffer[..], pos, w, i)
  {
    hide StreamBit, WordBit, NewFirst, NewSecond;
    ghost var was := buffer[..];
    var p, o := FirstByte(pos), pos % 4;
    buffer[p] := NewFirst(buffer[p], w, o);
    buffer[p + 1] := NewSecond(buffer[p + 1], w, o);
    assert buffer[..] == Put10(was, pos, w);
    forall i: nat | i / 8 < buffer.Length ensures BitWritten(was, buffer[..], pos, w, i) {
      PutWritesStream(was, pos, w, i);
    }
  }

  /** Bit i of the stream is the word's if it is one of the ten at the position, and otherwise what it was. */
  predicate BitWritten(was: seq<Byte>, now: seq<Byte>, pos: nat, w: bv32, i: nat)
    requires i / 8 < |was| == |now|
  {
    StreamBit(now, i) == if 10 * pos <= i < 10 * pos + 10 then WordBit(w, i - 10 * pos) else StreamBit(was, i)
  }
}
