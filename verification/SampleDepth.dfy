/** Conversion of packed 10-bit samples to bytes and back. */
module SampleDepth {
  import opened TenBit

  /** The eight most significant bits of a 10-bit word. */
  function Top8(w: bv32): Byte
  {
    Low8(w >> 2)
  }

  lemma WholeGroups(size: nat, k: nat)
    requires k < size / 5 * 4
    ensures InRange(size, k)
  {
  }

  /** What the 10-to-8 conversion means: sample k is the top of word k; a partial last group is dropped. */
  function To8(buf: seq<Byte>): (r: seq<Byte>)
    ensures |r| == |buf| / 5 * 4
  {
    seq(|buf| / 5 * 4, k requires 0 <= k < |buf| / 5 * 4 => WholeGroups(|buf|, k); Top8(Get10(buf, k)))
  }

  /** Legal range of a sample: luma at odd places, chroma at even ones. */
  function Clamp(i: nat, x: Byte): (y: Byte)
    ensures 16 <= y <= (if i % 2 == 1 then 235 else 240)
    ensures 16 <= x <= (if i % 2 == 1 then 235 else 240) ==> y == x
    ensures x > (if i % 2 == 1 then 235 else 240) ==> y == (if i % 2 == 1 then 235 else 240)
  {
    var top: Byte := if i % 2 == 1 then 235 else 240;
    var low := if x < top then x else top;
    if 16 > low then 16 else low
  }

  /** Word k of the 8-to-10 conversion. */
  function Wide(i: nat, x: Byte): (w: bv32)
    ensures w < 1024 && Top8(w) == Clamp(i, x)
  {
    (Clamp(i, x) as bv32) << 2
  }

  /** Byte m of five, packed from four words as convert8bitsto10bits packs them. */
  function Pack(w0: bv32, w1: bv32, w2: bv32, w3: bv32, m: nat): Byte
    requires m < 5
  {
    if m == 0 then Low8((w0 & 0x3FC) >> 2)
    else if m == 1 then Low8(((w0 & 0x003) << 6) + ((w1 & 0x3F0) >> 4))
    else if m == 2 then Low8(((w1 & 0x00F) << 4) + ((w2 & 0x3C0) >> 6))
    else if m == 3 then Low8(((w2 & 0x03F) << 2) + ((w3 & 0x300) >> 8))
    else Low8(w3 & 0x0FF)
  }

  lemma PackThenJoin(w0: bv32, w1: bv32, w2: bv32, w3: bv32)
    requires w0 < 1024 && w1 < 1024 && w2 < 1024 && w3 < 1024
    ensures Join(Pack(w0, w1, w2, w3, 0), Pack(w0, w1, w2, w3, 1), 0) == w0
    ensures Join(Pack(w0, w1, w2, w3, 1), Pack(w0, w1, w2, w3, 2), 1) == w1
    ensures Join(Pack(w0, w1, w2, w3, 2), Pack(w0, w1, w2, w3, 3), 2) == w2
    ensures Join(Pack(w0, w1, w2, w3, 3), Pack(w0, w1, w2, w3, 4), 3) == w3
  {
  }

  function Packed(w0: bv32, w1: bv32, w2: bv32, w3: bv32): (r: seq<Byte>)
    ensures |r| == 5
  {
    [Pack(w0, w1, w2, w3, 0), Pack(w0, w1, w2, w3, 1), Pack(w0, w1, w2, w3, 2), Pack(w0, w1, w2, w3, 3),
     Pack(w0, w1, w2, w3, 4)]
  }

  /** The conversion of one complete group of four samples, the first of them sample i. */
  function Group10(xs: seq<Byte>, i: nat): (r: seq<Byte>)
    requires |xs| == 4
    ensures |r| == 5
  {
    var w0, w1, w2, w3 := Wide(i, xs[0]), Wide(i + 1, xs[1]), Wide(i + 2, xs[2]), Wide(i + 3, xs[3]);
    Packed(w0, w1, w2, w3)
  }

  /** What the 8-to-10 conversion writes for the first n groups of four samples. */
  function Groups10(xs: seq<Byte>, n: nat): (r: seq<Byte>)
    requires 4 * n <= |xs|
    ensures |r| == 5 * n
  {
    if n == 0 then [] else Groups10(xs, n - 1) + Group10(xs[4 * n - 4..4 * n], 4 * n - 4)
  }

  /** The whole conversion; a partial last group is dropped. */
  function To10(xs: seq<Byte>): seq<Byte> { Groups10(xs, |xs| / 4) }

  lemma GroupWord(xs: seq<Byte>, i: nat, j: nat)
    requires |xs| == 4 && j < 4
    ensures Join(Group10(xs, i)[j], Group10(xs, i)[j + 1], j) == Wide(i + j, xs[j])
  {
    hide Join, Pack, Wide;
    PackThenJoin(Wide(i, xs[0]), Wide(i + 1, xs[1]), Wide(i + 2, xs[2]), Wide(i + 3, xs[3]));
  }

  /** Byte j of group g stays where it was written. */
  lemma {:induction false} ByteOfGroup(xs: seq<Byte>, n: nat, g: nat, j: nat)
    requires 4 * n <= |xs| && g < n && j < 5
    ensures Groups10(xs, n)[5 * g + j] == Group10(xs[4 * g..4 * g + 4], 4 * g)[j]
  {
    hide Group10;
    if g < n - 1 { ByteOfGroup(xs, n - 1, g, j); }
  }

  /** Word k of the packed stream is the clamped sample k, shifted up. */
  lemma WordOfTo10(xs: seq<Byte>, k: nat)
    requires k < |xs| / 4 * 4
    ensures InRange(|To10(xs)|, k)
    ensures Get10(To10(xs), k) == Wide(k, xs[k])
  {
    hide Join, Wide, Group10, Groups10;
    var g, j := k / 4, k % 4;
    ByteOfGroup(xs, |xs| / 4, g, j);
    ByteOfGroup(xs, |xs| / 4, g, j + 1);
    GroupWord(xs[4 * g..4 * g + 4], 4 * g, j);
  }

  /** 10-to-8 after 8-to-10 is the clamp at every index: the identity on samples in legal range. */
  lemma RoundTripIsClamp(xs: seq<Byte>)
    requires |xs| % 4 == 0
    ensures |To8(To10(xs))| == |xs|
    ensures forall k :: 0 <= k < |xs| ==> To8(To10(xs))[k] == Clamp(k, xs[k])
  {
    hide Get10, Wide, Clamp, Groups10, Top8;
    forall k | 0 <= k < |xs|
      ensures To8(To10(xs))[k] == Clamp(k, xs[k])
    {
      WordOfTo10(xs, k);
    }
  }

  // ---- What the conversions mean, bit by bit ----

  /** A sample has the first eight of the ten bits of word k. */
  predicate IsTopOf(sample: Byte, buf: seq<Byte>, k: nat)
  {
    (10 * k + 7) / 8 < |buf| && forall i :: 0 <= i < 8 ==> ByteBit(sample, i) == StreamBit(buf, 10 * k + i)
  }

  lemma TopBits(w: bv32, i: nat)
    requires i < 8
    ensures ByteBit(Top8(w), i) == WordBit(w, i)
  {
  }

  lemma SampleIsTop(buf: seq<Byte>, k: nat)
    requires k < |buf| / 5 * 4
    ensures IsTopOf(To8(buf)[k], buf, k)
  {
    WholeGroups(|buf|, k);
    var w := Get10(buf, k);
    assert To8(buf)[k] == Top8(w);
    hide Get10, ByteBit, StreamBit, WordBit, Top8;
    GetReadsStream(buf, k, 7);
    forall i | 0 <= i < 8 ensures ByteBit(Top8(w), i) == StreamBit(buf, 10 * k + i) {
      TopBits(w, i);
      GetReadsStream(buf, k, i);
    }
  }

  lemma SamplesAreTops(buf: seq<Byte>)
    ensures forall k :: 0 <= k < |buf| / 5 * 4 ==> IsTopOf(To8(buf)[k], buf, k)
  {
    hide IsTopOf, To8;
    forall k | 0 <= k < |buf| / 5 * 4 ensures IsTopOf(To8(buf)[k], buf, k) { SampleIsTop(buf, k); }
  }

  /** Four times the sample, made legal: at least 16, at most 235 at odd places and 240 at even ones. */
  function LegalWord(k: nat, x: Byte): bv32
  {
    if x < 16 then 64 else if k % 2 == 1 && x > 235 then 940 else if k % 2 == 0 && x > 240 then 960 else 4 * (x as bv32)
  }

  lemma WideIsLegal(k: nat, x: Byte)
    ensures Wide(k, x) == LegalWord(k, x)
  {
  }

  lemma WordsAreLegal(xs: seq<Byte>)
    ensures forall k :: 0 <= k < |xs| / 4 * 4 ==> InRange(|To10(xs)|, k) && Get10(To10(xs), k) == LegalWord(k, xs[k])
  {
    hide Get10, Wide, To10, LegalWord, InRange;
    forall k | 0 <= k < |xs| / 4 * 4
      ensures InRange(|To10(xs)|, k) && Get10(To10(xs), k) == LegalWord(k, xs[k])
    {
      WordOfTo10(xs, k);
      WideIsLegal(k, xs[k]);
    }
  }

  /** The four samples of one group of five bytes. */
  function Samples(five: seq<Byte>): (r: seq<Byte>)
    requires |five| == 5
    ensures |r| == 4
  {
    [Top8(Join(five[0], five[1], 0)), Top8(Join(five[1], five[2], 1)),
     Top8(Join(five[2], five[3], 2)), Top8(Join(five[3], five[4], 3))]
  }

  /** One turn of the loop of convert10bitsto8bits: the group is read before its samples are written. */
  method ConvertGroup(input: array<Byte>, from: nat, out: array<Byte>, to: nat)
    requires from + 5 <= input.Length && to + 4 <= out.Length
    modifies out
    ensures out[..] == old(out[..to]) + Samples(old(input[from..from + 5])) + old(out[to + 4..])
  {
    hide Join, Top8;
    var b0, b1, b2, b3, b4 := input[from], input[from + 1], input[from + 2], input[from + 3], input[from + 4];
    ghost var five := input[from..from + 5];
    assert five == [b0, b1, b2, b3, b4];
    var w0, w1, w2, w3 := Join(b0, b1, 0), Join(b1, b2, 1), Join(b2, b3, 2), Join(b3, b4, 3);
    var t0, t1, t2, t3 := Top8(w0), Top8(w1), Top8(w2), Top8(w3);
    assert Samples(five) == [t0, t1, t2, t3];
    hide *;
    out[to] := t0;
    out[to + 1] := t1;
    out[to + 2] := t2;
    out[to + 3] := t3;
  }

  /** The samples of the first g groups are in place. */
  predicate Converted(out: seq<Byte>, was: seq<Byte>, g: nat)
  {
    4 * g <= |out| && 5 * g <= |was| && out[..4 * g] == To8(was)[..4 * g]
  }

  /** The groups from g on are still to be read. */
  predicate Unread(input: seq<Byte>, was: seq<Byte>, g: nat)
  {
    5 * g <= |was| <= |input| && input[5 * g..|was|] == was[5 * g..]
  }

  /** Writing the samples of group g converts it. */
  lemma OneMoreGroup(out: seq<Byte>, out': seq<Byte>, was: seq<Byte>, g: nat)
    requires Converted(out, was, g) && 5 * g + 5 <= |was| && 4 * g + 4 <= |out|
    requires out' == out[..4 * g] + Samples(was[5 * g..5 * g + 5]) + out[4 * g + 4..]
    ensures Converted(out', was, g + 1)
  {
    hide Samples, To8;
    GroupOfFour(was, g);
    assert out'[..4 * g + 4] == out[..4 * g] + Samples(was[5 * g..5 * g + 5]);
  }

  /** A write before the next group leaves it unread. */
  lemma StaysUnread(input: seq<Byte>, input': seq<Byte>, was: seq<Byte>, g: nat)
    requires Unread(input, was, g) && 5 * g + 5 <= |was| && |input'| == |input|
    requires input'[5 * g + 5..] == input[5 * g + 5..]
    ensures Unread(input', was, g + 1) && input[5 * g..5 * g + 5] == was[5 * g..5 * g + 5]
  {
    var rest := input[5 * g..|was|];
    assert rest[..5] == input[5 * g..5 * g + 5] && rest[5..] == input[5 * g + 5..|was|];
    assert was[5 * g..][..5] == was[5 * g..5 * g + 5] && was[5 * g..][5..] == was[5 * g + 5..];
    assert input'[5 * g + 5..|was|] == input'[5 * g + 5..][..|was| - 5 * g - 5];
    assert input[5 * g + 5..|was|] == input[5 * g + 5..][..|was| - 5 * g - 5];
  }

  lemma TailStays(out: seq<Byte>, out': seq<Byte>, at: nat, four: seq<Byte>, from: nat)
    requires |four| == 4 && at + 4 <= from <= |out| && out' == out[..at] + four + out[at + 4..]
    ensures |out'| == |out| && out'[from..] == out[from..]
  {
  }

  /**
   convert10bitsto8bits. The two buffers may be the same one: the samples never reach a group still to be
   read.
   */
  method Convert10To8(input: array<Byte>, inSize: nat, out: array<Byte>)
    requires inSize <= input.Length && inSize / 5 * 4 <= out.Length
    modifies out
    ensures out[..inSize / 5 * 4] == To8(old(input[..inSize]))
    ensures out[inSize / 5 * 4..] == old(out[inSize / 5 * 4..])
    ensures var samples := out[..inSize / 5 * 4];
            forall k :: 0 <= k < |samples| ==> IsTopOf(samples[k], old(input[..inSize]), k)
  {
    SamplesAreTops(input[..inSize]);
    hide Samples, To8, Converted, Unread, Sized, IsTopOf;
    ghost var was, size := input[..inSize], Sized(inSize);
    assert size == inSize / 5 * 4 by { SizedIs(inSize); }
    NothingConverted(input[..], out[..], was);
    var g := 0;
    while 5 * g + 5 <= inSize
      invariant 5 * g <= inSize && Converted(out[..], was, g) && Unread(input[..], was, g)
      invariant out[size..] == old(out[size..])
    {
      NextOfLoop(input, out, was, g, size);
      g := g + 1;
    }
    AllConverted(out[..], was, g);
  }

  /** One turn of its loop, seen from the whole buffers. */
  method NextOfLoop(input: array<Byte>, out: array<Byte>, ghost was: seq<Byte>, g: nat, ghost size: nat)
    requires |was| <= input.Length && size == Sized(|was|) <= out.Length && 5 * g + 5 <= |was|
    requires Converted(out[..], was, g) && Unread(input[..], was, g)
    modifies out
    ensures Converted(out[..], was, g + 1) && Unread(input[..], was, g + 1) && out[size..] == old(out[size..])
  {
    hide Samples, To8, Converted, Unread, Sized;
    GroupHasRoom(|was|, g);
    ghost var a, b, four := input[..], out[..], Samples(input[5 * g..5 * g + 5]);
    ConvertGroup(input, 5 * g, out, 4 * g);
    TailStays(b, out[..], 4 * g, four, size);
    if 5 * g + 5 <= out.Length { TailStays(b, out[..], 4 * g, four, 5 * g + 5); }
    StaysUnread(a, input[..], was, g);
    OneMoreGroup(b, out[..], was, g);
  }

  /** The number of samples in some bytes. */
  function Sized(bytes: nat): nat { bytes / 5 * 4 }

  lemma SizedIs(bytes: nat)
    ensures Sized(bytes) == bytes / 5 * 4
  {
  }

  lemma GroupHasRoom(bytes: nat, g: nat)
    requires 5 * g + 5 <= bytes
    ensures 4 * g + 4 <= Sized(bytes)
  {
  }

  lemma NothingConverted(input: seq<Byte>, out: seq<Byte>, was: seq<Byte>)
    requires |was| <= |input| && was == input[..|was|]
    ensures Converted(out, was, 0) && Unread(input, was, 0)
  {
  }

  lemma AllConverted(out: seq<Byte>, was: seq<Byte>, g: nat)
    requires Converted(out, was, g) && 5 * g + 5 > |was|
    ensures |was| / 5 * 4 <= |out| && out[..|was| / 5 * 4] == To8(was)
  {
    assert g == |was| / 5;
    assert To8(was)[..|was| / 5 * 4] == To8(was);
  }

  lemma SampleOf(buf: seq<Byte>, g: nat, j: nat)
    requires 5 * g + 5 <= |buf| && j < 4
    ensures 4 * g + j < |To8(buf)| && To8(buf)[4 * g + j] == Top8(Join(buf[5 * g + j], buf[5 * g + j + 1], j))
  {
    hide Join, Top8;
    assert FirstByte(4 * g + j) == 5 * g + j && (4 * g + j) % 4 == j;
  }

  lemma GroupOfFour(buf: seq<Byte>, g: nat)
    requires 5 * g + 5 <= |buf|
    ensures 4 * g + 4 <= |To8(buf)|
    ensures To8(buf)[..4 * g + 4] == To8(buf)[..4 * g] + Samples(buf[5 * g..5 * g + 5])
  {
    hide Join, Top8, To8;
    SampleOf(buf, g, 0);
    SampleOf(buf, g, 1);
    SampleOf(buf, g, 2);
    SampleOf(buf, g, 3);
    var all, four := To8(buf), Samples(buf[5 * g..5 * g + 5]);
    assert all[4 * g..4 * g + 4] == four;
    hide Samples;
    assert all[..4 * g + 4] == all[..4 * g] + all[4 * g..4 * g + 4];
  }

  method WriteGroup(out: array<Byte>, o: nat, w0: bv32, w1: bv32, w2: bv32, w3: bv32)
    requires o + 5 <= out.Length
    modifies out
    ensures out[..] == old(out[..o]) + Packed(w0, w1, w2, w3) + old(out[o + 5..])
  {
    hide Pack;
    out[o], out[o + 1] := Pack(w0, w1, w2, w3, 0), Pack(w0, w1, w2, w3, 1);
    out[o + 2], out[o + 3] := Pack(w0, w1, w2, w3, 2), Pack(w0, w1, w2, w3, 3);
    out[o + 4] := Pack(w0, w1, w2, w3, 4);
  }

  lemma NoGroups(xs: seq<Byte>)
    ensures Groups10(xs, 0) == []
  {
  }

  lemma NextGroup(xs: seq<Byte>, g: nat, w0: bv32, w1: bv32, w2: bv32, w3: bv32)
    requires 4 * g + 4 <= |xs|
    requires w0 == Wide(4 * g, xs[4 * g]) && w1 == Wide(4 * g + 1, xs[4 * g + 1])
    requires w2 == Wide(4 * g + 2, xs[4 * g + 2]) && w3 == Wide(4 * g + 3, xs[4 * g + 3])
    ensures Groups10(xs, g + 1) == Groups10(xs, g) + Packed(w0, w1, w2, w3)
  {
    hide Wide, Packed;
    var four := xs[4 * g..4 * g + 4];
    assert four[0] == xs[4 * g] && four[1] == xs[4 * g + 1] && four[2] == xs[4 * g + 2] && four[3] == xs[4 * g + 3];
  }

  /** convert8bitsto10bits, into a buffer of its own. */
  method Convert8To10(input: array<Byte>, inSize: nat, out: array<Byte>)
    requires input != out && inSize <= input.Length && inSize / 4 * 5 <= out.Length
    modifies out
    ensures out[..inSize / 4 * 5] == To10(input[..inSize])
    ensures out[inSize / 4 * 5..] == old(out[inSize / 4 * 5..])
    ensures var words := out[..inSize / 4 * 5];
            forall k :: 0 <= k < inSize / 4 * 4 ==> InRange(|words|, k) && Get10(words, k) == LegalWord(k, input[k])
  {
    hide Wide, Clamp, Packed, Groups10, Group10, Get10, LegalWord, InRange;
    NoGroups(input[..inSize]);
    ghost var samples, size := input[..inSize], inSize / 4 * 5;
    var g := 0;
    while 4 * g + 4 <= inSize
      invariant 4 * g <= inSize
      invariant input[..inSize] == samples
      invariant out[..5 * g] == Groups10(samples, g)
      invariant out[size..] == old(out[size..])
    {
      ghost var was := out[..];
      ghost var group := WidenGroup(input, 4 * g, out, 5 * g, samples, g);
      Replaced(was, out[..], 5 * g, group, size);
      g := g + 1;
    }
    WordsAreLegal(samples);
  }

  /** One turn of its loop. */
  method WidenGroup(input: array<Byte>, i: nat, out: array<Byte>, o: nat, ghost samples: seq<Byte>, ghost g: nat)
      returns (ghost group: seq<Byte>)
    requires input != out && i + 4 <= input.Length && o + 5 <= out.Length
    requires i == 4 * g && 4 * g + 4 <= |samples| <= input.Length && samples == input[..|samples|]
    modifies out
    ensures |group| == 5 && out[..] == old(out[..o]) + group + old(out[o + 5..])
    ensures Groups10(samples, g + 1) == Groups10(samples, g) + group
  {
    hide Wide, Packed, Groups10;
    var w0, w1 := Wide(i, input[i]), Wide(i + 1, input[i + 1]);
    var w2, w3 := Wide(i + 2, input[i + 2]), Wide(i + 3, input[i + 3]);
    NextGroup(samples, g, w0, w1, w2, w3);
    group := Packed(w0, w1, w2, w3);
    WriteGroup(out, o, w0, w1, w2, w3);
  }

  lemma Replaced(was: seq<Byte>, now: seq<Byte>, o: nat, group: seq<Byte>, size: nat)
    requires |group| == 5 && o + 5 <= size <= |was| && now == was[..o] + group + was[o + 5..]
    ensures now[..o + 5] == was[..o] + group && now[size..] == was[size..]
  {
  }
}
