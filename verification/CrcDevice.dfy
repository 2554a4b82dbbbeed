/** The class CSMPTPCrc: its table, its register, and what its results mean for the scan line it was fed. */
module CrcDevice {
  import opened TenBit
  import opened Crc18
  import opened CrcTheory

  /** Bit i of a word, counted from its least significant one. */
  predicate Bit(c: Word32, i: nat)
  {
    if i == 0 then Low(c) == 1 else Bit(Half(c), i - 1)
  }

  /** The n low bits of a word, least significant first: the order in which they enter the register. */
  function LowBits(w: Word32, n: nat): (s: seq<bool>)
    ensures |s| == n
  {
    seq(n, i requires 0 <= i < n => Bit(w, i))
  }

  /** The register as bits. */
  function RegBits(c: Word32): (r: seq<bool>)
    ensures |r| == WIDTH
  {
    LowBits(c, WIDTH)
  }

  lemma LowDiffers(a: Word32, b: Word32)
    requires IsBit(a) && IsBit(b)
    ensures (Xor(a, b) == 1) == ((a == 1) != (b == 1))
  {
  }

  lemma {:induction false} BitOfXor(c: Word32, d: Word32, i: nat)
    ensures Bit(Xor(c, d), i) == (Bit(c, i) != Bit(d, i))
    decreases i
  {
    hide Xor, Low, Half, IsBit;
    if i == 0 {
      LowIsLinear(c, d);
      LowIsBit(c);
      LowIsBit(d);
      LowDiffers(Low(c), Low(d));
    } else {
      HalfIsLinear(c, d);
      BitOfXor(Half(c), Half(d), i - 1);
    }
  }

  lemma RegHasNoHighBits(c: Word32)
    requires IsReg(c)
    ensures Half5(Half5(Half5(c))) < 8
  {
  }

  lemma Under8(c: Word32)
    requires c < 8
    ensures Low(Half(Half(Half(c)))) == 0
  {
  }

  lemma BitSkipsFive(c: Word32, i: nat)
    ensures Bit(c, i + 5) == Bit(Half5(c), i)
  {
    hide Half, Low;
    var h := Half(Half(Half(c)));
    assert Bit(c, i + 5) == Bit(Half(c), i + 4) == Bit(Half(Half(c)), i + 3) == Bit(h, i + 2);
    assert Bit(h, i + 2) == Bit(Half(h), i + 1) == Bit(Half(Half(h)), i);
  }

  /** A register has no bit 18. */
  lemma NoBit18(c: Word32)
    requires IsReg(c)
    ensures !Bit(c, 18)
  {
    hide Half5, Half, Low;
    var a := Half5(c);
    var b := Half5(a);
    var d := Half5(b);
    BitSkipsFive(c, 13);
    BitSkipsFive(a, 8);
    BitSkipsFive(b, 3);
    RegHasNoHighBits(c);
    Under8(d);
    assert Bit(d, 3) == Bit(Half(d), 2) == Bit(Half(Half(d)), 1) == Bit(Half(Half(Half(d))), 0);
  }

  /** The feedback taps sit at bits 12, 13 and 17. */
  lemma TapBits(fb: Word32, i: nat)
    requires IsBit(fb) && i < WIDTH
    ensures Bit(Taps(fb), i) == (fb == 1 && (i == 12 || i == 13 || i == 17))
  {
    if fb == 1 { OnesOfTaps(0, i); } else { NoOnes(i); }
  }

  lemma {:induction false} NoOnes(i: nat)
    ensures !Bit(0, i)
  {
    if i > 0 { NoOnes(i - 1); }
  }

  /** The taps after j shifts. */
  function TapsAfter(j: nat): Word32
  {
    if j == 0 then 0x23000
    else if j == 1 then 0x11800
    else if j == 2 then 0x8c00
    else if j == 3 then 0x4600
    else if j == 4 then 0x2300
    else if j == 5 then 0x1180
    else if j == 6 then 0x8c0
    else if j == 7 then 0x460
    else if j == 8 then 0x230
    else if j == 9 then 0x118
    else if j == 10 then 0x8c
    else if j == 11 then 0x46
    else if j == 12 then 0x23
    else if j == 13 then 0x11
    else if j == 14 then 0x8
    else if j == 15 then 0x4
    else if j == 16 then 0x2
    else if j == 17 then 0x1 else 0
  }

  lemma TapsShift(j: nat)
    requires j < WIDTH
    ensures Half(TapsAfter(j)) == TapsAfter(j + 1)
  {
  }

  lemma TapsLow(j: nat)
    requires j < WIDTH
    ensures (Low(TapsAfter(j)) == 1) == (j == 12 || j == 13 || j == 17)
  {
  }

  lemma {:induction false} OnesOfTaps(j: nat, i: nat)
    requires j + i < WIDTH
    ensures Bit(TapsAfter(j), i) == (j + i == 12 || j + i == 13 || j + i == 17)
    decreases i
  {
    hide TapsAfter, Half, Low;
    if i == 0 {
      TapsLow(j);
    } else {
      TapsShift(j);
      OnesOfTaps(j + 1, i - 1);
    }
  }

  /** The step of the code is the step of the theory. */
  lemma StepBits(c: Word32, a: Word32)
    requires IsReg(c) && IsBit(a)
    ensures RegBits(Step(c, a)) == StepB(RegBits(c), a == 1)
  {
    hide Step, Taps, Xor, Half, Low;
    LowIsBit(c);
    LowDiffers(Low(c), a);
    SumIsBit(Low(c), a);
    StepForm(c, a);
    NoBit18(c);
    var fb := Xor(Low(c), a);
    forall i | 0 <= i < WIDTH
      ensures RegBits(Step(c, a))[i] == StepB(RegBits(c), a == 1)[i]
    {
      BitOfXor(Half(c), Taps(fb), i);
      TapBits(fb, i);
      assert Bit(Half(c), i) == Bit(c, i + 1);
    }
  }

  lemma {:induction false} FeedBits(c: Word32, w: Word32, n: nat)
    requires IsReg(c)
    ensures IsReg(Feed(c, w, n)) && RegBits(Feed(c, w, n)) == Run(RegBits(c), LowBits(w, n))
    decreases n
  {
    hide Step, Half, Low;
    if n > 0 {
      LowIsBit(w);
      StepKeepsReg(c, Low(w));
      StepBits(c, Low(w));
      FeedBits(Step(c, Low(w)), Half(w), n - 1);
      assert LowBits(w, n)[1..] == LowBits(Half(w), n - 1);
    }
  }

  lemma {:induction false} ZeroBits()
    ensures RegBits(0) == Zeros(WIDTH)
  {
    forall i | 0 <= i < WIDTH ensures !Bit(0, i) { NoOnes(i); }
  }

  /** The bits of a sequence of 10-bit words in the order in which the register takes them. */
  function MessageBits(words: seq<Word32>): seq<bool>
    decreases |words|
  {
    if words == [] then []
    else MessageBits(words[..|words| - 1]) + LowBits(words[|words| - 1], 10)
  }

  lemma FirstFive(c: Word32)
    ensures Bit(c, 0) == (c & 0x1 != 0) && Bit(c, 1) == (c & 0x2 != 0) && Bit(c, 2) == (c & 0x4 != 0)
    ensures Bit(c, 3) == (c & 0x8 != 0) && Bit(c, 4) == (c & 0x10 != 0)
  {
    var c1 := Half(c);
    var c2 := Half(c1);
    var c3 := Half(c2);
    BitAfter(c, 1);
    BitAfter(c, 2);
    BitAfter(c1, 1);
    BitAfter(c, 3);
    BitAfter(c1, 2);
    BitAfter(c2, 1);
    BitAfter(c, 4);
    BitAfter(c1, 3);
    BitAfter(c2, 2);
    BitAfter(c3, 1);
    hide Bit, Half;
    LowestBit(c);
    LowestBit(c1);
    LowestBit(c2);
    LowestBit(c3);
    LowestBit(Half(c3));
    HalfMasks(c);
    HalfMasks(c1);
    HalfMasks(c2);
    HalfMasks(c3);
  }

  lemma BitAfter(c: Word32, i: nat)
    requires i > 0
    ensures Bit(c, i) == Bit(Half(c), i - 1)
  {
    hide Half;
  }

  lemma LowestBit(c: Word32)
    ensures Bit(c, 0) == (c & 0x1 != 0)
  {
  }

  lemma HalfMasks(c: Word32)
    ensures (Half(c) & 0x1 != 0) == (c & 0x2 != 0) && (Half(c) & 0x2 != 0) == (c & 0x4 != 0)
    ensures (Half(c) & 0x4 != 0) == (c & 0x8 != 0) && (Half(c) & 0x8 != 0) == (c & 0x10 != 0)
  {
  }

  lemma Shift5(c: Word32)
    ensures var h := Half5(c);
            && (h & 0x1 != 0) == (c & 0x20 != 0) && (h & 0x2 != 0) == (c & 0x40 != 0)
            && (h & 0x4 != 0) == (c & 0x80 != 0) && (h & 0x8 != 0) == (c & 0x100 != 0)
            && (h & 0x10 != 0) == (c & 0x200 != 0)
  {
  }

  lemma LowByte(c: Word32)
    ensures Low8(c) & 0x01 != 0 <==> c & 0x1 != 0
    ensures Low8(c) & 0x02 != 0 <==> c & 0x2 != 0
    ensures Low8(c) & 0x04 != 0 <==> c & 0x4 != 0
    ensures Low8(c) & 0x08 != 0 <==> c & 0x8 != 0
    ensures Low8(c) & 0x10 != 0 <==> c & 0x10 != 0
    ensures Low8(c) & 0x20 != 0 <==> c & 0x20 != 0
    ensures Low8(c) & 0x40 != 0 <==> c & 0x40 != 0
    ensures Low8(c) & 0x80 != 0 <==> c & 0x80 != 0
  {
  }

  /** Bit i of a word from its top is bit 9 - i from its bottom. */
  lemma BitsFromBothEnds(w: Word32, i: nat)
    requires i < 10
    ensures WordBit(w, i) == Bit(w, 9 - i)
  {
    FirstFive(w);
    FirstFive(Half5(w));
    Shift5(w);
    LowByte(w);
    if i < 5 { BitSkipsFive(w, 4 - i); }
    hide Half5, Low8, Bit;
  }

  /** The register takes the words in order, and of each word the lowest bit first. */
  lemma {:induction false} MessageBit(words: seq<Word32>, i: nat, j: nat)
    requires i < |words| && j < 10
    ensures |MessageBits(words)| == 10 * |words| && MessageBits(words)[10 * i + j] == WordBit(words[i], 9 - j)
    decreases |words|
  {
    hide WordBit, Bit;
    var n := |words| - 1;
    MessageLength(words);
    MessageLength(words[..n]);
    if i < n { MessageBit(words[..n], i, j); } else { BitsFromBothEnds(words[i], 9 - j); }
  }

  lemma MessageMore(words: seq<Word32>, w: Word32)
    ensures Run(Zeros(WIDTH), MessageBits(words + [w])) == Run(Run(Zeros(WIDTH), MessageBits(words)), LowBits(w, 10))
  {
    assert (words + [w])[..|words|] == words;
    hide LowBits, Run;
    RunAppend(Zeros(WIDTH), MessageBits(words), LowBits(w, 10));
  }

  lemma {:induction false} MessageLength(words: seq<Word32>)
    ensures |MessageBits(words)| == 10 * |words|
    decreases |words|
  {
    if words != [] { MessageLength(words[..|words| - 1]); }
  }

  /** Where word i of a scan line is: every `step`-th word from `start` on. */
  function LinePos(start: int, step: int, i: nat): int { start + i * step }

  /** A word that has the ten bits of the stream that start at bit 10 * pos. */
  predicate IsWordAt(w: Word32, buf: seq<Byte>, pos: int)
  {
    && 0 <= pos && (10 * pos + 9) / 8 < |buf|
    && forall j :: 0 <= j < 10 ==> WordBit(w, j) == StreamBit(buf, 10 * pos + j)
  }

  lemma ReadIsWord(w: Word32, buf: seq<Byte>, pos: nat)
    requires InRange(|buf|, pos) && w == Get10(buf, pos)
    ensures IsWordAt(w, buf, pos)
  {
    hide Get10, WordBit, StreamBit;
    GetReadsStream(buf, pos, 9);
    forall j | 0 <= j < 10
      ensures (10 * pos + j) / 8 < |buf| && WordBit(w, j) == StreamBit(buf, 10 * pos + j)
    {
      GetReadsStream(buf, pos, j);
    }
  }

  ghost predicate LineInRange(size: nat, start: int, step: int, n: nat)
  {
    forall i: nat :: i < n ==> LinePos(start, step, i) >= 0 && InRange(size, LinePos(start, step, i))
  }

  /** Entry w is the register after the ten bits of w, starting from zero. */
  ghost predicate TableOk(table: seq<Word32>)
  {
    |table| == 1024 && forall w: Word32 :: w < 1024 ==> Index(w) < 1024 && table[Index(w)] == Feed(0, w, 10)
  }

  function Index(w: Word32): nat { w as nat }

  lemma IndexInRange(w: Word32)
    requires w < 1024
    ensures Index(w) < 1024
  {
  }

  lemma IndexIsInjective(v: Word32, w: Word32)
    requires Index(v) == Index(w)
    ensures v == w
  {
    assert (v as nat) as bv32 == v && (w as nat) as bv32 == w;
  }

  lemma IndexOfNext(w: Word32)
    requires w < 1024
    ensures Index(w + 1) == Index(w) + 1
  {
  }

  lemma UpTo(v: Word32, w: Word32)
    requires w < 1024 && v < w + 1
    ensures v == w || v < w
  {
  }

  /** The entries below j are in place. */
  ghost predicate Filled(table: seq<Word32>, j: Word32)
  {
    |table| == 1024 && forall w: Word32 :: w < j ==> Index(w) < 1024 && table[Index(w)] == Feed(0, w, 10)
  }

  lemma FillNext(table: seq<Word32>, j: Word32)
    requires Filled(table, j) && j < 1024 && Index(j) < 1024
    ensures Filled(table[Index(j) := Feed(0, j, 10)], j + 1)
  {
    hide Feed, Index;
    var t := table[Index(j) := Feed(0, j, 10)];
    forall w: Word32 | w < j + 1
      ensures Index(w) < 1024 && t[Index(w)] == Feed(0, w, 10)
    {
      UpTo(w, j);
      if Index(w) == Index(j) { IndexIsInjective(w, j); }
    }
  }

  /** The inner loop of precomputeTable. */
  method TableEntry(j: Word32) returns (crc: Word32)
    ensures crc == Feed(0, j, 10)
  {
    hide Step, Half, Low;
    var word := j;
    crc := 0;
    for i := 0 to 10
      invariant Feed(crc, word, 10 - i) == Feed(0, j, 10)
    {
      crc := Step(crc, Low(word));
      word := Half(word);
    }
  }

  /** precomputeTable */
  method PrecomputeTable() returns (table: array<Word32>)
    ensures fresh(table) && TableOk(table[..])
  {
    hide Feed, Index;
    table := new Word32[1024];
    var j: Word32 := 0;
    while j < 1024
      invariant j <= 1024
      invariant Filled(table[..], j)
      decreases 1024 - Index(j)
    {
      IndexInRange(j);
      IndexOfNext(j);
      FillNext(table[..], j);
      var crc := TableEntry(j);
      table[Index(j)] := crc;
      j := j + 1;
    }
  }

  class SmpteCrc {
    var crc: Word32
    const table: array<Word32>

    ghost predicate Valid()
      reads this, table
    {
      IsReg(crc) && TableOk(table[..])
    }

    constructor (shared: array<Word32>)
      requires TableOk(shared[..])
      ensures Valid() && crc == 0 && table == shared
    {
      table := shared;
      crc := 0;
      new;
      ZeroIsReg();
    }

    method Reset()
      requires Valid()
      modifies this
      ensures Valid() && crc == 0
    {
      crc := 0;
      ZeroIsReg();
    }

    /** compute_crc18_word: one table look-up does the work of ten single-bit steps. */
    method ComputeWord(word: Word32)
      requires Valid() && word < 1024
      modifies this
      ensures Valid() && crc == Feed(old(crc), word, 10)
      ensures RegBits(crc) == Run(RegBits(old(crc)), LowBits(word, 10))
    {
      hide Feed, Run, RegBits, IsReg, Index, Entry, Combine;
      FastIsSlow(crc, word);
      FeedBits(crc, word, 10);
      EntryInRange(crc, word);
      IndexInRange(Entry(crc, word));
      crc := Combine(crc, table[Index(Entry(crc, word))]);
    }

    /**
     compute_crc18_scanline: the register after the bits of n words of the line, every `step`-th word from
     word `start` on. `words` is what it was fed.
     */
    method ComputeScanline(buffer: array<Byte>, n: nat, start: int, step: int)
        returns (result: Word32, ghost words: seq<Word32>)
      requires Valid() && LineInRange(buffer.Length, start, step, n)
      modifies this
      ensures Valid() && result == crc
      ensures |words| == n && RegBits(result) == Run(Zeros(WIDTH), MessageBits(words))
      ensures forall i :: 0 <= i < n ==> IsWordAt(words[i], buffer[..], start + i * step)
    {
      hide Run, RegBits, IsReg, Get10, LowBits, Zeros, WordBit, StreamBit, IsWordAt, MessageBits, TableOk;
      Reset();
      ZeroBits();
      RunOfNothing();
      words := [];
      for i := 0 to n
        invariant Valid()
        invariant |words| == i && RegBits(crc) == Run(Zeros(WIDTH), MessageBits(words))
        invariant forall k :: 0 <= k < i ==> IsWordAt(words[k], buffer[..], start + k * step)
      {
        assert LinePos(start, step, i) == start + i * step;
        var data := GetTenBitsWord(buffer, start + i * step);
        ComputeWord(data);
        MessageMore(words, data);
        ReadIsWord(data, buffer[..], start + i * step);
        words := words + [data];
      }
      RegIsMasked(crc);
      result := crc & 0x3FFFF;
    }

    /** getCRC0: the low nine bits of the CRC, with the complement of bit 8 as bit 9. */
    method GetCrc0() returns (w: Word32)
      requires Valid()
      ensures w < 0x400 && w & 0x1FF == crc & 0x1FF
      ensures (w & 0x200 == 0) <==> (w & 0x100 != 0)
      ensures w == CrcWord(crc & 0x1FF)
    {
      hide CrcWord, IsReg;
      var rest := crc & 0x3FFFF;
      rest := rest & 0x1FF;
      MaskTwice(crc);
      CrcWordIs(rest);
      ComplementBit(rest);
      w := rest | (Not((rest & 0x100) >> 8) << 9);
    }

    /** getCRC1: the high nine bits. */
    method GetCrc1() returns (w: Word32)
      requires Valid()
      ensures w < 0x400 && w & 0x1FF == crc >> 9
      ensures (w & 0x200 == 0) <==> (w & 0x100 != 0)
      ensures w == CrcWord(crc >> 9)
    {
      hide CrcWord, IsReg;
      var rest := crc & 0x3FFFF;
      rest := (rest & 0x3FE00) >> 9;
      UpperNine(crc);
      CrcWordIs(rest);
      ComplementBit(rest);
      w := rest | (Not((rest & 0x100) >> 8) << 9);
    }
  }

  function Not(x: Word32): Word32 { if x == 0 then 1 else 0 }

  /** Nine CRC bits as a transmitted word: bit 9 is the complement of bit 8. */
  function CrcWord(nine: Word32): Word32 { nine | (Not((nine & 0x100) >> 8) << 9) }

  lemma EntryInRange(crc: Word32, word: Word32)
    requires word < 1024
    ensures Entry(crc, word) < 1024
  {
  }

  lemma RunOfNothing()
    ensures MessageBits([]) == [] && Run(Zeros(WIDTH), []) == Zeros(WIDTH)
  {
  }

  lemma RegIsMasked(c: Word32)
    requires IsReg(c)
    ensures c & 0x3FFFF == c
  {
  }

  lemma MaskTwice(c: Word32)
    ensures (c & 0x3FFFF) & 0x1FF == c & 0x1FF && c & 0x1FF < 0x200
  {
  }

  lemma CrcWordIs(nine: Word32)
    ensures CrcWord(nine) == nine | (Not((nine & 0x100) >> 8) << 9)
  {
  }

  lemma UpperNine(c: Word32)
    requires IsReg(c)
    ensures ((c & 0x3FFFF) & 0x3FE00) >> 9 == c >> 9 && c >> 9 < 0x200
  {
  }

  /** A receiver recovers the CRC from the two words. */
  lemma CrcFromWords(c: Word32)
    requires IsReg(c)
    ensures ((CrcWord(c >> 9) & 0x1FF) << 9) | (CrcWord(c & 0x1FF) & 0x1FF) == c
  {
  }

  lemma ComplementBit(nine: Word32)
    requires nine < 0x200
    ensures CrcWord(nine) < 0x400 && CrcWord(nine) & 0x1FF == nine
    ensures (CrcWord(nine) & 0x200 == 0) <==> (CrcWord(nine) & 0x100 != 0)
  {
  }

  /** A line followed by its own 18 CRC bits, lowest first, brings the register back to zero. */
  lemma OwnCrcGivesZero(bits: seq<bool>)
    ensures Run(Zeros(WIDTH), bits + Run(Zeros(WIDTH), bits)) == Zeros(WIDTH)
    ensures forall tail :: |tail| == WIDTH && Run(Zeros(WIDTH), bits + tail) == Zeros(WIDTH)
              ==> tail == Run(Zeros(WIDTH), bits)
  {
    var z := Zeros(WIDTH);
    var r := Run(z, bits);
    RunAppend(z, bits, r);
    ZeroedOnlyByItself(r, r);
    assert r + Zeros(0) == r;
    forall tail | |tail| == WIDTH && Run(z, bits + tail) == z
      ensures tail == r
    {
      RunAppend(z, bits, tail);
      ZeroedOnlyByItself(r, tail);
      assert tail + Zeros(0) == tail;
    }
  }
}
