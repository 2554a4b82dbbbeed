/**
 The CRC-18 of section 5.4 of SMPTE ST 292-1:2012 as smptecrc.cpp computes it: a shift register fed bit
 by bit, and a table of 1024 entries that swallows ten bits at once.
 */
module Crc18 {

  type Word32 = bv32

  /** One turn of the inner loop of precomputeTable: the register after one incoming bit. */
  function Step(crc: Word32, incoming: Word32): Word32
  {
    var c14 := (crc >> 14) & 1;
    var c13 := (crc >> 13) & 1;
    var c0 := crc & 1;
    var newC12 := c13 ^ c0 ^ incoming;
    var newC13 := c14 ^ c0 ^ incoming;
    var newC17 := c0 ^ incoming;
    var a := (crc >> 1) | (newC17 << 17);
    var b := (a & 0xFFFFDFFF) | (newC13 << 13);
    (b & 0xFFFFEFFF) | (newC12 << 12)
  }

  /** A register value: 18 bits. */
  predicate IsReg(c: Word32) { c < 0x40000 }

  predicate IsBit(b: Word32) { b == 0 || b == 1 }

  function Low(w: Word32): Word32 { w & 1 }

  function Half(w: Word32): Word32 { w >> 1 }

  function Xor(v: Word32, w: Word32): Word32 { v ^ w }

  /** The register after the n low bits of a word, least significant first. */
  function Feed(crc: Word32, word: Word32, n: nat): Word32
    decreases n
  {
    if n == 0 then crc else Feed(Step(crc, Low(word)), Half(word), n - 1)
  }

  lemma StepKeepsReg(c: Word32, a: Word32)
    requires c < 0x40000 && (a == 0 || a == 1)
    ensures Step(c, a) < 0x40000
  {
  }

  /** The feedback taps: X^0, X^4 and X^5 are bits 17, 13 and 12 of the register. */
  function Taps(feedback: Word32): Word32 { if feedback == 1 then 0x23000 else 0 }

  /** Without feedback the register just shifts. */
  lemma StepQuiet(c: Word32, a: Word32)
    requires IsReg(c) && Xor(Low(c), a) == 0
    ensures Step(c, a) == Half(c)
  {
  }

  lemma StepFeedsBack(c: Word32, a: Word32)
    requires IsReg(c) && Xor(Low(c), a) == 1
    ensures Step(c, a) == Xor(Half(c), 0x23000)
  {
  }

  lemma StepForm(c: Word32, a: Word32)
    requires IsReg(c) && IsBit(a)
    ensures Step(c, a) == Xor(Half(c), Taps(Xor(Low(c), a)))
  {
    hide Step, Half, Low, Xor, IsReg;
    LowIsBit(c);
    SmallSums();
    if Xor(Low(c), a) == 1 {
      StepFeedsBack(c, a);
    } else {
      StepQuiet(c, a);
      NothingAdded(Half(c));
    }
  }

  lemma NothingAdded(v: Word32)
    ensures Xor(v, 0) == v
  {
  }

  lemma SmallSums()
    ensures Xor(0, 0) == 0 && Xor(0, 1) == 1 && Xor(1, 0) == 1 && Xor(1, 1) == 0
    ensures Xor(0, 0x23000) == 0x23000 && Xor(0x23000, 0) == 0x23000 && Xor(0x23000, 0x23000) == 0
  {
  }

  lemma TapsOfSum(p: Word32, q: Word32, a: Word32, b: Word32)
    requires (p == 0 || p == 1) && (a == 0 || a == 1) && (q == 0 || q == 1) && (b == 0 || b == 1)
    ensures Taps(Xor(Xor(p, q), Xor(a, b))) == Xor(Taps(Xor(p, a)), Taps(Xor(q, b)))
  {
    hide Xor;
    SmallSums();
  }

  lemma XorComm(p: Word32, q: Word32)
    ensures Xor(p, q) == Xor(q, p)
  {
  }

  lemma XorAssoc(p: Word32, q: Word32, r: Word32)
    ensures Xor(Xor(p, q), r) == Xor(p, Xor(q, r))
  {
  }

  lemma XorSwap(p: Word32, q: Word32, r: Word32, s: Word32)
    ensures Xor(Xor(p, q), Xor(r, s)) == Xor(Xor(p, r), Xor(q, s))
  {
    hide Xor;
    XorAssoc(p, q, Xor(r, s));
    XorAssoc(q, r, s);
    XorComm(q, r);
    XorAssoc(r, q, s);
    XorAssoc(p, r, Xor(q, s));
  }

  lemma SumIsReg(c: Word32, d: Word32)
    requires IsReg(c) && IsReg(d)
    ensures IsReg(Xor(c, d))
  {
  }

  lemma SumIsBit(a: Word32, b: Word32)
    requires IsBit(a) && IsBit(b)
    ensures IsBit(Xor(a, b))
  {
  }

  lemma StepIsLinear(c: Word32, d: Word32, a: Word32, b: Word32)
    requires IsReg(c) && IsReg(d) && IsBit(a) && IsBit(b)
    ensures Step(Xor(c, d), Xor(a, b)) == Xor(Step(c, a), Step(d, b))
  {
    hide Step, Taps, Xor, Half, Low;
    StepForm(c, a);
    StepForm(d, b);
    SumIsReg(c, d);
    SumIsBit(a, b);
    StepForm(Xor(c, d), Xor(a, b));
    HalfIsLinear(c, d);
    LowIsLinear(c, d);
    LowIsBit(c);
    LowIsBit(d);
    TapsOfSum(Low(c), Low(d), a, b);
    XorSwap(Half(c), Half(d), Taps(Xor(Low(c), a)), Taps(Xor(Low(d), b)));
  }

  lemma LowIsBit(v: Word32)
    ensures IsBit(Low(v))
  {
  }

  lemma LowIsLinear(v: Word32, w: Word32)
    ensures Low(Xor(v, w)) == Xor(Low(v), Low(w))
  {
  }

  lemma HalfIsLinear(v: Word32, w: Word32)
    ensures Half(Xor(v, w)) == Xor(Half(v), Half(w))
  {
  }

  lemma {:induction false} FeedIsLinear(c: Word32, d: Word32, v: Word32, w: Word32, n: nat)
    requires IsReg(c) && IsReg(d)
    ensures IsReg(Feed(c, v, n)) && IsReg(Feed(d, w, n))
    ensures Feed(Xor(c, d), Xor(v, w), n) == Xor(Feed(c, v, n), Feed(d, w, n))
    decreases n
  {
    hide Step, Low, Half, Xor;
    if n > 0 {
      LowIsBit(v);
      LowIsBit(w);
      LowIsLinear(v, w);
      HalfIsLinear(v, w);
      StepKeepsReg(c, Low(v));
      StepKeepsReg(d, Low(w));
      StepIsLinear(c, d, Low(v), Low(w));
      FeedIsLinear(Step(c, Low(v)), Step(d, Low(w)), Half(v), Half(w), n - 1);
    }
  }

  /** Fed its own low bit, the register just shifts: there is no feedback. */
  lemma StepOwnBit(c: Word32)
    requires IsReg(c)
    ensures Step(c, Low(c)) == Half(c) && IsReg(Half(c))
  {
  }

  /** The register after n shifts. */
  function Shifted(c: Word32, n: nat): Word32
    decreases n
  {
    if n == 0 then c else Shifted(Half(c), n - 1)
  }

  /** The n low bits of two words agree. */
  predicate Agree(c: Word32, v: Word32, n: nat)
    decreases n
  {
    n == 0 || (Low(c) == Low(v) && Agree(Half(c), Half(v), n - 1))
  }

  lemma {:induction false} FeedOwnBits(c: Word32, v: Word32, n: nat)
    requires IsReg(c) && Agree(c, v, n)
    ensures Feed(c, v, n) == Shifted(c, n)
    decreases n
  {
    hide Step, Low, Half, IsReg;
    if n > 0 {
      StepOwnBit(c);
      FeedOwnBits(Half(c), Half(v), n - 1);
    }
  }

  function Half5(c: Word32): Word32 { Half(Half(Half(Half(Half(c))))) }

  lemma ShiftedFive(c: Word32, n: nat)
    ensures Shifted(c, n + 5) == Shifted(Half5(c), n)
  {
    hide Half;
    var h := Half(Half(Half(c)));
    assert Shifted(c, n + 5) == Shifted(Half(c), n + 4) == Shifted(Half(Half(c)), n + 3) == Shifted(h, n + 2);
    assert Shifted(h, n + 2) == Shifted(Half(h), n + 1) == Shifted(Half(Half(h)), n);
  }

  lemma ShiftedTen(c: Word32)
    ensures Shifted(c, 10) == c >> 10
  {
    ShiftedFive(c, 5);
    ShiftedFive(Half5(c), 0);
    TenHalves(c);
  }

  lemma TenHalves(c: Word32)
    ensures Half5(Half5(c)) == c >> 10
  {
  }

  lemma AgreeFive(c: Word32, v: Word32, n: nat)
    requires c & 0x1F == v & 0x1F && Agree(Half5(c), Half5(v), n)
    ensures Agree(c, v, n + 5)
  {
    var c1, v1 := Half(c), Half(v);
    var c2, v2 := Half(c1), Half(v1);
    var c3, v3 := Half(c2), Half(v2);
    FiveLowBits(c, v);
    hide Half, Low;
    assert Agree(Half(c3), Half(v3), n + 1);
    assert Agree(c3, v3, n + 2);
    assert Agree(c2, v2, n + 3);
    assert Agree(c1, v1, n + 4);
  }

  lemma FiveLowBits(c: Word32, v: Word32)
    requires c & 0x1F == v & 0x1F
    ensures Low(c) == Low(v) && Low(Half(c)) == Low(Half(v)) && Low(Half(Half(c))) == Low(Half(Half(v)))
    ensures Low(Half(Half(Half(c)))) == Low(Half(Half(Half(v))))
    ensures Low(Half(Half(Half(Half(c))))) == Low(Half(Half(Half(Half(v)))))
  {
  }

  lemma AgreeTen(c: Word32)
    ensures Agree(c, c & 0x3FF, 10)
  {
    MaskedHalves(c);
    AgreeFive(Half5(c), Half5(c & 0x3FF), 0);
    AgreeFive(c, c & 0x3FF, 5);
  }

  lemma MaskedHalves(c: Word32)
    ensures c & 0x1F == (c & 0x3FF) & 0x1F
    ensures Half5(c) & 0x1F == Half5(c & 0x3FF) & 0x1F
  {
  }

  /** The table entry a word selects. */
  function Entry(crc: Word32, word: Word32): Word32 { word ^ (crc & 0x3FF) }

  function Combine(crc: Word32, entry: Word32): Word32 { (crc >> 10) ^ entry }

  /** compute_crc18_word, with the table entry spelled out: ten bits at once. */
  function FastWord(crc: Word32, word: Word32): Word32
  {
    Combine(crc, Feed(0, Entry(crc, word), 10))
  }

  /** The table form equals ten single-bit steps, for every register and every 10-bit word. */
  lemma FastIsSlow(crc: Word32, word: Word32)
    requires IsReg(crc) && word < 1024
    ensures FastWord(crc, word) == Feed(crc, word, 10)
    ensures IsReg(Feed(crc, word, 10))
  {
    hide *;
    var low := crc & 0x3FF;
    ZeroIsReg();
    XorFacts(crc, word, low);
    FeedIsLinear(crc, 0, low, Xor(word, low), 10);
    FeedIsLinear(crc, 0, word, 0, 10);
    AgreeTen(crc);
    FeedOwnBits(crc, low, 10);
    ShiftedTen(crc);
    FastUnfold(crc, word);
  }

  lemma ZeroIsReg()
    ensures IsReg(0)
  {
  }

  lemma XorFacts(crc: Word32, word: Word32, low: Word32)
    ensures Xor(low, Xor(word, low)) == word && Xor(crc, 0) == crc
  {
  }

  lemma EntryIsSum(crc: Word32, word: Word32)
    ensures Entry(crc, word) == Xor(word, crc & 0x3FF)
  {
  }

  lemma CombineIsSum(crc: Word32, entry: Word32)
    ensures Combine(crc, entry) == Xor(crc >> 10, entry)
  {
  }

  lemma FastUnfold(crc: Word32, word: Word32)
    ensures FastWord(crc, word) == Xor(crc >> 10, Feed(0, Xor(word, crc & 0x3FF), 10))
  {
    hide Feed, Entry, Combine, Xor;
    EntryIsSum(crc, word);
    CombineIsSum(crc, Feed(0, Entry(crc, word), 10));
  }
}
