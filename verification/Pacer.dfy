/**
 The pacer's schedule: data packets at a fractional distance from each other, and the gaps between them
 filled with pause frames. One turn of the vector loop is a function; runs are sequences of turns with
 changes of rate and phase between them. Sizes are in Ethernet bytes, that is with the overhead of the
 physical layer.
 */
module Pacer {
  import opened Wrappers

  const WORD: nat := 0x1_0000_0000_0000_0000
  const LARGEST: nat := 1514

  /** Denominator of the distance, overhead per packet, smallest pause, slots of a vector. */
  datatype Config = Config(denom: nat, overhead: nat, minPkt: nat, vecSize: nat) {
    predicate Valid()
    {
      0 < denom <= WORD / 2 && overhead <= minPkt && 0 < minPkt <= LARGEST + overhead && overhead < 0x1_0000_0000
    }

    /** GET_PHY */
    function Phy(len: nat): nat { len + overhead }

    /** A pause frame of the largest size. */
    function Full(): nat { Phy(LARGEST) }
  }

  /** The distance from one packet to the next is quot + remaind/denom bytes. */
  datatype Rate = Rate(quot: nat, remaind: nat) {
    predicate Valid(c: Config) { remaind < c.denom && quot < WORD }

    function Numerator(c: Config): nat { quot * c.denom + remaind }
  }

  /** What is left of the gap, the fraction carried, a second partial pause owed, phase still to shift, time. */
  datatype State = State(gap: nat, frac: nat, two: bool, phase: int, time: nat) {
    predicate Valid(c: Config) { gap < WORD && frac < c.denom }
  }

  datatype Item = Data(len: nat) | FullPause | Partial(len: nat) | Partial2(len: nat) {
    /** The bytes this item takes on the wire. */
    function Size(c: Config): nat { if FullPause? then c.Full() else c.Phy(len) }
  }

  function Consumable(phase: int): (d: int)
    ensures -100 <= d <= 100
  {
    if phase > 100 then 100 else if phase < -100 then -100 else phase
  }

  /** The distance still open when a packet of this length has been scheduled, before wrap-around. */
  function RawGap(c: Config, r: Rate, st: State, len: nat): int
  {
    st.gap + r.quot - c.Phy(len) - Consumable(st.phase) + (if st.frac + r.remaind >= c.denom then 1 else 0)
  }

  /** A data packet is taken from the ring. */
  function Packet(c: Config, r: Rate, st: State, len: nat): (st': State)
    requires c.Valid() && r.Valid(c) && st.Valid(c)
    ensures st'.Valid(c)
  {
    var sum := st.frac + r.remaind;
    State(RawGap(c, r, st, len) % WORD, if sum >= c.denom then sum - c.denom else sum, st.two,
          st.phase - Consumable(st.phase), (st.time + c.Phy(len)) % WORD)
  }

  datatype Pause = Pause(item: Item, gap: nat, two: bool)

  /** The length field of a partial pause, an unsigned 16-bit number. */
  function Length(size: nat, overhead: nat): nat { (size - overhead) % 0x1_0000 }

  /** Nothing is cut off a pause in range. */
  lemma LengthIs(c: Config, size: nat)
    requires c.Valid() && c.minPkt <= size <= c.Full()
    ensures c.Phy(Length(size, c.overhead)) == size
  {
  }

  /** The branches that fill a gap; None is the "Invalid state" exit. */
  function PauseTurn(c: Config, gap: nat, two: bool): (p: Option<Pause>)
    requires c.Valid() && gap > 0
    ensures p.Some? ==> p.value.gap < gap
  {
    if gap >= c.minPkt + c.Full() then Some(Pause(FullPause, gap - c.Full(), two))
    else if gap <= c.Full() && gap >= c.minPkt && !two then
      Some(Pause(Partial(Length(gap, c.overhead)), gap - c.Phy(Length(gap, c.overhead)), two))
    else if gap <= c.Full() && gap >= c.minPkt && two then
      Some(Pause(Partial2(Length(gap, c.overhead)), gap - c.Phy(Length(gap, c.overhead)), false))
    else if gap > c.Full() && !two then
      Some(Pause(Partial(Length(c.minPkt, c.overhead)), gap - c.minPkt, true))
    else None
  }

  datatype Turned = Emitted(item: Item, st: State, ring: seq<nat>) | EndOfStream | InvalidState

  /** One turn of the loop that fills a vector; `ring` holds the lengths of the packets that wait. */
  function Turn(c: Config, r: Rate, st: State, ring: seq<nat>): (t: Turned)
    requires c.Valid() && r.Valid(c) && st.Valid(c)
    ensures t.Emitted? ==> t.st.Valid(c)
  {
    if st.gap == 0 then
      if ring == [] then EndOfStream else Emitted(Data(ring[0]), Packet(c, r, st, ring[0]), ring[1..])
    else
      var p := PauseTurn(c, st.gap, st.two);
      if p.None? then InvalidState
      else
        var size := p.value.item.Size(c);
        Emitted(p.value.item, st.(gap := p.value.gap, two := p.value.two, time := (st.time + size) % WORD), ring)
  }

  /**
   What a packet does to the fields: it takes its length and the overhead on the wire, at most 100 bytes of the
   phase are shifted, the distance less all that is left open, one byte more whenever the fraction is full.
   */
  lemma PacketSays(c: Config, r: Rate, st: State, len: nat)
    requires c.Valid() && r.Valid(c) && st.Valid(c) && st.gap == 0
    ensures var st' := Packet(c, r, st, len);
            var d := st.phase - st'.phase;
            var full := st.frac + r.remaind >= c.denom;
            && st'.time == (st.time + len + c.overhead) % WORD && st'.two == st.two
            && (if st.phase > 100 then d == 100 else if st.phase < -100 then d == -100 else d == st.phase)
            && st'.frac == st.frac + r.remaind - (if full then c.denom else 0)
            && st'.gap == (r.quot - d - len - c.overhead + (if full then 1 else 0)) % WORD
  {
  }

  /**
   What the next pause is: a full one where that leaves room for a smallest one; a single one of the size of
   the gap where the gap has the size of one; a smallest one first where the gap is just above a full one, but
   not a second time; and otherwise there is none.
   */
  lemma PauseSays(c: Config, gap: nat, two: bool)
    requires c.Valid() && gap > 0
    ensures var p, full := PauseTurn(c, gap, two), 1514 + c.overhead;
            if gap >= c.minPkt + full then p == Some(Pause(FullPause, gap - full, two))
            else if c.minPkt <= gap <= full then
              p == Some(Pause(if two then Partial2(gap - c.overhead) else Partial(gap - c.overhead), 0, false))
            else if gap > full && !two then p == Some(Pause(Partial(c.minPkt - c.overhead), gap - c.minPkt, true))
            else p == None
  {
  }

  /** The bytes of each item on the wire. */
  lemma SizeSays(c: Config, item: Item)
    ensures item.Size(c) == (if item.FullPause? then 1514 else item.len) + c.overhead
  {
  }

  function Total(c: Config, items: seq<Item>): (n: nat)
  {
    if items == [] then 0 else items[0].Size(c) + Total(c, items[1..])
  }

  function Partials(items: seq<Item>): (n: nat)
  {
    if items == [] then 0 else (if items[0].FullPause? then 0 else 1) + Partials(items[1..])
  }

  // ---- Filling one gap ----

  /** The pauses that fill a gap, if the branches can. */
  function Fill(c: Config, gap: nat, two: bool): (f: Option<seq<Item>>)
    requires c.Valid()
    decreases gap
  {
    if gap == 0 then Some([])
    else
      var p := PauseTurn(c, gap, two);
      if p.None? then None
      else
        var rest := Fill(c, p.value.gap, p.value.two);
        if rest.None? then None else Some([p.value.item] + rest.value)
  }

  /** What is left of a gap when no more full pauses fit. */
  function Residue(c: Config, gap: nat): (r: nat)
    requires c.Valid()
    ensures r <= gap
    decreases gap
  {
    if gap >= c.minPkt + c.Full() then Residue(c, gap - c.Full()) else gap
  }

  /** It is the only number with its remainder between one smallest pause and one full pause more. */
  lemma {:induction false} ResidueIs(c: Config, r: nat, n: nat)
    requires c.Valid() && c.minPkt <= r < c.minPkt + c.Full()
    ensures Residue(c, r + n * c.Full()) == r
    decreases n
  {
    if n > 0 {
      OneMore(c.Full(), n);
      ResidueIs(c, r, n - 1);
    }
  }

  lemma OneMore(d: int, n: int)
    ensures n * d == (n - 1) * d + d
  {
  }

  /** A gap can be filled: nothing to fill, or no rest between one full pause and two of the smallest. */
  predicate Fillable(c: Config, gap: nat)
    requires c.Valid()
  {
    gap == 0 || (gap >= c.minPkt && (Residue(c, gap) <= c.Full() || Residue(c, gap) >= 2 * c.minPkt))
  }

  /** What PauseTurn does, without the truncation of the length field. */
  lemma PauseTurnSize(c: Config, gap: nat, two: bool)
    requires c.Valid() && gap > 0 && PauseTurn(c, gap, two).Some?
    ensures var p := PauseTurn(c, gap, two).value; p.gap + p.item.Size(c) == gap
    ensures c.minPkt <= PauseTurn(c, gap, two).value.item.Size(c) <= c.Full()
  {
  }

  /** The branches get through a gap exactly when it is fillable. */
  lemma {:induction false} FillsIffFillable(c: Config, gap: nat)
    requires c.Valid()
    ensures Fill(c, gap, false).Some? <==> Fillable(c, gap)
    decreases gap
  {
    if gap > 0 {
      if gap >= c.minPkt + c.Full() {
        FillsIffFillable(c, gap - c.Full());
      } else if gap > c.Full() {
        SecondPartial(c, gap - c.minPkt);
      }
    }
  }

  lemma SecondPartial(c: Config, gap: nat)
    requires c.Valid() && 0 < gap < c.Full()
    ensures Fill(c, gap, true).Some? <==> gap >= c.minPkt
  {
    if gap >= c.minPkt {
      PauseTurnSize(c, gap, true);
    }
  }

  /** With pauses small enough, every gap that is not shorter than the smallest pause can be filled. */
  lemma SmallPausesFillAll(c: Config, gap: nat)
    requires c.Valid() && 2 * c.minPkt <= c.Full() + 1
    ensures Fillable(c, gap) <==> gap == 0 || gap >= c.minPkt
  {
  }

  /** With larger ones there is a gap that leaves the pacer stuck. */
  lemma LargePausesGetStuck(c: Config)
    requires c.Valid() && 2 * c.minPkt > c.Full() + 1
    ensures c.Full() + 1 >= c.minPkt && !Fillable(c, c.Full() + 1)
  {
  }

  /** The pauses fill the gap exactly, each is in range, and at most two are partial. */
  lemma {:induction false} FillIsExact(c: Config, gap: nat, two: bool)
    requires c.Valid() && Fill(c, gap, two).Some?
    requires two ==> 0 < gap < c.Full()
    ensures var items := Fill(c, gap, two).value;
            && Total(c, items) == gap
            && Partials(items) <= (if two then 1 else 2)
            && (forall i :: 0 <= i < |items| ==> !items[i].Data? && c.minPkt <= items[i].Size(c) <= c.Full())
    decreases gap
  {
    if gap > 0 {
      PauseTurnSize(c, gap, two);
      var p, items := PauseTurn(c, gap, two).value, Fill(c, gap, two).value;
      assert items[0] == p.item && items[1..] == Fill(c, p.gap, p.two).value;
      FillIsExact(c, p.gap, p.two);
      if p.gap == 0 { assert items[1..] == []; }
    }
  }
}
