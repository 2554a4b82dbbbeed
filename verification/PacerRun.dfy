/**
 Runs of the pacer: what a whole run schedules, in bytes, is tied to the rates that were in force and the
 phase that was shifted, without drift.
 */
module PacerRun {
  import opened Wrappers
  import opened Pacer

  /**
   What a run has done: bytes scheduled, sum of the numerators in force at each packet, phase shifted, how
   often the distance wrapped around, packets taken, and the items in order.
   */
  datatype Log = Log(scheduled: nat, numerators: nat, shifted: int, wraps: int, packets: nat, items: seq<Item>)

  datatype Status = Running | Ended | Invalid

  datatype World = World(status: Status, st: State, rate: Rate, ring: seq<nat>, log: Log) {
    predicate Valid(c: Config) { c.Valid() && rate.Valid(c) && st.Valid(c) }
  }

  /** A turn of the vector loop, or what happens between two vectors: measurements change rate and phase. */
  datatype Event = Slot | Tune(rate: Rate, phase: int) | Arrive(len: nat)

  predicate EventOk(c: Config, e: Event) { e.Tune? ==> e.rate.Valid(c) }

  function LogTurn(c: Config, w: World, item: Item): (log: Log)
    requires w.Valid(c)
  {
    var l := w.log.(scheduled := w.log.scheduled + item.Size(c), items := w.log.items + [item]);
    if item.Data? then
      l.(numerators := l.numerators + w.rate.Numerator(c), shifted := l.shifted + Consumable(w.st.phase),
         wraps := l.wraps + RawGap(c, w.rate, w.st, item.len) / WORD, packets := l.packets + 1)
    else l
  }

  function Advance(c: Config, w: World, e: Event): (w': World)
    requires w.Valid(c) && EventOk(c, e)
    ensures w'.Valid(c)
  {
    match e
    case Tune(rate, phase) => w.(rate := rate, st := w.st.(phase := phase))
    case Arrive(len) => w.(ring := w.ring + [len])
    case Slot =>
      if w.status != Running then w
      else
        match Turn(c, w.rate, w.st, w.ring)
        case EndOfStream => w.(status := Ended)
        case InvalidState => w.(status := Invalid)
        case Emitted(item, st, ring) => w.(st := st, ring := ring, log := LogTurn(c, w, item))
  }

  predicate EventsOk(c: Config, es: seq<Event>) { forall i :: 0 <= i < |es| ==> EventOk(c, es[i]) }

  function Run(c: Config, w: World, es: seq<Event>): (w': World)
    requires w.Valid(c) && EventsOk(c, es)
    ensures w'.Valid(c)
    decreases |es|
  {
    if es == [] then w else Run(c, Advance(c, w, es[0]), es[1..])
  }

  /** The state after "Resetting state after starvation". */
  function Start(rate: Rate, time: nat, ring: seq<nat>): World
  {
    World(Running, State(0, 0, false, 0, time), rate, ring, Log(0, 0, 0, 0, 0, []))
  }

  // ---- Conservation ----

  /** denom * (scheduled + gap) + frac == sum of numerators - denom * phase shifted, wrap-around counted. */
  predicate Law(c: Config, w: World)
  {
    c.denom * (w.log.scheduled + w.st.gap + WORD * w.log.wraps) + w.st.frac
    == w.log.numerators - c.denom * w.log.shifted
  }

  lemma Distribute(d: int, a: int, b: int)
    ensures d * (a + b) == d * a + d * b
  {
  }

  /** A packet opens a gap of quot bytes, less itself and the phase shifted, and carries the fraction. */
  lemma PacketGap(c: Config, r: Rate, st: State, len: nat)
    requires c.Valid() && r.Valid(c) && st.Valid(c) && st.gap == 0
    ensures var st' := Packet(c, r, st, len);
            var moved := c.Phy(len) + st'.gap + WORD * (RawGap(c, r, st, len) / WORD);
            c.denom * moved + st'.frac == st.frac + r.Numerator(c) - c.denom * Consumable(st.phase)
  {
    var st', raw := Packet(c, r, st, len), RawGap(c, r, st, len);
    assert st'.gap + WORD * (raw / WORD) == raw;
    var carry := if st.frac + r.remaind >= c.denom then 1 else 0;
    var d := Consumable(st.phase);
    assert c.Phy(len) + raw == (r.quot - d) + carry;
    Distribute(c.denom, r.quot - d, carry);
    Distribute(c.denom, r.quot, -d);
    Negate(c.denom, d);
  }

  lemma Negate(a: int, b: int)
    ensures a * -b == -(a * b)
  {
  }

  lemma AdvanceKeepsLaw(c: Config, w: World, e: Event)
    requires w.Valid(c) && EventOk(c, e) && Law(c, w)
    ensures Law(c, Advance(c, w, e))
  {
    if e.Slot? && w.status == Running {
      var t, w' := Turn(c, w.rate, w.st, w.ring), Advance(c, w, e);
      if t.Emitted? {
        if w.st.gap > 0 {
          PauseTurnSize(c, w.st.gap, w.st.two);
          assert w'.log.scheduled + w'.st.gap == w.log.scheduled + w.st.gap;
        } else {
          PacketKeepsLaw(c, w);
        }
      }
    }
  }

  lemma PacketKeepsLaw(c: Config, w: World)
    requires w.Valid(c) && Law(c, w) && w.status == Running && w.st.gap == 0 && w.ring != []
    ensures Law(c, Advance(c, w, Slot))
  {
    var len, w' := w.ring[0], Advance(c, w, Slot);
    var d, k := Consumable(w.st.phase), RawGap(c, w.rate, w.st, len) / WORD;
    PacketGap(c, w.rate, w.st, len);
    assert w'.log == LogTurn(c, w, Data(len));
    hide RawGap, Consumable, Packet, Advance, Rate.Numerator;
    var before := w.log.scheduled + WORD * w.log.wraps;
    var more := c.Phy(len) + w'.st.gap + WORD * k;
    assert w'.log.scheduled + w'.st.gap + WORD * w'.log.wraps == before + more;
    Distribute(c.denom, before, more);
    Distribute(c.denom, w.log.shifted, d);
  }

  /** The conservation law of every run. */
  lemma {:induction false} RunKeepsLaw(c: Config, w: World, es: seq<Event>)
    requires w.Valid(c) && EventsOk(c, es) && Law(c, w)
    ensures Law(c, Run(c, w, es)) && Run(c, w, es).st.frac < c.denom
    decreases |es|
  {
    hide Law, Advance;
    if es != [] {
      AdvanceKeepsLaw(c, w, es[0]);
      RunKeepsLaw(c, Advance(c, w, es[0]), es[1..]);
    }
  }

  // ---- Time ----

  /** Time is what was scheduled, in bytes on the wire, whatever happened. */
  lemma {:induction false} TimeIsScheduled(c: Config, w: World, es: seq<Event>)
    requires w.Valid(c) && EventsOk(c, es) && w.st.time < WORD
    ensures var w' := Run(c, w, es);
            && w'.log.scheduled >= w.log.scheduled
            && w'.st.time == (w.st.time + (w'.log.scheduled - w.log.scheduled)) % WORD
    decreases |es|
  {
    if es != [] {
      var w1 := Advance(c, w, es[0]);
      TimeOfOne(c, w, es[0]);
      TimeIsScheduled(c, w1, es[1..]);
      var more := Run(c, w1, es[1..]).log.scheduled - w1.log.scheduled;
      hide Run, Advance;
      ModTwice(w.st.time + (w1.log.scheduled - w.log.scheduled), more);
    }
  }

  lemma TimeOfOne(c: Config, w: World, e: Event)
    requires w.Valid(c) && EventOk(c, e) && w.st.time < WORD
    ensures var w' := Advance(c, w, e);
            && w'.log.scheduled >= w.log.scheduled
            && w'.st.time == (w.st.time + (w'.log.scheduled - w.log.scheduled)) % WORD
  {
    hide RawGap, PauseTurn;
  }

  lemma ModTwice(a: nat, b: nat)
    ensures (a % WORD + b) % WORD == (a + b) % WORD
  {
  }

  // ---- No drift ----

  /** The run never changes rate or phase. */
  predicate Untuned(es: seq<Event>) { forall i :: 0 <= i < |es| ==> !es[i].Tune? }

  /** Every packet of the ring or to come fits in the distance between packets. */
  predicate Short(c: Config, r: Rate, len: nat) { c.Phy(len) <= r.quot }

  predicate AllShort(c: Config, r: Rate, ring: seq<nat>, es: seq<Event>)
  {
    && (forall i :: 0 <= i < |ring| ==> Short(c, r, ring[i]))
    && (forall i :: 0 <= i < |es| && es[i].Arrive? ==> Short(c, r, es[i].len))
  }

  predicate Steady(c: Config, w: World, r: Rate)
  {
    w.rate == r && w.st.phase == 0 && w.log.shifted == 0 && w.log.wraps == 0
    && w.log.numerators == w.log.packets * r.Numerator(c)
  }

  lemma AdvanceSteady(c: Config, w: World, e: Event, r: Rate)
    requires w.Valid(c) && !e.Tune? && Steady(c, w, r) && AllShort(c, r, w.ring, [e]) && r.quot + 1 < WORD
    ensures Steady(c, Advance(c, w, e), r) && AllShort(c, r, Advance(c, w, e).ring, [])
  {
    hide Rate.Numerator;
    var w' := Advance(c, w, e);
    assert e.Arrive? ==> Short(c, r, [e][0].len);
    if e.Slot? && w.status == Running && w.st.gap == 0 && w.ring != [] {
      assert Short(c, r, w.ring[0]);
      var raw := RawGap(c, r, w.st, w.ring[0]);
      assert 0 <= raw < WORD;
      Distribute(r.Numerator(c), w.log.packets, 1);
    }
  }

  lemma {:induction false} RunSteady(c: Config, w: World, es: seq<Event>, r: Rate)
    requires w.Valid(c) && Untuned(es) && Steady(c, w, r) && AllShort(c, r, w.ring, es) && r.quot + 1 < WORD
    ensures EventsOk(c, es) && Steady(c, Run(c, w, es), r)
    decreases |es|
  {
    hide Steady, Advance, Short;
    if es != [] {
      AdvanceSteady(c, w, es[0], r);
      RunSteady(c, Advance(c, w, es[0]), es[1..], r);
    }
  }

  /**
   No drift: at a constant rate without phase control packet number k, counted from zero, starts exactly
   floor(k * num / denom) bytes into the run, however long that is.
   */
  lemma NoDrift(c: Config, r: Rate, time: nat, ring: seq<nat>, es: seq<Event>)
    requires c.Valid() && r.Valid(c) && r.quot + 1 < WORD && Untuned(es) && AllShort(c, r, ring, es)
    ensures EventsOk(c, es)
    ensures var w := Run(c, Start(r, time, ring), es);
            w.st.gap == 0 ==> w.log.scheduled == (w.log.packets * r.Numerator(c)) / c.denom
  {
    var w0 := Start(r, time, ring);
    assert Steady(c, w0, r) && Law(c, w0) && w0.Valid(c);
    RunSteady(c, w0, es, r);
    RunKeepsLaw(c, w0, es);
    var w := Run(c, w0, es);
    hide Run, Start, Rate.Numerator;
    if w.st.gap == 0 { QuotientIs(c.denom, w.log.scheduled, w.st.frac); }
  }

  lemma QuotientIs(d: int, q: int, r: int)
    requires 0 <= r < d
    ensures (d * q + r) / d == q
  {
    var n := d * q + r;
    var diff := n / d - q;
    Distribute(d, n / d, -q);
    Negate(d, q);
    assert d * diff == r - n % d;
    if diff > 0 { Distribute(d, diff - 1, 1); NonNegative(d, diff - 1); }
    if diff < 0 { Distribute(d, diff + 1, -1); NonNegative(d, -diff - 1); Negate(d, diff + 1); }
  }

  lemma NonNegative(a: int, b: int)
    requires a >= 0 && b >= 0
    ensures a * b >= 0
  {
  }

  // ---- Never stuck ----

  /** The gap in progress can be filled. */
  predicate OnTrack(c: Config, st: State)
    requires c.Valid()
  {
    if st.two then c.minPkt <= st.gap <= c.Full() else Fillable(c, st.gap)
  }

  /** Every packet leaves a gap that can be filled. */
  predicate GapsFillable(c: Config, w: World, es: seq<Event>)
    requires w.Valid(c) && EventsOk(c, es)
    decreases |es|
  {
    if es == [] then true
    else
      var w' := Advance(c, w, es[0]);
      && (es[0].Slot? && w.status == Running && w.st.gap == 0 ==> Fillable(c, w'.st.gap))
      && GapsFillable(c, w', es[1..])
  }

  lemma SlotKeepsTrack(c: Config, w: World)
    requires w.Valid(c) && w.status == Running && OnTrack(c, w.st) && w.st.gap > 0
    ensures OnTrack(c, Advance(c, w, Slot).st) && Advance(c, w, Slot).status == Running
  {
    var g := w.st.gap;
    if !w.st.two && c.Full() < g < c.minPkt + c.Full() { assert Residue(c, g) == g; }
  }

  /** The "Invalid state" exit is never taken while every packet leaves a fillable gap. */
  lemma {:induction false} NeverInvalid(c: Config, w: World, es: seq<Event>)
    requires w.Valid(c) && EventsOk(c, es) && GapsFillable(c, w, es) && OnTrack(c, w.st) && w.status != Invalid
    ensures Run(c, w, es).status != Invalid && OnTrack(c, Run(c, w, es).st)
    decreases |es|
  {
    hide Fillable;
    if es != [] {
      if es[0].Slot? && w.status == Running && w.st.gap > 0 { SlotKeepsTrack(c, w); }
      else { assert w.st.gap == 0 ==> !w.st.two; }
      NeverInvalid(c, Advance(c, w, es[0]), es[1..]);
    }
  }

  /** The phase to be shifted at a packet is at most this much; 100 bytes is no restriction at all. */
  predicate Within(phase: int, slack: nat) { 0 <= Consumable(phase) + slack && Consumable(phase) <= slack }

  /** Behind every packet up to this length there is room for the smallest pause, whatever phase is shifted. */
  predicate HasRoom(c: Config, r: Rate, longest: int, slack: nat)
  {
    longest + c.overhead + c.minPkt + slack <= r.quot && r.quot + 1 + slack < WORD
  }

  predicate EventHasRoom(c: Config, e: Event, longest: int, slack: nat)
  {
    match e
    case Tune(rate, phase) => HasRoom(c, rate, longest, slack) && Within(phase, slack)
    case Arrive(len) => len <= longest
    case Slot => true
  }

  predicate AllHaveRoom(c: Config, es: seq<Event>, longest: int, slack: nat)
  {
    forall i :: 0 <= i < |es| ==> EventHasRoom(c, es[i], longest, slack)
  }

  predicate NoneLonger(ring: seq<nat>, longest: int) { forall i :: 0 <= i < |ring| ==> ring[i] <= longest }

  /** What a run with room keeps. */
  predicate InRoom(c: Config, w: World, longest: int, slack: nat)
    requires c.Valid()
  {
    && HasRoom(c, w.rate, longest, slack) && Within(w.st.phase, slack) && NoneLonger(w.ring, longest)
    && OnTrack(c, w.st) && w.status != Invalid
  }

  lemma RawInRoom(c: Config, r: Rate, st: State, len: nat, longest: int, slack: nat)
    requires c.Valid() && st.gap == 0 && len <= longest
    requires HasRoom(c, r, longest, slack) && Within(st.phase, slack)
    ensures c.minPkt <= RawGap(c, r, st, len) < WORD
    ensures Within(st.phase - Consumable(st.phase), slack)
  {
  }

  lemma PacketInRoom(c: Config, w: World, longest: int, slack: nat)
    requires w.Valid(c) && w.status == Running && w.st.gap == 0 && w.ring != [] && 2 * c.minPkt <= c.Full() + 1
    requires InRoom(c, w, longest, slack)
    ensures InRoom(c, Advance(c, w, Slot), longest, slack)
  {
    hide RawGap, Fillable, Within, HasRoom, Consumable;
    var raw := RawGap(c, w.rate, w.st, w.ring[0]);
    RawInRoom(c, w.rate, w.st, w.ring[0], longest, slack);
    SmallModulo(raw);
    SmallPausesFillAll(c, raw);
  }

  lemma SmallModulo(n: int)
    requires 0 <= n < WORD
    ensures n % WORD == n
  {
  }

  lemma StepInRoom(c: Config, w: World, e: Event, longest: int, slack: nat)
    requires w.Valid(c) && EventOk(c, e) && EventHasRoom(c, e, longest, slack) && 2 * c.minPkt <= c.Full() + 1
    requires InRoom(c, w, longest, slack)
    ensures InRoom(c, Advance(c, w, e), longest, slack)
  {
    if e.Slot? && w.status == Running && w.st.gap > 0 {
      SlotKeepsTrack(c, w);
    } else if e.Slot? && w.status == Running && w.ring != [] {
      PacketInRoom(c, w, longest, slack);
    }
    hide Fillable, PauseTurn, Packet, Consumable;
  }

  lemma {:induction false} RunInRoom(c: Config, w: World, es: seq<Event>, longest: int, slack: nat)
    requires w.Valid(c) && EventsOk(c, es) && AllHaveRoom(c, es, longest, slack) && 2 * c.minPkt <= c.Full() + 1
    requires InRoom(c, w, longest, slack)
    ensures InRoom(c, Run(c, w, es), longest, slack)
    decreases |es|
  {
    hide InRoom, Advance, EventHasRoom, EventOk;
    if es != [] {
      assert EventHasRoom(c, es[0], longest, slack);
      StepInRoom(c, w, es[0], longest, slack);
      RunInRoom(c, Advance(c, w, es[0]), es[1..], longest, slack);
    }
  }

  /**
   However often rate and phase are changed: with pauses no larger than half a full one, and every rate that
   is ever in force leaving room for a pause behind the longest packet and the phase shifted there, no run
   reaches the "Invalid state" exit. A slack of 100 bytes allows every phase.
   */
  lemma NeverInvalidWithRoom(c: Config, r: Rate, time: nat, ring: seq<nat>, es: seq<Event>, longest: int, slack: nat)
    requires c.Valid() && r.Valid(c) && EventsOk(c, es) && 2 * c.minPkt <= c.Full() + 1
    requires HasRoom(c, r, longest, slack) && NoneLonger(ring, longest) && AllHaveRoom(c, es, longest, slack)
    ensures Run(c, Start(r, time, ring), es).status != Invalid
  {
    RunInRoom(c, Start(r, time, ring), es, longest, slack);
  }

  lemma AnyPhaseIsWithin100(phase: int)
    ensures Within(phase, 100)
  {
  }

  /** A rate leaves this much room, whatever the phase. */
  predicate RateHasRoom(c: Config, e: Event, longest: int)
  {
    match e
    case Tune(rate, phase) => HasRoom(c, rate, longest, 100)
    case Arrive(len) => len <= longest
    case Slot => true
  }

  /** So with 100 bytes to spare no change of the phase can do harm. */
  lemma NeverInvalidAtAnyPhase(c: Config, r: Rate, time: nat, ring: seq<nat>, es: seq<Event>, longest: int)
    requires c.Valid() && r.Valid(c) && EventsOk(c, es) && 2 * c.minPkt <= c.Full() + 1
    requires HasRoom(c, r, longest, 100) && NoneLonger(ring, longest)
    requires forall i :: 0 <= i < |es| ==> RateHasRoom(c, es[i], longest)
    ensures Run(c, Start(r, time, ring), es).status != Invalid
  {
    hide Within, HasRoom, Run;
    forall i | 0 <= i < |es| ensures EventHasRoom(c, es[i], longest, 100) {
      assert RateHasRoom(c, es[i], longest);
      if es[i].Tune? { AnyPhaseIsWithin100(es[i].phase); }
    }
    NeverInvalidWithRoom(c, r, time, ring, es, longest, 100);
  }

  /** A packet leaves room for at least the smallest pause. */
  predicate Roomy(c: Config, r: Rate, len: nat) { c.Phy(len) + c.minPkt <= r.quot }

  predicate AllRoomy(c: Config, r: Rate, ring: seq<nat>, es: seq<Event>)
  {
    && (forall i :: 0 <= i < |ring| ==> Roomy(c, r, ring[i]))
    && (forall i :: 0 <= i < |es| && es[i].Arrive? ==> Roomy(c, r, es[i].len))
  }

  /** In particular at a constant rate without phase control, when the distance leaves room behind every packet. */
  lemma ConstantRateNeverInvalid(c: Config, r: Rate, time: nat, ring: seq<nat>, es: seq<Event>)
    requires c.Valid() && r.Valid(c) && r.quot + 1 < WORD && 2 * c.minPkt <= c.Full() + 1
    requires Untuned(es) && AllRoomy(c, r, ring, es)
    ensures EventsOk(c, es) && Run(c, Start(r, time, ring), es).status != Invalid
  {
    var longest := r.quot - c.minPkt - c.overhead;
    assert forall i :: 0 <= i < |ring| && Roomy(c, r, ring[i]) ==> ring[i] <= longest;
    forall i | 0 <= i < |es| ensures EventHasRoom(c, es[i], longest, 0) {
      assert es[i].Arrive? ==> Roomy(c, r, es[i].len);
    }
    NeverInvalidWithRoom(c, r, time, ring, es, longest, 0);
  }

  /** How many turns of the vector loop there are among the events. */
  function SlotsIn(es: seq<Event>): (n: nat)
  {
    if es == [] then 0 else (if es[0].Slot? then 1 else 0) + SlotsIn(es[1..])
  }

  /** The packets that arrive meanwhile. */
  function Arrived(es: seq<Event>): (lens: seq<nat>)
  {
    if es == [] then [] else (if es[0].Arrive? then [es[0].len] else []) + Arrived(es[1..])
  }

  /** The items have been emitted, the packets that arrived wait behind the others, and `left` fills the rest. */
  predicate FilledBy(c: Config, w: World, items: seq<Item>, arrived: seq<nat>, left: seq<Item>, w': World)
    requires c.Valid()
  {
    && w'.status == Running && w'.ring == w.ring + arrived && w'.log.items == w.log.items + items
    && Fill(c, w'.st.gap, w'.st.two) == Some(left) && (left == [] ==> w'.st.gap == 0)
  }

  lemma FillStep(c: Config, w: World)
    requires w.Valid(c) && w.status == Running && w.st.gap > 0 && Fill(c, w.st.gap, w.st.two).Some?
    ensures var items, w1 := Fill(c, w.st.gap, w.st.two).value, Advance(c, w, Slot);
            && items != [] && w1.status == Running && w1.st.gap < w.st.gap && w1.ring == w.ring
            && w1.log.items == w.log.items + [items[0]]
            && Fill(c, w1.st.gap, w1.st.two) == Some(items[1..])
  {
  }

  lemma NothingToFill(c: Config, gap: nat, two: bool)
    requires c.Valid() && Fill(c, gap, two) == Some([])
    ensures gap == 0
  {
  }

  /** A step between two turns sets rate and phase, or adds to the ring; what fills the gap stays the same. */
  lemma BetweenTurns(c: Config, w: World, e: Event)
    requires w.Valid(c) && EventOk(c, e) && !e.Slot?
    ensures var w1 := Advance(c, w, e);
            && w1.status == w.status && w1.st.gap == w.st.gap && w1.st.two == w.st.two
            && w1.log == w.log && w1.ring == w.ring + (if e.Arrive? then [e.len] else [])
            && w1.rate == (if e.Tune? then e.rate else w.rate) && w1.st.time == w.st.time
            && w1.st.phase == (if e.Tune? then e.phase else w.st.phase) && w1.st.frac == w.st.frac
  {
    assert w.ring + [] == w.ring;
  }

  lemma FilledOnce(c: Config, w: World, w1: World, arrived: seq<nat>, item: Item, items: seq<Item>,
                   more: seq<nat>, left: seq<Item>, w': World)
    requires c.Valid()
    requires w1.ring == w.ring + arrived && FilledBy(c, w1, items, more, left, w')
    ensures w1.log.items == w.log.items + [item] ==> FilledBy(c, w, [item] + items, arrived + more, left, w')
    ensures w1.log.items == w.log.items ==> FilledBy(c, w, items, arrived + more, left, w')
  {
    assert (w.ring + arrived) + more == w.ring + (arrived + more);
    assert (w.log.items + [item]) + items == w.log.items + ([item] + items);
  }

  /**
   A gap that can be filled is filled, whatever happens meanwhile: however packets arrive and rate and phase
   are changed between the turns, those emit exactly its pauses, and after the last of them nothing is left.
   */
  lemma {:induction false} GapIsFilled(c: Config, w: World, es: seq<Event>)
    requires w.Valid(c) && EventsOk(c, es) && w.status == Running && Fill(c, w.st.gap, w.st.two).Some?
    requires SlotsIn(es) <= |Fill(c, w.st.gap, w.st.two).value|
    ensures var items, n := Fill(c, w.st.gap, w.st.two).value, SlotsIn(es);
            FilledBy(c, w, items[..n], Arrived(es), items[n..], Run(c, w, es))
    decreases |es|
  {
    if es == [] {
      assert w.ring + [] == w.ring && w.log.items + [] == w.log.items;
      if Fill(c, w.st.gap, w.st.two).value == [] { NothingToFill(c, w.st.gap, w.st.two); }
    } else {
      FirstEvent(c, w, es);
      hide Fill, Advance, Run, FilledBy, SlotsIn, Arrived, EventsOk;
      if es[0].Slot? {
        NothingIsNoPause(c, w.st.gap, w.st.two);
        FillStep(c, w);
        GapIsFilled(c, Advance(c, w, es[0]), es[1..]);
        FilledBySlot(c, w, es);
      } else {
        BetweenTurns(c, w, es[0]);
        GapIsFilled(c, Advance(c, w, es[0]), es[1..]);
        FilledMeanwhile(c, w, es);
      }
    }
  }

  lemma NothingIsNoPause(c: Config, gap: nat, two: bool)
    requires c.Valid()
    ensures gap == 0 ==> Fill(c, gap, two) == Some([])
  {
  }

  lemma FirstEvent(c: Config, w: World, es: seq<Event>)
    requires w.Valid(c) && EventsOk(c, es) && es != []
    ensures EventOk(c, es[0]) && EventsOk(c, es[1..]) && Run(c, w, es) == Run(c, Advance(c, w, es[0]), es[1..])
    ensures Arrived(es) == (if es[0].Arrive? then [es[0].len] else []) + Arrived(es[1..])
    ensures SlotsIn(es) == (if es[0].Slot? then 1 else 0) + SlotsIn(es[1..])
  {
    hide Advance;
  }

  lemma FilledBySlot(c: Config, w: World, es: seq<Event>)
    requires w.Valid(c) && EventsOk(c, es) && w.status == Running && Fill(c, w.st.gap, w.st.two).Some?
    requires es != [] && es[0].Slot? && w.st.gap > 0 && EventsOk(c, es[1..])
    requires 0 < SlotsIn(es) <= |Fill(c, w.st.gap, w.st.two).value|
    requires var items, n, w1 := Fill(c, w.st.gap, w.st.two).value, SlotsIn(es), Advance(c, w, es[0]);
             FilledBy(c, w1, items[1..][..n - 1], Arrived(es[1..]), items[1..][n - 1..], Run(c, w1, es[1..]))
    ensures var items, n := Fill(c, w.st.gap, w.st.two).value, SlotsIn(es);
            FilledBy(c, w, items[..n], Arrived(es), items[n..], Run(c, w, es))
  {
    var items, n, w1 := Fill(c, w.st.gap, w.st.two).value, SlotsIn(es), Advance(c, w, es[0]);
    FirstEvent(c, w, es);
    FillStep(c, w);
    hide Fill, Advance, Run, FilledBy, SlotsIn, Arrived, EventsOk;
    assert w.ring == w.ring + [];
    FilledOnce(c, w, w1, [], items[0], items[1..][..n - 1], Arrived(es[1..]), items[1..][n - 1..], Run(c, w, es));
    assert [items[0]] + items[1..][..n - 1] == items[..n] && items[1..][n - 1..] == items[n..];
    assert [] + Arrived(es[1..]) == Arrived(es);
  }

  lemma FilledMeanwhile(c: Config, w: World, es: seq<Event>)
    requires w.Valid(c) && EventsOk(c, es) && w.status == Running && Fill(c, w.st.gap, w.st.two).Some?
    requires es != [] && !es[0].Slot? && EventsOk(c, es[1..])
    requires SlotsIn(es) <= |Fill(c, w.st.gap, w.st.two).value|
    requires var items, n, w1 := Fill(c, w.st.gap, w.st.two).value, SlotsIn(es), Advance(c, w, es[0]);
             FilledBy(c, w1, items[..n], Arrived(es[1..]), items[n..], Run(c, w1, es[1..]))
    ensures var items, n := Fill(c, w.st.gap, w.st.two).value, SlotsIn(es);
            FilledBy(c, w, items[..n], Arrived(es), items[n..], Run(c, w, es))
  {
    var items, n := Fill(c, w.st.gap, w.st.two).value, SlotsIn(es);
    FirstEvent(c, w, es);
    BetweenTurns(c, w, es[0]);
    hide Fill, Advance, Run, FilledBy, SlotsIn, Arrived, EventsOk;
    var arrived := if es[0].Arrive? then [es[0].len] else [];
    FilledOnce(c, w, Advance(c, w, es[0]), arrived, FullPause, items[..n], Arrived(es[1..]), items[n..], Run(c, w, es));
  }

  lemma StuckStep(c: Config, w: World)
    requires w.Valid(c) && w.status == Running && Fill(c, w.st.gap, w.st.two).None?
    ensures w.st.gap > 0
    ensures var w1 := Advance(c, w, Slot);
            w1.status == Invalid
            || (w1.status == Running && w1.st.gap < w.st.gap && Fill(c, w1.st.gap, w1.st.two).None?)
  {
  }

  lemma {:induction false} StoppedStays(c: Config, w: World, es: seq<Event>)
    requires w.Valid(c) && EventsOk(c, es) && w.status != Running
    ensures Run(c, w, es).status == w.status && Run(c, w, es).log == w.log
    decreases |es|
  {
    if es != [] { StoppedStays(c, Advance(c, w, es[0]), es[1..]); }
  }

  /** And one that cannot be filled ends at the exit, after no more turns than it has bytes. */
  lemma {:induction false} UnfillableGetsStuck(c: Config, w: World, es: seq<Event>)
    requires w.Valid(c) && EventsOk(c, es) && w.status == Running && Fill(c, w.st.gap, w.st.two).None?
    requires SlotsIn(es) >= w.st.gap
    ensures Run(c, w, es).status == Invalid
    decreases |es|
  {
    StuckStep(c, w);
    var w1 := Advance(c, w, es[0]);
    assert EventOk(c, es[0]) && EventsOk(c, es[1..]) && Run(c, w, es) == Run(c, w1, es[1..]);
    assert SlotsIn(es) == (if es[0].Slot? then 1 else 0) + SlotsIn(es[1..]);
    if !es[0].Slot? { BetweenTurns(c, w, es[0]); }
    hide Fill, Advance, Run, EventsOk;
    if w1.status == Invalid { StoppedStays(c, w1, es[1..]); } else { UnfillableGetsStuck(c, w1, es[1..]); }
  }

  // ---- Phase ----

  /** The phase left after n packets, when nobody sets a new one. */
  function PhaseAfter(phase: int, n: nat): int
    decreases n
  {
    if n == 0 then phase else PhaseAfter(phase - Consumable(phase), n - 1)
  }

  /** A phase shift is worked off in steps of at most 100 bytes, without overshooting. */
  lemma {:induction false} PhaseIsWorkedOff(phase: int, n: nat)
    ensures PhaseAfter(phase, n)
         == if phase > 100 * n then phase - 100 * n else if phase < -100 * n then phase + 100 * n else 0
    decreases n
  {
    if n > 0 { PhaseIsWorkedOff(phase - Consumable(phase), n - 1); }
  }

  /** Between two settings of the phase, what was shifted plus what is left is what was asked for. */
  lemma {:induction false} PhaseIsConserved(c: Config, w: World, es: seq<Event>)
    requires w.Valid(c) && EventsOk(c, es) && Untuned(es)
    ensures var w' := Run(c, w, es);
            && w'.log.shifted + w'.st.phase == w.log.shifted + w.st.phase
            && w'.log.packets >= w.log.packets
            && w'.st.phase == PhaseAfter(w.st.phase, w'.log.packets - w.log.packets)
    decreases |es|
  {
    if es != [] {
      var w1 := Advance(c, w, es[0]);
      assert w1.log.shifted + w1.st.phase == w.log.shifted + w.st.phase;
      PhaseIsConserved(c, w1, es[1..]);
    }
  }
}
