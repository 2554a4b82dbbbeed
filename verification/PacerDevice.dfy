/** The pacer's scheduling loop as it runs: the state of lcore_main_master, its vectors and its measurements. */
module PacerDevice {
  import opened Wrappers
  import opened Pacer
  import opened PacerRun

  /** A vector as far as it was built, and how that ended. */
  datatype Built = Built(items: seq<Item>, status: Status, st: State, ring: seq<nat>)

  /** The turns taken: one per item, and the one that ended the building early. */
  function Taken(b: Built): nat { |b.items| + (if b.status == Running then 0 else 1) }

  /** A vector of as many turns as there are batches of arrivals; each batch enters the ring before its turn. */
  function Build(c: Config, r: Rate, st: State, ring: seq<nat>, arrivals: seq<seq<nat>>): (b: Built)
    requires c.Valid() && r.Valid(c) && st.Valid(c)
    ensures b.st.Valid(c) && Taken(b) <= |arrivals|
    decreases |arrivals|
  {
    if arrivals == [] then Built([], Running, st, ring)
    else
      match Turn(c, r, st, ring + arrivals[0])
      case EndOfStream => Built([], Ended, st, ring + arrivals[0])
      case InvalidState => Built([], Invalid, st, ring + arrivals[0])
      case Emitted(item, st', ring') =>
        var b := Build(c, r, st', ring', arrivals[1..]);
        b.(items := [item] + b.items)
  }

  /** The world has come where the vector has. */
  predicate BuiltAs(w: World, b: Built, w': World)
  {
    && w'.status == b.status && w'.st == b.st && w'.ring == b.ring && w'.rate == w.rate
    && w'.log.items == w.log.items + b.items
  }

  function Came(lens: seq<nat>): (es: seq<Event>)
    ensures |es| == |lens| && forall i :: 0 <= i < |lens| ==> es[i] == Arrive(lens[i])
  {
    seq(|lens|, i requires 0 <= i < |lens| => Arrive(lens[i]))
  }

  /** The events of a vector: before each turn some packets arrive. */
  function Turns(arrivals: seq<seq<nat>>): (es: seq<Event>)
    ensures forall i :: 0 <= i < |es| ==> !es[i].Tune?
  {
    if arrivals == [] then [] else Came(arrivals[0]) + [Slot] + Turns(arrivals[1..])
  }

  lemma {:induction false} RunConcat(c: Config, w: World, a: seq<Event>, b: seq<Event>)
    requires w.Valid(c) && EventsOk(c, a) && EventsOk(c, b)
    ensures EventsOk(c, a + b) && Run(c, w, a + b) == Run(c, Run(c, w, a), b)
    decreases |a|
  {
    hide Advance;
    if a == [] {
      assert a + b == b;
    } else {
      assert (a + b)[1..] == a[1..] + b;
      RunConcat(c, Advance(c, w, a[0]), a[1..], b);
    }
  }

  lemma {:induction false} RunCame(c: Config, w: World, lens: seq<nat>)
    requires w.Valid(c)
    ensures Run(c, w, Came(lens)) == w.(ring := w.ring + lens)
    decreases |lens|
  {
    if lens == [] {
      assert w.ring + [] == w.ring;
    } else {
      var w1 := w.(ring := w.ring + [lens[0]]);
      assert Came(lens)[1..] == Came(lens[1..]);
      assert (w.ring + [lens[0]]) + lens[1..] == w.ring + lens;
      RunCame(c, w1, lens[1..]);
    }
  }

  /** The first turn of a vector, as a stretch of the run. */
  lemma RunTurns(c: Config, w: World, arrivals: seq<seq<nat>>)
    requires w.Valid(c) && arrivals != []
    ensures var w1 := Advance(c, w.(ring := w.ring + arrivals[0]), Slot);
            Run(c, w, Turns(arrivals)) == Run(c, w1, Turns(arrivals[1..]))
  {
    hide Advance;
    var came, w0 := Came(arrivals[0]), w.(ring := w.ring + arrivals[0]);
    RunCame(c, w, arrivals[0]);
    assert Turns(arrivals) == came + ([Slot] + Turns(arrivals[1..]));
    RunConcat(c, w, came, [Slot] + Turns(arrivals[1..]));
    assert ([Slot] + Turns(arrivals[1..]))[1..] == Turns(arrivals[1..]);
  }

  /**
   Building a vector is a stretch of the run, whatever arrives meanwhile: where one vector ends and the next
   begins does not matter.
   */
  lemma {:induction false} BuildIsRun(c: Config, w: World, arrivals: seq<seq<nat>>)
    requires w.Valid(c) && w.status == Running
    ensures var b := Build(c, w.rate, w.st, w.ring, arrivals);
            BuiltAs(w, b, Run(c, w, Turns(arrivals[..Taken(b)])))
    decreases |arrivals|
  {
    var b := Build(c, w.rate, w.st, w.ring, arrivals);
    if arrivals == [] {
      assert Run(c, w, []) == w && arrivals[..0] == [];
    } else {
      var n := Taken(b);
      var w1 := Advance(c, w.(ring := w.ring + arrivals[0]), Slot);
      var item := OneSlot(c, w, arrivals);
      assert n > 0 && arrivals[..n][0] == arrivals[0] && arrivals[..n][1..] == arrivals[1..][..n - 1];
      hide Build, Run, Advance, Turn, Turns, BuiltAs;
      RunTurns(c, w, arrivals[..n]);
      if w1.status == Running {
        var rest := Build(c, w1.rate, w1.st, w1.ring, arrivals[1..]);
        BuildIsRun(c, w1, arrivals[1..]);
        BuiltLonger(w, w1, item, rest, Run(c, w1, Turns(arrivals[1..][..n - 1])));
      } else {
        NoTurns(c, w1);
        BuiltNothing(w, w1, b);
      }
    }
  }

  lemma NoTurns(c: Config, w: World)
    requires w.Valid(c)
    ensures Run(c, w, Turns([])) == w
  {
  }

  lemma BuiltNothing(w: World, w1: World, b: Built)
    requires w1.rate == w.rate && w1.log.items == w.log.items && b == Built([], w1.status, w1.st, w1.ring)
    ensures BuiltAs(w, b, w1)
  {
  }

  lemma BuiltLonger(w: World, w1: World, item: Item, rest: Built, w': World)
    requires w1.rate == w.rate && w1.log.items == w.log.items + [item] && BuiltAs(w1, rest, w')
    ensures BuiltAs(w, rest.(items := [item] + rest.items), w')
  {
    assert (w.log.items + [item]) + rest.items == w.log.items + ([item] + rest.items);
  }

  /** The first slot of a vector, as a step of the run. */
  lemma OneSlot(c: Config, w: World, arrivals: seq<seq<nat>>) returns (item: Item)
    requires w.Valid(c) && w.status == Running && arrivals != []
    ensures var b := Build(c, w.rate, w.st, w.ring, arrivals);
            var w1 := Advance(c, w.(ring := w.ring + arrivals[0]), Slot);
            && w1.rate == w.rate && Taken(b) > 0
            && (w1.status != Running ==> b == Built([], w1.status, w1.st, w1.ring) && w1.log.items == w.log.items)
            && (w1.status == Running ==>
                  && w1.log.items == w.log.items + [item]
                  && var rest := Build(c, w1.rate, w1.st, w1.ring, arrivals[1..]);
                     b == rest.(items := [item] + rest.items))
  {
    hide Turn, RawGap;
    var t := Turn(c, w.rate, w.st, w.ring + arrivals[0]);
    item := if t.Emitted? then t.item else FullPause;
  }

  /** What has been built, with the rest of the vector after it. */
  function Extended(vec: seq<Item>, rest: Built): Built { rest.(items := vec + rest.items) }

  lemma {:induction false} BuildNext(c: Config, r: Rate, st: State, ring: seq<nat>, arrivals: seq<seq<nat>>,
                                     vec: seq<Item>)
    requires c.Valid() && r.Valid(c) && st.Valid(c)
    ensures Extended([], Build(c, r, st, ring, arrivals)) == Build(c, r, st, ring, arrivals)
    ensures arrivals == [] ==> Extended(vec, Build(c, r, st, ring, arrivals)) == Built(vec, Running, st, ring)
    ensures arrivals != [] ==>
              var all := Extended(vec, Build(c, r, st, ring, arrivals));
              match Turn(c, r, st, ring + arrivals[0])
              case EndOfStream => all == Built(vec, Ended, st, ring + arrivals[0])
              case InvalidState => all == Built(vec, Invalid, st, ring + arrivals[0])
              case Emitted(item, st', ring') => all == Extended(vec + [item], Build(c, r, st', ring', arrivals[1..]))
  {
    hide Turn;
    var b := Build(c, r, st, ring, arrivals);
    assert [] + b.items == b.items;
    if arrivals != [] && Turn(c, r, st, ring + arrivals[0]).Emitted? {
      var t := Turn(c, r, st, ring + arrivals[0]);
      var rest := Build(c, r, t.st, t.ring, arrivals[1..]);
      assert vec + ([t.item] + rest.items) == (vec + [t.item]) + rest.items;
    }
  }

  // ---- The sliding window of measurements ----

  function Sum(xs: seq<nat>): (n: nat)
  {
    if xs == [] then 0 else xs[0] + Sum(xs[1..])
  }

  /** The sum as the loop over the window computes it, in 64 bits. */
  function Sum64(xs: seq<nat>): nat { Sum(xs) % WORD }

  lemma {:induction false} SumConcat(xs: seq<nat>, ys: seq<nat>)
    ensures Sum(xs + ys) == Sum(xs) + Sum(ys)
    decreases |xs|
  {
    if xs == [] {
      assert xs + ys == ys;
    } else {
      assert (xs + ys)[1..] == xs[1..] + ys;
      SumConcat(xs[1..], ys);
    }
  }

  /** Storing a measurement over the oldest one. */
  function Stored(win: seq<nat>, slot: nat, x: nat): (win': seq<nat>)
    requires slot < |win|
  {
    win[slot := x]
  }

  /** The last n of a history, as if zeros had come before it. */
  function Latest(history: seq<nat>, n: nat): (l: seq<nat>)
    ensures |l| == n
  {
    (seq(n, _ => 0) + history)[|history|..]
  }

  /** The window holds the latest measurements, beginning at the slot to be written next. */
  predicate Holds(win: seq<nat>, slot: nat, history: seq<nat>)
  {
    slot < |win| && win[slot..] + win[..slot] == Latest(history, |win|)
  }

  /** Slots are written round and round. */
  function NextSlot(slot: nat, n: nat): nat { if slot + 1 < n then slot + 1 else 0 }

  lemma NextSlotIsMod(slot: nat, n: nat)
    requires slot < n
    ensures (slot + 1) % n == NextSlot(slot, n)
  {
  }

  lemma LatestAfter(history: seq<nat>, x: nat, n: nat)
    requires n > 0
    ensures Latest(history + [x], n) == Latest(history, n)[1..] + [x]
  {
  }

  lemma StoreKeeps(win: seq<nat>, slot: nat, history: seq<nat>, x: nat)
    requires Holds(win, slot, history)
    ensures Holds(Stored(win, slot, x), NextSlot(slot, |win|), history + [x])
  {
    var win', n := Stored(win, slot, x), |win|;
    var rest := win[slot + 1..] + win[..slot];
    assert win[slot..] + win[..slot] == [win[slot]] + rest;
    LatestAfter(history, x, n);
    hide Latest;
    if slot + 1 < n {
      assert win'[slot + 1..] + win'[..slot + 1] == rest + [x];
    } else {
      assert win'[0..] + win'[..0] == rest + [x];
    }
  }

  lemma SumIsOfLatest(win: seq<nat>, slot: nat, history: seq<nat>)
    requires Holds(win, slot, history)
    ensures Sum64(win) == Sum64(Latest(history, |win|))
  {
    assert win == win[..slot] + win[slot..];
    SumConcat(win[..slot], win[slot..]);
    SumConcat(win[slot..], win[..slot]);
  }

  /** The rate that fits the measurements: denom * bytes / packets, computed in 64 bits. */
  function Fitted(c: Config, bytes: nat, packets: nat): (r: Rate)
    requires c.Valid() && packets > 0
    ensures r.Valid(c) && r.Numerator(c) == (c.denom * bytes % WORD) / packets
  {
    var newNum := (c.denom * bytes % WORD) / packets;
    assert newNum <= c.denom * bytes % WORD by { Shrinks(c.denom * bytes % WORD, packets); }
    Shrinks(newNum, c.denom);
    Rate(newNum / c.denom, newNum - newNum / c.denom * c.denom)
  }

  lemma Shrinks(n: nat, d: nat)
    requires d > 0
    ensures 0 <= n / d <= n && 0 <= n - n / d * d < d
  {
    var q := n / d;
    assert n == q * d + n % d;
    NonNegative(q, d - 1);
    Distribute(q, d, -1);
  }

  /** The time a vector takes is what it has on the wire. */
  lemma {:induction false} BuildTakes(c: Config, r: Rate, st: State, ring: seq<nat>, arrivals: seq<seq<nat>>)
    requires c.Valid() && r.Valid(c) && st.Valid(c) && st.time < WORD
    ensures var b := Build(c, r, st, ring, arrivals); b.st.time == (st.time + Total(c, b.items)) % WORD
    decreases |arrivals|
  {
    hide Turn;
    if arrivals != [] {
      var t := Turn(c, r, st, ring + arrivals[0]);
      if t.Emitted? {
        TurnTakes(c, r, st, ring + arrivals[0]);
        var b, b' := Build(c, r, st, ring, arrivals), Build(c, r, t.st, t.ring, arrivals[1..]);
        assert b == b'.(items := [t.item] + b'.items);
        assert Total(c, [t.item] + b'.items) == t.item.Size(c) + Total(c, b'.items);
        hide Build, Total;
        BuildTakes(c, r, t.st, t.ring, arrivals[1..]);
        ModTwice(st.time + t.item.Size(c), Total(c, b'.items));
      }
    }
  }

  lemma TurnTakes(c: Config, r: Rate, st: State, ring: seq<nat>)
    requires c.Valid() && r.Valid(c) && st.Valid(c) && Turn(c, r, st, ring).Emitted?
    ensures var t := Turn(c, r, st, ring); t.st.time == (st.time + t.item.Size(c)) % WORD
  {
    hide RawGap, PauseTurn;
  }

  class Ring {
    var lens: seq<nat>

    constructor ()
      ensures lens == []
    {
      lens := [];
    }

    /** What the receiving core puts into the ring. */
    method Enqueue(more: seq<nat>)
      modifies this
      ensures lens == old(lens) + more
    {
      lens := lens + more;
    }

    method Dequeue() returns (len: Option<nat>)
      modifies this
      ensures len == if old(lens) == [] then None else Some(old(lens)[0])
      ensures lens == if old(lens) == [] then [] else old(lens)[1..]
    {
      if lens == [] {
        return None;
      }
      len, lens := Some(lens[0]), lens[1..];
    }
  }

  class Scheduler {
    const c: Config
    const avgWin: nat
    const freqControl: bool
    const phaseControl: bool

    /** `state`, `stateFracNum`, `twoPartialPauses`, `currentPhaseShift`, `current_time` */
    var gap: nat
    var frac: nat
    var two: bool
    var phase: int
    var time: nat

    var quot: nat
    var remaind: nat

    /** `slidingWin`, `slidingWinTime`, `currentSlot`, `iterationBeforeStart` */
    const win: array<nat>
    const winTime: array<nat>
    var slot: nat
    var warmup: nat

    /** The measurements made since the start, packets and bytes. */
    ghost var measured: seq<nat>
    ghost var measuredTime: seq<nat>

    ghost predicate Valid()
      reads this, win, winTime
    {
      && c.Valid() && win != winTime && winTime.Length == win.Length
      && St().Valid(c) && time < WORD && Speed().Valid(c)
      && |measured| == |measuredTime|
      && Holds(win[..], slot, measured) && Holds(winTime[..], slot, measuredTime)
      && warmup + |measured| >= win.Length && (warmup > 0 ==> warmup + |measured| == win.Length)
    }

    ghost function St(): State
      reads this
    {
      State(gap, frac, two, phase, time)
    }

    ghost function Speed(): Rate
      reads this
    {
      Rate(quot, remaind)
    }

    /** The window must have at least one slot: its length divides. */
    constructor (c: Config, num: nat, slots: nat, avgWin: nat, freqControl: bool, phaseControl: bool)
      requires c.Valid() && num < WORD && slots > 0
      ensures Valid() && fresh(win) && fresh(winTime)
      ensures this.c == c && this.avgWin == avgWin
      ensures this.freqControl == freqControl && this.phaseControl == phaseControl
      ensures St() == State(0, 0, false, 0, 0) && Speed().Numerator(c) == num
      ensures win.Length == slots && warmup == slots && measured == measuredTime == []
      ensures forall i :: 0 <= i < slots ==> win[i] == winTime[i] == 0
    {
      this.c, this.avgWin, this.freqControl, this.phaseControl := c, avgWin, freqControl, phaseControl;
      gap, frac, two, phase, time := 0, 0, false, 0, 0;
      Shrinks(num, c.denom);
      quot, remaind := num / c.denom, num - num / c.denom * c.denom;
      win, winTime := new nat[slots](_ => 0), new nat[slots](_ => 0);
      slot, warmup, measured, measuredTime := 0, slots, [], [];
      new;
      assert win[..] == Latest([], slots) && winTime[..] == Latest([], slots);
    }

    /** A packet is scheduled and opens a gap. */
    method SchedulePacket(len: nat)
      requires Valid() && gap == 0
      modifies this`gap, this`frac, this`phase, this`time
      ensures Valid() && St() == Packet(c, Speed(), old(St()), len)
    {
      var consumable := if phase > 100 then 100 else if phase < -100 then -100 else phase;
      ghost var was := St();
      var raw := gap + quot - c.Phy(len) - consumable;
      phase := phase - consumable;
      frac := frac + remaind;
      if frac >= c.denom {
        frac := frac - c.denom;
        raw := raw + 1;
      }
      assert raw == RawGap(c, Speed(), was, len);
      gap := raw % WORD;
      time := (time + c.Phy(len)) % WORD;
    }

    /** A pause is scheduled into the gap; None is the "Invalid state" exit. */
    method SchedulePause() returns (item: Option<Item>)
      requires Valid() && gap > 0
      modifies this`gap, this`two, this`time
      ensures Valid()
      ensures var p := PauseTurn(c, old(gap), old(two));
              if p.None? then item.None? && St() == old(St())
              else
                && item == Some(p.value.item)
                && St() == old(St()).(gap := p.value.gap, two := p.value.two,
                                      time := (old(time) + p.value.item.Size(c)) % WORD)
    {
      if c.minPkt <= gap <= c.Full() { LengthIs(c, gap); }
      LengthIs(c, c.minPkt);
      hide Length;
      if gap >= c.minPkt + c.Phy(1514) {
        item := Some(FullPause);
        gap := gap - c.Phy(1514);
        time := (time + c.Phy(1514)) % WORD;
      } else if gap <= c.Phy(1514) && gap >= c.minPkt && !two {
        var len := Length(gap, c.overhead);
        item := Some(Partial(len));
        gap := gap - c.Phy(len);
        time := (time + c.Phy(len)) % WORD;
      } else if gap <= c.Phy(1514) && gap >= c.minPkt && two {
        var len := Length(gap, c.overhead);
        item := Some(Partial2(len));
        gap := gap - c.Phy(len);
        two := false;
        time := (time + c.Phy(len)) % WORD;
      } else if gap > c.Phy(1514) && !two {
        var len := Length(c.minPkt, c.overhead);
        item := Some(Partial(len));
        gap := gap - c.minPkt;
        two := true;
        time := (time + c.Phy(len)) % WORD;
      } else {
        item := None;
      }
    }

    /** One turn of the loop that fills a vector. */
    method OneTurn(ring: Ring) returns (item: Option<Item>, status: Status)
      requires Valid()
      modifies this`gap, this`frac, this`two, this`phase, this`time, ring
      ensures Valid()
      ensures Turn(c, Speed(), old(St()), old(ring.lens))
           == (if item.Some? then Emitted(item.value, St(), ring.lens)
               else if status == Ended then EndOfStream else InvalidState)
      ensures item.None? ==> St() == old(St()) && ring.lens == old(ring.lens)
      ensures item.None? <==> status != Running
    {
      if gap == 0 {
        var len := ring.Dequeue();
        if len == None {
          return None, Ended;
        }
        hide RawGap;
        SchedulePacket(len.value);
        return Some(Data(len.value)), Running;
      } else {
        item := SchedulePause();
        status := if item == None then Invalid else Running;
      }
    }

    /**
     Fills one vector, unless the stream ends or the state is invalid first; `arrivals` is what the receiving
     core puts into the ring before each turn.
     */
    method BuildVector(ring: Ring, arrivals: seq<seq<nat>>) returns (vec: seq<Item>, status: Status)
      requires Valid() && |arrivals| == c.vecSize
      modifies this`gap, this`frac, this`two, this`phase, this`time, ring
      ensures Valid()
      ensures Built(vec, status, St(), ring.lens) == Build(c, Speed(), old(St()), old(ring.lens), arrivals)
      ensures time == (old(time) + Total(c, vec)) % WORD
    {
      hide Turn, Build, Extended, Config.Valid, Rate.Valid, State.Valid, Holds, Total;
      ghost var all, start := Build(c, Speed(), St(), ring.lens, arrivals), time;
      assert all.st.time == (start + Total(c, all.items)) % WORD by {
        BuildTakes(c, Speed(), St(), ring.lens, arrivals);
      }
      BuildNext(c, Speed(), St(), ring.lens, arrivals, []);
      assert arrivals[0..] == arrivals && arrivals[c.vecSize..] == [];
      vec := [];
      for i := 0 to c.vecSize
        invariant Valid() && quot == old(quot) && remaind == old(remaind)
        invariant all == Extended(vec, Build(c, Speed(), St(), ring.lens, arrivals[i..]))
      {
        BuildNext(c, Speed(), St(), ring.lens, arrivals[i..], vec);
        assert arrivals[i..][0] == arrivals[i] && arrivals[i..][1..] == arrivals[i + 1..];
        ring.Enqueue(arrivals[i]);
        var item;
        item, status := OneTurn(ring);
        if item == None {
          return;
        }
        vec := vec + [item.value];
      }
      BuildNext(c, Speed(), St(), ring.lens, [], vec);
      status := Running;
    }

    /** Stores a measurement over the oldest. */
    method Store(received: nat)
      requires Valid()
      modifies win, winTime, this`slot, this`measured, this`measuredTime
      ensures measured == old(measured) + [received] && measuredTime == old(measuredTime) + [time]
      ensures Holds(win[..], slot, measured) && Holds(winTime[..], slot, measuredTime)
    {
      StoreKeeps(win[..], slot, measured, received);
      StoreKeeps(winTime[..], slot, measuredTime, time);
      NextSlotIsMod(slot, win.Length);
      win[slot], winTime[slot] := received, time;
      assert win[..] == Stored(old(win[..]), slot, received);
      assert winTime[..] == Stored(old(winTime[..]), slot, time);
      hide Holds;
      slot, measured, measuredTime := (slot + 1) % win.Length, measured + [received], measuredTime + [time];
    }

    /** Sets the rate from the measurements in the window, if there are any packets among them. */
    method Adjust() returns (ok: bool)
      requires c.Valid() && winTime.Length == win.Length && St().Valid(c) && Speed().Valid(c)
      requires Holds(win[..], slot, measured) && Holds(winTime[..], slot, measuredTime)
      modifies this`quot, this`remaind
      ensures Speed().Valid(c)
      ensures var packets, bytes := Sum64(Latest(measured, win.Length)), Sum64(Latest(measuredTime, win.Length));
              && ok == (packets > 0)
              && Speed() == (if ok && freqControl then Fitted(c, bytes, packets) else old(Speed()))
    {
      hide Fitted, Latest, Sum64;
      SumIsOfLatest(win[..], slot, measured);
      SumIsOfLatest(winTime[..], slot, measuredTime);
      var packets := Add(win);
      var bytes := Add(winTime);
      ok := packets > 0;
      if ok && freqControl {
        var fitted := Fitted(c, bytes, packets);
        quot, remaind := fitted.quot, fitted.remaind;
      }
    }

    /**
     After a vector was sent. When a measuring window has passed, the number of packets received in it is
     stored over the oldest, and once there is a full round of earlier measurements, rate and phase are
     adjusted. False: no packets at all were counted, and the division fails.
     */
    method Measure(received: nat, phaseShift: int) returns (ok: bool)
      requires Valid()
      modifies this`phase, this`time, this`quot, this`remaind, this`slot, this`warmup, this`measured, this`measuredTime
      modifies win, winTime
      ensures Valid()
      ensures old(time) <= avgWin ==> ok && St() == old(St()) && Speed() == old(Speed()) && measured == old(measured)
      ensures old(time) > avgWin ==>
                && measured == old(measured) + [received] && measuredTime == old(measuredTime) + [old(time)]
                && var full := |old(measured)| >= win.Length;
                   var packets, bytes := Sum64(Latest(measured, win.Length)), Sum64(Latest(measuredTime, win.Length));
                   && ok == !(full && packets == 0)
                   && (ok ==>
                         && Speed() == (if full && freqControl then Fitted(c, bytes, packets) else old(Speed()))
                         && St() == old(St()).(time := 0,
                                               phase := if full && phaseControl then phaseShift else old(phase)))
    {
      hide Holds, Latest, Fitted, Sum64;
      ok := true;
      if time > avgWin {
        Store(received);
        if warmup == 0 {
          ok := Adjust();
          if !ok {
            return;
          }
          if phaseControl {
            phase := phaseShift;
          }
        } else {
          warmup := warmup - 1;
        }
        time := 0;
      }
    }
  }

  method Add(a: array<nat>) returns (n: nat)
    ensures n == Sum64(a[..])
  {
    n := 0;
    for i := 0 to a.Length
      invariant n == Sum64(a[..i])
    {
      SumMore(a[..i], a[i]);
      assert a[..i + 1] == a[..i] + [a[i]];
      hide Sum64;
      n := (n + a[i]) % WORD;
    }
    assert a[..] == a[..a.Length];
  }

  lemma SumMore(xs: seq<nat>, x: nat)
    ensures Sum64(xs + [x]) == (Sum64(xs) + x) % WORD
  {
    SumConcat(xs, [x]);
    assert Sum([x]) == x;
    AddModulo(Sum(xs), x);
  }

  lemma AddModulo(a: nat, b: nat)
    ensures (a + b) % WORD == (a % WORD + b) % WORD
  {
  }

}
