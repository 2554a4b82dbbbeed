/**
 The queue `Q` of libegel: one slot array shared by a producer and a consumer, whose only
 synchronisation is the low bit of each slot (set = free, clear = occupied). The plain queue is the
 exchange queue whose consumer always hands back `nil` (`Qfree` is `Makeodd(nil)`), so one machine
 covers both. Its steps are the single loads and stores of the get and put functions, interleaved
 arbitrarily.
 */
module TaggedRing {
  import opened RingArith

  /** A pointer-sized word. */
  type Word = nat

  function MakeOdd(x: Word): Word { if x % 2 == 0 then x + 1 else x }

  function MakeEven(x: Word): Word { x - x % 2 }

  /** The tag is the lowest bit, and nothing else of a word changes with it. */
  lemma TagIsLowestBit(x: Word)
    ensures MakeOdd(x) % 2 == 1 && MakeOdd(x) / 2 == x / 2 && IsFree(MakeOdd(x)) && !IsOccupied(MakeOdd(x))
    ensures MakeEven(x) % 2 == 0 && MakeEven(x) / 2 == x / 2 && IsOccupied(MakeEven(x)) && !IsFree(MakeEven(x))
  {
  }

  predicate IsFree(x: Word) { x % 2 == 1 }

  predicate IsOccupied(x: Word) { x % 2 == 0 }

  /** Where the consumer is inside a get; `bumped` says that `c.c` was incremented before waiting. */
  datatype Consumer =
    | CIdle
    | CWaiting(slot: nat, give: Word)
    | CLoaded(slot: nat, item: Word, give: Word, bumped: bool)
    | CStored(item: Word)

  /** Where the producer is inside a put; `back` is the free word it replaces. */
  datatype Producer =
    | PIdle
    | PWaiting(slot: nat, item: Word)
    | PLoaded(slot: nat, item: Word, back: Word, bumped: bool)
    | PStored(back: Word)

  /**
   The slot array and four histories: the items stored by puts and taken by gets, the buffers left in
   slots by creation (`fills`) and by gets (`gives`), and the buffers returned by puts.
   */
  datatype Ring = Ring(
    logn: nat,
    d: seq<Word>,
    fills: seq<Word>,
    puts: seq<Word>,
    outs: seq<Word>,
    gives: seq<Word>,
    backs: seq<Word>)
  {
    function N(): nat { Pow2(logn) }

    /** Everything ever left in a free slot, in order. */
    function Spares(): seq<Word> { fills + gives }

    /** The abstract queue: items stored and not yet taken. */
    function Queue(): seq<Word>
      requires |outs| <= |puts|
    {
      puts[|outs|..]
    }

    /** The abstract return queue: buffers left in slots and not yet returned to the producer. */
    function Returns(): seq<Word>
      requires |backs| <= |Spares()|
    {
      Spares()[|backs|..]
    }

    /** The consumer's store: the slot becomes free and holds the buffer given in exchange. */
    function Taken(slot: nat, item: Word, give: Word): Ring
      requires slot < |d|
    {
      this.(d := d[slot := MakeOdd(give)], outs := outs + [item], gives := gives + [give])
    }

    /** The producer's store: the slot becomes occupied, and the buffer it held goes back. */
    function Filled(slot: nat, item: Word, back: Word): Ring
      requires slot < |d|
    {
      this.(d := d[slot := item], puts := puts + [item], backs := backs + [MakeEven(back)])
    }
  }

  /** The ring, the two wrapped counters and the two threads. */
  datatype State = State(ring: Ring, cc: nat, pc: nat, consumer: Consumer, producer: Producer)

  /** The steps of qsnbget/qxsnbget, qsget/qxsget, qsnbput/qxsnbput and qsput/qxsput. */
  datatype Action =
    | GetTry(give: Word)      // qsnbget: load the slot, give up when it is free
    | GetStart(give: Word)    // qsget: take the slot address and bump the counter first
    | GetLoad                 // qsget: load the slot again, keep waiting while it is free
    | GetStore                // overwrite the slot with the tagged buffer
    | GetBump                 // qsnbget: bump the counter, only on success
    | PutTry(item: Word)
    | PutStart(item: Word)
    | PutLoad
    | PutStore
    | PutBump

  predicate Enabled(s: State, a: Action)
  {
    match a
    case GetTry(give) => s.consumer.CIdle? && give % 2 == 0
    case GetStart(give) => s.consumer.CIdle? && give % 2 == 0
    case GetLoad => s.consumer.CWaiting? && s.consumer.slot < |s.ring.d|
    case GetStore => s.consumer.CLoaded? && s.consumer.slot < |s.ring.d|
    case GetBump => s.consumer.CStored?
    case PutTry(item) => s.producer.PIdle? && item % 2 == 0
    case PutStart(item) => s.producer.PIdle? && item % 2 == 0
    case PutLoad => s.producer.PWaiting? && s.producer.slot < |s.ring.d|
    case PutStore => s.producer.PLoaded? && s.producer.slot < |s.ring.d|
    case PutBump => s.producer.PStored?
  }

  /** The slot a thread addresses: `d[c & (n - 1)]`. */
  function SlotOf(counter: nat, logn: nat): (slot: nat)
    ensures slot < Pow2(logn)
  {
    MaskIsMod(counter, logn);
    And(counter, Pow2(logn) - 1)
  }

  function Next(s: State, a: Action): State
    requires |s.ring.d| == s.ring.N() && Enabled(s, a)
  {
    match a
    case GetTry(give) =>
      var slot := SlotOf(s.cc, s.ring.logn);
      var e := s.ring.d[slot];
      if IsFree(e) then s else s.(consumer := CLoaded(slot, e, give, false))
    case GetStart(give) =>
      s.(consumer := CWaiting(SlotOf(s.cc, s.ring.logn), give), cc := (s.cc + 1) % WRAP)
    case GetLoad =>
      var e := s.ring.d[s.consumer.slot];
      if IsFree(e) then s
      else s.(consumer := CLoaded(s.consumer.slot, e, s.consumer.give, true))
    case GetStore =>
      var c := s.consumer;
      s.(ring := s.ring.Taken(c.slot, c.item, c.give),
      consumer := if c.bumped then CIdle else CStored(c.item))
    case GetBump =>
      s.(consumer := CIdle, cc := (s.cc + 1) % WRAP)
    case PutTry(item) =>
      var slot := SlotOf(s.pc, s.ring.logn);
      var x := s.ring.d[slot];
      if IsOccupied(x) then s else s.(producer := PLoaded(slot, item, x, false))
    case PutStart(item) =>
      s.(producer := PWaiting(SlotOf(s.pc, s.ring.logn), item), pc := (s.pc + 1) % WRAP)
    case PutLoad =>
      var x := s.ring.d[s.producer.slot];
      if IsOccupied(x) then s
      else s.(producer := PLoaded(s.producer.slot, s.producer.item, x, true))
    case PutStore =>
      var p := s.producer;
      s.(ring := s.ring.Filled(p.slot, p.item, p.back),
      producer := if p.bumped then PIdle else PStored(MakeEven(p.back)))
    case PutBump =>
      s.(producer := PIdle, pc := (s.pc + 1) % WRAP)
  }

  predicate AllEven(xs: seq<Word>) { forall i :: 0 <= i < |xs| ==> xs[i] % 2 == 0 }

  /** Words as they lie in free slots. */
  function Tagged(xs: seq<Word>): seq<Word> { seq(|xs|, i requires 0 <= i < |xs| => MakeOdd(xs[i])) }

  /** A ring just created: every slot free, holding its tagged fill value. */
  predicate Fresh(r: Ring)
  {
    && r.logn <= 21 && |r.fills| == r.N() && AllEven(r.fills) && r.d == Tagged(r.fills)
    && r.puts == [] && r.outs == [] && r.gives == [] && r.backs == []
  }

  predicate Init(s: State)
  {
    Fresh(s.ring) && s.cc == 0 && s.pc == 0 && s.consumer == CIdle && s.producer == PIdle
  }

  /** The positions lo..hi-1 of a sequence are laid out in the slots, each at its position mod n. */
  predicate Laid(d: seq<Word>, n: nat, lo: nat, hi: nat, vals: seq<Word>)
  {
    |d| == n > 0 && lo <= hi <= |vals| && forall i :: lo <= i < hi ==> d[Slot(i, n)] == vals[i]
  }

  /**
   What every store keeps: one lap of positions fills the slots, occupied ones first and then free
   ones; what came out is exactly the beginning of what went in, in both directions.
   */
  predicate RingOk(r: Ring)
  {
    && r.logn <= 21 && |r.fills| == r.N()
    && |r.gives| == |r.outs| && |r.backs| == |r.puts|
    && |r.outs| <= |r.puts| <= |r.Spares()|
    && AllEven(r.puts) && AllEven(r.Spares())
    && r.outs == r.puts[..|r.outs|]
    && r.backs == r.Spares()[..|r.backs|]
    && Laid(r.d, r.N(), |r.outs|, |r.puts|, r.puts)
    && Laid(r.d, r.N(), |r.puts|, |r.Spares()|, Tagged(r.Spares()))
  }

  /** The consumer's counter is the true count of gets, wrapped; its registers agree with the ring. */
  predicate ConsumerOk(r: Ring, cc: nat, c: Consumer)
  {
    var g, n := |r.outs|, r.N();
    match c
    case CIdle => cc == g % WRAP
    case CWaiting(slot, give) => cc == (g + 1) % WRAP && slot == Slot(g, n) && give % 2 == 0
    case CLoaded(slot, item, give, bumped) =>
      && cc == (if bumped then g + 1 else g) % WRAP
      && slot == Slot(g, n) && give % 2 == 0
      && g < |r.puts| && item == r.puts[g]
    case CStored(item) => g > 0 && cc == (g - 1) % WRAP && item == r.outs[g - 1]
  }

  predicate ProducerOk(r: Ring, pc: nat, pr: Producer)
  {
    var p, n := |r.puts|, r.N();
    match pr
    case PIdle => pc == p % WRAP
    case PWaiting(slot, item) => pc == (p + 1) % WRAP && slot == Slot(p, n) && item % 2 == 0
    case PLoaded(slot, item, back, bumped) =>
      && pc == (if bumped then p + 1 else p) % WRAP
      && slot == Slot(p, n) && item % 2 == 0
      && p < |r.Spares()| && back == MakeOdd(r.Spares()[p])
    case PStored(back) => p > 0 && |r.backs| == p && pc == (p - 1) % WRAP && back == r.backs[p - 1]
  }

  /** What every step keeps. */
  predicate Inv(s: State)
  {
    RingOk(s.ring) && ConsumerOk(s.ring, s.cc, s.consumer) && ProducerOk(s.ring, s.pc, s.producer)
  }

  lemma FreshIsOk(r: Ring)
    requires Fresh(r)
    ensures RingOk(r)
  {
    assert r.Spares() == r.fills;
  }

  /** Overwriting the slot of a position outside lo..hi-1, less than a lap away, disturbs nothing. */
  lemma LaidElsewhere(d: seq<Word>, n: nat, lo: nat, hi: nat, vals: seq<Word>, at: nat, w: Word)
    requires Laid(d, n, lo, hi, vals)
    requires (at < lo && hi <= at + n) || (hi <= at && at < lo + n)
    ensures Laid(d[Slot(at, n) := w], n, lo, hi, vals)
  {
    forall i | lo <= i < hi
      ensures d[Slot(at, n) := w][Slot(i, n)] == vals[i]
    {
      if at < i { SlotsDistinct(at, i, n); } else { SlotsDistinct(i, at, n); }
    }
  }

  /** Storing at the end of a laid-out range extends it by one. */
  lemma LaidExtend(d: seq<Word>, n: nat, lo: nat, hi: nat, vals: seq<Word>, w: Word)
    requires Laid(d, n, lo, hi, vals) && hi == |vals| < lo + n
    ensures Laid(d[Slot(hi, n) := w], n, lo, hi + 1, vals + [w])
  {
    LaidElsewhere(d, n, lo, hi, vals, hi, w);
    var e := d[Slot(hi, n) := w];
    forall i | lo <= i < hi + 1
      ensures e[Slot(i, n)] == (vals + [w])[i]
    {
      if i < hi { assert e[Slot(i, n)] == vals[i]; }
    }
  }

  lemma LaidParts(d: seq<Word>, n: nat, lo: nat, hi: nat, vals: seq<Word>)
    requires Laid(d, n, lo, hi, vals)
    ensures |d| == n > 0 && lo <= hi <= |vals|
    ensures lo < hi ==> Laid(d, n, lo + 1, hi, vals)
  {
  }

  lemma SlotLap(i: nat, n: nat)
    requires n > 0
    ensures Slot(i + n, n) == Slot(i, n)
  {
  }

  lemma TaggedMore(xs: seq<Word>, x: Word)
    ensures Tagged(xs + [x]) == Tagged(xs) + [MakeOdd(x)] && |Tagged(xs)| == |xs|
  {
  }

  lemma EvenMore(xs: seq<Word>, x: Word)
    requires AllEven(xs) && x % 2 == 0
    ensures AllEven(xs + [x])
  {
  }

  lemma EvenAt(xs: seq<Word>, i: nat)
    requires AllEven(xs) && i < |xs|
    ensures MakeEven(MakeOdd(xs[i])) == xs[i] && |Tagged(xs)| == |xs|
  {
  }

  lemma TakenIsOk(r: Ring, give: Word)
    requires RingOk(r) && |r.outs| < |r.puts| && give % 2 == 0
    ensures RingOk(r.Taken(Slot(|r.outs|, r.N()), r.puts[|r.outs|], give))
  {
    hide Laid, Slot, Pow2, Tagged, MakeOdd, AllEven;
    var n, g, p, w := r.N(), |r.outs|, |r.puts|, MakeOdd(give);
    LaidParts(r.d, n, g, p, r.puts);
    var t := r.Taken(Slot(g, n), r.puts[g], give);
    LaidElsewhere(r.d, n, g + 1, p, r.puts, g, w);
    TaggedMore(r.Spares(), give);
    SlotLap(g, n);
    LaidExtend(r.d, n, p, g + n, Tagged(r.Spares()), w);
    assert t.Spares() == r.Spares() + [give];
    EvenMore(r.Spares(), give);
    assert t.outs == t.puts[..g + 1];
    assert t.Spares()[..|r.backs|] == r.Spares()[..|r.backs|];
  }

  lemma FilledIsOk(r: Ring, item: Word)
    requires RingOk(r) && |r.puts| < |r.Spares()| && item % 2 == 0
    ensures RingOk(r.Filled(Slot(|r.puts|, r.N()), item, MakeOdd(r.Spares()[|r.puts|])))
  {
    hide Laid, Slot, Pow2, Tagged, MakeOdd, AllEven;
    var n, g, p := r.N(), |r.outs|, |r.puts|;
    LaidParts(r.d, n, g, p, r.puts);
    LaidParts(r.d, n, p, g + n, Tagged(r.Spares()));
    EvenMore(r.puts, item);
    EvenAt(r.Spares(), p);
    var t := r.Filled(Slot(p, n), item, MakeOdd(r.Spares()[p]));
    LaidExtend(r.d, n, g, p, r.puts, item);
    LaidElsewhere(r.d, n, p + 1, g + n, Tagged(r.Spares()), p, item);
    assert t.Spares() == r.Spares();
    assert t.backs == t.Spares()[..p + 1];
  }

  /** The slot the consumer looks at tells whether the queue is empty, and holds its head if not. */
  lemma ConsumerSees(r: Ring)
    requires RingOk(r)
    ensures Slot(|r.outs|, r.N()) < |r.d|
    ensures var e := r.d[Slot(|r.outs|, r.N())];
            && (IsFree(e) <==> r.Queue() == [])
            && (r.Queue() != [] ==> e == r.Queue()[0])
  {
    var g := |r.outs|;
    if r.Queue() == [] {
      assert r.d[Slot(g, r.N())] == Tagged(r.Spares())[g];
    } else {
      assert r.d[Slot(g, r.N())] == r.puts[g];
    }
  }

  /** The slot the producer looks at tells whether the queue is full, and holds the next return if not. */
  lemma ProducerSees(r: Ring)
    requires RingOk(r)
    ensures Slot(|r.puts|, r.N()) < |r.d|
    ensures var x := r.d[Slot(|r.puts|, r.N())];
            && (IsOccupied(x) <==> |r.Queue()| == r.N())
            && (|r.Queue()| < r.N() ==> r.Returns() != [] && x == MakeOdd(r.Returns()[0]))
  {
    var p, n, g := |r.puts|, r.N(), |r.outs|;
    if |r.Queue()| == n {
      assert Slot(p, n) == Slot(g, n);
      assert r.d[Slot(g, n)] == r.puts[g];
    } else {
      assert r.d[Slot(p, n)] == Tagged(r.Spares())[p];
    }
  }

  /** The masked, wrapped counter addresses the slot of the true count. */
  lemma CounterSlot(t: nat, logn: nat)
    requires logn <= 21
    ensures SlotOf(t % WRAP, logn) == Slot(t, Pow2(logn))
  {
    WrappedCounterSelectsSlot(t, logn);
    SlotIsMod(t, Pow2(logn));
  }

  predicate ConsumerAction(a: Action) { a.GetTry? || a.GetStart? || a.GetLoad? || a.GetStore? || a.GetBump? }

  lemma GetStoreKeepsInv(s: State)
    requires Inv(s) && s.consumer.CLoaded?
    ensures Inv(Next(s, GetStore))
  {
    var r, c := s.ring, s.consumer;
    var t := r.Taken(c.slot, c.item, c.give);
    TakenIsOk(r, c.give);
    assert t.Spares() == r.Spares() + [c.give];
    assert ProducerOk(t, s.pc, s.producer);
    assert ConsumerOk(t, s.cc, Next(s, GetStore).consumer);
  }

  lemma PutStoreKeepsInv(s: State)
    requires Inv(s) && s.producer.PLoaded?
    ensures Inv(Next(s, PutStore))
  {
    var r, p := s.ring, s.producer;
    var t := r.Filled(p.slot, p.item, p.back);
    FilledIsOk(r, p.item);
    assert ConsumerOk(t, s.cc, s.consumer);
    assert ProducerOk(t, s.pc, Next(s, PutStore).producer);
  }

  lemma ConsumerStepKeepsInv(s: State, a: Action)
    requires Inv(s) && Enabled(s, a) && ConsumerAction(a)
    ensures Inv(Next(s, a))
  {
    hide Laid, Slot, SlotOf, Pow2, Tagged;
    match a
    case GetTry(_) =>
      CounterSlot(|s.ring.outs|, s.ring.logn);
      ConsumerSees(s.ring);
    case GetStart(give) =>
      CounterSlot(|s.ring.outs|, s.ring.logn);
      WrapStep(|s.ring.outs|);
    case GetLoad =>
      ConsumerSees(s.ring);
    case GetStore =>
      GetStoreKeepsInv(s);
    case GetBump =>
      WrapStep(|s.ring.outs| - 1);
  }

  lemma ProducerStepKeepsInv(s: State, a: Action)
    requires Inv(s) && Enabled(s, a) && !ConsumerAction(a)
    ensures Inv(Next(s, a))
  {
    hide Laid, Slot, SlotOf, Pow2, Tagged;
    match a
    case PutTry(_) =>
      CounterSlot(|s.ring.puts|, s.ring.logn);
      ProducerSees(s.ring);
    case PutStart(_) =>
      CounterSlot(|s.ring.puts|, s.ring.logn);
      WrapStep(|s.ring.puts|);
    case PutLoad =>
      ProducerSees(s.ring);
    case PutStore =>
      PutStoreKeepsInv(s);
    case PutBump =>
      WrapStep(|s.ring.puts| - 1);
  }

  lemma StepKeepsInv(s: State, a: Action)
    requires Inv(s) && Enabled(s, a)
    ensures Inv(Next(s, a))
  {
    if ConsumerAction(a) { ConsumerStepKeepsInv(s, a); } else { ProducerStepKeepsInv(s, a); }
  }

  /** The run that takes the given actions one after the other leads from s to t. */
  predicate Runs(s: State, actions: seq<Action>, t: State)
    decreases |actions|
  {
    if actions == [] then s == t
    else |s.ring.d| == s.ring.N() && Enabled(s, actions[0]) && Runs(Next(s, actions[0]), actions[1..], t)
  }

  lemma {:induction false} RunKeepsInv(s: State, actions: seq<Action>, t: State)
    requires Inv(s) && Runs(s, actions, t)
    ensures Inv(t) && t.ring.fills == s.ring.fills && t.ring.logn == s.ring.logn
    decreases |actions|
  {
    if actions != [] {
      StepKeepsInv(s, actions[0]);
      RunKeepsInv(Next(s, actions[0]), actions[1..], t);
    }
  }

  lemma RingSize(r: Ring)
    requires RingOk(r)
    ensures r.logn <= 21 && |r.d| == r.N()
  {
  }

  lemma GetStoreDequeues(s: State)
    requires Inv(s) && s.consumer.CLoaded?
    ensures var r, c := s.ring, s.consumer;
            var t := r.Taken(c.slot, c.item, c.give);
            && RingOk(t) && t.N() == r.N()
            && r.Queue() != [] && c.item == r.Queue()[0] && t.Queue() == r.Queue()[1..]
            && t.Returns() == r.Returns() + [c.give]
  {
    hide Laid, Slot, Pow2, Tagged;
    TakenIsOk(s.ring, s.consumer.give);
  }

  lemma PutStoreEnqueues(s: State)
    requires Inv(s) && s.producer.PLoaded?
    ensures var r, p := s.ring, s.producer;
            var t := r.Filled(p.slot, p.item, p.back);
            && RingOk(t) && t.N() == r.N()
            && |r.Queue()| < r.N() && t.Queue() == r.Queue() + [p.item]
            && r.Returns() != [] && MakeEven(p.back) == r.Returns()[0] && t.Returns() == r.Returns()[1..]
  {
    hide Laid, Slot, Pow2, Tagged;
    FilledIsOk(s.ring, s.producer.item);
  }

  /** The slot a thread addresses is free or occupied as the abstract queue says. */
  lemma Looks(s: State)
    requires Inv(s)
    ensures s.consumer == CIdle ==>
              var slot := SlotOf(s.cc, s.ring.logn);
              slot < |s.ring.d| && (IsFree(s.ring.d[slot]) <==> s.ring.Queue() == [])
    ensures s.consumer.CWaiting? ==>
              s.consumer.slot < |s.ring.d| && (IsFree(s.ring.d[s.consumer.slot]) <==> s.ring.Queue() == [])
    ensures s.producer == PIdle ==>
              var slot := SlotOf(s.pc, s.ring.logn);
              slot < |s.ring.d| && (IsOccupied(s.ring.d[slot]) <==> |s.ring.Queue()| == s.ring.N())
    ensures s.producer.PWaiting? ==>
              && s.producer.slot < |s.ring.d|
              && (IsOccupied(s.ring.d[s.producer.slot]) <==> |s.ring.Queue()| == s.ring.N())
  {
    hide RingOk, Laid, Slot, SlotOf, Pow2, Tagged;
    assert s.ring.logn <= 21 by { RingSize(s.ring); }
    CounterSlot(|s.ring.outs|, s.ring.logn);
    CounterSlot(|s.ring.puts|, s.ring.logn);
    ConsumerSees(s.ring);
    ProducerSees(s.ring);
  }

  /**
   Each single load or store either leaves both abstract queues alone or is exactly one dequeue or
   one enqueue. A non-blocking get gives up only when the queue is empty at that load, a put only
   when it is full, and a waiting thread keeps waiting only under the same conditions.
   */
  lemma StepRefinesFifo(s: State, a: Action)
    requires Inv(s) && Enabled(s, a)
    ensures Inv(Next(s, a))
    ensures var q, q', n := s.ring.Queue(), Next(s, a).ring.Queue(), s.ring.N();
            var b, b' := s.ring.Returns(), Next(s, a).ring.Returns();
            match a
            case GetStore =>
              && q != [] && s.consumer.item == q[0] && q' == q[1..]
              && b' == b + [s.consumer.give]
            case PutStore =>
              && |q| < n && q' == q + [s.producer.item]
              && b != [] && MakeEven(s.producer.back) == b[0] && b' == b[1..]
            case GetTry(_) => q' == q && b' == b && (Next(s, a).consumer == CIdle <==> q == [])
            case GetLoad => q' == q && b' == b && (Next(s, a) == s <==> q == [])
            case PutTry(_) => q' == q && b' == b && (Next(s, a).producer == PIdle <==> |q| == n)
            case PutLoad => q' == q && b' == b && (Next(s, a) == s <==> |q| == n)
            case _ => q' == q && b' == b
  {
    hide RingOk, ConsumerOk, ProducerOk, SlotOf;
    StepKeepsInv(s, a);
    if a.GetStore? { GetStoreDequeues(s); }
    else if a.PutStore? { PutStoreEnqueues(s); }
    else { Looks(s); }
  }

  /** The slots holding even words are exactly the slots of the items in flight, which they hold in order. */
  lemma OccupiedSlotsAreInFlight(r: Ring)
    requires RingOk(r)
    ensures |r.Queue()| <= r.N()
    ensures forall j :: 0 <= j < |r.Queue()| ==> r.d[Slot(|r.outs| + j, r.N())] == r.Queue()[j]
    ensures forall k :: 0 <= k < r.N() ==>
              (IsOccupied(r.d[k]) <==> exists i :: |r.outs| <= i < |r.puts| && Slot(i, r.N()) == k)
  {
    var n, g := r.N(), |r.outs|;
    forall k | 0 <= k < n
      ensures IsOccupied(r.d[k]) <==> exists i :: g <= i < |r.puts| && Slot(i, n) == k
    {
      var i := SlotOfWindow(k, g, n);
      if i < |r.puts| {
        assert r.d[Slot(i, n)] == r.puts[i];
      } else {
        assert r.d[Slot(i, n)] == Tagged(r.Spares())[i];
        forall j: nat | g <= j < |r.puts| ensures Slot(j, n) != k { SlotsDistinct(j, i, n); }
      }
    }
  }

  /**
   Main result for the plain queue: in every run, under every interleaving, what was taken is exactly
   the beginning of what was put, in order; at most n items are in flight, and they are the occupied slots.
   */
  lemma FifoInEveryRun(s: State, actions: seq<Action>, t: State)
    requires Init(s) && Runs(s, actions, t)
    ensures Inv(t)
    ensures t.ring.outs + t.ring.Queue() == t.ring.puts
    ensures |t.ring.puts| - |t.ring.outs| <= s.ring.N()
  {
    FreshIsOk(s.ring);
    RunKeepsInv(s, actions, t);
  }

  /**
   Main result for the exchange queue: put number j returns the buffer given to get number j - n, and
   the j-th fill value while j < n.
   */
  lemma PutReturnsEarlierGive(s: State, actions: seq<Action>, t: State, j: nat)
    requires Init(s) && Runs(s, actions, t) && j < |t.ring.backs|
    ensures |t.ring.gives| > j - s.ring.N()
    ensures t.ring.backs[j] == if j < s.ring.N() then s.ring.fills[j] else t.ring.gives[j - s.ring.N()]
  {
    FreshIsOk(s.ring);
    RunKeepsInv(s, actions, t);
  }

  function Untagged(d: seq<Word>): seq<Word> { seq(|d|, i requires 0 <= i < |d| => MakeEven(d[i])) }

  /** The buffers lying in the slots, tags removed. */
  function Inside(r: Ring): multiset<Word> { multiset(Untagged(r.d)) }

  /** What went in is what came out together with what the slots hold. */
  predicate Conserved(r: Ring)
  {
    multiset(r.fills) + multiset(r.puts) + multiset(r.gives)
    == Inside(r) + (multiset(r.outs) + multiset(r.backs))
  }

  lemma StoreSwapsOne(d: seq<Word>, k: nat, w: Word)
    requires k < |d|
    ensures multiset(Untagged(d[k := w])) + multiset{MakeEven(d[k])}
         == multiset(Untagged(d)) + multiset{MakeEven(w)}
  {
    assert Untagged(d[k := w]) == Untagged(d)[k := MakeEven(w)];
  }

  lemma SwapKeepsBalance(entered: multiset<Word>, inside: multiset<Word>, left: multiset<Word>,
                         inside': multiset<Word>, came: Word, gone: Word)
    requires entered == inside + left
    requires inside' + multiset{gone} == inside + multiset{came}
    ensures entered + multiset{came} == inside' + (left + multiset{gone})
  {
    forall w: Word
      ensures (entered + multiset{came})[w] == (inside' + (left + multiset{gone}))[w]
    {
      assert (inside' + multiset{gone})[w] == (inside + multiset{came})[w];
    }
  }

  lemma TakenConserves(r: Ring, slot: nat, item: Word, give: Word)
    requires Conserved(r) && slot < |r.d| && MakeEven(r.d[slot]) == item && give % 2 == 0
    ensures Conserved(r.Taken(slot, item, give))
  {
    var t := r.Taken(slot, item, give);
    StoreSwapsOne(r.d, slot, MakeOdd(give));
    assert Inside(t) + multiset{item} == Inside(r) + multiset{give};
    assert multiset(t.outs) == multiset(r.outs) + multiset{item};
    assert multiset(t.gives) == multiset(r.gives) + multiset{give};
    var entered := multiset(r.fills) + multiset(r.puts) + multiset(r.gives);
    var left := multiset(r.outs) + multiset(r.backs);
    SwapKeepsBalance(entered, Inside(r), left, Inside(t), give, item);
    assert entered + multiset{give} == multiset(t.fills) + multiset(t.puts) + multiset(t.gives);
    assert left + multiset{item} == multiset(t.outs) + multiset(t.backs);
  }

  lemma FilledConserves(r: Ring, slot: nat, item: Word, back: Word)
    requires Conserved(r) && slot < |r.d| && r.d[slot] == back && item % 2 == 0
    ensures Conserved(r.Filled(slot, item, back))
  {
    var t := r.Filled(slot, item, back);
    StoreSwapsOne(r.d, slot, item);
    assert Inside(t) + multiset{MakeEven(back)} == Inside(r) + multiset{item};
    assert multiset(t.backs) == multiset(r.backs) + multiset{MakeEven(back)};
    assert multiset(t.puts) == multiset(r.puts) + multiset{item};
    var entered := multiset(r.fills) + multiset(r.puts) + multiset(r.gives);
    var left := multiset(r.outs) + multiset(r.backs);
    SwapKeepsBalance(entered, Inside(r), left, Inside(t), item, MakeEven(back));
    assert entered + multiset{item} == multiset(t.fills) + multiset(t.puts) + multiset(t.gives);
    assert left + multiset{MakeEven(back)} == multiset(t.outs) + multiset(t.backs);
  }

  lemma StepConserves(s: State, a: Action)
    requires Inv(s) && Enabled(s, a) && Conserved(s.ring)
    ensures Conserved(Next(s, a).ring)
  {
    if a.GetStore? {
      ConsumerSees(s.ring);
      TakenConserves(s.ring, s.consumer.slot, s.consumer.item, s.consumer.give);
    } else if a.PutStore? {
      ProducerSees(s.ring);
      FilledConserves(s.ring, s.producer.slot, s.producer.item, s.producer.back);
    }
  }

  lemma {:induction false} RunConserves(s: State, actions: seq<Action>, t: State)
    requires Inv(s) && Conserved(s.ring) && Runs(s, actions, t)
    ensures Conserved(t.ring)
    decreases |actions|
  {
    if actions != [] {
      StepKeepsInv(s, actions[0]);
      StepConserves(s, actions[0]);
      RunConserves(Next(s, actions[0]), actions[1..], t);
    }
  }

  /**
   Buffer conservation: if the producer started with the buffers `mine` and the consumer with `yours`,
   and each only ever handed over buffers it held, then in every reachable state the buffers held by
   the producer, lying in the ring and held by the consumer are together the initial ones.
   */
  lemma BuffersNeverChangeInNumber(s: State, actions: seq<Action>, t: State, mine: multiset<Word>,
                                   yours: multiset<Word>)
    requires Init(s) && Runs(s, actions, t)
    requires multiset(t.ring.puts) <= mine + multiset(t.ring.backs)
    requires multiset(t.ring.gives) <= yours + multiset(t.ring.outs)
    ensures (mine + multiset(t.ring.backs) - multiset(t.ring.puts))
         + Inside(t.ring)
         + (yours + multiset(t.ring.outs) - multiset(t.ring.gives))
         == mine + multiset(s.ring.fills) + yours
  {
    FreshIsOk(s.ring);
    assert Untagged(Tagged(s.ring.fills)) == s.ring.fills;
    RunConserves(s, actions, t);
    RunKeepsInv(s, actions, t);
    HeldTotal(multiset(t.ring.fills), multiset(t.ring.puts), multiset(t.ring.gives), Inside(t.ring),
              multiset(t.ring.outs), multiset(t.ring.backs), mine, yours);
  }

  lemma HeldTotal(fills: multiset<Word>, puts: multiset<Word>, gives: multiset<Word>, inside: multiset<Word>,
                  outs: multiset<Word>, backs: multiset<Word>, mine: multiset<Word>, yours: multiset<Word>)
    requires fills + puts + gives == inside + (outs + backs)
    requires puts <= mine + backs && gives <= yours + outs
    ensures (mine + backs - puts) + inside + (yours + outs - gives) == mine + fills + yours
  {
    forall w: Word
      ensures ((mine + backs - puts) + inside + (yours + outs - gives))[w] == (mine + fills + yours)[w]
    {
      assert (fills + puts + gives)[w] == (inside + (outs + backs))[w];
    }
  }
}
