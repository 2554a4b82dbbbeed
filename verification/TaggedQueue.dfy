/**
 The functions of q.h and q.c as code: creation, and the non-blocking gets and puts as one thread runs
 them. Each body is followed load by load and store by store by the steps of the ring machine.
 */
module TaggedQueue {
  import opened RingArith
  import opened TaggedRing

  const QFREE: Word := 1
  const MAX_LOG: nat := 21

  /**
   The capacity loop of qcreate and qxcreate: doubling from one, stopping at 1 << 21. `plain` is what qcreate
   then asserts.
   */
  method Capacity(n: nat) returns (size: nat, logn: nat, plain: bool)
    ensures logn <= MAX_LOG && size == Pow2(logn)
    ensures n <= Pow2(MAX_LOG) ==> n <= size && (logn > 0 ==> Pow2(logn - 1) < n)
    ensures n > Pow2(MAX_LOG) ==> logn == MAX_LOG
    ensures plain <==> n <= Pow2(MAX_LOG - 1)
  {
    size, logn := 1, 0;
    MaxCapacity();
    hide Pow2;
    while size < 0x20_0000 && size < n
      invariant logn <= MAX_LOG && size == Pow2(logn)
      invariant logn > 0 ==> Pow2(logn - 1) < n
      decreases MAX_LOG - logn
    {
      Pow2Grows(logn, MAX_LOG);
      size, logn := 2 * size, logn + 1;
    }
    LogOfMax(logn);
    plain := size <= 0x10_0000;
    if logn > 0 { Pow2Grows(logn - 1, MAX_LOG - 1); }
  }

  lemma MaxCapacity()
    ensures Pow2(MAX_LOG) == 0x20_0000 && Pow2(MAX_LOG - 1) == 0x10_0000 && Pow2(0) == 1
    ensures forall k: nat :: Pow2(k + 1) == 2 * Pow2(k)
  {
    Pow2Sum(7, 7);
    Pow2Sum(7, 14);
    assert Pow2(7) == 128;
  }

  lemma {:induction false} Pow2Grows(a: nat, b: nat)
    requires a <= b
    ensures Pow2(a) <= Pow2(b) && (a < b ==> Pow2(a) < Pow2(b))
    decreases b - a
  {
    if a < b { Pow2Grows(a, b - 1); }
  }

  lemma LogOfMax(logn: nat)
    requires logn <= MAX_LOG
    ensures Pow2(logn) >= Pow2(MAX_LOG) ==> logn == MAX_LOG
  {
    Pow2Grows(logn, MAX_LOG);
  }

  /** The steps of a get that finds an item. */
  function GetSteps(give: Word): seq<Action> { [GetTry(give), GetStore, GetBump] }

  /** The steps of a put that finds a free slot. */
  function PutSteps(item: Word): seq<Action> { [PutTry(item), PutStore, PutBump] }

  /** All that a step asks of the slot array. */
  predicate Sized(s: State) { |s.ring.d| == s.ring.N() }

  lemma InvIsSized(s: State)
    requires Inv(s)
    ensures Sized(s)
  {
    hide Laid;
    RingSize(s.ring);
  }

  /** Three steps in a row. */
  lemma ThreeSteps(s: State, a1: Action, a2: Action, a3: Action)
    requires Inv(s) && Enabled(s, a1) && Sized(Next(s, a1)) && Enabled(Next(s, a1), a2)
    requires Sized(Next(Next(s, a1), a2)) && Enabled(Next(Next(s, a1), a2), a3)
    ensures Runs(s, [a1, a2, a3], Next(Next(Next(s, a1), a2), a3))
  {
    hide Slot, SlotOf, Pow2, Tagged, Next, Enabled, ConsumerOk, ProducerOk;
    var t := Next(Next(Next(s, a1), a2), a3);
    assert Runs(t, [], t);
    assert [a1, a2, a3][1..] == [a2, a3] && [a2, a3][1..] == [a3] && [a3][1..] == [];
    assert Runs(Next(Next(s, a1), a2), [a3], t);
    assert Runs(Next(s, a1), [a2, a3], t);
  }

  /** The states an undisturbed, successful get goes through. */
  lemma GetStates(s: State, give: Word)
    requires Inv(s) && s.consumer == CIdle && give % 2 == 0 && s.ring.Queue() != []
    ensures var slot, item := SlotOf(s.cc, s.ring.logn), s.ring.Queue()[0];
            && slot < |s.ring.d| && s.ring.d[slot] == item
            && Next(s, GetTry(give)) == s.(consumer := CLoaded(slot, item, give, false))
    ensures var slot, item := SlotOf(s.cc, s.ring.logn), s.ring.Queue()[0];
            && slot == Slot(|s.ring.outs|, s.ring.N())
            && Enabled(s, GetTry(give)) && Enabled(Next(s, GetTry(give)), GetStore)
  {
    hide Laid, Slot, SlotOf, Pow2, Tagged;
    CounterSlot(|s.ring.outs|, s.ring.logn);
    ConsumerSees(s.ring);
  }

  /** Where the steps of an undisturbed, successful get lead. */
  lemma GetRuns(s: State, give: Word) returns (t: State)
    requires Inv(s) && s.consumer == CIdle && give % 2 == 0 && s.ring.Queue() != []
    ensures var slot := SlotOf(s.cc, s.ring.logn);
            && slot < |s.ring.d| && s.ring.d[slot] == s.ring.Queue()[0]
            && t == State(s.ring.Taken(slot, s.ring.Queue()[0], give), (s.cc + 1) % WRAP, s.pc, CIdle, s.producer)
    ensures Runs(s, GetSteps(give), t) && Inv(t)
    ensures t.ring.Queue() == s.ring.Queue()[1..] && t.ring.Returns() == s.ring.Returns() + [give]
  {
    hide Laid, Slot, SlotOf, Pow2, Tagged, Runs, RingOk, ConsumerOk, ProducerOk;
    InvIsSized(s);
    GetStates(s, give);
    StepRefinesFifo(s, GetTry(give));
    var s1 := Next(s, GetTry(give));
    InvIsSized(s1);
    StepRefinesFifo(s1, GetStore);
    var s2 := Next(s1, GetStore);
    InvIsSized(s2);
    StepRefinesFifo(s2, GetBump);
    t := Next(s2, GetBump);
    ThreeSteps(s, GetTry(give), GetStore, GetBump);
  }

  /** The states an undisturbed, successful put goes through. */
  lemma PutStates(s: State, item: Word)
    requires Inv(s) && s.producer == PIdle && item % 2 == 0 && |s.ring.Queue()| < s.ring.N()
    ensures s.ring.Returns() != []
    ensures var slot, back := SlotOf(s.pc, s.ring.logn), MakeOdd(s.ring.Returns()[0]);
            && slot < |s.ring.d| && s.ring.d[slot] == back
            && Next(s, PutTry(item)) == s.(producer := PLoaded(slot, item, back, false))
    ensures Enabled(s, PutTry(item)) && Enabled(Next(s, PutTry(item)), PutStore)
  {
    hide Laid, Slot, SlotOf, Pow2, Tagged;
    CounterSlot(|s.ring.puts|, s.ring.logn);
    ProducerSees(s.ring);
  }

  /** Where the steps of an undisturbed, successful put lead. */
  lemma PutRuns(s: State, item: Word) returns (t: State)
    requires Inv(s) && s.producer == PIdle && item % 2 == 0 && |s.ring.Queue()| < s.ring.N()
    ensures s.ring.Returns() != []
    ensures var slot, back := SlotOf(s.pc, s.ring.logn), MakeOdd(s.ring.Returns()[0]);
            && slot < |s.ring.d| && s.ring.d[slot] == back
            && t == State(s.ring.Filled(slot, item, back), s.cc, (s.pc + 1) % WRAP, s.consumer, PIdle)
    ensures Runs(s, PutSteps(item), t) && Inv(t)
    ensures t.ring.Queue() == s.ring.Queue() + [item] && t.ring.Returns() == s.ring.Returns()[1..]
  {
    hide Laid, Slot, SlotOf, Pow2, Tagged, Runs, RingOk, ConsumerOk, ProducerOk, MakeOdd;
    InvIsSized(s);
    PutStates(s, item);
    StepRefinesFifo(s, PutTry(item));
    var s1 := Next(s, PutTry(item));
    InvIsSized(s1);
    StepRefinesFifo(s1, PutStore);
    var s2 := Next(s1, PutStore);
    InvIsSized(s2);
    StepRefinesFifo(s2, PutBump);
    t := Next(s2, PutBump);
    ThreeSteps(s, PutTry(item), PutStore, PutBump);
  }

  class Queue {
    const logn: nat
    /** The `x` flag: this is an exchange queue. */
    const exchange: bool
    const d: array<Word>
    var cc: nat
    var pc: nat
    /** The machine state of this queue: the fields above and the histories. */
    ghost var model: State

    ghost predicate Valid()
      reads this, d
    {
      && Inv(model) && model.consumer == CIdle && model.producer == PIdle
      && model.ring.logn == logn && d[..] == model.ring.d
      && cc == model.cc && pc == model.pc
      && (!exchange ==> forall i :: 0 <= i < |model.ring.Spares()| ==> model.ring.Spares()[i] == 0)
    }

    /** What a get would return, first to last. */
    ghost function Items(): seq<Word>
      reads this, d
      requires Valid()
    {
      model.ring.Queue()
    }

    /** What a put would return, first to last. */
    ghost function Returns(): seq<Word>
      reads this, d
      requires Valid()
    {
      model.ring.Returns()
    }

    /** qcreate, qxcreate: all slots free; `fill` is what the caller's callback returns, nil without one. */
    constructor (size: nat, log: nat, x: bool, fill: seq<Word>)
      requires log <= MAX_LOG && size == Pow2(log) && |fill| == size && AllEven(fill)
      requires !x ==> forall i :: 0 <= i < size ==> fill[i] == 0
      ensures Valid() && fresh(d) && logn == log && exchange == x
      ensures Items() == [] && Returns() == fill
    {
      logn, exchange := log, x;
      var slots := new Word[size];
      for i := 0 to size
        invariant forall j :: 0 <= j < i ==> slots[j] == MakeOdd(fill[j])
      {
        slots[i] := MakeOdd(fill[i]);
      }
      d := slots;
      cc, pc := 0, 0;
      model := State(Ring(log, Tagged(fill), fill, [], [], [], []), 0, 0, CIdle, PIdle);
      new;
      FreshIsOk(model.ring);
      assert d[..] == Tagged(fill);
      assert model.ring.Spares() == fill;
    }

    /** Shared body of qsnbget (give is nil) and qxsnbget. A free word comes back when the queue is empty. */
    method TryGet(give: Word) returns (e: Word)
      requires Valid() && give % 2 == 0 && (!exchange ==> give == 0)
      modifies this, d
      ensures Valid()
      ensures IsFree(e) <==> old(Items()) == []
      ensures old(Items()) == [] ==> model == old(model)
      ensures old(Items()) != [] ==>
                && e == old(Items())[0]
                && Items() == old(Items())[1..]
                && Returns() == old(Returns()) + [give]
                && Runs(old(model), GetSteps(give), model)
    {
      hide Laid, Slot, SlotOf, Pow2, Tagged, Runs;
      Looks(model);
      var p := SlotOf(cc, logn);
      e := d[p];
      if IsFree(e) {
        return;
      }
      ghost var next := GetRuns(model, give);
      d[p] := MakeOdd(give);
      cc := (cc + 1) % WRAP;
      model := next;
    }

    /** Shared body of qsnbput and qxsnbput. Without success nothing changes and `back` is a free word. */
    method TryPut(item: Word) returns (ok: bool, back: Word)
      requires Valid() && item % 2 == 0
      modifies this, d
      ensures Valid()
      ensures ok <==> |old(Items())| < Pow2(logn)
      ensures !ok ==> model == old(model) && back == QFREE
      ensures ok ==>
                && Items() == old(Items()) + [item]
                && old(Returns()) != [] && back == old(Returns())[0]
                && Returns() == old(Returns())[1..]
                && Runs(old(model), PutSteps(item), model)
    {
      hide Laid, Slot, SlotOf, Pow2, Tagged, Runs;
      Looks(model);
      var p := SlotOf(pc, logn);
      var x := d[p];
      if IsOccupied(x) {
        return false, QFREE;
      }
      ghost var next := PutRuns(model, item);
      d[p] := item;
      pc := (pc + 1) % WRAP;
      model := next;
      return true, MakeEven(x);
    }
  }
}
