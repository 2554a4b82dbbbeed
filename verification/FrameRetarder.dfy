/**
 The frame retarder, a module that delays one input by a number of frames: its queue, and the thread that
 reads frames and feeds the outputs, with the outputs running beside it.
 */
module FrameRetarder {
  import opened Wrappers
  import opened FramePool
  import opened FrameMachine

  /** A delay that is not positive does not delay. */
  function Delay(n: int): nat { if n > 0 then n else 0 }

  /** The last n frames of a history. */
  function Kept(history: seq<int>, n: nat): (q: seq<int>)
    ensures |q| <= n
  {
    if |history| <= n then history else history[|history| - n..]
  }

  lemma KeptMore(history: seq<int>, h: int, n: nat)
    ensures Kept(history + [h], n)
         == (if |Kept(history, n)| == n then (Kept(history, n) + [h])[1..] else Kept(history, n) + [h])
    ensures |history| >= n ==> (Kept(history, n) + [h])[0] == (history + [h])[|history| - n]
  {
  }

  /** The module's queue `g_q`, and all frames ever received. */
  class Retarder {
    const delay: int
    var q: seq<int>
    ghost var history: seq<int>

    ghost predicate Valid()
      reads this
    {
      q == Kept(history, Delay(delay))
    }

    constructor (delay: int)
      ensures Valid() && this.delay == delay && history == []
    {
      this.delay, q, history := delay, [], [];
    }

    /**
     CMD_TICK: the frame to send and release, if any. Tick k, counted from zero, sends the frame of tick
     k - N, and leaves the last N frames in the queue.
     */
    method Tick(h: int) returns (toSend: Option<int>)
      requires Valid()
      modifies this`q, this`history
      ensures Valid() && history == old(history) + [h]
      ensures var k, n := |old(history)|, Delay(delay);
              && toSend == (if k >= n then Some(history[k - n]) else None)
              && |q| == (if k + 1 < n then k + 1 else n)
    {
      KeptMore(history, h, Delay(delay));
      history := history + [h];
      q := q + [h];
      toSend := None;
      if |q| > delay {
        toSend, q := Some(q[0]), q[1..];
      }
    }
  }

  // ---- The thread and the outputs ----

  /** Where the reading thread is: about to get a frame, reading it, or handing one to output number i. */
  datatype Pc = AtCreate | Reading(h: int) | Sending(h: int, i: nat, referenced: bool)

  datatype System = System(w: World, q: seq<int>, history: seq<int>, pc: Pc, delay: int)

  datatype Move = Get | Drop | Tick | Hand | Done | Env(e: Step)

  predicate CanMove(s: System, m: Move)
  {
    match m
    case Get => s.pc.AtCreate?
    case Drop => s.pc.Reading? && s.w.held[s.pc.h] > 0
    case Tick => s.pc.Reading?
    case Hand =>
      && s.pc.Sending? && s.pc.i < |s.w.outs|
      && Enabled(s.w, if s.pc.referenced then SendPush(s.pc.i, s.pc.h) else SendRef(s.pc.i, s.pc.h))
    case Done => s.pc.Sending? && s.pc.i >= |s.w.outs| && s.w.held[s.pc.h] > 0
    case Env(e) => (e.Pop? || e.Emit? || e.Check? || e.Stop? || e.Start?) && Enabled(s.w, e)
  }

  function AfterTick(s: System): System
    requires s.pc.Reading?
  {
    var q := s.q + [s.pc.h];
    var s1 := s.(history := s.history + [s.pc.h]);
    if |q| > s.delay then s1.(q := q[1..], pc := Sending(q[0], 0, false)) else s1.(q := q, pc := AtCreate)
  }

  function MoveTo(s: System, m: Move): System
    requires CanMove(s, m)
  {
    match m
    case Get =>
      var (p, h) := FramePool.Create(s.w.pool);
      s.(w := Next(s.w, Create), pc := if h == INVALID_HANDLE then AtCreate else Reading(h))
    case Drop => s.(w := Next(s.w, Release(s.pc.h)), pc := AtCreate)
    case Tick => AfterTick(s)
    case Hand =>
      if s.pc.referenced then s.(w := Next(s.w, SendPush(s.pc.i, s.pc.h)), pc := Sending(s.pc.h, s.pc.i + 1, false))
      else s.(w := Next(s.w, SendRef(s.pc.i, s.pc.h)), pc := s.pc.(referenced := true))
    case Done => s.(w := Next(s.w, Release(s.pc.h)), pc := AtCreate)
    case Env(e) => s.(w := Next(s.w, e))
  }

  /** The reference the thread holds besides those of its queue. */
  function Busy(pc: Pc): multiset<int> { if pc.AtCreate? then multiset{} else multiset{pc.h} }

  /** How many frames output o has been given, the delay being n. */
  function Given(pc: Pc, history: seq<int>, n: nat, o: nat): (d: nat)
    ensures d <= |history|
  {
    if |history| <= n then 0
    else if pc.Sending? && o >= pc.i then |history| - n - 1
    else |history| - n
  }

  /** An output has been given the frames of the history in order, as many as are due. */
  predicate AsDue(out: Output, o: nat, pc: Pc, history: seq<int>, n: nat)
  {
    && out.sending == (if pc.Sending? && pc.i == o && pc.referenced then multiset{pc.h} else multiset{})
    && out.pushed == history[..Given(pc, history, n, o)]
  }

  predicate OutputsAsDue(s: System)
  {
    forall o :: 0 <= o < |s.w.outs| ==> AsDue(s.w.outs[o], o, s.pc, s.history, Delay(s.delay))
  }

  /** The thread: it owns the frames in its queue and the one it is busy with. */
  predicate ThreadOk(w: World, q: seq<int>, history: seq<int>, pc: Pc, n: nat)
  {
    && q == Kept(history, n) && w.held == multiset(q) + Busy(pc)
    && (pc.Sending? ==>
          && |history| > n && pc.h == history[|history| - 1 - n]
          && pc.i <= |w.outs| && (pc.referenced ==> pc.i < |w.outs|))
  }

  ghost predicate SystemOk(s: System)
  {
    && Inv(s.w) && s.w.pool.max == s.delay + 20
    && ThreadOk(s.w, s.q, s.history, s.pc, Delay(s.delay)) && OutputsAsDue(s)
  }

  lemma TickKeepsOutput(out: Output, o: nat, h: int, history: seq<int>, n: nat, pc: Pc)
    requires AsDue(out, o, Reading(h), history, n)
    requires if |history| >= n then pc.Sending? && pc.i == 0 && !pc.referenced else pc == AtCreate
    ensures AsDue(out, o, pc, history + [h], n)
  {
    var d := Given(Reading(h), history, n, o);
    assert (history + [h])[..d] == history[..d];
  }

  /** What a tick does to the queue: the frame goes in, and the oldest one comes out when there are too many. */
  lemma TickMovesQueue(s: System)
    requires s.pc.Reading? && s.q == Kept(s.history, Delay(s.delay))
    ensures var s', n := AfterTick(s), Delay(s.delay);
            && s'.w == s.w && s'.history == s.history + [s.pc.h] && s'.q == Kept(s'.history, n)
            && (if |s.history| >= n then s'.pc == Sending(s'.history[|s.history| - n], 0, false) else s'.pc == AtCreate)
  {
    hide Kept;
    KeptMore(s.history, s.pc.h, Delay(s.delay));
    KeptSize(s.history, Delay(s.delay));
  }

  lemma KeptSize(history: seq<int>, n: nat)
    ensures |Kept(history, n)| == if |history| < n then |history| else n
  {
  }

  lemma TickMovesReferences(s: System)
    requires s.pc.Reading?
    ensures multiset(AfterTick(s).q) + Busy(AfterTick(s).pc) == multiset(s.q) + multiset{s.pc.h}
  {
    MultisetMove(s.q, s.pc.h);
  }

  lemma TickKeepsThread(s: System)
    requires s.pc.Reading? && ThreadOk(s.w, s.q, s.history, s.pc, Delay(s.delay))
    ensures var s' := AfterTick(s); ThreadOk(s'.w, s'.q, s'.history, s'.pc, Delay(s.delay))
  {
    TickMovesQueue(s);
    TickMovesReferences(s);
    hide Kept, AfterTick;
  }

  lemma TickKeeps(s: System)
    requires SystemOk(s) && s.pc.Reading?
    ensures SystemOk(AfterTick(s))
  {
    hide Inv, ThreadOk, AsDue, AfterTick;
    var s' := AfterTick(s);
    assert s.q == Kept(s.history, Delay(s.delay)) by { ThreadQueue(s.w, s.q, s.history, s.pc, Delay(s.delay)); }
    TickMovesQueue(s);
    TickKeepsThread(s);
    assert s'.delay == s.delay by { TickKeepsDelay(s); }
    forall o | 0 <= o < |s.w.outs| ensures AsDue(s'.w.outs[o], o, s'.pc, s'.history, Delay(s.delay)) {
      TickKeepsOutput(s.w.outs[o], o, s.pc.h, s.history, Delay(s.delay), s'.pc);
    }
  }

  lemma ThreadQueue(w: World, q: seq<int>, history: seq<int>, pc: Pc, n: nat)
    requires ThreadOk(w, q, history, pc, n)
    ensures q == Kept(history, n)
  {
  }

  lemma TickKeepsDelay(s: System)
    requires s.pc.Reading?
    ensures AfterTick(s).delay == s.delay
  {
  }

  lemma MultisetMove(q: seq<int>, h: int)
    ensures multiset(q + [h]) == multiset(q) + multiset{h}
    ensures multiset((q + [h])[1..]) + multiset{(q + [h])[0]} == multiset(q) + multiset{h}
  {
    var r := q + [h];
    assert r == [r[0]] + r[1..];
  }

  lemma HandKeepsOutput(out: Output, o: nat, pc: Pc, history: seq<int>, n: nat)
    requires AsDue(out, o, pc, history, n) && pc.Sending? && |history| > n && pc.h == history[|history| - 1 - n]
    ensures pc.referenced ==>
              AsDue(if o == pc.i then Pushed(out, pc.h) else out, o, Sending(pc.h, pc.i + 1, false), history, n)
    ensures !pc.referenced ==>
              AsDue(if o == pc.i then out.(sending := out.sending + multiset{pc.h}) else out, o,
                    pc.(referenced := true), history, n)
  {
    var d := |history| - n;
    assert history[..d] == history[..d - 1] + [history[d - 1]];
  }

  lemma RefsKeepMax(p: Pool, h: int)
    ensures FramePool.AddRef(p, h).0.max == p.max && FramePool.Release(p, h).0.max == p.max
  {
  }

  /** The steps of handing a frame over change one output only. */
  lemma HandChanges(w: World, o: nat, h: int)
    requires o < |w.outs|
    ensures Enabled(w, SendRef(o, h)) ==>
              var w' := Next(w, SendRef(o, h));
              && w'.pool.max == w.pool.max && w'.held == w.held
              && w'.outs == w.outs[o := w.outs[o].(sending := w.outs[o].sending + multiset{h})]
    ensures Enabled(w, SendPush(o, h)) ==>
              var w' := Next(w, SendPush(o, h));
              w'.pool == w.pool && w'.held == w.held && w'.outs == w.outs[o := Pushed(w.outs[o], h)]
  {
    hide FramePool.AddRef, Pushed;
    RefsKeepMax(w.pool, h);
  }

  lemma HandKeeps(s: System)
    requires SystemOk(s) && CanMove(s, Hand)
    ensures SystemOk(MoveTo(s, Hand))
  {
    hide Inv, Kept, AsDue, Pushed, Next, Enabled;
    var s', i, h := MoveTo(s, Hand), s.pc.i, s.pc.h;
    StepKeepsInv(s.w, if s.pc.referenced then SendPush(i, h) else SendRef(i, h));
    HandChanges(s.w, i, h);
    forall o | 0 <= o < |s.w.outs| ensures AsDue(s'.w.outs[o], o, s'.pc, s'.history, Delay(s.delay)) {
      HandKeepsOutput(s.w.outs[o], o, s.pc, s.history, Delay(s.delay));
    }
  }

  /** An output's own steps leave alone what it was given. */
  lemma EnvKeepsOutput(w: World, e: Step, o: nat)
    requires Enabled(w, e) && (e.Pop? || e.Emit? || e.Check? || e.Stop? || e.Start?) && o < |w.outs|
    ensures |Next(w, e).outs| == |w.outs|
    ensures Next(w, e).outs[o].sending == w.outs[o].sending && Next(w, e).outs[o].pushed == w.outs[o].pushed
  {
  }

  lemma EnvKeepsThread(w: World, e: Step)
    requires Enabled(w, e) && (e.Pop? || e.Emit? || e.Check? || e.Stop? || e.Start?)
    ensures Next(w, e).pool.max == w.pool.max && Next(w, e).held == w.held && |Next(w, e).outs| == |w.outs|
  {
  }

  lemma EnvKeeps(s: System, e: Step)
    requires SystemOk(s) && CanMove(s, Env(e))
    ensures SystemOk(MoveTo(s, Env(e)))
  {
    hide Inv, Kept, Next, Enabled, AsDue;
    var s' := MoveTo(s, Env(e));
    StepKeepsInv(s.w, e);
    EnvKeepsThread(s.w, e);
    forall o | 0 <= o < |s.w.outs| ensures AsDue(s'.w.outs[o], o, s'.pc, s'.history, Delay(s.delay)) {
      EnvKeepsOutput(s.w, e, o);
      SameOutput(s.w.outs[o], s'.w.outs[o], o, s.pc, s.history, Delay(s.delay));
    }
  }

  lemma SameOutput(out: Output, out': Output, o: nat, pc: Pc, history: seq<int>, n: nat)
    requires AsDue(out, o, pc, history, n) && out'.sending == out.sending && out'.pushed == out.pushed
    ensures AsDue(out', o, pc, history, n)
  {
  }

  /** Getting a frame and releasing one leave the outputs alone. */
  lemma HoldChanges(w: World, h: int)
    ensures var made := FramePool.Create(w.pool).1;
            var w' := Next(w, Create);
            && w'.outs == w.outs && w'.pool.max == w.pool.max
            && w'.held == (if made == INVALID_HANDLE then w.held else w.held + multiset{made})
    ensures Enabled(w, Release(h)) ==>
              var w' := Next(w, Release(h));
              w'.outs == w.outs && w'.pool.max == w.pool.max && w'.held == w.held - multiset{h}
  {
    hide FramePool.Release;
    RefsKeepMax(w.pool, h);
  }

  /** Getting a frame and giving it up: the outputs are not concerned. */
  lemma GetKeeps(s: System)
    requires SystemOk(s) && s.pc.AtCreate?
    ensures SystemOk(MoveTo(s, Get))
  {
    hide Inv, Kept, FramePool.Create, AsDue, Next;
    var s' := MoveTo(s, Get);
    StepKeepsInv(s.w, Create);
    HoldChanges(s.w, 0);
    forall o | 0 <= o < |s.w.outs| ensures AsDue(s'.w.outs[o], o, s'.pc, s'.history, Delay(s.delay)) {
      SameDue(s.w.outs[o], o, s.pc, s'.pc, s.history, Delay(s.delay));
    }
  }

  /** The thread gives up the frame it is busy with. */
  function GivenUp(s: System): System
    requires s.w.held[s.pc.h] > 0 && !s.pc.AtCreate?
  {
    s.(w := Next(s.w, Release(s.pc.h)), pc := AtCreate)
  }

  lemma GiveUpKeeps(s: System)
    requires SystemOk(s) && !s.pc.AtCreate? && s.w.held[s.pc.h] > 0 && (s.pc.Sending? ==> s.pc.i >= |s.w.outs|)
    ensures SystemOk(GivenUp(s))
  {
    assert Enabled(s.w, Release(s.pc.h));
    hide Inv, Kept, FramePool.Create, AsDue, Next, Enabled;
    var s' := GivenUp(s);
    StepKeepsInv(s.w, Release(s.pc.h));
    HoldChanges(s.w, s.pc.h);
    forall o | 0 <= o < |s.w.outs| ensures AsDue(s'.w.outs[o], o, s'.pc, s'.history, Delay(s.delay)) {
      SameDue(s.w.outs[o], o, s.pc, s'.pc, s.history, Delay(s.delay));
    }
  }

  lemma SameDue(out: Output, o: nat, pc: Pc, pc': Pc, history: seq<int>, n: nat)
    requires AsDue(out, o, pc, history, n) && !pc'.Sending? && (pc.Sending? ==> o < pc.i)
    ensures AsDue(out, o, pc', history, n)
  {
  }

  lemma MoveKeeps(s: System, m: Move)
    requires SystemOk(s) && CanMove(s, m)
    ensures SystemOk(MoveTo(s, m))
  {
    match m
    case Get => GetKeeps(s);
    case Drop => GiveUpKeeps(s);
    case Tick => TickKeeps(s);
    case Hand => HandKeeps(s);
    case Done => GiveUpKeeps(s);
    case Env(e) => EnvKeeps(s, e);
  }

  /** Each move but a tick is a step of the pool and its outputs, those of the outputs' own threads included. */
  lemma MovesAreSteps(s: System, m: Move)
    requires CanMove(s, m)
    ensures var s' := MoveTo(s, m);
            match m
            case Get => s'.w == Next(s.w, Create)
            case Drop => s'.w == Next(s.w, Release(s.pc.h))
            case Done => s'.w == Next(s.w, Release(s.pc.h))
            case Tick => s'.w == s.w && s'.history == s.history + [s.pc.h]
            case Hand =>
              s'.w == Next(s.w, if s.pc.referenced then SendPush(s.pc.i, s.pc.h) else SendRef(s.pc.i, s.pc.h))
            case Env(e) => s' == s.(w := Next(s.w, e))
  {
    hide Next;
  }

  // ---- Runs ----

  predicate IsRunOf(s: System, ms: seq<Move>)
    decreases |ms|
  {
    ms == [] || (CanMove(s, ms[0]) && IsRunOf(MoveTo(s, ms[0]), ms[1..]))
  }

  function RunOf(s: System, ms: seq<Move>): System
    requires IsRunOf(s, ms)
    decreases |ms|
  {
    if ms == [] then s else RunOf(MoveTo(s, ms[0]), ms[1..])
  }

  function StartOf(delay: int, outputs: nat): System
  {
    System(Fresh(delay + 20, outputs), [], [], AtCreate, delay)
  }

  lemma {:induction false} RunStaysOk(s: System, ms: seq<Move>)
    requires SystemOk(s) && IsRunOf(s, ms)
    ensures SystemOk(RunOf(s, ms)) && RunOf(s, ms).delay == s.delay && |RunOf(s, ms).w.outs| == |s.w.outs|
    decreases |ms|
  {
    if ms != [] {
      MoveKeeps(s, ms[0]);
      SameOutputs(s, ms[0]);
    }
    hide SystemOk, MoveTo, CanMove;
    if ms != [] { RunStaysOk(MoveTo(s, ms[0]), ms[1..]); }
  }

  lemma SameOutputs(s: System, m: Move)
    requires CanMove(s, m)
    ensures MoveTo(s, m).delay == s.delay && |MoveTo(s, m).w.outs| == |s.w.outs|
  {
  }

  /**
   Every run, with the outputs starting, stopping and emitting at any pace: each output has been given, in
   order, exactly the frames received more than N ticks ago, with the latest one still on its way to some
   of them; and what it has emitted is a beginning of that.
   */
  lemma OutputsGetDelayedFrames(delay: int, outputs: nat, ms: seq<Move>, o: nat)
    requires IsRunOf(StartOf(delay, outputs), ms) && o < outputs
    ensures var s := RunOf(StartOf(delay, outputs), ms);
            && o < |s.w.outs|
            && var due := |s.history| - Delay(delay);
               && s.w.outs[o].pushed == s.history[..Given(s.pc, s.history, Delay(delay), o)]
               && s.w.outs[o].emitted <= s.w.outs[o].pushed
               && (!s.pc.Sending? ==> Given(s.pc, s.history, Delay(delay), o) == if due > 0 then due else 0)
  {
    StartIsOk(delay, outputs);
    RunStaysOk(StartOf(delay, outputs), ms);
    var s := RunOf(StartOf(delay, outputs), ms);
    assert |StartOf(delay, outputs).w.outs| == outputs;
    hide StartOf, RunOf;
    assert AsDue(s.w.outs[o], o, s.pc, s.history, Delay(s.delay)) && InOrder(s.w.outs[o]);
  }

  lemma StartIsOk(delay: int, outputs: nat)
    ensures SystemOk(StartOf(delay, outputs))
  {
    FreshOk(delay + 20, outputs);
  }

  // ---- The limit of the pool ----

  /** The frames that outputs have in their queues, or are emitting, or are about to get. */
  ghost function OutputFrames(w: World): set<int>
  {
    set k | 0 <= k < |w.pool.items| && OutRefs(w, w.pool.items[k].handle, 0) > 0
  }

  /** The places of the frames behind some handles. */
  function Places(p: Pool, hs: seq<int>): (ks: set<int>)
    ensures |ks| <= |hs|
    ensures forall h :: h in hs ==> Find(p.items, h, 0) in ks
  {
    if hs == [] then {} else Places(p, hs[1..]) + {Find(p.items, hs[0], 0)}
  }

  function UpTo(n: nat): (ks: set<int>)
    ensures |ks| == n && forall k :: k in ks <==> 0 <= k < n
  {
    if n == 0 then {} else UpTo(n - 1) + {n - 1}
  }

  lemma SizeOfUnion(a: set<int>, b: set<int>, c: set<int>)
    requires a <= b + c
    ensures |a| <= |b| + |c|
  {
    assert b + c == b + (c - b) && |b + (c - b)| == |b| + |c - b|;
    SubsetSize(a, b + c);
    SubsetSize(c - b, c);
  }

  lemma SubsetSize(a: set<int>, b: set<int>)
    requires a <= b
    ensures |a| <= |b|
  {
    assert b == a + (b - a) && |a + (b - a)| == |a| + |b - a|;
  }

  /**
   With room for N + 20 frames in the pool, getting a frame fails only while the outputs have at least 20
   different frames to send.
   */
  lemma CreationFailsOnlyWhenOutputsLag(delay: int, outputs: nat, ms: seq<Move>)
    requires IsRunOf(StartOf(delay, outputs), ms) && delay >= 0
    ensures var s := RunOf(StartOf(delay, outputs), ms);
            s.pc.AtCreate? && FramePool.Create(s.w.pool).1 == INVALID_HANDLE ==> |OutputFrames(s.w)| >= 20
  {
    StartIsOk(delay, outputs);
    RunStaysOk(StartOf(delay, outputs), ms);
    var s := RunOf(StartOf(delay, outputs), ms);
    hide StartOf, RunOf;
    if s.pc.AtCreate? && FramePool.Create(s.w.pool).1 == INVALID_HANDLE {
      FullMeansLagging(s);
    }
  }

  lemma FullMeansLagging(s: System)
    requires SystemOk(s) && s.pc.AtCreate? && s.delay >= 0 && FramePool.Create(s.w.pool).1 == INVALID_HANDLE
    ensures |OutputFrames(s.w)| >= 20
  {
    var p := s.w.pool;
    var all := UpTo(|p.items|);
    CreateOk(p);
    assert |p.items| >= s.delay + 20 && s.w.held == multiset(s.q) && |s.q| <= s.delay;
    hide FramePool.Create, ThreadOk, OutputsAsDue;
    forall k | k in all ensures k in OutputFrames(s.w) + Places(p, s.q) {
      CreateFailsOnlyWhenOwned(s.w, k);
      assert ItemOk(p, k) && p.items[k].refs > 0;
      FindsItem(p, k);
      if s.w.held[p.items[k].handle] > 0 { assert p.items[k].handle in s.q; }
    }
    SizeOfUnion(all, OutputFrames(s.w), Places(p, s.q));
  }
}
