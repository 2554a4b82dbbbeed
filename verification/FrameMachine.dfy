/**
 Who owns the frames: inputs and callbacks that hold references, senders on their way to a queue, the queues
 of the outputs, and the outputs while they emit. Threads interleave between the atomic operations of the
 pool and of the queues.
 */
module FrameMachine {
  import opened Wrappers
  import opened FramePool

  /**
   An output: its queue (None is the token that ends its thread), the references taken for the queue that are
   not in it yet, where its thread is (it has tested `quit` and waits in pop, or is emitting a frame), and its
   flags. `pushed` and `emitted` are not part of the program: all frames ever queued here, and all done with.
   */
  datatype Output = Output(queue: seq<Option<int>>, sending: multiset<int>, waiting: bool, emitting: Option<int>,
                           running: bool, quit: bool, pushed: seq<int>, emitted: seq<int>)

  /** `held` are the references of inputs and callbacks. */
  datatype World = World(pool: Pool, held: multiset<int>, outs: seq<Output>)

  /** What a queue holds, without the tokens. */
  function Handles(queue: seq<Option<int>>): (hs: seq<int>)
  {
    if queue == [] then []
    else (if queue[0].Some? then [queue[0].value] else []) + Handles(queue[1..])
  }

  function Count(hs: seq<int>, h: int): (n: nat)
  {
    multiset(hs)[h]
  }

  function OutputRefs(o: Output, h: int): (n: nat)
  {
    Count(Handles(o.queue), h) + o.sending[h] + (if o.emitting == Some(h) then 1 else 0)
  }

  /** The references outputs from number i on own, in queues, emitting or about to be queued. */
  function OutRefs(w: World, h: int, i: nat): (n: nat)
    requires i <= |w.outs|
    decreases |w.outs| - i
  {
    if i == |w.outs| then 0 else OutputRefs(w.outs[i], h) + OutRefs(w, h, i + 1)
  }

  /** All owners of a handle. */
  function Owners(w: World, h: int): nat { w.held[h] + OutRefs(w, h, 0) }

  /** The frames queued at an output were pushed after those it has emitted, in the same order. */
  predicate InOrder(o: Output)
  {
    o.pushed == o.emitted + (if o.emitting.Some? then [o.emitting.value] else []) + Handles(o.queue)
  }

  /** A thread that waits or emits is running, and does not do both. */
  predicate InLoop(o: Output)
  {
    (o.waiting ==> o.running && o.emitting == None) && (o.emitting.Some? ==> o.running)
  }

  predicate OutputsOk(w: World)
  {
    forall i :: 0 <= i < |w.outs| ==> InOrder(w.outs[i]) && InLoop(w.outs[i])
  }

  /** Every frame has exactly as many references as owners. */
  ghost predicate Inv(w: World)
  {
    PoolOk(w.pool) && OutputsOk(w) && forall h: int :: Counted(w, h)
  }

  ghost predicate Counted(w: World, h: int)
    requires PoolOk(w.pool)
  {
    Refs(w.pool, h) == Owners(w, h)
  }

  // ---- Steps ----

  datatype Step =
    | Create
    | AddRef(h: int)
    | Release(h: int)
    | SendRef(o: nat, h: int)
    | SendPush(o: nat, h: int)
    | Pop(o: nat)
    | Emit(o: nat)
    | Check(o: nat)
    | Stop(o: nat)
    | Start(o: nat)
    | SetMax(max: int)

  /**
   A thread uses a handle only while it holds a reference; the rest is what the output's thread does: it tests
   the flag (Check), waits in pop until there is something (Pop), and emits it. Stop can come at any time.
   */
  predicate Enabled(w: World, e: Step)
  {
    match e
    case Create => true
    case AddRef(h) => w.held[h] > 0
    case Release(h) => w.held[h] > 0
    case SendRef(o, h) => o < |w.outs| && w.held[h] > 0
    case SendPush(o, h) => o < |w.outs| && w.outs[o].sending[h] > 0
    case Pop(o) => o < |w.outs| && w.outs[o].waiting && w.outs[o].queue != []
    case Emit(o) => o < |w.outs| && w.outs[o].emitting.Some?
    case Check(o) => o < |w.outs| && w.outs[o].running && !w.outs[o].waiting && w.outs[o].emitting == None
    case Stop(o) => o < |w.outs| && w.outs[o].running
    case Start(o) => o < |w.outs| && !w.outs[o].running
    case SetMax(max) => true
  }

  function Pushed(o: Output, h: int): Output
  {
    o.(queue := o.queue + [Some(h)], sending := o.sending - multiset{h}, pushed := o.pushed + [h])
  }

  function Stopped(o: Output): Output { o.(quit := true, queue := o.queue + [None]) }

  function Popped(o: Output): Output
    requires o.queue != []
  {
    var rest := o.(queue := o.queue[1..], waiting := false);
    if o.queue[0] == None || o.queue[0] == Some(INVALID_HANDLE) then rest.(running := false)
    else rest.(emitting := o.queue[0])
  }

  /** The output has sent the frame and releases it, if the handle still stands for one. */
  function Emitted(w: World, o: nat): World
    requires o < |w.outs| && w.outs[o].emitting.Some?
  {
    var out := w.outs[o];
    var h := out.emitting.value;
    w.(pool := if Get(w.pool, h) == -1 then w.pool else FramePool.Release(w.pool, h).0,
       outs := w.outs[o := out.(emitting := None, emitted := out.emitted + [h])])
  }

  function Next(w: World, e: Step): World
    requires Enabled(w, e)
  {
    match e
    case Create =>
      var (p, h) := FramePool.Create(w.pool);
      if h == INVALID_HANDLE then w.(pool := p) else w.(pool := p, held := w.held + multiset{h})
    case AddRef(h) => w.(pool := FramePool.AddRef(w.pool, h).0, held := w.held + multiset{h})
    case Release(h) => w.(pool := FramePool.Release(w.pool, h).0, held := w.held - multiset{h})
    case SendRef(o, h) => 
      var out := w.outs[o];
      w.(pool := FramePool.AddRef(w.pool, h).0, outs := w.outs[o := out.(sending := out.sending + multiset{h})])
    case SendPush(o, h) => w.(outs := w.outs[o := Pushed(w.outs[o], h)])
    case Pop(o) => w.(outs := w.outs[o := Popped(w.outs[o])])
    case Emit(o) => Emitted(w, o)
    case Check(o) => w.(outs := w.outs[o := w.outs[o].(running := !w.outs[o].quit, waiting := !w.outs[o].quit)])
    case Stop(o) => w.(outs := w.outs[o := Stopped(w.outs[o])])
    case Start(o) => w.(outs := w.outs[o := w.outs[o].(running := true, quit := false)])
    case SetMax(max) => w.(pool := w.pool.(max := max))
  }

  // ---- Counting owners ----

  lemma {:induction false} HandlesConcat(a: seq<Option<int>>, b: seq<Option<int>>)
    ensures Handles(a + b) == Handles(a) + Handles(b)
    decreases |a|
  {
    if a == [] {
      assert a + b == b;
    } else {
      var first := if a[0].Some? then [a[0].value] else [];
      assert (a + b)[0] == a[0] && (a + b)[1..] == a[1..] + b;
      assert Handles(a + b) == first + Handles(a[1..] + b) && Handles(a) == first + Handles(a[1..]);
      hide Handles;
      HandlesConcat(a[1..], b);
      assert first + (Handles(a[1..]) + Handles(b)) == (first + Handles(a[1..])) + Handles(b);
    }
  }

  /** The references of all outputs change by what those of one output change. */
  lemma {:induction false} OutRefsChange(w: World, w': World, o: nat, h: int, i: nat)
    requires i <= |w.outs| && o < |w.outs| == |w'.outs| && w'.outs == w.outs[o := w'.outs[o]]
    ensures var change := OutputRefs(w'.outs[o], h) - OutputRefs(w.outs[o], h);
            OutRefs(w', h, i) == OutRefs(w, h, i) + (if i <= o then change else 0)
    decreases |w.outs| - i
  {
    hide OutputRefs;
    if i < |w.outs| { OutRefsChange(w, w', o, h, i + 1); }
  }

  lemma {:induction false} OutRefsSame(w: World, w': World, h: int, i: nat)
    requires i <= |w.outs| && w'.outs == w.outs
    ensures OutRefs(w', h, i) == OutRefs(w, h, i)
    decreases |w.outs| - i
  {
    if i < |w.outs| { OutRefsSame(w, w', h, i + 1); }
  }

  lemma {:induction false} OutRefsAtLeast(w: World, h: int, o: nat, i: nat)
    requires i <= o < |w.outs|
    ensures OutRefs(w, h, i) >= OutputRefs(w.outs[o], h)
    decreases o - i
  {
    hide OutputRefs;
    if i < o { OutRefsAtLeast(w, h, o, i + 1); }
  }

  /** What is held, queued, emitted or on its way to a queue stands for a frame. */
  lemma OwnedResolves(w: World, h: int)
    requires Inv(w) && Owners(w, h) > 0
    ensures Refs(w.pool, h) > 0 && 0 <= Get(w.pool, h) < |w.pool.items| && 0 <= h < w.pool.next
  {
    assert Counted(w, h);
  }

  /** The list does not grow beyond the limit that was set before. */
  lemma StaysWithin(w: World, e: Step)
    requires Inv(w) && Enabled(w, e) && !e.SetMax? && 0 <= |w.pool.items| <= w.pool.max
    ensures var p := Next(w, e).pool; p.max == w.pool.max && |p.items| <= p.max
  {
    if e.Create? { CreateOk(w.pool); }
    hide Inv, PoolOk, Handles;
  }

  // ---- Every step keeps the count ----

  lemma CreateKeeps(w: World)
    requires Inv(w)
    ensures Inv(Next(w, Create))
  {
    CreateOk(w.pool);
    var w' := Next(w, Create);
    hide PoolOk, FramePool.Create, OutRefs, Refs, InOrder;
    forall h: int ensures Counted(w', h) {
      assert Counted(w, h) && Counted(w, w.pool.next);
      OutRefsSame(w, w', h, 0);
    }
  }

  lemma AddRefKeeps(w: World, h: int)
    requires Inv(w) && Enabled(w, AddRef(h))
    ensures Inv(Next(w, AddRef(h)))
  {
    OwnedResolves(w, h);
    AddRefOk(w.pool, h);
    var w' := Next(w, AddRef(h));
    hide PoolOk, FramePool.AddRef, OutRefs, Refs, InOrder, InLoop, Get;
    forall x: int ensures Counted(w', x) {
      assert Counted(w, x);
      OutRefsSame(w, w', x, 0);
    }
  }

  lemma ReleaseKeeps(w: World, h: int)
    requires Inv(w) && Enabled(w, Release(h))
    ensures Inv(Next(w, Release(h)))
  {
    OwnedResolves(w, h);
    ReleaseOk(w.pool, h);
    var w' := Next(w, Release(h));
    hide PoolOk, FramePool.Release, OutRefs, Refs, InOrder, InLoop, Get;
    forall x: int ensures Counted(w', x) {
      assert Counted(w, x);
      OutRefsSame(w, w', x, 0);
    }
  }

  lemma SendRefKeeps(w: World, o: nat, h: int)
    requires Inv(w) && Enabled(w, SendRef(o, h))
    ensures Inv(Next(w, SendRef(o, h)))
  {
    OwnedResolves(w, h);
    AddRefOk(w.pool, h);
    var w' := Next(w, SendRef(o, h));
    hide PoolOk, FramePool.AddRef, OutRefs, Refs, InOrder, OutputRefs;
    forall x: int ensures Counted(w', x) {
      assert Counted(w, x);
      OutRefsChange(w, w', o, x, 0);
    }
  }

  /** A step that only moves references about inside one output. */
  ghost predicate InsideOutput(w: World, w': World, o: nat)
  {
    && o < |w.outs| == |w'.outs| && w' == w.(outs := w.outs[o := w'.outs[o]])
    && Moved(w.outs[o], w'.outs[o])
  }

  /** The output owns what it owned, and stays in order. */
  ghost predicate Moved(out: Output, out': Output)
  {
    && (InOrder(out) ==> InOrder(out')) && InLoop(out')
    && forall h: int :: OutputRefs(out', h) == OutputRefs(out, h)
  }

  lemma InsideKeeps(w: World, w': World, o: nat)
    requires Inv(w) && InsideOutput(w, w', o)
    ensures Inv(w')
  {
    hide PoolOk, OutRefs, Refs, InOrder, OutputRefs;
    forall h: int ensures Counted(w', h) {
      assert Counted(w, h);
      OutRefsChange(w, w', o, h, 0);
    }
  }

  /** What a queue holds, its first entry apart. */
  lemma FirstOf(q: seq<Option<int>>, h: int)
    requires q != []
    ensures Handles(q) == (if q[0].Some? then [q[0].value] else []) + Handles(q[1..])
    ensures Count(Handles(q), h) == (if q[0] == Some(h) then 1 else 0) + Count(Handles(q[1..]), h)
  {
  }

  lemma PushedRefs(o: Output, e: Option<int>, h: int)
    ensures Handles(o.queue + [e]) == Handles(o.queue) + (if e.Some? then [e.value] else [])
    ensures Count(Handles(o.queue + [e]), h) == Count(Handles(o.queue), h) + (if e == Some(h) then 1 else 0)
  {
    HandlesConcat(o.queue, [e]);
    assert Handles([e]) == if e.Some? then [e.value] else [];
  }

  lemma MovedPush(out: Output, h: int)
    requires out.sending[h] > 0 && InLoop(out)
    ensures Moved(out, Pushed(out, h))
  {
    hide Handles, Count;
    var out' := Pushed(out, h);
    forall x: int ensures OutputRefs(out', x) == OutputRefs(out, x) {
      PushedRefs(out, Some(h), x);
    }
    hide OutputRefs;
    PushedRefs(out, Some(h), h);
    var before := out.emitted + (if out.emitting.Some? then [out.emitting.value] else []);
    assert before + (Handles(out.queue) + [h]) == (before + Handles(out.queue)) + [h];
  }

  lemma MovedPop(out: Output)
    requires out.queue != [] && out.queue[0] != Some(INVALID_HANDLE) && out.waiting && InLoop(out)
    ensures Moved(out, Popped(out))
  {
    hide Handles, Count;
    forall h: int ensures OutputRefs(Popped(out), h) == OutputRefs(out, h) {
      FirstOf(out.queue, h);
    }
    hide OutputRefs;
    FirstOf(out.queue, 0);
    var rest := Handles(out.queue[1..]);
    if out.queue[0].Some? {
      var h := out.queue[0].value;
      assert out.emitted + [] + ([h] + rest) == out.emitted + [h] + rest;
    } else {
      assert out.emitted + [] + ([] + rest) == out.emitted + [] + rest;
    }
  }

  lemma MovedStop(out: Output)
    requires InLoop(out)
    ensures Moved(out, Stopped(out))
  {
    hide Handles, Count;
    forall h: int ensures OutputRefs(Stopped(out), h) == OutputRefs(out, h) {
      PushedRefs(out, None, h);
    }
    hide OutputRefs;
    PushedRefs(out, None, 0);
  }

  lemma SendPushKeeps(w: World, o: nat, h: int)
    requires Inv(w) && Enabled(w, SendPush(o, h))
    ensures Inv(Next(w, SendPush(o, h)))
  {
    assert InLoop(w.outs[o]);
    hide Inv, Moved, Pushed;
    MovedPush(w.outs[o], h);
    InsideKeeps(w, Next(w, SendPush(o, h)), o);
  }

  lemma PopKeeps(w: World, o: nat)
    requires Inv(w) && Enabled(w, Pop(o))
    ensures Inv(Next(w, Pop(o)))
  {
    var out := w.outs[o];
    assert InLoop(out);
    OutRefsAtLeast(w, INVALID_HANDLE, o, 0);
    assert Counted(w, INVALID_HANDLE);
    FirstOf(out.queue, INVALID_HANDLE);
    assert out.queue[0] != Some(INVALID_HANDLE);
    hide Inv, Moved, Popped;
    MovedPop(out);
    InsideKeeps(w, Next(w, Pop(o)), o);
  }

  /** An output that is done with a frame owns one reference less to it, and stays in order. */
  lemma DoneWith(out: Output, x: int)
    requires out.emitting.Some? && InOrder(out) && InLoop(out)
    ensures var h := out.emitting.value;
            var out' := out.(emitting := None, emitted := out.emitted + [h]);
            && InOrder(out') && InLoop(out')
            && OutputRefs(out', x) == OutputRefs(out, x) - (if x == h then 1 else 0)
    ensures OutputRefs(out, out.emitting.value) > 0
  {
    hide Handles, Count;
    var h := out.emitting.value;
    assert out.emitted + [h] + [] == out.emitted + [h];
  }

  lemma EmitKeeps(w: World, o: nat)
    requires Inv(w) && Enabled(w, Emit(o))
    ensures Inv(Next(w, Emit(o)))
  {
    var out, w' := w.outs[o], Next(w, Emit(o));
    var h := out.emitting.value;
    DoneWith(out, h);
    OutRefsAtLeast(w, h, o, 0);
    OwnedResolves(w, h);
    ReleaseOk(w.pool, h);
    hide PoolOk, OutRefs, Refs, FramePool.Release, Handles, Get, InOrder, InLoop, OutputRefs;
    forall x: int ensures Counted(w', x) {
      assert Counted(w, x);
      OutRefsChange(w, w', o, x, 0);
      DoneWith(out, x);
    }
  }

  lemma ControlKeeps(w: World, e: Step)
    requires Inv(w) && Enabled(w, e) && (e.Check? || e.Stop? || e.Start?)
    ensures Inv(Next(w, e))
  {
    assert InLoop(w.outs[e.o]);
    if e.Stop? { MovedStop(w.outs[e.o]); }
    hide Inv, Handles, Count, Stopped;
    assert Moved(w.outs[e.o], Next(w, e).outs[e.o]);
    InsideKeeps(w, Next(w, e), e.o);
  }

  lemma SetMaxKeeps(w: World, max: int)
    requires Inv(w)
    ensures Inv(Next(w, SetMax(max)))
  {
    var w' := Next(w, SetMax(max));
    MaxKeeps(w.pool, max);
    hide PoolOk, OutRefs, Refs, InOrder;
    forall x: int ensures Counted(w', x) {
      assert Counted(w, x);
      OutRefsSame(w, w', x, 0);
    }
  }

  lemma MaxKeeps(p: Pool, max: int)
    requires PoolOk(p)
    ensures PoolOk(p.(max := max)) && forall h :: Refs(p.(max := max), h) == Refs(p, h)
  {
    var p' := p.(max := max);
    forall i | 0 <= i < |p.items| ensures ItemOk(p', i) { assert ItemOk(p, i); }
    forall i, j | 0 <= i < j < |p.items| ensures Apart(p', i, j) { assert Apart(p, i, j); }
  }

  /** Ownership: whatever the threads do, every frame has as many references as owners. */
  lemma StepKeepsInv(w: World, e: Step)
    requires Inv(w) && Enabled(w, e)
    ensures Inv(Next(w, e))
  {
    match e
    case Create => CreateKeeps(w);
    case AddRef(h) => AddRefKeeps(w, h);
    case Release(h) => ReleaseKeeps(w, h);
    case SendRef(o, h) => SendRefKeeps(w, o, h);
    case SendPush(o, h) => SendPushKeeps(w, o, h);
    case Pop(o) => PopKeeps(w, o);
    case Emit(o) => EmitKeeps(w, o);
    case Check(o) => ControlKeeps(w, e);
    case Stop(o) => ControlKeeps(w, e);
    case Start(o) => ControlKeeps(w, e);
    case SetMax(max) => SetMaxKeeps(w, max);
  }

  // ---- Runs ----

  predicate IsRun(w: World, es: seq<Step>)
    decreases |es|
  {
    es == [] || (Enabled(w, es[0]) && IsRun(Next(w, es[0]), es[1..]))
  }

  function Run(w: World, es: seq<Step>): World
    requires IsRun(w, es)
    decreases |es|
  {
    if es == [] then w else Run(Next(w, es[0]), es[1..])
  }

  function Idle(): Output { Output([], multiset{}, false, None, false, false, [], []) }

  function Fresh(max: int, n: nat): World
  {
    World(Pool([], 0, max), multiset{}, seq(n, _ => Idle()))
  }

  lemma {:induction false} NoOwners(w: World, h: int, i: nat)
    requires i <= |w.outs| && forall k :: 0 <= k < |w.outs| ==> w.outs[k] == Idle()
    ensures OutRefs(w, h, i) == 0
    decreases |w.outs| - i
  {
    if i < |w.outs| { NoOwners(w, h, i + 1); }
  }

  lemma FreshOk(max: int, n: nat)
    ensures Inv(Fresh(max, n))
  {
    var w := Fresh(max, n);
    forall h: int ensures Counted(w, h) { NoOwners(w, h, 0); }
  }

  /** In every run, under every interleaving, each frame's count is the number of its owners. */
  lemma {:induction false} RunKeepsInv(w: World, es: seq<Step>)
    requires Inv(w) && IsRun(w, es)
    ensures Inv(Run(w, es))
    decreases |es|
  {
    hide Inv, Next, Enabled;
    if es != [] {
      StepKeepsInv(w, es[0]);
      RunKeepsInv(Next(w, es[0]), es[1..]);
    }
  }

  /** The handle was given out once, and nobody owns its frame any more. */
  ghost predicate Spent(w: World, h: int) { Inv(w) && 0 <= h < w.pool.next && Get(w.pool, h) == -1 }

  lemma GetsIffCounted(p: Pool, h: int)
    requires PoolOk(p) && h >= 0
    ensures Get(p, h) == -1 <==> Refs(p, h) == 0
  {
    var k := Find(p.items, h, 0);
    assert k < |p.items| ==> ItemOk(p, k);
  }

  /** A step either leaves a handle's frame in its place, or is the last owner's release of it. */
  lemma StepKeepsFrame(w: World, e: Step, h: int)
    requires Inv(w) && Enabled(w, e) && 0 <= h < w.pool.next
    ensures h < Next(w, e).pool.next
    ensures Get(Next(w, e).pool, h) == Get(w.pool, h) || (Refs(w.pool, h) == 1 && Get(Next(w, e).pool, h) == -1)
  {
    var w' := Next(w, e);
    StepKeepsInv(w, e);
    if e.Create? {
      CreateOk(w.pool);
      assert h != w.pool.next;
    } else if e.AddRef? || e.SendRef? || e.Release? {
      OwnedResolves(w, e.h);
      AddRefOk(w.pool, e.h);
      ReleaseOk(w.pool, e.h);
      GetsIffCounted(w'.pool, h);
    } else if e.Emit? {
      var x := w.outs[e.o].emitting.value;
      OutRefsAtLeast(w, x, e.o, 0);
      OwnedResolves(w, x);
      ReleaseOk(w.pool, x);
      GetsIffCounted(w'.pool, h);
    }
  }

  /** A handle whose frame was fully released stands for nothing ever after. */
  lemma {:induction false} SpentStaysSpent(w: World, es: seq<Step>, h: int)
    requires Spent(w, h) && IsRun(w, es)
    ensures Spent(Run(w, es), h)
    decreases |es|
  {
    hide Inv, Next, Enabled, Get;
    if es != [] {
      StepKeepsInv(w, es[0]);
      StepKeepsFrame(w, es[0], h);
      SpentStaysSpent(Next(w, es[0]), es[1..], h);
    }
  }

  /** The handle has an owner all through the run. */
  predicate StaysOwned(w: World, es: seq<Step>, h: int)
    requires IsRun(w, es)
    decreases |es|
  {
    Owners(w, h) > 0 && (es != [] ==> StaysOwned(Next(w, es[0]), es[1..], h))
  }

  /**
   A frame is never used for anything else while it waits in a queue, is on its way there, or is being
   emitted: its handle keeps standing for the same frame until its last owner is done with it.
   */
  lemma {:induction false} OwnedFramesStay(w: World, es: seq<Step>, h: int)
    requires Inv(w) && IsRun(w, es) && StaysOwned(w, es, h)
    ensures Get(Run(w, es).pool, h) == Get(w.pool, h) >= 0
    decreases |es|
  {
    OwnedResolves(w, h);
    hide Inv, Next, Enabled, Get, Owners;
    if es != [] {
      StepKeepsInv(w, es[0]);
      StepKeepsFrame(w, es[0], h);
      OwnedFramesStay(Next(w, es[0]), es[1..], h);
    }
  }

  /** Creation fails only when the list is full and every frame in it has an owner. */
  lemma CreateFailsOnlyWhenOwned(w: World, i: nat)
    requires Inv(w) && FramePool.Create(w.pool).1 == INVALID_HANDLE && i < |w.pool.items|
    ensures 0 <= w.pool.max <= |w.pool.items| && Owners(w, w.pool.items[i].handle) > 0
  {
    CreateOk(w.pool);
    assert ItemOk(w.pool, i) && w.pool.items[i].refs > 0;
    FindsItem(w.pool, i);
    assert Counted(w, w.pool.items[i].handle);
  }

  // ---- Starting and stopping ----

  /** The frames in front of the first token. */
  function BeforeToken(queue: seq<Option<int>>): (n: nat)
    ensures n <= |queue|
  {
    if queue == [] || queue[0] == None then 0 else 1 + BeforeToken(queue[1..])
  }

  function Busy(o: Output): nat { if o.emitting.Some? then 1 else 0 }

  /** The output was told to stop when k frames had been pushed to it. */
  predicate Ending(o: Output, k: nat)
  {
    && o.quit && (o.running ==> None in o.queue)
    && |o.emitted| + Busy(o) + (if o.running then BeforeToken(o.queue) else 0) <= k
  }

  lemma {:induction false} TokenComes(q: seq<Option<int>>, e: Option<int>)
    ensures None in q ==> None in q + [e] && BeforeToken(q + [e]) == BeforeToken(q)
    ensures None !in q ==> BeforeToken(q + [None]) == |q| == |Handles(q)|
    ensures BeforeToken(q + [None]) <= |Handles(q)|
    decreases |q|
  {
    if q == [] {
      assert q + [e] == [e] && q + [None] == [None];
    } else {
      assert (q + [e])[1..] == q[1..] + [e] && (q + [None])[1..] == q[1..] + [None];
      TokenComes(q[1..], e);
    }
  }

  lemma EndingPush(out: Output, h: int, k: nat)
    requires Ending(out, k)
    ensures Ending(Pushed(out, h), k)
  {
    TokenComes(out.queue, Some(h));
  }

  lemma EndingStop(out: Output, k: nat)
    requires Ending(out, k)
    ensures Ending(Stopped(out), k)
  {
    TokenComes(out.queue, None);
    assert (out.queue + [None])[|out.queue|] == None;
  }

  lemma EndingPop(out: Output, k: nat)
    requires Ending(out, k) && InLoop(out) && out.waiting && out.queue != []
    ensures Ending(Popped(out), k)
  {
  }

  /** What a step does to an output: nothing, or what its name says. */
  lemma OutputAfter(w: World, e: Step, o: nat)
    requires Enabled(w, e) && o < |w.outs|
    ensures |Next(w, e).outs| == |w.outs|
    ensures var out, out' := w.outs[o], Next(w, e).outs[o];
            match e
            case SendPush(x, h) => out' == if x == o then Pushed(out, h) else out
            case Pop(x) => if x == o then out.queue != [] && out' == Popped(out) else out' == out
            case Stop(x) => out' == if x == o then Stopped(out) else out
            case Emit(x) =>
              && out'.queue == out.queue && out'.quit == out.quit && out'.running == out.running
              && |out'.emitted| + Busy(out') == |out.emitted| + Busy(out)
            case Start(x) => x != o ==> out' == out
            case Check(x) =>
              && out'.queue == out.queue && out'.quit == out.quit && out'.emitted == out.emitted
              && out'.emitting == out.emitting && (out'.running ==> out.running)
            case _ =>
              && out'.queue == out.queue && out'.quit == out.quit && out'.running == out.running
              && out'.emitted == out.emitted && out'.emitting == out.emitting
  {
    hide Get, FramePool.Release, FramePool.AddRef, FramePool.Create, Popped, Pushed, Stopped;
  }

  /** Every step of any thread but a new start leaves an ending output ending. */
  lemma EndingStays(w: World, e: Step, o: nat, k: nat)
    requires Inv(w) && Enabled(w, e) && e != Start(o) && o < |w.outs| && Ending(w.outs[o], k)
    ensures o < |Next(w, e).outs| && Ending(Next(w, e).outs[o], k)
  {
    var out := w.outs[o];
    assert InLoop(out) && (e.Pop? && e.o == o ==> out.waiting);
    OutputAfter(w, e, o);
    hide Inv, Handles, Next, Enabled, Popped, Pushed, Stopped, InLoop;
    if e.SendPush? && e.o == o { EndingPush(out, e.h, k); }
    if e.Stop? && e.o == o { EndingStop(out, k); }
    if e.Pop? && e.o == o { EndingPop(out, k); }
  }

  lemma {:induction false} EndingRun(w: World, es: seq<Step>, o: nat, k: nat)
    requires Inv(w) && IsRun(w, es) && o < |w.outs| && Ending(w.outs[o], k)
    requires forall i :: 0 <= i < |es| ==> es[i] != Start(o)
    ensures o < |Run(w, es).outs| && Ending(Run(w, es).outs[o], k)
    decreases |es|
  {
    hide Inv, Next, Enabled, Ending;
    if es != [] {
      assert es[0] != Start(o);
      StepKeepsInv(w, es[0]);
      EndingStays(w, es[0], o, k);
      EndingRun(Next(w, es[0]), es[1..], o, k);
    }
  }

  /**
   After a stop, until the next start: nothing that is queued later is emitted. In every run the frames emitted
   are no more than those that had been pushed when stop was called.
   */
  lemma NothingAfterStop(w: World, es: seq<Step>, o: nat)
    requires Inv(w) && Enabled(w, Stop(o)) && IsRun(Next(w, Stop(o)), es)
    requires forall i :: 0 <= i < |es| ==> es[i] != Start(o)
    ensures var w' := Run(Next(w, Stop(o)), es);
            o < |w'.outs| && |w'.outs[o].emitted| + Busy(w'.outs[o]) <= |w.outs[o].pushed|
  {
    var out := w.outs[o];
    assert InOrder(out);
    TokenComes(out.queue, None);
    StepKeepsInv(w, Stop(o));
    assert None in out.queue + [None] by { assert (out.queue + [None])[|out.queue|] == None; }
    assert Ending(Next(w, Stop(o)).outs[o], |out.pushed|);
    hide Inv, Next, Enabled, Handles;
    EndingRun(Next(w, Stop(o)), es, o, |out.pushed|);
  }

  /**
   The life of an output's thread. Started, it tests the flag and waits; from the wait it takes the first entry
   of the queue; a token or the invalid handle ends it, and so does the flag; then a start begins afresh.
   */
  lemma ThreadSays(w: World, o: nat)
    requires Inv(w) && o < |w.outs|
    ensures var out := w.outs[o];
            && (!out.running ==>
                  var w1 := Next(w, Start(o)); Enabled(w1, Check(o)) && Next(w1, Check(o)).outs[o].waiting)
            && (Enabled(w, Check(o)) ==>
                  var out' := Next(w, Check(o)).outs[o];
                  (out'.waiting <==> !out.quit) && (out'.running <==> !out.quit) && out'.queue == out.queue)
            && (Enabled(w, Pop(o)) ==>
                  var out' := Next(w, Pop(o)).outs[o];
                  && !out'.waiting && out'.queue == out.queue[1..] && out'.quit == out.quit
                  && (match out.queue[0]
                      case None => !out'.running && out'.emitting == None
                      case Some(h) => if h == -1 then !out'.running else out'.running && out'.emitting == Some(h)))
            && (out.running ==>
                  var out' := Next(w, Stop(o)).outs[o]; out'.quit && out'.queue == out.queue + [None])
    ensures forall max: int :: Next(w, SetMax(max)) == w.(pool := w.pool.(max := max))
  {
    assert InLoop(w.outs[o]);
    hide Inv, Handles;
  }
}
