/**
 Many consumers and many producers on one ring: qmnbget, qmget, qmput and their exchange forms do the
 load, the store and the counter increment while holding the lock of their side. Waiting on the
 condition variable gives the lock up and starts over. The threads keep their own registers; that at
 most one of them per side is between load and increment is proved here, not assumed.
 */
module LockedRing {
  import opened TaggedRing

  type Thread = nat

  datatype Lock = Open | HeldBy(owner: Thread)

  datatype Locked = Locked(
    ring: Ring,
    cc: nat,
    pc: nat,
    getters: map<Thread, Consumer>,
    putters: map<Thread, Producer>,
    getLock: Lock,
    putLock: Lock)

  /** A thread takes or drops the lock of its side, or takes one step of a get or put while holding it. */
  datatype Move =
    | GetAcquire(t: Thread)
    | GetRelease(t: Thread)
    | PutAcquire(t: Thread)
    | PutRelease(t: Thread)
    | Getting(t: Thread, a: Action)
    | Putting(t: Thread, a: Action)

  /** The single-threaded machine whose consumer and producer are the lock holders. */
  function Core(s: Locked): State
  {
    State(s.ring, s.cc, s.pc,
          if s.getLock.HeldBy? && s.getLock.owner in s.getters then s.getters[s.getLock.owner] else CIdle,
          if s.putLock.HeldBy? && s.putLock.owner in s.putters then s.putters[s.putLock.owner] else PIdle)
  }

  /** The machine as thread t sees it: the shared memory and t's own registers. */
  function Seen(s: Locked, t: Thread): State
  {
    State(s.ring, s.cc, s.pc,
          if t in s.getters then s.getters[t] else CIdle,
          if t in s.putters then s.putters[t] else PIdle)
  }

  predicate CanMove(s: Locked, m: Move)
  {
    |s.ring.d| == s.ring.N() &&
    match m
    case GetAcquire(t) => s.getLock == Open && t in s.getters
    case GetRelease(t) => s.getLock == HeldBy(t) && t in s.getters && s.getters[t] == CIdle
    case PutAcquire(t) => s.putLock == Open && t in s.putters
    case PutRelease(t) => s.putLock == HeldBy(t) && t in s.putters && s.putters[t] == PIdle
    case Getting(t, a) =>
      && t in s.getters && (a.GetTry? || a.GetStore? || a.GetBump?)
      && (a.GetTry? ==> s.getLock == HeldBy(t)) && Enabled(Seen(s, t), a)
    case Putting(t, a) =>
      && t in s.putters && (a.PutTry? || a.PutStore? || a.PutBump?)
      && (a.PutTry? ==> s.putLock == HeldBy(t)) && Enabled(Seen(s, t), a)
  }

  function Move1(s: Locked, m: Move): Locked
    requires CanMove(s, m)
  {
    match m
    case GetAcquire(t) => s.(getLock := HeldBy(t))
    case GetRelease(t) => s.(getLock := Open)
    case PutAcquire(t) => s.(putLock := HeldBy(t))
    case PutRelease(t) => s.(putLock := Open)
    case Getting(t, a) =>
      var n := Next(Seen(s, t), a);
      s.(ring := n.ring, cc := n.cc, getters := s.getters[t := n.consumer])
    case Putting(t, a) =>
      var n := Next(Seen(s, t), a);
      s.(ring := n.ring, pc := n.pc, putters := s.putters[t := n.producer])
  }

  /** Only the holder of a side's lock is inside an operation of that side. */
  predicate Exclusive(s: Locked)
  {
    && (s.getLock.HeldBy? ==> s.getLock.owner in s.getters)
    && (s.putLock.HeldBy? ==> s.putLock.owner in s.putters)
    && (forall t :: t in s.getters && s.getters[t] != CIdle ==> s.getLock == HeldBy(t))
    && (forall t :: t in s.putters && s.putters[t] != PIdle ==> s.putLock == HeldBy(t))
  }

  predicate LockedInv(s: Locked) { Exclusive(s) && Inv(Core(s)) }

  /** A lock that was taken keeps everybody else out until its owner is done and gives it back; then anyone may. */
  lemma LocksWork(s: Locked, m: Move, u: Thread)
    requires CanMove(s, m)
    ensures var s' := Move1(s, m);
            match m
            case GetAcquire(t) =>
              && s' == s.(getLock := HeldBy(t)) && !CanMove(s', GetAcquire(u))
              && (u != t ==> !CanMove(s', GetRelease(u))) && (s.getters[t] == CIdle ==> CanMove(s', GetRelease(t)))
            case PutAcquire(t) =>
              && s' == s.(putLock := HeldBy(t)) && !CanMove(s', PutAcquire(u))
              && (u != t ==> !CanMove(s', PutRelease(u))) && (s.putters[t] == PIdle ==> CanMove(s', PutRelease(t)))
            case GetRelease(t) => s' == s.(getLock := Open) && (u in s.getters ==> CanMove(s', GetAcquire(u)))
            case PutRelease(t) => s' == s.(putLock := Open) && (u in s.putters ==> CanMove(s', PutAcquire(u)))
            case _ => s'.getLock == s.getLock && s'.putLock == s.putLock
  {
    hide Enabled, Next;
  }

  lemma LockIsNoStep(s: Locked, m: Move)
    requires Exclusive(s) && CanMove(s, m) && !m.Getting? && !m.Putting?
    ensures Exclusive(Move1(s, m)) && Core(Move1(s, m)) == Core(s)
  {
    hide Enabled, Next;
  }

  lemma GettingIsCoreStep(s: Locked, m: Move)
    requires Exclusive(s) && CanMove(s, m) && m.Getting?
    ensures Exclusive(Move1(s, m)) && Enabled(Core(s), m.a) && Core(Move1(s, m)) == Next(Core(s), m.a)
  {
    assert m.a.GetStore? || m.a.GetBump? ==> s.getters[m.t] != CIdle;
    assert s.getLock == HeldBy(m.t);
  }

  lemma PuttingIsCoreStep(s: Locked, m: Move)
    requires Exclusive(s) && CanMove(s, m) && m.Putting?
    ensures Exclusive(Move1(s, m)) && Enabled(Core(s), m.a) && Core(Move1(s, m)) == Next(Core(s), m.a)
  {
    assert m.a.PutStore? || m.a.PutBump? ==> s.putters[m.t] != PIdle;
    assert s.putLock == HeldBy(m.t);
  }

  /** A thread inside an operation sees its own side exactly as the single-threaded machine has it. */
  lemma MoveIsCoreStep(s: Locked, m: Move)
    requires LockedInv(s) && CanMove(s, m)
    ensures Exclusive(Move1(s, m))
    ensures match m
            case Getting(t, a) => Enabled(Core(s), a) && Core(Move1(s, m)) == Next(Core(s), a)
            case Putting(t, a) => Enabled(Core(s), a) && Core(Move1(s, m)) == Next(Core(s), a)
            case _ => Core(Move1(s, m)) == Core(s)
  {
    hide Inv, Exclusive, CanMove, Enabled, Next, Core, Move1;
    if m.Getting? { GettingIsCoreStep(s, m); }
    else if m.Putting? { PuttingIsCoreStep(s, m); }
    else { LockIsNoStep(s, m); }
  }

  /** The history as a run of moves. */
  predicate Moves(s: Locked, ms: seq<Move>, t: Locked)
    decreases |ms|
  {
    if ms == [] then s == t else CanMove(s, ms[0]) && Moves(Move1(s, ms[0]), ms[1..], t)
  }

  predicate LockedInit(s: Locked)
  {
    && Fresh(s.ring) && s.cc == 0 && s.pc == 0
    && (forall t :: t in s.getters ==> s.getters[t] == CIdle)
    && (forall t :: t in s.putters ==> s.putters[t] == PIdle)
    && s.getLock == Open && s.putLock == Open
  }

  /** The steps of the single-threaded machine that a run of moves performs. */
  function CoreActions(ms: seq<Move>): seq<Action>
  {
    if ms == [] then []
    else if ms[0].Getting? || ms[0].Putting? then [ms[0].a] + CoreActions(ms[1..])
    else CoreActions(ms[1..])
  }

  /** Every run of many threads is a run of one consumer and one producer. */
  lemma {:induction false} MovesRefineRuns(s: Locked, ms: seq<Move>, t: Locked)
    requires LockedInv(s) && Moves(s, ms, t)
    ensures LockedInv(t) && Runs(Core(s), CoreActions(ms), Core(t))
    decreases |ms|
  {
    if ms != [] {
      var m, s' := ms[0], Move1(s, ms[0]);
      MoveIsCoreStep(s, m);
      if m.Getting? || m.Putting? { StepKeepsInv(Core(s), m.a); }
      MovesRefineRuns(s', ms[1..], t);
      if m.Getting? || m.Putting? {
        assert CoreActions(ms)[0] == m.a && CoreActions(ms)[1..] == CoreActions(ms[1..]);
      }
    }
  }

  /** So many threads, too, take out exactly the beginning of what was put in, in one common order. */
  lemma FifoWithManyThreads(s: Locked, ms: seq<Move>, t: Locked)
    requires LockedInit(s) && Moves(s, ms, t)
    ensures LockedInv(t)
    ensures t.ring.outs + t.ring.Queue() == t.ring.puts
    ensures |t.ring.puts| - |t.ring.outs| <= s.ring.N()
    ensures forall j :: 0 <= j < |t.ring.backs| ==>
              t.ring.backs[j] == (s.ring.fills + t.ring.gives)[j]
  {
    FreshIsOk(s.ring);
    MovesRefineRuns(s, ms, t);
    FifoInEveryRun(Core(s), CoreActions(ms), Core(t));
    RunKeepsInv(Core(s), CoreActions(ms), Core(t));
  }
}
