/**
 The timers behind IGMP reports: a flow that is created reports three times, and a query makes every flow it
 concerns report in time. The timer library is not part of this repository; a timer fires once, some time
 after it is due.
 */
module IgmpTimers {
  import opened Wrappers

  datatype TimerState = Stopped | Pending | Running | Configured

  datatype Timer = Timer(state: TimerState, expire: nat)

  /** A flow: is it in use for IPv4 multicast, its group, its unsolicited reports, its timer, packets sent. */
  datatype Flow = Flow(inUse: bool, ipv4: bool, group: nat, uri: nat, timer: Timer, sent: nat)

  /** IS_IPV4_MCAST: 224.0.0.0/4 */
  predicate Multicast(group: nat) { 0xe000_0000 <= group <= 0xefff_ffff }

  /** rte_timer_reset: due this many ticks from now. */
  function Armed(now: nat, ticks: nat): Timer { Timer(Pending, now + ticks) }

  /** dpdkflowudp: a new multicast flow has two reports more to send after the first one. */
  function NewFlow(group: nat, hz: nat, now: nat): Flow
  {
    if Multicast(group) then Flow(true, true, group, 2, Armed(now, hz), 0)
    else Flow(true, true, group, 0, Timer(Stopped, 0), 0)
  }

  /** igmptimer, run by the library when the timer is due; a timer that is not set again stops. */
  function Fire(f: Flow, hz: nat, now: nat): Flow
  {
    if !f.ipv4 || !Multicast(f.group) then f.(timer := Timer(Stopped, f.timer.expire))
    else if f.uri != 0 then f.(sent := f.sent + 1, uri := f.uri - 1, timer := Armed(now, hz * f.uri))
    else f.(sent := f.sent + 1, timer := Timer(Stopped, f.timer.expire))
  }

  datatype Queried = Changed(f: Flow) | DivisionByZero

  predicate Concerned(f: Flow, group: nat)
  {
    f.inUse && f.ipv4 && Multicast(f.group) && (group == 0 || f.group == group)
  }

  /** Whether a query arms the timer of a flow it concerns. */
  predicate Arms(f: Flow, mrt: nat, now: nat)
  {
    && f.uri == 0
    && (|| f.timer.state == Stopped
        || (f.timer.state == Pending && (now >= f.timer.expire || mrt < f.timer.expire - now)))
  }

  /** igmpquery, for one flow; `lag` is how much later than `now` the timer library reads the clock. */
  function QueryFlow(f: Flow, group: nat, mrt: nat, now: nat, lag: nat): Queried
  {
    if !Concerned(f, group) || !Arms(f, mrt, now) then Changed(f)
    else if mrt == 0 then DivisionByZero
    else Changed(f.(timer := Armed(now + lag, now % mrt / 2 + 1)))
  }

  /** The clock when the query reaches a flow, and the lag there. */
  datatype Clock = Clock(now: nat, lag: nat)

  /** igmpquery over all flows; None if the division fails on the way. */
  function QueryAll(fs: seq<Flow>, group: nat, mrt: nat, clocks: seq<Clock>): (r: Option<seq<Flow>>)
    requires |clocks| == |fs|
    ensures r.Some? ==> |r.value| == |fs|
  {
    if fs == [] then Some([])
    else
      match QueryFlow(fs[0], group, mrt, clocks[0].now, clocks[0].lag)
      case DivisionByZero => None
      case Changed(f) =>
        var rest := QueryAll(fs[1..], group, mrt, clocks[1..]);
        if rest.None? then None else Some([f] + rest.value)
  }

  /** The maximum response time is in tenths of a second; in ticks: */
  function Ticks(mrt: nat, hz: nat): nat { mrt * hz / 10 }

  // ---- Response times ----

  /**
   A flow that has to answer a query for a group, or for all of them if it is 0: in use for IPv4 multicast, in
   that group, not reporting anyway, and its timer not being run.
   */
  predicate MustAnswer(f: Flow, group: nat)
  {
    && f.inUse && f.ipv4 && 0xe000_0000 <= f.group < 0xf000_0000 && (group == 0 || f.group == group)
    && f.uri == 0 && (f.timer.state == Stopped || f.timer.state == Pending)
  }

  /**
   What a query leaves of a flow. One that need not answer, or will in time, is left alone; any other one is
   due a pseudo-random part of half the response time later. Nothing but the timer changes.
   */
  predicate Answered(f: Flow, f': Flow, group: nat, mrt: nat, now: nat, lag: nat)
    requires mrt > 0
  {
    if MustAnswer(f, group) && !(f.timer.state == Pending && now < f.timer.expire <= now + mrt) then
      f' == f.(timer := Timer(Pending, now + lag + now % mrt / 2 + 1))
    else f' == f
  }

  lemma Half(now: nat, mrt: nat)
    requires mrt > 0
    ensures 1 <= now % mrt / 2 + 1 <= mrt - mrt / 2
  {
  }

  /**
   After a query every flow that has to answer has a timer that is due no later than the maximum response
   time, if the timer library's clock is not half of that ahead. An unexpired timer is never put off. Flows
   of other groups, and flows that need not answer, are left alone.
   */
  lemma AnswersInTime(f: Flow, group: nat, mrt: nat, now: nat, lag: nat)
    requires mrt > 0
    ensures var r := QueryFlow(f, group, mrt, now, lag);
            && r.Changed? && Answered(f, r.f, group, mrt, now, lag)
            && (group != 0 && f.group != group ==> r.f == f)
            && (!MustAnswer(f, group) ==> r.f == f)
            && (lag <= mrt / 2 ==>
                  && (MustAnswer(f, group) ==> r.f.timer.state == Pending && r.f.timer.expire <= now + mrt)
                  && (f.timer.state == Pending && now < f.timer.expire ==>
                        r.f.timer.state == Pending && r.f.timer.expire <= f.timer.expire))
  {
    Half(now, mrt);
  }

  /** The bound on the clock's lag is needed: with a longer one an answer can come too late. */
  lemma LateClockAnswersLate(mrt: nat, lag: nat)
    requires mrt > 0 && lag > mrt / 2
    ensures exists f: Flow, now: nat ::
              && MustAnswer(f, 0) && QueryFlow(f, 0, mrt, now, lag).Changed?
              && QueryFlow(f, 0, mrt, now, lag).f.timer.expire > now + mrt
  {
    var f := Flow(true, true, 0xe000_0001, 0, Timer(Stopped, 0), 0);
    var now := mrt - 1;
    assert now % mrt == now;
    assert QueryFlow(f, 0, mrt, now, lag) == Changed(f.(timer := Armed(now + lag, now / 2 + 1)));
    assert MustAnswer(f, 0);
  }

  /** The division fails exactly when the response time is zero ticks and some flow would have to be armed. */
  lemma {:induction false} FailsIff(fs: seq<Flow>, group: nat, mrt: nat, clocks: seq<Clock>)
    requires |clocks| == |fs|
    ensures QueryAll(fs, group, mrt, clocks).None?
       <==> mrt == 0 && exists i :: 0 <= i < |fs| && MustAnswer(fs[i], group)
    decreases |fs|
  {
    if fs != [] {
      FailsIff(fs[1..], group, mrt, clocks[1..]);
      if i :| 0 <= i < |fs| && MustAnswer(fs[i], group) {
        if i > 0 { assert fs[1..][i - 1] == fs[i] && clocks[1..][i - 1] == clocks[i]; }
      }
    }
  }

  /** A query for zero tenths of a second, or a slow clock, is zero ticks. */
  lemma ZeroTicks(mrt: nat, hz: nat)
    ensures Ticks(mrt, hz) == 0 <==> mrt * hz < 10
  {
  }

  /** Every flow is treated as if it were the only one. */
  lemma {:induction false} EveryFlow(fs: seq<Flow>, group: nat, mrt: nat, clocks: seq<Clock>, i: nat)
    requires |clocks| == |fs| && i < |fs| && QueryAll(fs, group, mrt, clocks).Some?
    ensures QueryFlow(fs[i], group, mrt, clocks[i].now, clocks[i].lag)
         == Changed(QueryAll(fs, group, mrt, clocks).value[i])
    decreases i
  {
    if i > 0 { EveryFlow(fs[1..], group, mrt, clocks[1..], i - 1); }
  }

  lemma EveryFlowAnswers(fs: seq<Flow>, group: nat, mrt: nat, clocks: seq<Clock>)
    requires |clocks| == |fs| && mrt > 0 && QueryAll(fs, group, mrt, clocks).Some?
    ensures var fs' := QueryAll(fs, group, mrt, clocks).value;
            forall i :: 0 <= i < |fs| ==> Answered(fs[i], fs'[i], group, mrt, clocks[i].now, clocks[i].lag)
  {
    hide QueryAll, QueryFlow, Answered;
    var fs' := QueryAll(fs, group, mrt, clocks).value;
    forall i | 0 <= i < |fs| ensures Answered(fs[i], fs'[i], group, mrt, clocks[i].now, clocks[i].lag) {
      EveryFlow(fs, group, mrt, clocks, i);
      AnswersInTime(fs[i], group, mrt, clocks[i].now, clocks[i].lag);
    }
  }

  // ---- Reports ----

  /**
   A new flow for a multicast group is due one second later. Its first report is followed by the second
   after two seconds more, and that by the third after one second more; then the timer stops. A flow for any
   other address has no timer, and one that is no longer in a group sends nothing when its timer runs.
   */
  lemma ReportSchedule(group: nat, hz: nat, now: nat, t1: nat, t2: nat, t3: nat, f: Flow)
    ensures var f0 := NewFlow(group, hz, now);
            var f1 := Fire(f0, hz, t1);
            var f2 := Fire(f1, hz, t2);
            var f3 := Fire(f2, hz, t3);
            if 0xe000_0000 <= group < 0xf000_0000 then
              && f0 == Flow(true, true, group, 2, Timer(Pending, now + hz), 0)
              && f1.sent == 1 && f1.timer == Timer(Pending, t1 + 2 * hz)
              && f2.sent == 2 && f2.timer == Timer(Pending, t2 + hz)
              && f3.sent == 3 && f3.uri == 0 && f3.timer.state == Stopped
            else f0 == Flow(true, true, group, 0, Timer(Stopped, 0), 0)
    ensures !f.ipv4 || f.group < 0xe000_0000 || f.group >= 0xf000_0000 ==>
              Fire(f, hz, now) == f.(timer := Timer(Stopped, f.timer.expire))
  {
    assert hz * 2 == 2 * hz && hz * 1 == hz;
  }

  datatype Step = Due(now: nat) | Query(group: nat, mrt: nat, now: nat, lag: nat)

  /** A flow's life: what happens to it, and how many queries started its timer after it had stopped. */
  datatype Life = Life(f: Flow, started: nat)

  predicate Enabled(l: Life, e: Step)
  {
    match e
    case Due(now) => l.f.timer.state == Pending && l.f.timer.expire <= now
    case Query(group, mrt, now, lag) => QueryFlow(l.f, group, mrt, now, lag).Changed?
  }

  function Next(l: Life, e: Step, hz: nat): Life
    requires Enabled(l, e)
  {
    match e
    case Due(now) => l.(f := Fire(l.f, hz, now))
    case Query(group, mrt, now, lag) =>
      var f' := QueryFlow(l.f, group, mrt, now, lag).f;
      Life(f', if l.f.timer.state == Stopped && f'.timer.state == Pending then l.started + 1 else l.started)
  }

  predicate IsRun(l: Life, es: seq<Step>, hz: nat)
    decreases |es|
  {
    es == [] || (Enabled(l, es[0]) && IsRun(Next(l, es[0], hz), es[1..], hz))
  }

  function Run(l: Life, es: seq<Step>, hz: nat): Life
    requires IsRun(l, es, hz)
    decreases |es|
  {
    if es == [] then l else Run(Next(l, es[0], hz), es[1..], hz)
  }

  /** Reports to come without further queries. */
  function ToCome(f: Flow): nat { if f.timer.state == Pending then 1 + f.uri else 0 }

  predicate Balanced(l: Life)
  {
    && l.f.inUse && l.f.ipv4 && Multicast(l.f.group) && (l.f.timer.state == Pending || l.f.timer.state == Stopped)
    && (l.f.timer.state == Stopped ==> l.f.uri == 0)
    && l.f.sent + ToCome(l.f) == 3 + l.started
  }

  lemma {:induction false} RunStaysBalanced(l: Life, es: seq<Step>, hz: nat)
    requires Balanced(l) && IsRun(l, es, hz)
    ensures Balanced(Run(l, es, hz))
    decreases |es|
  {
    if es != [] { RunStaysBalanced(Next(l, es[0], hz), es[1..], hz); }
  }

  predicate NoQueries(es: seq<Step>) { forall i :: 0 <= i < |es| ==> es[i].Due? }

  lemma {:induction false} NoneStarted(l: Life, es: seq<Step>, hz: nat)
    requires IsRun(l, es, hz) && NoQueries(es)
    ensures Run(l, es, hz).started == l.started
    decreases |es|
  {
    if es != [] { NoneStarted(Next(l, es[0], hz), es[1..], hz); }
  }

  /**
   Over the whole life of a multicast flow: three reports, and one more for every query that found its
   timer stopped; what has not been sent yet is still to come. Without queries, once the timer has stopped,
   exactly three reports have been sent.
   */
  lemma ThreeReports(group: nat, hz: nat, now: nat, es: seq<Step>)
    requires Multicast(group) && IsRun(Life(NewFlow(group, hz, now), 0), es, hz)
    ensures var l := Run(Life(NewFlow(group, hz, now), 0), es, hz);
            && l.f.sent + ToCome(l.f) == 3 + l.started
            && (NoQueries(es) && l.f.timer.state == Stopped ==> l.f.sent == 3)
  {
    var l := Life(NewFlow(group, hz, now), 0);
    RunStaysBalanced(l, es, hz);
    if NoQueries(es) { NoneStarted(l, es, hz); }
  }

  // ---- The flows of a network card ----

  class Nic {
    const hz: nat
    const flows: array<Flow>

    constructor (hz: nat, flows: array<Flow>)
      ensures this.hz == hz && this.flows == flows
    {
      this.hz, this.flows := hz, flows;
    }

    /** The body of igmpquery's loop. */
    method QueryOne(i: nat, group: nat, mrt: nat, now: nat, lag: nat) returns (ok: bool)
      requires i < flows.Length
      modifies flows
      ensures var r := QueryFlow(old(flows[i]), group, mrt, now, lag);
              ok == r.Changed? && (ok ==> flows[..] == old(flows[..])[i := r.f])
    {
      var f := flows[i];
      assert flows[..] == old(flows[..])[i := f];
      if !f.inUse || !f.ipv4 || !Multicast(f.group) {
        return true;
      }
      if group != 0 && f.group != group {
        return true;
      }
      if f.uri != 0 {
        return true;
      }
      if f.timer.state == Running || f.timer.state == Configured {
        return true;
      }
      if f.timer.state == Pending && now < f.timer.expire {
        if mrt >= f.timer.expire - now {
          return true;
        }
      }
      if mrt == 0 {
        return false;
      }
      flows[i] := f.(timer := Armed(now + lag, now % mrt / 2 + 1));
      return true;
    }

    /**
     igmpquery: only messages of type 0x11 are queries. False: the division fails, which ends the program.
     */
    method IgmpQuery(kind: nat, mrtField: nat, group: nat, clocks: seq<Clock>) returns (ok: bool)
      requires |clocks| == flows.Length
      modifies flows
      ensures kind != 0x11 ==> ok && flows[..] == old(flows[..])
      ensures kind == 0x11 ==>
                var r := QueryAll(old(flows[..]), group, Ticks(mrtField, hz), clocks);
                ok == r.Some? && (ok ==> flows[..] == r.value)
      ensures kind == 0x11 ==>
                (!ok <==> mrtField * hz < 10 && exists i :: 0 <= i < |clocks| && MustAnswer(old(flows[i]), group))
      ensures kind == 0x11 && mrtField * hz >= 10 ==>
                && flows.Length == |clocks|
                && forall i :: 0 <= i < flows.Length ==>
                     Answered(old(flows[i]), flows[i], group, mrtField * hz / 10, clocks[i].now, clocks[i].lag)
    {
      if kind != 0x11 {
        return true;
      }
      var mrt := Ticks(mrtField, hz);
      ghost var all := flows[..];
      ZeroTicks(mrtField, hz);
      FailsIff(all, group, mrt, clocks);
      hide QueryAll, QueryFlow, Continues, MustAnswer, Answered;
      ContinuesFrom(all, group, mrt, clocks);
      for i := 0 to flows.Length
        invariant flows[i..] == all[i..]
        invariant Continues(all, group, mrt, clocks, flows[..i], i)
      {
        ContinuesOn(all, group, mrt, clocks, flows[..i], i);
        assert flows[i] == all[i];
        ghost var was := flows[..];
        ok := QueryOne(i, group, mrt, clocks[i].now, clocks[i].lag);
        if !ok {
          return;
        }
        assert flows[i + 1..] == was[i + 1..] == all[i + 1..];
        assert flows[..i + 1] == was[..i] + [flows[i]];
      }
      assert flows[..flows.Length] == flows[..];
      ContinuesTo(all, group, mrt, clocks, flows[..]);
      if mrt > 0 { EveryFlowAnswers(all, group, mrt, clocks); }
      return true;
    }
  }

  lemma ContinuesFrom(all: seq<Flow>, group: nat, mrt: nat, clocks: seq<Clock>)
    requires |all| == |clocks|
    ensures Continues(all, group, mrt, clocks, [], 0)
  {
    assert all[0..] == all && clocks[0..] == clocks;
    var whole := QueryAll(all, group, mrt, clocks);
    if whole.Some? { assert [] + whole.value == whole.value; }
  }

  lemma ContinuesTo(all: seq<Flow>, group: nat, mrt: nat, clocks: seq<Clock>, done: seq<Flow>)
    requires |all| == |clocks| && Continues(all, group, mrt, clocks, done, |all|)
    ensures QueryAll(all, group, mrt, clocks) == Some(done)
  {
    assert done + [] == done;
  }

  /** The flows before number i are done, the rest is still to be done. */
  predicate Continues(all: seq<Flow>, group: nat, mrt: nat, clocks: seq<Clock>, done: seq<Flow>, i: nat)
    requires i <= |all| == |clocks|
  {
    var whole, rest := QueryAll(all, group, mrt, clocks), QueryAll(all[i..], group, mrt, clocks[i..]);
    if rest.None? then whole.None? else whole == Some(done + rest.value)
  }

  lemma ContinuesOn(all: seq<Flow>, group: nat, mrt: nat, clocks: seq<Clock>, done: seq<Flow>, i: nat)
    requires i < |all| == |clocks| && Continues(all, group, mrt, clocks, done, i)
    ensures var r := QueryFlow(all[i], group, mrt, clocks[i].now, clocks[i].lag);
            if r.Changed? then Continues(all, group, mrt, clocks, done + [r.f], i + 1)
            else QueryAll(all, group, mrt, clocks).None?
  {
    hide QueryFlow;
    assert all[i..][0] == all[i] && all[i..][1..] == all[i + 1..];
    assert clocks[i..][0] == clocks[i] && clocks[i..][1..] == clocks[i + 1..];
    var r := QueryFlow(all[i], group, mrt, clocks[i].now, clocks[i].lag);
    var rest := QueryAll(all[i + 1..], group, mrt, clocks[i + 1..]);
    if r.Changed? && rest.Some? { assert done + ([r.f] + rest.value) == done + [r.f] + rest.value; }
  }
}
