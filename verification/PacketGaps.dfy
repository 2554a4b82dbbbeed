/**
 PktTS: the statistics of the gaps between the packets of a frame, kept up to date packet by packet, are
 those of the whole list of gaps. Arithmetic is exact; rounding is not modelled.
 */
module PacketGaps {

  const INT_MAX: int := 0x7fff_ffff

  /** pktTSaggr: identifiers and times of the first and the last packet, and the statistics of the gaps. */
  datatype Aggr = Aggr(id0: int, id1: int, first: int, last: int, count: int, mean: real, m2: real, min: int, max: int)

  /**
   The collector. `queue` is where finished aggregates go; `gaps`, the gaps since the start of collecting,
   and `queuedGaps` are not part of the program.
   */
  datatype Probe = Probe(collecting: bool, aggr: Aggr, queue: seq<Aggr>, gaps: seq<int>, queuedGaps: seq<seq<int>>)

  const EMPTY: Aggr := Aggr(0, 0, 0, 0, 0, 0.0, 0.0, INT_MAX, 0)

  /** The mean after one more number x. */
  function NextMean(m: real, x: real, n: real): real
    requires n >= 0.0
  {
    m + (x - m) / (n + 1.0)
  }

  function Product(a: real, b: real): real { a * b }

  /** One more gap, by Welford's recurrence. */
  function Collect(a: Aggr, time: int): Aggr
    requires a.count >= 0
  {
    var gap := time - a.last;
    var mean := NextMean(a.mean, gap as real, a.count as real);
    a.(last := time, count := a.count + 1, mean := mean, m2 := a.m2 + Product(gap as real - a.mean, gap as real - mean),
       min := if gap < a.min then gap else a.min, max := if gap > a.max then gap else a.max)
  }

  /** pktTSctl: 0 is init or stop, 1 start or "incomplete", 2 a packet; anything else starts afresh. */
  function Control(p: Probe, ctl: int, id: int, time: int): Probe
    requires p.aggr.count >= 0
  {
    if !p.collecting then
      if ctl == 1 then
        p.(collecting := true, aggr := p.aggr.(id0 := id, last := p.aggr.first, count := 0), gaps := [])
      else if ctl == 2 then p.(aggr := p.aggr.(first := time, count := p.aggr.count + 1))
      else p.(aggr := EMPTY)
    else
      if ctl == 2 then p.(aggr := Collect(p.aggr, time), gaps := p.gaps + [time - p.aggr.last])
      else if (ctl == 0 || ctl == 1) && p.aggr.count >= 2 then
        Probe(false, EMPTY, p.queue + [p.aggr.(id1 := id)], [], p.queuedGaps + [p.gaps])
      else p.(collecting := false, aggr := EMPTY, gaps := [])
  }

  // ---- The statistics of a list ----

  function Sum(xs: seq<int>): int { if xs == [] then 0 else Sum(xs[..|xs| - 1]) + xs[|xs| - 1] }

  function Square(x: real): real { x * x }

  /** The sum of the squared deviations from c. */
  function Deviations(xs: seq<int>, c: real): real
  {
    if xs == [] then 0.0 else Deviations(xs[..|xs| - 1], c) + Square(xs[|xs| - 1] as real - c)
  }

  function Mean(xs: seq<int>): real
    requires xs != []
  {
    Sum(xs) as real / |xs| as real
  }

  predicate IsMin(m: int, xs: seq<int>)
  {
    m <= INT_MAX && (forall i :: 0 <= i < |xs| ==> m <= xs[i]) && (m == INT_MAX || m in xs)
  }

  predicate IsMax(m: int, xs: seq<int>)
  {
    m >= 0 && (forall i :: 0 <= i < |xs| ==> xs[i] <= m) && (m == 0 || m in xs)
  }

  /** The aggregate describes these gaps. */
  predicate Describes(a: Aggr, gaps: seq<int>)
  {
    && a.count == |gaps| && a.last - a.first == Sum(gaps)
    && (if gaps == [] then a.mean == 0.0 && a.m2 == 0.0 else a.mean == Mean(gaps) && a.m2 == Deviations(gaps, a.mean))
    && IsMin(a.min, gaps) && IsMax(a.max, gaps)
  }

  // ---- Welford's recurrence ----

  lemma Expand(x: real, c: real)
    ensures Square(x - c) == Square(x) - 2.0 * c * x + Square(c)
  {
  }

  /** Deviations from c, by the sums of the numbers and of their squares. */
  lemma {:induction false} DeviationsSplit(xs: seq<int>, c: real)
    ensures Deviations(xs, c) == Deviations(xs, 0.0) - 2.0 * c * Sum(xs) as real + |xs| as real * Square(c)
    decreases |xs|
  {
    if xs != [] {
      var n := |xs| - 1;
      var x, s := xs[n] as real, Sum(xs[..n]) as real;
      DeviationsSplit(xs[..n], c);
      Expand(x, c);
      Expand(x, 0.0);
      assert Sum(xs) as real == s + x;
      Distribute(2.0 * c, s, x);
      Distribute(Square(c), n as real, 1.0);
    }
  }

  lemma Distribute(a: real, b: real, c: real)
    ensures a * (b + c) == a * b + a * c
  {
  }

  /** n times the square of the mean. */
  function Share(n: real, m: real): real { n * Square(m) }

  /** With n m the sum and m' the mean after one more number x, what Welford adds is what the deviations grow by. */
  lemma Recurrence(n: real, m: real, m': real, x: real)
    requires Product(n + 1.0, m') == Product(n, m) + x
    ensures Share(n, m) - Share(n + 1.0, m') + Square(x) == Product(x - m, x - m')
  {
    var t := (n + 1.0) * m';
    assert (n + 1.0) * Square(m') == t * m' == n * m * m' + x * m';
    assert n * m == t - x;
    assert n * Square(m) == (t - x) * m;
    assert t * m == (n + 1.0) * m' * m == n * m * m' + m * m';
  }

  lemma NextMeanIs(m: real, x: real, n: real)
    requires n >= 0.0
    ensures Product(n + 1.0, NextMean(m, x, n)) == Product(n, m) + x
  {
    var d := x - m;
    Distribute(n + 1.0, m, d / (n + 1.0));
    Distribute(m, n, 1.0);
    MeanTimes(d, n + 1.0);
  }

  lemma MeanTimes(s: real, n: real)
    requires n > 0.0
    ensures Product(n, s / n) == s
  {
  }

  lemma MeanUnique(s: real, n: real, m: real)
    requires n > 0.0 && Product(n, m) == s
    ensures s / n == m
  {
  }

  /** At the mean the mixed term cancels. */
  lemma DeviationsAtMean(xs: seq<int>, m: real)
    requires Product(|xs| as real, m) == Sum(xs) as real
    ensures Deviations(xs, m) == Deviations(xs, 0.0) - Share(|xs| as real, m)
  {
    DeviationsSplit(xs, m);
    hide Deviations, Sum;
    assert m * Sum(xs) as real == |xs| as real * Square(m);
  }

  /** n * mean is the sum, also before the first gap. */
  lemma MeanIs(a: Aggr, gaps: seq<int>)
    requires Describes(a, gaps)
    ensures Product(|gaps| as real, a.mean) == Sum(gaps) as real
  {
    hide Product, Deviations, IsMin, IsMax, Sum;
    if gaps != [] {
      MeanTimes(Sum(gaps) as real, |gaps| as real);
    } else {
      NoTimes(a.mean);
      assert Sum([]) == 0 by { SumNothing(); }
    }
  }

  lemma NoTimes(m: real)
    ensures Product(0.0, m) == 0.0
  {
  }

  lemma SumNothing()
    ensures Sum([]) == 0
  {
  }

  lemma Appended(gaps: seq<int>, gap: int, c: real)
    ensures Sum(gaps + [gap]) == Sum(gaps) + gap
    ensures Deviations(gaps + [gap], c) == Deviations(gaps, c) + Square(gap as real - c)
  {
    assert (gaps + [gap])[..|gaps|] == gaps;
  }

  /** The mean and the deviations of a list extended by one number. */
  lemma CollectDescribes(a: Aggr, gaps: seq<int>, time: int)
    requires Describes(a, gaps)
    ensures Describes(Collect(a, time), gaps + [time - a.last])
  {
    hide NextMean, Product, Sum, Deviations, Mean, Square, IsMin, IsMax;
    var gap := time - a.last;
    MinMaxMore(a, gaps, gap);
    Appended(gaps, gap, 0.0);
    MeanMore(a, gaps, gap);
    DeviationsMore(a, gaps, gap);
  }

  lemma MinMaxMore(a: Aggr, gaps: seq<int>, gap: int)
    requires IsMin(a.min, gaps) && IsMax(a.max, gaps)
    ensures IsMin(if gap < a.min then gap else a.min, gaps + [gap])
    ensures IsMax(if gap > a.max then gap else a.max, gaps + [gap])
  {
    assert (gaps + [gap])[|gaps|] == gap;
  }

  lemma MeanMore(a: Aggr, gaps: seq<int>, gap: int)
    requires Describes(a, gaps)
    ensures Mean(gaps + [gap]) == NextMean(a.mean, gap as real, a.count as real)
  {
    MeanIs(a, gaps);
    hide NextMean, Product, Sum, Deviations, IsMin, IsMax;
    NextMeanIs(a.mean, gap as real, a.count as real);
    Appended(gaps, gap, 0.0);
    assert |gaps + [gap]| as real == |gaps| as real + 1.0;
    MeanUnique(Sum(gaps + [gap]) as real, |gaps| as real + 1.0, NextMean(a.mean, gap as real, a.count as real));
  }

  lemma DeviationsMore(a: Aggr, gaps: seq<int>, gap: int)
    requires Describes(a, gaps)
    ensures var m' := NextMean(a.mean, gap as real, a.count as real);
            a.m2 + Product(gap as real - a.mean, gap as real - m') == Deviations(gaps + [gap], m')
  {
    var n, m, x := |gaps| as real, a.mean, gap as real;
    var m' := NextMean(m, x, n);
    MeanIs(a, gaps);
    NothingDeviates(m);
    assert a.m2 == Deviations(gaps, m) && n == a.count as real;
    hide NextMean, Product, Sum, Deviations, Square, Share, IsMin, IsMax, Describes;
    NextMeanIs(m, x, n);
    Recurrence(n, m, m', x);
    Appended(gaps, gap, 0.0);
    DeviationsAtMean(gaps, m);
    assert |gaps + [gap]| as real == n + 1.0;
    DeviationsAtMean(gaps + [gap], m');
    assert x - 0.0 == x;
  }

  lemma NothingDeviates(m: real)
    ensures Deviations([], m) == 0.0
  {
  }

  // ---- Every call ----

  predicate AllDescribe(p: Probe)
  {
    && |p.queue| == |p.queuedGaps|
    && forall i :: 0 <= i < |p.queue| ==> Finished(p.queue[i], p.queuedGaps[i])
  }

  /** Only aggregates of at least two gaps are queued. */
  predicate Finished(a: Aggr, gaps: seq<int>) { Describes(a, gaps) && |gaps| >= 2 }

  predicate Sound(p: Probe)
  {
    && AllDescribe(p)
    && (if p.collecting then Describes(p.aggr, p.gaps)
        else p.gaps == [] && p.aggr == EMPTY.(first := p.aggr.first, count := p.aggr.count) && p.aggr.count >= 0)
  }

  /** Whatever calls are made, in whatever order, each queued aggregate describes the gaps of its frame. */
  lemma ControlKeepsSound(p: Probe, ctl: int, id: int, time: int)
    requires Sound(p)
    ensures Sound(Control(p, ctl, id, time))
  {
    hide Collect, Sum, Mean, Deviations, IsMin, IsMax;
    var p' := Control(p, ctl, id, time);
    if p.collecting && ctl == 2 {
      CollectDescribes(p.aggr, p.gaps, time);
    } else if !p.collecting && ctl == 1 {
      NothingDescribed(p'.aggr);
    } else if p.collecting && (ctl == 0 || ctl == 1) && p.aggr.count >= 2 {
      assert Finished(p.aggr.(id1 := id), p.gaps);
    }
  }

  lemma NothingDescribed(a: Aggr)
    requires a.count == 0 && a.last == a.first && a.mean == 0.0 && a.m2 == 0.0 && a.min == INT_MAX && a.max == 0
    ensures Describes(a, [])
  {
  }

  // ---- A frame ----

  /** A call for each packet; what they say about an identifier does not matter. */
  function Packets(p: Probe, ids: seq<int>, times: seq<int>): (p': Probe)
    requires p.aggr.count >= 0 && |ids| == |times|
    ensures p'.aggr.count >= 0
    decreases |times|
  {
    if times == [] then p
    else
      var n := |times| - 1;
      Control(Packets(p, ids[..n], times[..n]), 2, ids[n], times[n])
  }

  /** The gaps between packets, the first of them to the packet before. */
  function GapsOf(before: int, times: seq<int>): (gaps: seq<int>)
    ensures |gaps| == |times|
  {
    seq(|times|, i requires 0 <= i < |times| => times[i] - (if i == 0 then before else times[i - 1]))
  }

  function LastOf(before: int, times: seq<int>): int { if times == [] then before else times[|times| - 1] }

  lemma {:induction false} PacketsCollect(p: Probe, ids: seq<int>, times: seq<int>)
    requires Sound(p) && p.collecting && p.aggr.count == 0 && p.gaps == [] && p.aggr.last == p.aggr.first
    requires |ids| == |times|
    ensures var p' := Packets(p, ids, times);
            && Sound(p') && p'.collecting && p'.queue == p.queue && p'.queuedGaps == p.queuedGaps
            && p'.gaps == GapsOf(p.aggr.first, times) && p'.aggr.last == LastOf(p.aggr.first, times)
            && p'.aggr.first == p.aggr.first && p'.aggr.id0 == p.aggr.id0 && p'.aggr.count == |times|
    decreases |times|
  {
    hide Sound, Control, Describes;
    if times == [] {
      assert GapsOf(p.aggr.first, times) == [];
    } else {
      var n := |times| - 1;
      var q := Packets(p, ids[..n], times[..n]);
      assert Packets(p, ids, times) == Control(q, 2, ids[n], times[n]);
      hide Packets, GapsOf;
      PacketsCollect(p, ids[..n], times[..n]);
      OneCollected(q, ids[n], times[n]);
      GapsMore(p.aggr.first, times);
    }
  }

  lemma OneCollected(p: Probe, id: int, time: int)
    requires Sound(p) && p.collecting
    ensures p.aggr.count >= 0
    ensures var p' := Control(p, 2, id, time);
            && Sound(p') && p'.collecting && p'.queue == p.queue && p'.queuedGaps == p.queuedGaps
            && p'.gaps == p.gaps + [time - p.aggr.last] && p'.aggr.last == time
            && p'.aggr.first == p.aggr.first && p'.aggr.id0 == p.aggr.id0 && p'.aggr.count == p.aggr.count + 1
  {
    CountIsNatural(p);
    ControlKeepsSound(p, 2, id, time);
    hide Sound, NextMean;
  }

  lemma CountIsNatural(p: Probe)
    requires Sound(p)
    ensures p.aggr.count >= 0
  {
  }

  lemma GapsMore(before: int, times: seq<int>)
    requires times != []
    ensures var n := |times| - 1;
            GapsOf(before, times) == GapsOf(before, times[..n]) + [times[n] - LastOf(before, times[..n])]
  {
  }

  /**
   What is queued for a frame: started behind a packet, collected from the packets that follow, and stopped, or
   cut short by the next start. The aggregate has the identifiers of the calls that started and stopped it,
   the time of the packet before the first and that of the last, and describes the gaps between them all.
   Frames of fewer than two packets leave nothing, and afterwards everything starts afresh.
   */
  lemma FrameIsQueued(p: Probe, before: int, id0: int, ids: seq<int>, times: seq<int>, stop: int, id1: int, x: int,
                      y: int, z: int)
    requires Sound(p) && !p.collecting && |ids| == |times| && (stop == 0 || stop == 1)
    ensures p.aggr.count >= 0
    ensures var p1 := Control(Control(p, 2, x, before), 1, id0, y);
            var p' := Control(Packets(p1, ids, times), stop, id1, z);
            && !p'.collecting && p'.aggr == Aggr(0, 0, 0, 0, 0, 0.0, 0.0, 0x7fff_ffff, 0)
            && (if |times| < 2 then p'.queue == p.queue
                else
                  && |p'.queue| == |p.queue| + 1 && p'.queue[..|p.queue|] == p.queue
                  && var a := p'.queue[|p.queue|];
                     && a.id0 == id0 && a.id1 == id1 && a.first == before && a.last == times[|times| - 1]
                     && a.count == |times| && Describes(a, GapsOf(before, times)))
  {
    ControlKeepsSound(p, 2, x, before);
    var p0 := Control(p, 2, x, before);
    ControlKeepsSound(p0, 1, id0, y);
    var p1 := Control(p0, 1, id0, y);
    PacketsCollect(p1, ids, times);
    var p2 := Packets(p1, ids, times);
    assert Describes(p2.aggr, p2.gaps);
    DescribesWhatever(p2.aggr, p2.gaps, id1);
    hide Sound, Describes, Packets;
  }

  /** An identifier is no part of the statistics. */
  lemma DescribesWhatever(a: Aggr, gaps: seq<int>, id1: int)
    requires Describes(a, gaps)
    ensures Describes(a.(id1 := id1), gaps)
  {
  }

  /** A packet while nothing is collected: its time is kept, and it is counted. */
  lemma IdlePacket(p: Probe, id: int, time: int)
    requires Sound(p) && !p.collecting
    ensures p.aggr.count >= 0
    ensures Control(p, 2, id, time) == p.(aggr := p.aggr.(first := time, count := p.aggr.count + 1))
  {
    hide Describes;
  }

  /** Calls out of place queue nothing and start afresh. */
  lemma OtherCallsStartAfresh(p: Probe, ctl: int, id: int, time: int)
    requires Sound(p) && (if p.collecting then !(0 <= ctl <= 2) else ctl != 1 && ctl != 2)
    ensures p.aggr.count >= 0
    ensures var p' := Control(p, ctl, id, time);
            !p'.collecting && p'.queue == p.queue && p'.aggr == Aggr(0, 0, 0, 0, 0, 0.0, 0.0, 0x7fff_ffff, 0)
  {
    CountIsNatural(p);
    hide Sound;
  }

  // ---- What it means ----

  lemma {:induction false} SumBounds(xs: seq<int>, lo: int, hi: int)
    requires forall i :: 0 <= i < |xs| ==> lo <= xs[i] <= hi
    ensures |xs| * lo <= Sum(xs) <= |xs| * hi
    decreases |xs|
  {
    if xs != [] {
      SumBounds(xs[..|xs| - 1], lo, hi);
      assert |xs| * lo == (|xs| - 1) * lo + lo && |xs| * hi == (|xs| - 1) * hi + hi;
    }
  }

  /** The mean times the count is the time from the first packet to the last. */
  lemma MeanTelescopes(a: Aggr, gaps: seq<int>)
    requires Describes(a, gaps)
    ensures a.count as real * a.mean == (a.last - a.first) as real
  {
    MeanIs(a, gaps);
  }

  /** With gaps in range, the smallest is no larger than the mean, and the mean no larger than the largest. */
  lemma MinMeanMax(a: Aggr, gaps: seq<int>)
    requires Describes(a, gaps) && gaps != [] && forall i :: 0 <= i < |gaps| ==> 0 <= gaps[i] <= INT_MAX
    ensures a.min as real <= a.mean <= a.max as real
    ensures a.min in gaps && a.max in gaps
  {
    SumBounds(gaps, a.min, a.max);
    MeanIs(a, gaps);
    assert gaps[0] in gaps;
    assert forall i :: 0 <= i < |gaps| ==> a.min <= gaps[i] <= a.max;
    hide Describes, Sum, IsMin, IsMax, Product;
    AtLeast(|gaps|, a.min, Sum(gaps), a.mean);
    AtMost(|gaps|, a.max, Sum(gaps), a.mean);
  }

  lemma AtLeast(n: int, lo: int, s: int, m: real)
    requires n > 0 && n * lo <= s && Product(n as real, m) == s as real
    ensures lo as real <= m
  {
    assert (n * lo) as real == n as real * lo as real;
    Cancel(n as real, lo as real, m);
  }

  lemma AtMost(n: int, hi: int, s: int, m: real)
    requires n > 0 && s <= n * hi && Product(n as real, m) == s as real
    ensures m <= hi as real
  {
    assert (n * hi) as real == n as real * hi as real;
    Cancel(n as real, m, hi as real);
  }

  lemma Cancel(n: real, a: real, b: real)
    requires n > 0.0 && n * a <= n * b
    ensures a <= b
  {
    if a > b { Grows(n, a, b); }
  }

  lemma Grows(n: real, a: real, b: real)
    requires n > 0.0 && a > b
    ensures n * a > n * b
  {
    Distribute(n, b, a - b);
  }

  // ---- The collector in memory ----

  class Collector {
    var state: int
    var aggr: Aggr
    var queue: seq<Aggr>
    ghost var gaps: seq<int>
    ghost var queuedGaps: seq<seq<int>>

    ghost function Value(): Probe
      reads this
    {
      Probe(state == 1, aggr, queue, gaps, queuedGaps)
    }

    ghost predicate Valid()
      reads this
    {
      (state == 0 || state == 1) && Sound(Value())
    }

    constructor ()
      ensures Valid() && Value() == Probe(false, EMPTY, [], [], [])
    {
      state, aggr, queue, gaps, queuedGaps := 0, EMPTY, [], [], [];
      hide Describes;
    }

    /** A packet while collecting: one gap more. */
    method AddGap(time: int)
      requires aggr.count >= 0
      modifies this`aggr
      ensures aggr == Collect(old(aggr), time)
    {
      var gap := time - aggr.last;
      aggr := aggr.(last := time, count := aggr.count + 1);
      var delta := gap as real - aggr.mean;
      aggr := aggr.(mean := aggr.mean + delta / aggr.count as real);
      assert aggr.mean == NextMean(old(aggr.mean), gap as real, old(aggr.count) as real);
      var delta2 := gap as real - aggr.mean;
      hide NextMean;
      aggr := aggr.(m2 := aggr.m2 + Product(delta, delta2));
      if gap < aggr.min {
        aggr := aggr.(min := gap);
      }
      if gap > aggr.max {
        aggr := aggr.(max := gap);
      }
    }

    method PktTSctl(ctl: int, id: int, time: int)
      requires Valid()
      modifies this
      ensures Valid() && Value() == Control(old(Value()), ctl, id, time)
    {
      ControlKeepsSound(Value(), ctl, id, time);
      assert aggr.count >= 0;
      hide Sound, Collect;
      if state == 0 {
        if ctl == 1 {
          aggr := aggr.(id0 := id, last := aggr.first, count := 0);
          state, gaps := 1, [];
          return;
        } else if ctl == 2 {
          aggr := aggr.(first := time, count := aggr.count + 1);
          return;
        }
      } else if ctl == 0 || ctl == 1 {
        aggr := aggr.(id1 := id);
        if aggr.count >= 2 {
          queue, queuedGaps := queue + [aggr], queuedGaps + [gaps];
        }
      } else if ctl == 2 {
        gaps := gaps + [time - aggr.last];
        AddGap(time);
        return;
      }
      state, aggr := 0, EMPTY;
      gaps := [];
    }
  }
}
