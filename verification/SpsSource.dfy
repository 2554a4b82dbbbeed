/**
 CSPSRTPDataSource: one stream received twice (SMPTE ST 2022-7). Packets missing from the master source are
 taken from the secondary one, and the roles change when the master falls silent.
 */
module SpsSource {
  import opened RtpPacket
  import opened CircularBuffer

  /** A source: its buffer, when it last produced an event, and whether it counts as online. */
  datatype Source = Source(buf: Buf, lastEvent: real, online: bool)

  /** The two sources, which of them is the master, and the reader's position. */
  datatype Sps = Sps(s0: Source, s1: Source, master: int, nextSeq: int, lastSeq: int, lost: int, q: seq<int>,
                     closed: bool, threshold: real) {
    function Src(i: int): Source { if i == 0 then s0 else s1 }

    function WithSrc(i: int, s: Source): Sps { if i == 0 then this.(s0 := s) else this.(s1 := s) }

    function WithBuf(i: int, b: Buf): Sps { WithSrc(i, Src(i).(buf := b)) }
  }

  /** What read returns: a packet, or one of the codes. */
  datatype Outcome = Packet(bytes: Slot) | Closed | Failed | NotPrimary | PacketLost

  // ---- One read ----

  function Succ(seqNo: int): int { (seqNo + 1) % SEQ_MOD }

  /** Packets are missing: the next of them is looked for in the secondary source. */
  function Recover(s: Sps): (r: (Sps, Outcome))
    requires BufOk(s.Src(1 - s.master).buf)
  {
    var sec := 1 - s.master;
    if !s.Src(sec).online then (s, Failed)
    else
      var (b, found) := Search(s.Src(sec).buf, s.nextSeq);
      if found.None? then (s.(lost := 0, nextSeq := -1), Failed)
      else
        (s.WithBuf(sec, b).(lost := if s.nextSeq == s.lastSeq then 0 else s.lost - 1, nextSeq := Succ(s.nextSeq)),
         Packet(found.value))
  }

  /** _switch_sources */
  function Switch(s: Sps): Sps
  {
    s.(master := 1 - s.master,
       s0 := s.s0.(buf := s.s0.buf.(master := s.master == 1)), s1 := s.s1.(buf := s.s1.buf.(master := s.master == 0)))
  }

  /** One turn of the loop that looks for silent sources. */
  function Check(s: Sps, i: int, now: real): Sps
  {
    if s.Src(i).online && now - s.Src(i).lastEvent > s.threshold then
      var off := s.WithSrc(i, s.Src(i).(online := false));
      if i == s.master then Switch(off) else off
    else s
  }

  predicate Silent(s: Sps, i: int, now: real) { s.Src(i).online && now - s.Src(i).lastEvent > s.threshold }

  /** Whether that loop changed the roles at least once. */
  predicate Switches(s: Sps, now: real)
  {
    (Silent(s, 0, now) && s.master == 0) || (Silent(Check(s, 0, now), 1, now) && Check(s, 0, now).master == 1)
  }

  function Touch(s: Sps, source: int, time: real): Sps
  {
    s.WithSrc(source, s.Src(source).(lastEvent := time, online := true))
  }

  /** The master's next packet has arrived: it is read, with `between` arriving while the mutex is free. */
  function ReadMaster(s: Sps, between: seq<Datagram>): (r: (Sps, Outcome))
    requires BufOk(s.Src(s.master).buf)
  {
    var (b, found) := AfterRead(s.Src(s.master).buf, s.nextSeq, between);
    if found.Some? then (s.WithBuf(s.master, b).(nextSeq := Succ(s.nextSeq)), Packet(found.value))
    else (s.WithBuf(s.master, b), Failed)
  }

  /** The number of packets missing up to and including the one that has just arrived. */
  function Missing(lastSeq: int, nextSeq: int): int
  {
    (if lastSeq - nextSeq > 0 then lastSeq - nextSeq else 65536 - nextSeq + lastSeq) + 1
  }

  /** An event of the master with this sequence number. */
  function OnMaster(s: Sps, seqNo: int, between: seq<Datagram>): (r: (Sps, Outcome))
    requires BufOk(s.Src(s.master).buf)
  {
    var s1 := if s.nextSeq == -1 then s.(nextSeq := seqNo, lost := 0) else s;
    var s2 := s1.(lastSeq := seqNo);
    if s2.nextSeq != s2.lastSeq then (s2.(lost := Missing(s2.lastSeq, s2.nextSeq)), PacketLost)
    else ReadMaster(s2, between)
  }

  predicate BufsOk(s: Sps) { BufOk(s.s0.buf) && BufOk(s.s1.buf) && 0 <= s.master <= 1 }

  /**
   read pops an event only when nothing is missing and the source was open when it looked; `entered` says
   that it looked before the source was closed.
   */
  predicate Pops(s: Sps, entered: bool) { (!s.closed || entered) && s.lost <= 0 }

  /** What read does with an event, the clock being read twice. */
  function OnEvent(s: Sps, event: int, time: real, now: real, between: seq<Datagram>): (r: (Sps, Outcome))
    requires BufsOk(s)
  {
    var seqNo, source := event % SEQ_MOD, event / SEQ_MOD;
    if event == -1 || source < 0 || source > 1 then (s, Failed)
    else
      var t := Touch(s, source, time);
      var s1 := Check(Check(t, 0, now), 1, now);
      if Switches(t, now) then (s1.(nextSeq := -1), Failed)
      else if source != s1.master then (s1, NotPrimary)
      else OnMaster(s1, seqNo, between)
  }

  /** One call of read; it waits for an event when it needs one, and looks once more whether the source is closed. */
  function ReadOnce(s: Sps, time: real, now: real, between: seq<Datagram>, entered: bool): (r: (Sps, Outcome))
    requires BufsOk(s) && (Pops(s, entered) ==> s.q != [])
  {
    if s.closed && !entered then (s, Closed)
    else if s.lost > 0 then Recover(s)
    else
      var s1 := s.(q := s.q[1..]);
      if s.closed then (s1, Failed) else OnEvent(s1, s.q[0], time, now, between)
  }

  // ---- What always holds ----

  /**
   The buffers are sound and know their role. When packets are missing, the counter is the distance from the
   next number to the last one received, including both.
   */
  predicate Inv(s: Sps)
  {
    && BufsOk(s) && s.s0.buf.master == (s.master == 0) && s.s1.buf.master == (s.master == 1)
    && -1 <= s.nextSeq < SEQ_MOD && s.lost >= 0
    && (s.lost > 0 ==>
          && s.nextSeq != -1 && 0 <= s.lastSeq < SEQ_MOD
          && s.lost == (s.lastSeq - s.nextSeq) % SEQ_MOD + 1)
  }

  /** The source as it is opened. */
  predicate Initial(s: Sps, start: real)
  {
    && s.master == 0 && s.nextSeq == -1 && s.lost == 0 && s.q == [] && !s.closed
    && s.s0.online && s.s1.online && s.s0.lastEvent == start && s.s1.lastEvent == start
    && NothingReceived(s.s0.buf) && NothingReceived(s.s1.buf)
  }

  lemma InitialInv(s: Sps, start: real)
    requires Initial(s, start) && BufsOk(s) && s.s0.buf.master && !s.s1.buf.master
    ensures Inv(s)
  {
    hide BufsOk;
  }

  /** What one read may do to the position: deliver the expected packet, or leave it, or lose it. */
  predicate Moves(s: Sps, s': Sps, o: Outcome)
  {
    if o.Packet? then
      && (s.nextSeq != -1 ==> SeqOf(o.bytes) == s.nextSeq)
      && s'.nextSeq == Succ(SeqOf(o.bytes))
      && (Received(s.s0.buf.log, o.bytes) || Received(s.s1.buf.log, o.bytes)
          || Received(s'.s0.buf.log, o.bytes) || Received(s'.s1.buf.log, o.bytes))
    else s'.nextSeq == s.nextSeq || s'.nextSeq == -1 || s.nextSeq == -1
  }

  lemma CounterSteps(next: int, last: int)
    requires 0 <= next < SEQ_MOD && 0 <= last < SEQ_MOD && next != last
    ensures (last - next) % SEQ_MOD == (last - Succ(next)) % SEQ_MOD + 1
    ensures Missing(last, next) == (last - next) % SEQ_MOD + 1
  {
  }

  /** The counter reaches zero exactly when the explicit comparison of the numbers says so. */
  lemma CounterAgrees(s: Sps)
    requires Inv(s) && s.lost > 0
    ensures s.lost == 1 <==> s.nextSeq == s.lastSeq
  {
  }

  lemma RecoverOk(s: Sps)
    requires Inv(s) && s.lost > 0
    ensures Inv(Recover(s).0) && Moves(s, Recover(s).0, Recover(s).1)
  {
    var sec := 1 - s.master;
    ReadKeepsIndex(s.Src(sec).buf, s.nextSeq);
    DeliversWanted(s.Src(sec).buf, s.nextSeq);
    if s.nextSeq != s.lastSeq { CounterSteps(s.nextSeq, s.lastSeq); }
    hide BufOk, Received, SeqOf;
  }

  lemma ReadMasterOk(s: Sps, between: seq<Datagram>)
    requires Inv(s) && s.lost == 0 && s.nextSeq != -1
    ensures var r := ReadMaster(s, between); Inv(r.0) && Moves(s, r.0, r.1)
  {
    AfterReadOk(s.Src(s.master).buf, s.nextSeq, between);
    hide BufOk, Received, SeqOf, AfterRead;
  }

  lemma OnMasterOk(s: Sps, seqNo: int, between: seq<Datagram>)
    requires Inv(s) && s.lost == 0 && 0 <= seqNo < SEQ_MOD
    ensures var r := OnMaster(s, seqNo, between); Inv(r.0) && Moves(s, r.0, r.1)
  {
    hide BufOk, Received, SeqOf, ReadMaster;
    var s1 := if s.nextSeq == -1 then s.(nextSeq := seqNo, lost := 0) else s;
    var s2 := s1.(lastSeq := seqNo);
    if s2.nextSeq == s2.lastSeq { ReadMasterOk(s2, between); } else { CounterSteps(s2.nextSeq, s2.lastSeq); }
  }

  lemma CheckOk(s: Sps, i: int, now: real)
    requires Inv(s) && s.lost == 0 && 0 <= i <= 1
    ensures var s' := Check(s, i, now);
            && Inv(s') && s'.lost == 0 && s'.nextSeq == s.nextSeq
            && s'.s0.buf.log == s.s0.buf.log && s'.s1.buf.log == s.s1.buf.log
  {
    FlagKeepsIndex(s.s0.buf, s.master == 1);
    FlagKeepsIndex(s.s1.buf, s.master == 0);
    hide BufOk;
  }

  lemma FlagKeepsIndex(b: Buf, master: bool)
    requires BufOk(b)
    ensures BufOk(b.(master := master))
  {
    forall i | 0 <= i < |b.slots| ensures SlotOk(b.(master := master), i) { assert SlotOk(b, i); }
  }

  lemma OnEventOk(s: Sps, event: int, time: real, now: real, between: seq<Datagram>)
    requires Inv(s) && s.lost == 0
    ensures var r := OnEvent(s, event, time, now, between); Inv(r.0) && Moves(s, r.0, r.1)
  {
    hide BufOk, Received, SeqOf, OnMaster, Check;
    var source := event / SEQ_MOD;
    if event != -1 && 0 <= source <= 1 {
      var t := Touch(s, source, time);
      CheckOk(t, 0, now);
      CheckOk(Check(t, 0, now), 1, now);
      OnMasterOk(Check(Check(t, 0, now), 1, now), event % SEQ_MOD, between);
    }
  }

  /** Every read keeps the invariant, and delivers only the packet that was expected. */
  lemma ReadOk(s: Sps, time: real, now: real, between: seq<Datagram>, entered: bool)
    requires Inv(s) && (Pops(s, entered) ==> s.q != [])
    ensures var r := ReadOnce(s, time, now, between, entered); Inv(r.0) && Moves(s, r.0, r.1)
  {
    hide BufOk, Received, SeqOf, Recover, OnEvent;
    if s.lost > 0 {
      RecoverOk(s);
    } else if !s.closed {
      OnEventOk(s.(q := s.q[1..]), s.q[0], time, now, between);
    }
  }

  // ---- What a read does, in terms of the state ----

  /**
   The clock decides who is online and who is master: the source of the event is online as of now, a source
   that has been silent for longer than the threshold is not, and the roles change for each silent source that
   is the master when its turn comes, the first source having the first turn.
   */
  lemma OfflineDetection(s: Sps, i: int, time: real, now: real)
    requires Inv(s) && s.lost == 0 && 0 <= i <= 1
    ensures var t := Touch(s, i, time);
            var r := Check(Check(t, 0, now), 1, now);
            var t0, t1 := if i == 0 then time else s.s0.lastEvent, if i == 1 then time else s.s1.lastEvent;
            var on0, on1 := i == 0 || s.s0.online, i == 1 || s.s1.online;
            var off0, off1 := on0 && now - t0 > s.threshold, on1 && now - t1 > s.threshold;
            var m := if s.master == 1 then (if off1 then 0 else 1) else if off0 && !off1 then 1 else 0;
            && r == s.(master := m, s0 := Source(s.s0.buf.(master := m == 0), t0, on0 && !off0),
                       s1 := Source(s.s1.buf.(master := m == 1), t1, on1 && !off1))
            && (Switches(t, now) <==> if s.master == 0 then off0 else off1)
  {
    hide BufOk;
  }

  /** The last sign of life of the master, given that source i has just produced an event. */
  function MasterSeen(s: Sps, i: int, time: real): real
  {
    if i == s.master then time else if s.master == 0 then s.s0.lastEvent else s.s1.lastEvent
  }

  predicate MasterOnline(s: Sps, i: int) { i == s.master || (if s.master == 0 then s.s0.online else s.s1.online) }

  /** An open source with nothing missing, and an event of source i with number n next in the queue. */
  predicate EventWaits(s: Sps, i: int, n: int)
  {
    && Inv(s) && !s.closed && s.lost == 0 && 0 <= i <= 1 && 0 <= n < 65536
    && s.q != [] && s.q[0] == 65536 * i + n
  }

  /** A buffer has a packet: in its next slot, or in any once what arrives in between is written. */
  predicate Has(b: Buf, n: int, between: seq<Datagram>)
    requires BufOk(b)
  {
    ReadMoves(b);
    var moved := b.(rd := (b.rd + 1) % |b.slots|);
    0 <= moved.rd < |b.seqs| && (b.seqs[moved.rd] == n || n in Writes(moved, between).seqs)
  }

  predicate MasterHas(s: Sps, n: int, between: seq<Datagram>)
    requires Inv(s)
  {
    Has(if s.master == 0 then s.s0.buf else s.s1.buf, n, between)
  }

  /** When the master has fallen silent, the event is used up, the position is given up, and the read fails. */
  lemma SilentMaster(s: Sps, i: int, n: int, time: real, now: real, between: seq<Datagram>)
    requires EventWaits(s, i, n) && MasterOnline(s, i) && now - MasterSeen(s, i, time) > s.threshold
    ensures var (s', o) := ReadOnce(s, time, now, between, false);
            o == Failed && s'.nextSeq == -1 && s'.lost == 0 && s'.q == s.q[1..]
  {
    OfflineDetection(s.(q := s.q[1..]), i, time, now);
    hide BufOk, Check, Touch, Switches;
  }

  /**
   What an event leads to while the master is not silent. From the other source it changes nothing but that
   source's state. From the master: a number that is not the one expected starts a recovery that ends with
   it; the expected number, or any if none is expected, is read, and delivered exactly if the master has it.
   */
  lemma EventSays(s: Sps, i: int, n: int, time: real, now: real, between: seq<Datagram>)
    requires EventWaits(s, i, n) && (MasterOnline(s, i) ==> now - MasterSeen(s, i, time) <= s.threshold)
    ensures var (s', o) := ReadOnce(s, time, now, between, false);
            && s'.q == s.q[1..] && s'.master == s.master
            && (if i == 0 then s'.s0 else s'.s1).lastEvent == time
            && ((if i == 0 then s'.s0 else s'.s1).online <==> now - time <= s.threshold)
            && (if i == 0 then s'.s1 else s'.s0).lastEvent == (if i == 0 then s.s1 else s.s0).lastEvent
            && (i != s.master ==>
                  o == NotPrimary && s'.nextSeq == s.nextSeq && s'.lastSeq == s.lastSeq && s'.lost == 0)
            && (i == s.master && s.nextSeq != -1 && s.nextSeq != n ==>
                  && o == PacketLost && s'.nextSeq == s.nextSeq && s'.lastSeq == n
                  && s'.lost == (n - s.nextSeq) % 65536 + 1)
            && (i == s.master && (s.nextSeq == -1 || s.nextSeq == n) ==>
                  && s'.lastSeq == n && s'.lost == 0
                  && (if MasterHas(s, n, between) then
                        o.Packet? && SeqOf(o.bytes) == n && s'.nextSeq == (n + 1) % 65536
                      else o == Failed && s'.nextSeq == n))
  {
    var s0 := s.(q := s.q[1..]);
    OfflineDetection(s0, i, time, now);
    var s1 := Check(Check(Touch(s0, i, time), 0, now), 1, now);
    assert ReadOnce(s, time, now, between, false)
        == if i != s.master then (s1, NotPrimary) else OnMaster(s1, n, between);
    if i == s.master {
      CheckOk(Touch(s0, i, time), 0, now);
      CheckOk(Check(Touch(s0, i, time), 0, now), 1, now);
      hide ReadOnce, Check, Touch, Switches, BufOk;
      MasterEventSays(s, s1, n, between);
    }
  }

  /** The signs of life of the sources are the same. */
  predicate SameSigns(s: Sps, s': Sps)
  {
    && s'.s0.lastEvent == s.s0.lastEvent && s'.s0.online == s.s0.online
    && s'.s1.lastEvent == s.s1.lastEvent && s'.s1.online == s.s1.online
  }

  lemma MasterEventSays(s: Sps, s1: Sps, n: int, between: seq<Datagram>)
    requires Inv(s) && Inv(s1) && s.lost == 0 && 0 <= n < 65536 && s.q != []
    requires s1.q == s.q[1..] && s1.master == s.master && s1.nextSeq == s.nextSeq && s1.lost == 0
    requires s1.s0.buf == s.s0.buf && s1.s1.buf == s.s1.buf
    ensures var (s', o) := OnMaster(s1, n, between);
            && s'.q == s1.q && s'.master == s.master && s'.lastSeq == n && SameSigns(s1, s')
            && (s.nextSeq != -1 && s.nextSeq != n ==>
                  o == PacketLost && s'.nextSeq == s.nextSeq && s'.lost == (n - s.nextSeq) % 65536 + 1)
            && (s.nextSeq == -1 || s.nextSeq == n ==>
                  && s'.lost == 0
                  && (if MasterHas(s, n, between) then
                        o.Packet? && SeqOf(o.bytes) == n && s'.nextSeq == (n + 1) % 65536
                      else o == Failed && s'.nextSeq == n))
  {
    SameMasterHas(s, s1, n, between);
    hide BufOk, ReadMaster, Writes, SeqOf, MasterHas;
    if s.nextSeq != -1 && s.nextSeq != n {
      CounterSteps(s.nextSeq, n);
    } else {
      var s2 := s1.(nextSeq := n, lastSeq := n);
      assert Inv(s2);
      SameMasterHas(s1, s2, n, between);
      ExpectedIsRead(s2, n, between);
    }
  }

  lemma SameMasterHas(s: Sps, s': Sps, n: int, between: seq<Datagram>)
    requires Inv(s) && Inv(s') && s'.master == s.master && s'.s0.buf == s.s0.buf && s'.s1.buf == s.s1.buf
    ensures MasterHas(s', n, between) == MasterHas(s, n, between)
  {
  }

  lemma ExpectedIsRead(s: Sps, n: int, between: seq<Datagram>)
    requires Inv(s) && s.lost == 0 && s.nextSeq == n && 0 <= n < 65536
    ensures var (s', o) := ReadMaster(s, between);
            && s'.q == s.q && s'.master == s.master && s'.lastSeq == s.lastSeq && s'.lost == 0 && SameSigns(s, s')
            && (if MasterHas(s, n, between) then
                  o.Packet? && SeqOf(o.bytes) == n && s'.nextSeq == (n + 1) % 65536
                else o == Failed && s'.nextSeq == n)
  {
    var b := if s.master == 0 then s.s0.buf else s.s1.buf;
    FoundIfHad(b, n, between);
    hide BufOk, AfterRead, Has, SeqOf;
  }

  lemma FoundIfHad(b: Buf, n: int, between: seq<Datagram>)
    requires BufOk(b) && n != -1
    ensures var found := AfterRead(b, n, between).1;
            if Has(b, n, between) then found.Some? && SeqOf(found.value) == n else found.None?
  {
    AfterReadOk(b, n, between);
    ReadFinds(b, n, between);
    HeadInRange(b);
    hide BufOk, AfterRead, Writes, Received, SeqOf, Search;
  }

  lemma HeadInRange(b: Buf)
    requires BufOk(b)
    ensures 0 <= (b.rd + 1) % |b.slots| < |b.seqs|
  {
  }

  /** A recovery that fails: if the secondary source is offline, nothing changes; else the position is given up. */
  lemma FailedRecovery(s: Sps, time: real, now: real, between: seq<Datagram>)
    requires Inv(s) && !s.closed && s.lost > 0
    ensures var (s', o) := ReadOnce(s, time, now, between, false);
            var sec := if s.master == 0 then s.s1 else s.s0;
            && (!sec.online ==> o == Failed && s' == s)
            && (sec.online && s.nextSeq !in sec.buf.seqs ==> o == Failed && s' == s.(lost := 0, nextSeq := -1))
            && (sec.online && s.nextSeq in sec.buf.seqs ==> o.Packet? && s'.q == s.q)
  {
    hide BufOk, Search;
    SearchIsComplete(s.Src(1 - s.master).buf, s.nextSeq);
  }

  /** A source that is closed, or is being closed, and an event that is none: nothing is read. */
  lemma NothingRead(s: Sps, time: real, now: real, between: seq<Datagram>, entered: bool)
    requires Inv(s) && s.lost == 0 && (!s.closed || entered ==> s.q != [])
    ensures var (s', o) := ReadOnce(s, time, now, between, entered);
            && (s.closed && !entered ==> o == Closed && s' == s)
            && (s.closed && entered ==> o == Failed && s' == s.(q := s.q[1..]))
            && (!s.closed && !(0 <= s.q[0] < 2 * 65536) ==> o == Failed && s' == s.(q := s.q[1..]))
  {
    hide Check, OnMaster, BufOk;
  }

  // ---- Runs ----

  /**
   A receiving thread writes a packet, or, later and without the mutex, reports one; a read; or close. A
   report may come at any time and with any number, which allows every schedule of the threads.
   */
  datatype Step =
    | Write(source: int, d: Datagram)
    | Report(source: int, seqNo: int)
    | Call(time: real, now: real, between: seq<Datagram>, entered: bool)
    | Close

  predicate Enabled(s: Sps, e: Step)
  {
    match e
    case Write(source, d) => 0 <= source <= 1
    case Report(source, seqNo) => 0 <= source <= 1
    case Call(time, now, between, entered) => Pops(s, entered) ==> s.q != []
    case Close => true
  }

  /** The event a receiving thread pushes for a packet. */
  function Event(source: int, seqNo: int): int { source * SEQ_MOD + seqNo % SEQ_MOD }

  function Next(s: Sps, e: Step): (r: (Sps, Outcome))
    requires Inv(s) && Enabled(s, e)
  {
    match e
    case Write(source, d) => (s.WithBuf(source, AfterWrite(s.Src(source).buf, d).0), Closed)
    case Report(source, seqNo) => (s.(q := s.q + [Event(source, seqNo)]), Closed)
    case Call(time, now, between, entered) => ReadOnce(s, time, now, between, entered)
    case Close => (s.(closed := true, q := s.q + [-1]), Closed)
  }

  /** A report queues the source above the 16 bits of the number; a close wakes the reader with -1. */
  lemma ReportSays(s: Sps, source: int, seqNo: int)
    requires Inv(s) && 0 <= source <= 1
    ensures Next(s, Report(source, seqNo)).0 == s.(q := s.q + [65536 * source + seqNo % 65536])
    ensures Next(s, Close).0 == s.(closed := true, q := s.q + [-1])
  {
    hide Inv;
  }

  lemma NextKeepsInv(s: Sps, e: Step)
    requires Inv(s) && Enabled(s, e)
    ensures Inv(Next(s, e).0)
    ensures e.Call? ==> Moves(s, Next(s, e).0, Next(s, e).1)
    ensures !e.Call? ==> Next(s, e).0.nextSeq == s.nextSeq
  {
    match e
    case Write(source, d) => WriteKeepsIndex(s.Src(source).buf, d); hide BufOk, AfterWrite;
    case Report(source, seqNo) =>
    case Call(time, now, between, entered) => ReadOk(s, time, now, between, entered);
    case Close =>
  }

  /** A run: the states it passes through and what the reads return. */
  predicate IsRun(s: Sps, es: seq<Step>, states: seq<Sps>, outs: seq<Outcome>)
    decreases |es|
  {
    && Inv(s) && |states| == |es| + 1 && |outs| == |es| && states[0] == s
    && (es != [] ==>
          && Enabled(s, es[0]) && (es[0].Call? ==> outs[0] == Next(s, es[0]).1)
          && (!es[0].Call? ==> outs[0] == Closed)
          && states[1] == Next(s, es[0]).0 && (Inv(states[1]) ==> IsRun(states[1], es[1..], states[1..], outs[1..])))
  }

  /** What one step of a run does to the position. */
  predicate Progress(next: int, next': int, o: Outcome)
  {
    if o.Packet? then (next != -1 ==> SeqOf(o.bytes) == next) && next' == Succ(SeqOf(o.bytes))
    else next' == next || next' == -1 || next == -1
  }

  lemma {:induction false} StepOfRun(s: Sps, es: seq<Step>, states: seq<Sps>, outs: seq<Outcome>, i: nat)
    requires IsRun(s, es, states, outs) && i < |es|
    ensures Inv(states[i]) && Enabled(states[i], es[i]) && Inv(states[i + 1])
    ensures states[i + 1] == Next(states[i], es[i]).0 && (es[i].Call? ==> outs[i] == Next(states[i], es[i]).1)
    ensures !es[i].Call? ==> outs[i] == Closed
    ensures Progress(states[i].nextSeq, states[i + 1].nextSeq, outs[i])
    decreases i
  {
    NextKeepsInv(s, es[0]);
    hide Inv, Next, Enabled, Received;
    if i > 0 { StepOfRun(states[1], es[1..], states[1..], outs[1..], i - 1); }
  }

  function Delivered(outs: seq<Outcome>): (n: nat)
  {
    if outs == [] then 0 else Delivered(outs[..|outs| - 1]) + (if outs[|outs| - 1].Packet? then 1 else 0)
  }

  /** No reset: the position is known. */
  predicate NoReset(states: seq<Sps>) { forall i :: 0 <= i < |states| ==> states[i].nextSeq != -1 }

  lemma SuccMod(a: int)
    ensures Succ(a % SEQ_MOD) == (a + 1) % SEQ_MOD
  {
  }

  lemma DeliveredMore(outs: seq<Outcome>, i: nat)
    requires 0 < i <= |outs|
    ensures Delivered(outs[..i]) == Delivered(outs[..i - 1]) + (if outs[i - 1].Packet? then 1 else 0)
  {
    assert outs[..i][..i - 1] == outs[..i - 1];
  }

  /** One step without a reset: the position goes one further exactly if a packet was delivered. */
  lemma PositionStep(s: Sps, es: seq<Step>, states: seq<Sps>, outs: seq<Outcome>, i: nat)
    requires IsRun(s, es, states, outs) && NoReset(states) && i < |outs|
    ensures states[i + 1].nextSeq == if outs[i].Packet? then Succ(states[i].nextSeq) else states[i].nextSeq
    ensures outs[i].Packet? ==> SeqOf(outs[i].bytes) == states[i].nextSeq
  {
    assert states[i].nextSeq != -1 && states[i + 1].nextSeq != -1;
    StepOfRun(s, es, states, outs, i);
    hide IsRun, Inv, Next, Enabled, SeqOf;
  }

  /** Without a reset the position counts the packets delivered, whatever was lost or switched meanwhile. */
  lemma {:induction false} PositionCounts(s: Sps, es: seq<Step>, states: seq<Sps>, outs: seq<Outcome>, i: nat)
    requires IsRun(s, es, states, outs) && NoReset(states) && i <= |outs|
    ensures states[i].nextSeq == (s.nextSeq + Delivered(outs[..i])) % SEQ_MOD
    decreases i
  {
    hide IsRun, Inv, Next, Enabled, Delivered, SeqOf, Succ;
    RunParts(s, es, states, outs);
    assert states[0].nextSeq != -1;
    hide NoReset;
    if i > 0 {
      PositionCounts(s, es, states, outs, i - 1);
      PositionStep(s, es, states, outs, i - 1);
      DeliveredMore(outs, i);
      SuccMod(s.nextSeq + Delivered(outs[..i - 1]));
    }
  }

  /** Between two resets the packets delivered are consecutive: the k-th of them has number first + k. */
  lemma DeliveredAreConsecutive(s: Sps, es: seq<Step>, states: seq<Sps>, outs: seq<Outcome>, i: nat)
    requires IsRun(s, es, states, outs) && NoReset(states) && i < |outs| && outs[i].Packet?
    ensures SeqOf(outs[i].bytes) == (s.nextSeq + Delivered(outs[..i])) % SEQ_MOD
  {
    hide IsRun, Inv, Next, Enabled, SeqOf, Delivered;
    PositionCounts(s, es, states, outs, i);
    PositionStep(s, es, states, outs, i);
  }

  // ---- Recovery ----

  /** A missing packet is recovered exactly when the secondary source is online and holds it. */
  lemma RecoversIff(s: Sps)
    requires Inv(s) && s.lost > 0
    ensures var sec := s.Src(1 - s.master);
            Recover(s).1.Packet? <==> sec.online && s.nextSeq in sec.buf.seqs
  {
    SearchIsComplete(s.Src(1 - s.master).buf, s.nextSeq);
    hide BufOk, Search;
  }

  /** The number of a packet that is still missing. */
  predicate Wanted(s: Sps, n: int) { 0 <= n < SEQ_MOD && (n - s.nextSeq) % SEQ_MOD < s.lost }

  /** The secondary source can make the loss good. */
  ghost predicate Stocked(s: Sps)
  {
    var sec := s.Src(1 - s.master);
    sec.online && forall n :: Wanted(s, n) ==> n in sec.buf.seqs
  }

  /** A packet arriving at the secondary source would be written over one that is missing. */
  predicate Evicts(s: Sps, e: Step)
    requires Inv(s)
  {
    var b := s.Src(1 - s.master).buf;
    e.Write? && e.source == 1 - s.master && Wanted(s, b.seqs[NextWrite(b).0])
  }

  lemma WriteKeepsStock(s: Sps, e: Step)
    requires Inv(s) && Enabled(s, e) && Stocked(s) && e.Write? && !Evicts(s, e)
    ensures Stocked(Next(s, e).0)
  {
    var b, b' := s.Src(1 - s.master).buf, Next(s, e).0.Src(1 - s.master).buf;
    forall n | Wanted(s, n) ensures n in b'.seqs {
      var i :| 0 <= i < |b.seqs| && b.seqs[i] == n;
      if e.source == 1 - s.master {
        WriteElsewhere(b, e.d, i);
        assert b'.seqs[i] == n;
      }
    }
    hide BufOk;
  }

  /** A write changes the index in one place only. */
  lemma WriteElsewhere(b: Buf, d: Datagram, i: nat)
    requires BufOk(b) && i < |b.seqs| && i != NextWrite(b).0
    ensures var b' := AfterWrite(b, d).0; |b'.seqs| == |b.seqs| && b'.seqs[i] == b.seqs[i]
  {
    hide SeqOf;
  }

  lemma ReadKeepsStock(s: Sps, e: Step)
    requires Inv(s) && Enabled(s, e) && Stocked(s) && e.Call? && s.lost > 0 && !s.closed
    ensures Next(s, e).1.Packet? && Stocked(Next(s, e).0)
    ensures Next(s, e).0.lost == s.lost - 1
  {
    assert Wanted(s, s.nextSeq);
    CounterAgrees(s);
    RecoversIff(s);
    var s' := Next(s, e).0;
    forall n | Wanted(s', n) ensures Wanted(s, n) { WantedBefore(s.nextSeq, n, s.lost); }
    hide BufOk, Find, Inv;
  }

  lemma WantedBefore(next: int, n: int, lost: int)
    requires 0 <= next < SEQ_MOD && 0 <= n < SEQ_MOD && 0 < lost <= SEQ_MOD
    requires (n - Succ(next)) % SEQ_MOD < lost - 1
    ensures (n - next) % SEQ_MOD < lost
  {
  }

  /** Only reads, writes and reports, and every read succeeds. */
  predicate Uninterrupted(es: seq<Step>, outs: seq<Outcome>)
    requires |es| == |outs|
  {
    forall i :: 0 <= i < |es| ==> !es[i].Close? && (es[i].Call? ==> outs[i].Packet?)
  }

  /** No close, and no packet that is missing is written over. */
  predicate Undisturbed(es: seq<Step>, states: seq<Sps>)
    requires |states| == |es| + 1
  {
    forall i :: 0 <= i < |es| ==> !es[i].Close? && (Inv(states[i]) ==> !Evicts(states[i], es[i]))
  }

  function Calls(es: seq<Step>): (n: nat)
  {
    if es == [] then 0 else Calls(es[..|es| - 1]) + (if es[|es| - 1].Call? then 1 else 0)
  }

  lemma CallsMore(es: seq<Step>, i: nat)
    requires 0 < i <= |es|
    ensures Calls(es[..i]) == Calls(es[..i - 1]) + (if es[i - 1].Call? then 1 else 0)
  {
    assert es[..i][..i - 1] == es[..i - 1];
  }

  lemma {:induction false} CallsGrow(es: seq<Step>, i: nat, j: nat)
    requires i <= j <= |es|
    ensures Calls(es[..i]) <= Calls(es[..j])
    decreases j
  {
    if i < j {
      CallsMore(es, j);
      CallsGrow(es, i, j - 1);
    }
  }

  /** What holds after some reads of a recovery that the secondary source can serve. */
  ghost predicate Serving(s: Sps, s': Sps, n: nat) { Stocked(s') && !s'.closed && s'.lost == s.lost - n }

  /** One more step of such a recovery. */
  lemma ServingStep(s: Sps, s1: Sps, e: Step, n: nat)
    requires Inv(s1) && Enabled(s1, e) && Serving(s, s1, n) && !e.Close? && !Evicts(s1, e)
    requires e.Call? ==> n < s.lost
    ensures e.Call? ==> Next(s1, e).1.Packet?
    ensures Serving(s, Next(s1, e).0, if e.Call? then n + 1 else n)
  {
    hide Inv, Stocked, Evicts;
    if e.Call? { ReadKeepsStock(s1, e); }
    else if e.Write? { WriteKeepsStock(s1, e); WriteKeepsCounters(s1, e); }
    else { ReportKeepsStock(s1, e); }
  }

  lemma WriteKeepsCounters(s: Sps, e: Step)
    requires Inv(s) && Enabled(s, e) && e.Write?
    ensures Next(s, e).0.lost == s.lost && Next(s, e).0.closed == s.closed
  {
    hide AfterWrite;
  }

  lemma ReportKeepsStock(s: Sps, e: Step)
    requires Inv(s) && Enabled(s, e) && e.Report? && Stocked(s)
    ensures var s' := Next(s, e).0; Stocked(s') && s'.lost == s.lost && s'.closed == s.closed
  {
    var s' := Next(s, e).0;
    assert forall n :: Wanted(s', n) <==> Wanted(s, n);
    hide Inv;
  }

  lemma {:induction false} RecoveryServed(s: Sps, es: seq<Step>, states: seq<Sps>, outs: seq<Outcome>, i: nat)
    requires IsRun(s, es, states, outs) && s.lost > 0 && !s.closed && Stocked(s) && Undisturbed(es, states)
    requires i <= |es| && Calls(es[..i]) <= s.lost
    ensures Serving(s, states[i], Calls(es[..i]))
    ensures i > 0 && es[i - 1].Call? ==> outs[i - 1].Packet?
    decreases i
  {
    hide Inv, Next, Enabled, Evicts, Stocked;
    assert states[0] == s && |states| == |es| + 1;
    if i > 0 {
      StepOfRun(s, es, states, outs, i - 1);
      CallsMore(es, i);
      assert !es[i - 1].Close? && !Evicts(states[i - 1], es[i - 1]);
      hide IsRun, Undisturbed;
      RecoveryServed(s, es, states, outs, i - 1);
      ServingStep(s, states[i - 1], es[i - 1], Calls(es[..i - 1]));
    }
  }

  /**
   When recovery succeeds: if the secondary source is online and holds all the packets that are missing, and
   none of them is written over before it is read, every read delivers until all have been delivered.
   */
  lemma StockedRecoverySucceeds(s: Sps, es: seq<Step>, states: seq<Sps>, outs: seq<Outcome>)
    requires IsRun(s, es, states, outs) && s.lost > 0 && !s.closed && Stocked(s) && Undisturbed(es, states)
    requires Calls(es) <= s.lost
    ensures Uninterrupted(es, outs)
    ensures Calls(es) == s.lost ==> states[|es|].lost == 0
  {
    hide IsRun, Inv, Stocked, Evicts, Calls, Enabled, Next, Delivered;
    RunParts(s, es, states, outs);
    forall i | 0 <= i < |es| ensures !es[i].Close? && (es[i].Call? ==> outs[i].Packet?) {
      CallsGrow(es, i + 1, |es|);
      assert es[..|es|] == es;
      RecoveryServed(s, es, states, outs, i + 1);
    }
    assert es[..|es|] == es;
    RecoveryServed(s, es, states, outs, |es|);
  }

  /** A step taken while packets are missing, or a write or report, as the reader's counters see it. */
  lemma RecoveryStep(s: Sps, e: Step)
    requires Inv(s) && !s.closed && Enabled(s, e) && !e.Close?
    requires e.Call? ==> s.lost > 0 && Next(s, e).1.Packet?
    ensures var s' := Next(s, e).0;
            && s'.lastSeq == s.lastSeq && !s'.closed
            && s'.lost == s.lost - (if e.Call? then 1 else 0)
            && s'.nextSeq == (if e.Call? then Succ(s.nextSeq) else s.nextSeq)
  {
    if e.Call? { CounterAgrees(s); }
    hide BufOk, AfterWrite;
  }

  /** n packets after recovery began in s. */
  predicate Recovered(s: Sps, s': Sps, n: int)
  {
    && s'.lost == s.lost - n && s'.lastSeq == s.lastSeq && !s'.closed
    && s'.nextSeq == (s.nextSeq + n) % SEQ_MOD
  }

  /** One more step of a recovery. */
  lemma RecoveredStep(s: Sps, s1: Sps, e: Step, n: nat)
    requires Inv(s1) && Enabled(s1, e) && Recovered(s, s1, n) && !e.Close?
    requires e.Call? ==> n < s.lost && Next(s1, e).1.Packet?
    ensures Recovered(s, Next(s1, e).0, if e.Call? then n + 1 else n)
  {
    RecoveryStep(s1, e);
    SuccMod(s.nextSeq + n);
    hide Inv, Next, Enabled;
  }

  /** While packets are missing, every recovered one takes the position one further and the counter one down. */
  lemma {:induction false} RecoveryCounts(s: Sps, es: seq<Step>, states: seq<Sps>, outs: seq<Outcome>, i: nat)
    requires IsRun(s, es, states, outs) && s.lost > 0 && !s.closed && Uninterrupted(es, outs)
    requires i <= |outs| && Delivered(outs[..i]) <= s.lost
    ensures Recovered(s, states[i], Delivered(outs[..i]))
    decreases i
  {
    hide Next, Enabled, Delivered;
    RunParts(s, es, states, outs);
    if i > 0 {
      StepOfRun(s, es, states, outs, i - 1);
      DeliveredMore(outs, i);
      assert !es[i - 1].Close? && (es[i - 1].Call? <==> outs[i - 1].Packet?);
      hide IsRun, Inv, Uninterrupted, Recovered;
      RecoveryCounts(s, es, states, outs, i - 1);
      RecoveredStep(s, states[i - 1], es[i - 1], Delivered(outs[..i - 1]));
    }
  }

  lemma RunParts(s: Sps, es: seq<Step>, states: seq<Sps>, outs: seq<Outcome>)
    requires IsRun(s, es, states, outs)
    ensures |states| == |es| + 1 && |outs| == |es| && states[0] == s && Inv(s)
    ensures -1 <= s.nextSeq < SEQ_MOD && (s.lost > 0 ==> 0 <= s.nextSeq && 0 <= s.lastSeq < SEQ_MOD)
    ensures s.lost > 0 ==> s.lost == (s.lastSeq - s.nextSeq) % SEQ_MOD + 1
    ensures Delivered([]) == 0 && (0 <= s.nextSeq ==> s.nextSeq % SEQ_MOD == s.nextSeq) && outs[..0] == []
  {
    hide BufOk;
  }

  /**
   A loss of any length is made good: if nothing interrupts the recovery, its k-th packet is number
   next + k, and once as many packets as were missing have been delivered, the last of them is the one whose
   arrival revealed the loss, nothing is missing any more, and reading goes on right behind it.
   */
  lemma RecoveryDelivers(s: Sps, es: seq<Step>, states: seq<Sps>, outs: seq<Outcome>, i: nat)
    requires IsRun(s, es, states, outs) && s.lost > 0 && !s.closed && Uninterrupted(es, outs)
    requires i < |outs| && outs[i].Packet? && Delivered(outs[..i]) < s.lost
    ensures SeqOf(outs[i].bytes) == (s.nextSeq + Delivered(outs[..i])) % SEQ_MOD
    ensures Delivered(outs[..i]) == s.lost - 1 ==>
              && SeqOf(outs[i].bytes) == s.lastSeq
              && states[i + 1].lost == 0 && states[i + 1].nextSeq == Succ(s.lastSeq)
  {
    hide IsRun, Inv, Next, Enabled, Uninterrupted, SeqOf, Delivered;
    RunParts(s, es, states, outs);
    RecoveryCounts(s, es, states, outs, i);
    StepOfRun(s, es, states, outs, i);
    DeliveredMore(outs, i + 1);
    RecoveryCounts(s, es, states, outs, i + 1);
    LastOne(s.nextSeq, s.lastSeq, s.lost);
    Known(s.nextSeq + Delivered(outs[..i]));
  }

  lemma Known(n: int)
    ensures n % SEQ_MOD != -1
  {
  }

  lemma LastOne(next: int, last: int, lost: int)
    requires 0 <= next < SEQ_MOD && 0 <= last < SEQ_MOD && lost == (last - next) % SEQ_MOD + 1
    ensures (next + lost - 1) % SEQ_MOD == last && (next + lost) % SEQ_MOD == Succ(last)
  {
  }
}
