/** The dual-source reader over its two buffers in memory. */
module SpsDevice {
  import opened Wrappers
  import opened RtpPacket
  import opened CircularBuffer
  import opened SpsSource

  class EventQueue {
    var events: seq<int>

    constructor ()
      ensures events == []
    {
      events := [];
    }

    method Push(e: int)
      modifies this
      ensures events == old(events) + [e]
    {
      events := events + [e];
    }

    /** The caller waits until there is an event. */
    method Pop() returns (e: int)
      requires events != []
      modifies this
      ensures e == old(events)[0] && events == old(events)[1..]
    {
      e, events := events[0], events[1..];
    }
  }

  class SpsDataSource {
    const buf0: RcvBuffer
    const buf1: RcvBuffer
    const q: EventQueue
    const lastRcvEvent: array<real>
    const isOnline: array<bool>
    const threshold: real
    /** Which source `_master` points to; `_secondary` points to the other one. */
    var master: int
    var nextSeq: int
    var lastSeq: int
    var lost: int
    var closed: bool

    ghost const Repr: set<object>

    ghost predicate Apart()
      reads this
    {
      && Repr == {this, buf0, buf1, buf0.slots, buf0.seqArray, buf1.slots, buf1.seqArray, q, lastRcvEvent, isOnline}
      && buf0 != buf1 && buf0.slots != buf1.slots && buf0.seqArray != buf1.seqArray
      && lastRcvEvent.Length == 2 && isOnline.Length == 2
    }

    ghost function Value(): Sps
      requires Apart()
      reads this, Repr
    {
      Sps(Source(buf0.Value(), lastRcvEvent[0], isOnline[0]), Source(buf1.Value(), lastRcvEvent[1], isOnline[1]),
          master, nextSeq, lastSeq, lost, q.events, closed, threshold)
    }

    ghost predicate Valid()
      reads this, Repr
    {
      Apart() && Inv(Value())
    }

    /** init: both sources count as online, the first one is the master. */
    constructor (nbElmt: nat, threshold: real, start: real, left: Slot)
      requires nbElmt > 0
      ensures Valid() && fresh(Repr)
      ensures Initial(Value(), start)
    {
      var b0 := new RcvBuffer(nbElmt, true, left);
      var b1 := new RcvBuffer(nbElmt, false, left);
      var events := new EventQueue();
      var times := new real[2](_ => start);
      var online := new bool[2](_ => true);
      buf0, buf1, q, lastRcvEvent, isOnline, this.threshold := b0, b1, events, times, online, threshold;
      master, nextSeq, lastSeq, lost, closed := 0, -1, 0, 0, false;
      Repr := {this, b0, b1, b0.slots, b0.seqArray, b1.slots, b1.seqArray, events, times, online};
      hide BufOk, Received, SeqOf, Inv, NothingReceived;
      new;
      InitialInv(Value(), start);
    }

    function BufOf(i: int): RcvBuffer
      reads this
    {
      if i == 0 then buf0 else buf1
    }

    method SwitchSources()
      requires Apart() && 0 <= master <= 1
      modifies this`master, buf0`isMaster, buf1`isMaster
      ensures Apart() && Value() == Switch(old(Value()))
    {
      master := 1 - master;
      BufOf(master).isMaster := true;
      BufOf(1 - master).isMaster := false;
    }

    /** Marks silent sources offline; a silent master gives up its role. */
    method DetectOffline(now: real) returns (switched: bool)
      requires Apart() && 0 <= master <= 1
      modifies this`master, buf0`isMaster, buf1`isMaster, isOnline
      ensures Apart() && 0 <= master <= 1
      ensures Value() == Check(Check(old(Value()), 0, now), 1, now) && switched == Switches(old(Value()), now)
    {
      switched := CheckSource(0, now);
      var again := CheckSource(1, now);
      switched := switched || again;
    }

    method CheckSource(i: int, now: real) returns (switched: bool)
      requires Apart() && 0 <= master <= 1 && 0 <= i <= 1
      modifies this`master, buf0`isMaster, buf1`isMaster, isOnline
      ensures Apart() && 0 <= master <= 1
      ensures Value() == Check(old(Value()), i, now)
      ensures switched == (Silent(old(Value()), i, now) && old(master) == i)
    {
      switched := false;
      if isOnline[i] && now - lastRcvEvent[i] > threshold {
        isOnline[i] := false;
        if i == master {
          SwitchSources();
          switched := true;
        }
      }
    }

    /** Looks for the next missing packet in the secondary source. */
    method RecoverOne() returns (o: Outcome)
      requires Valid() && lost > 0
      modifies this`lost, this`nextSeq, buf0`rdIdx, buf1`rdIdx
      ensures Valid() && (Value(), o) == Recover(old(Value()))
    {
      hide BufOk, Inv, Search;
      RecoverOk(Value());
      SoundParts();
      var sec := BufOf(1 - master);
      if !isOnline[1 - master] {
        return Failed;
      }
      var found := sec.SearchFor(nextSeq);
      if found == None {
        lost, nextSeq := 0, -1;
        return Failed;
      }
      lost := lost - 1;
      if nextSeq == lastSeq {
        lost := 0;
      }
      nextSeq := (nextSeq + 1) % 65536;
      return Packet(found.value);
    }

    /**
     The packet wanted next has arrived at the master: it is read, or looked for if it is not in the next
     slot. Before the search the mutex is free, and `between` is what the master receives then.
     */
    method ReadMasterPacket(between: seq<Datagram>) returns (o: Outcome)
      requires Valid() && lost == 0 && nextSeq != -1
      modifies this`nextSeq, buf0`rdIdx, buf1`rdIdx, buf0`wrIdx, buf1`wrIdx, buf0`log, buf1`log
      modifies buf0.seqArray, buf1.seqArray, buf0.slots, buf1.slots
      ensures Valid() && (Value(), o) == ReadMaster(old(Value()), between)
    {
      hide BufOk, Inv, AfterRead;
      ReadMasterOk(Value(), between);
      SoundParts();
      var packet := BufOf(master).Read(nextSeq, between);
      if packet == None {
        return Failed;
      }
      nextSeq := (nextSeq + 1) % 65536;
      return Packet(packet.value);
    }

    lemma SoundParts()
      requires Valid()
      ensures 0 <= master <= 1 && BufOk(buf0.Value()) && BufOk(buf1.Value()) && buf0.Valid() && buf1.Valid()
    {
      hide BufOk;
    }

    /** The master received a packet with this number: it is the one expected, or some are missing. */
    method MasterEvent(seqNo: int, between: seq<Datagram>) returns (o: Outcome)
      requires Valid() && lost == 0 && 0 <= seqNo < SEQ_MOD
      modifies this`lost, this`lastSeq, this`nextSeq, buf0`rdIdx, buf1`rdIdx, buf0`wrIdx, buf1`wrIdx, buf0`log, buf1`log
      modifies buf0.seqArray, buf1.seqArray, buf0.slots, buf1.slots
      ensures Valid() && (Value(), o) == OnMaster(old(Value()), seqNo, between)
    {
      OnMasterOk(Value(), seqNo, between);
      hide BufOk, ReadMaster;
      if nextSeq == -1 {
        nextSeq, lost := seqNo, 0;
      }
      lastSeq := seqNo;
      if nextSeq != lastSeq {
        lost := if lastSeq - nextSeq > 0 then lastSeq - nextSeq else 65536 - nextSeq + lastSeq;
        lost := lost + 1;
        return PacketLost;
      }
      o := ReadMasterPacket(between);
    }

    /** A source that produces an event is online. */
    method TouchSource(source: int, time: real)
      requires Apart() && 0 <= source <= 1
      modifies lastRcvEvent, isOnline
      ensures Apart() && Value() == Touch(old(Value()), source, time)
    {
      lastRcvEvent[source], isOnline[source] := time, true;
    }

    /** An event tells that a source received a packet; the clock is read twice. */
    method HandleEvent(event: int, time: real, now: real, between: seq<Datagram>) returns (o: Outcome)
      requires Valid() && lost == 0
      modifies this`lost, this`lastSeq, this`nextSeq, this`master, buf0`rdIdx, buf1`rdIdx, buf0`wrIdx, buf1`wrIdx
      modifies buf0`log, buf1`log, buf0`isMaster, buf1`isMaster
      modifies buf0.seqArray, buf1.seqArray, buf0.slots, buf1.slots, lastRcvEvent, isOnline
      ensures Valid() && (Value(), o) == OnEvent(old(Value()), event, time, now, between)
    {
      OnEventOk(Value(), event, time, now, between);
      assert 0 <= master <= 1;
      var source := event / 65536;
      if event == -1 || source < 0 || source > 1 {
        return Failed;
      }
      ghost var t := Touch(Value(), source, time);
      CheckOk(t, 0, now);
      CheckOk(Check(t, 0, now), 1, now);
      hide BufOk, OnMaster, Check, Switches, Inv;
      TouchSource(source, time);
      hide Touch, Switch, Succ;
      var switched := DetectOffline(now);
      if switched {
        nextSeq := -1;
        return Failed;
      }
      if source != master {
        return NotPrimary;
      }
      o := MasterEvent(event % 65536, between);
    }

    /** One read. Where the source waits for an event, there must be one. */
    method Read(time: real, now: real, between: seq<Datagram>) returns (o: Outcome)
      requires Valid() && (Pops(Value(), false) ==> q.events != [])
      modifies Repr
      ensures Valid() && (Value(), o) == ReadOnce(old(Value()), time, now, between, false)
    {
      ReadOk(Value(), time, now, between, false);
      assert lost >= 0;
      assert !closed && lost <= 0 ==> Inv(Value().(q := q.events[1..]));
      hide Inv, Recover, OnEvent;
      if closed {
        return Closed;
      }
      if lost > 0 {
        o := RecoverOne();
        return;
      }
      var event := q.Pop();
      if closed {
        return Failed;
      }
      o := HandleEvent(event, time, now, between);
    }

    /** close */
    method Close()
      requires Valid()
      modifies this`closed, q
      ensures Valid() && Value() == old(Value()).(closed := true, q := old(q.events) + [-1])
    {
      hide BufOk;
      closed := true;
      q.Push(-1);
    }
  }
}
