/**
 CCircularRcvBuffer: received RTP packets in a ring of slots, with an index that says which sequence number
 each slot holds. The receiving thread and the reader take turns under a mutex, so each operation is atomic;
 `read` is two of them, because it gives up the mutex before it searches.
 */
module CircularBuffer {
  import opened Wrappers
  import opened RtpPacket

  const RTP_PACKET_SIZE: nat := 1400

  type Slot = s: seq<Octet> | |s| == RTP_PACKET_SIZE witness seq(RTP_PACKET_SIZE, _ => 0)

  /** What the socket delivers: a datagram, cut to the size of a slot, or nothing. */
  type Datagram = d: seq<Octet> | |d| <= RTP_PACKET_SIZE

  /** `log` is not part of the program: the datagrams received so far. */
  datatype Buf = Buf(slots: seq<Slot>, seqs: seq<int>, wr: int, rd: int, master: bool, log: seq<Datagram>)

  /** (i + 1) % n */
  function Inc(i: int, n: nat): int { if i + 1 >= n then 0 else i + 1 }

  lemma IncIsMod(i: int, n: nat)
    requires -1 <= i < n && n > 0
    ensures (i + 1) % n == Inc(i, n)
  {
  }

  /** The slot holds a received datagram, possibly followed by the rest of an older one. */
  predicate Received(log: seq<Datagram>, s: Slot)
  {
    exists k :: 0 <= k < |log| && log[k] != [] && Begins(s, log[k])
  }

  predicate Begins(s: Slot, d: Datagram) { s[..|d|] == d }

  /** The index agrees with the slot: empty, or the number in the header of the packet stored there. */
  predicate SlotOk(b: Buf, i: nat)
    requires i < |b.slots| == |b.seqs|
  {
    b.seqs[i] == -1 || (b.seqs[i] == SeqOf(b.slots[i]) && Received(b.log, b.slots[i]))
  }

  predicate BufOk(b: Buf)
  {
    && 0 < |b.slots| == |b.seqs| && -1 <= b.wr < |b.slots| && -1 <= b.rd < |b.slots|
    && forall i :: 0 <= i < |b.slots| ==> SlotOk(b, i)
  }

  /** A buffer as it is opened. */
  predicate NothingReceived(b: Buf)
  {
    b.wr == b.rd == -1 && b.log == [] && forall i :: 0 <= i < |b.seqs| ==> b.seqs[i] == -1
  }

  /** The slot the next packet goes to, and where reading goes on if it catches up with it. */
  function NextWrite(b: Buf): (int, int)
  {
    var wr := Inc(b.wr, |b.slots|);
    (wr, if wr > 0 && b.rd < 0 then 0 else b.rd)
  }

  /** write: the new buffer and the sequence number received, or -1. */
  function AfterWrite(b: Buf, d: Datagram): (r: (Buf, int))
    requires BufOk(b)
    ensures |r.0.slots| == |b.slots| && r.0.master == b.master
  {
    var n := |b.slots|;
    var (wr, rd) := NextWrite(b);
    if wr == rd && b.master then (b.(rd := rd), -1)
    else
      var b1 := b.(wr := wr, rd := if wr == rd then Inc(wr, n) else rd, seqs := b.seqs[wr := -1]);
      if d == [] then (b1, -1)
      else
        var slot := d + b.slots[wr][|d|..];
        (b1.(slots := b1.slots[wr := slot], seqs := b1.seqs[wr := SeqOf(slot)], log := b1.log + [d]), SeqOf(slot))
  }

  /** The first part of read: is the wanted packet in the next slot? It is taken out if so. */
  function AfterHead(b: Buf, wanted: int): (r: (Buf, Option<Slot>))
    requires BufOk(b)
  {
    var rd := Inc(b.rd, |b.slots|);
    if b.seqs[rd] == wanted then (b.(rd := rd, seqs := b.seqs[rd := -1]), Some(b.slots[rd]))
    else (b.(rd := rd), None)
  }

  /** The first slot from i on that holds the wanted number, or the number of slots. */
  function Find(seqs: seq<int>, wanted: int, i: nat): (k: nat)
    requires i <= |seqs|
    ensures i <= k <= |seqs| && (k < |seqs| ==> seqs[k] == wanted)
    ensures forall j :: i <= j < k ==> seqs[j] != wanted
    decreases |seqs| - i
  {
    if i == |seqs| || seqs[i] == wanted then i else Find(seqs, wanted, i + 1)
  }

  /** searchFor: looks through all slots. A packet found stays where it is. */
  function Search(b: Buf, wanted: int): (r: (Buf, Option<Slot>))
    requires BufOk(b)
    ensures r.1 == None ==> r.0 == b
  {
    var k := Find(b.seqs, wanted, 0);
    if k < |b.slots| then (b.(rd := k), Some(b.slots[k])) else (b, None)
  }

  // ---- The slot index always agrees with the packets ----

  lemma ReceivedMore(log: seq<Datagram>, s: Slot, d: Datagram)
    requires Received(log, s)
    ensures Received(log + [d], s)
  {
    var k :| 0 <= k < |log| && log[k] != [] && Begins(s, log[k]);
    assert (log + [d])[k] == log[k];
  }

  lemma WriteKeepsIndex(b: Buf, d: Datagram)
    requires BufOk(b)
    ensures BufOk(AfterWrite(b, d).0)
  {
    var b' := AfterWrite(b, d).0;
    hide Received, SeqOf;
    forall i | 0 <= i < |b'.slots| ensures SlotOk(b', i) {
      assert SlotOk(b, i);
      if b'.log != b.log {
        var wr := NextWrite(b).0;
        if i == wr {
          var slot := d + b.slots[wr][|d|..];
          ReceivedNow(b.log, slot, d);
        } else if b.seqs[i] != -1 {
          ReceivedMore(b.log, b.slots[i], d);
        }
      }
    }
  }

  lemma ReceivedNow(log: seq<Datagram>, s: Slot, d: Datagram)
    requires d != [] && Begins(s, d)
    ensures Received(log + [d], s)
  {
    assert (log + [d])[|log|] == d;
  }

  lemma ReadKeepsIndex(b: Buf, wanted: int)
    requires BufOk(b)
    ensures BufOk(AfterHead(b, wanted).0) && BufOk(Search(b, wanted).0)
  {
    hide SlotOk;
    var h, s := AfterHead(b, wanted).0, Search(b, wanted).0;
    forall i | 0 <= i < |b.slots| ensures SlotOk(h, i) && SlotOk(s, i) {
      SlotStays(b, h, i);
      SlotStays(b, s, i);
    }
  }

  lemma SlotStays(b: Buf, b': Buf, i: nat)
    requires BufOk(b) && |b'.slots| == |b'.seqs| && i < |b'.slots|
    requires b'.slots == b.slots && b'.log == b.log && (b'.seqs[i] == b.seqs[i] || b'.seqs[i] == -1)
    ensures SlotOk(b', i)
  {
    assert SlotOk(b, i);
    hide Received, SeqOf;
  }

  /** What reading or searching delivers is a received packet with the number that was wanted. */
  lemma DeliversWanted(b: Buf, wanted: int)
    requires BufOk(b) && wanted != -1
    ensures var r := AfterHead(b, wanted).1; r.Some? ==> SeqOf(r.value) == wanted && Received(b.log, r.value)
    ensures var r := Search(b, wanted).1; r.Some? ==> SeqOf(r.value) == wanted && Received(b.log, r.value)
  {
    assert SlotOk(b, Inc(b.rd, |b.slots|));
    if Find(b.seqs, wanted, 0) < |b.slots| { assert SlotOk(b, Find(b.seqs, wanted, 0)); }
    hide Received, SeqOf;
  }

  /** The search misses nothing: it fails exactly when no slot holds the number. */
  lemma SearchIsComplete(b: Buf, wanted: int)
    requires BufOk(b)
    ensures Search(b, wanted).1.None? <==> wanted !in b.seqs
  {
  }

  /** A master that is full waits: nothing in it changes but where reading starts. The other one makes room. */
  lemma FullMasterWaits(b: Buf, d: Datagram)
    requires BufOk(b) && NextWrite(b).0 == NextWrite(b).1
    ensures b.master ==>
              var r := AfterWrite(b, d);
              r.1 == -1 && r.0.slots == b.slots && r.0.seqs == b.seqs && r.0.wr == b.wr
    ensures !b.master && d != [] ==>
              var (b', q) := AfterWrite(b, d);
              q >= 0 && b'.seqs[b'.wr] == q && b'.rd == Inc(b'.wr, |b.slots|) && b'.slots[b'.wr][..|d|] == d
  {
  }

  /** No other slot than this one has changed. */
  predicate OnlySlot(b: Buf, b': Buf, at: nat)
  {
    && |b'.slots| == |b.slots| && |b'.seqs| == |b.seqs|
    && (forall i :: 0 <= i < |b.slots| && i != at ==> b'.slots[i] == b.slots[i])
    && (forall i :: 0 <= i < |b.seqs| && i != at ==> b'.seqs[i] == b.seqs[i])
  }

  /**
   What write does: the packet goes to the slot behind the last one written, all of it, in front of what was
   left there, and its number to the index; no other slot changes. Reading starts with the first slot once
   the second is written, and is pushed on by a write that catches up with it. A master that is full, and a
   receive that delivers nothing, store nothing.
   */
  lemma WriteStores(b: Buf, d: Datagram)
    requires BufOk(b)
    ensures var n, (b', q) := |b.slots|, AfterWrite(b, d);
            var at := (b.wr + 1) % n;
            var rd := if at >= 1 && b.rd == -1 then 0 else b.rd;
            if b.master && at == rd then q == -1 && b' == b.(rd := rd)
            else
              && OnlySlot(b, b', at) && b'.master == b.master
              && b'.wr == at && b'.rd == (if at == rd then (at + 1) % n else rd)
              && (d == [] ==> q == -1 && b'.seqs[at] == -1 && b'.slots == b.slots && b'.log == b.log)
              && (d != [] ==>
                    && b'.slots[at][..|d|] == d && b'.slots[at][|d|..] == b.slots[at][|d|..]
                    && q == b'.seqs[at] == SeqOf(b'.slots[at])
                    && b'.log == b.log + [d])
  {
    IncIsMod(b.wr, |b.slots|);
    IncIsMod((b.wr + 1) % |b.slots|, |b.slots|);
    hide SeqOf, Received;
  }

  /** A packet that was stored can be found at once. */
  lemma StoredIsFound(b: Buf, d: Datagram)
    requires BufOk(b) && AfterWrite(b, d).1 != -1
    ensures var (b', q) := AfterWrite(b, d); BufOk(b') && Search(b', q).1.Some?
  {
    WriteKeepsIndex(b, d);
    WriteStores(b, d);
    var (b', q) := AfterWrite(b, d);
    assert b'.seqs[b'.wr] == q;
    hide AfterWrite, BufOk;
    SearchIsComplete(b', q);
  }

  /**
   What the first part of read does: it moves to the next slot, and takes the packet out exactly if its number
   is the one wanted.
   */
  lemma HeadTakes(b: Buf, wanted: int)
    requires BufOk(b)
    ensures var at, (b', hit) := (b.rd + 1) % |b.slots|, AfterHead(b, wanted);
            && b'.rd == at && b'.slots == b.slots && b'.wr == b.wr && b'.log == b.log && b'.master == b.master
            && (if b.seqs[at] == wanted then hit == Some(b.slots[at]) && b'.seqs == b.seqs[at := -1]
                else hit == None && b'.seqs == b.seqs)
  {
    IncIsMod(b.rd, |b.slots|);
  }

  /** A search stops at the first slot with the number, takes nothing out, and moves nothing if there is none. */
  lemma SearchStopsAt(b: Buf, wanted: int)
    requires BufOk(b)
    ensures var (b', hit) := Search(b, wanted);
            && b' == b.(rd := b'.rd)
            && (if wanted in b.seqs then
                  && 0 <= b'.rd < |b.slots| && b.seqs[b'.rd] == wanted && hit == Some(b.slots[b'.rd])
                  && forall i :: 0 <= i < b'.rd ==> b.seqs[i] != wanted
                else b' == b && hit == None)
  {
  }

  // ---- Reading while packets arrive ----

  /** The datagrams that arrive at a source, one write each. */
  function Writes(b: Buf, ds: seq<Datagram>): (b': Buf)
    requires BufOk(b)
    ensures BufOk(b')
    decreases |ds|
  {
    if ds == [] then b else WriteKeepsIndex(b, ds[0]); Writes(AfterWrite(b, ds[0]).0, ds[1..])
  }

  lemma WritesOne(b: Buf, ds: seq<Datagram>, i: nat)
    requires BufOk(b) && i < |ds|
    ensures BufOk(AfterWrite(b, ds[i]).0)
    ensures Writes(b, ds[i..]) == Writes(AfterWrite(b, ds[i]).0, ds[i + 1..])
  {
    WriteKeepsIndex(b, ds[i]);
    assert ds[i..][0] == ds[i] && ds[i..][1..] == ds[i + 1..];
    hide AfterWrite, BufOk;
  }

  lemma {:induction false} WritesKeep(b: Buf, ds: seq<Datagram>)
    requires BufOk(b)
    ensures Writes(b, ds).master == b.master && |Writes(b, ds).slots| == |b.slots|
    decreases |ds|
  {
    if ds != [] {
      WriteKeepsIndex(b, ds[0]);
      WritesKeep(AfterWrite(b, ds[0]).0, ds[1..]);
    }
  }

  /** read: the next slot, and if that is not the packet, all slots, with `between` arriving in the meantime. */
  function AfterRead(b: Buf, wanted: int, between: seq<Datagram>): (r: (Buf, Option<Slot>))
    requires BufOk(b)
  {
    var (h, hit) := AfterHead(b, wanted);
    ReadKeepsIndex(b, wanted);
    if hit.Some? && wanted != -1 then (h, hit) else Search(Writes(h, between), wanted)
  }

  lemma AfterReadOk(b: Buf, wanted: int, between: seq<Datagram>)
    requires BufOk(b) && wanted != -1
    ensures var r := AfterRead(b, wanted, between);
            && BufOk(r.0) && r.0.master == b.master
            && (r.1.Some? ==>
                  && SeqOf(r.1.value) == wanted
                  && (Received(b.log, r.1.value) || Received(r.0.log, r.1.value)))
  {
    hide BufOk, Received, SeqOf, Writes;
    ReadKeepsIndex(b, wanted);
    DeliversWanted(b, wanted);
    var h := AfterHead(b, wanted).0;
    WritesKeep(h, between);
    ReadKeepsIndex(Writes(h, between), wanted);
    DeliversWanted(Writes(h, between), wanted);
  }

  /**
   A read finds the packet exactly if its number is in the next slot, or else in any slot once the packets of
   `between` have been written.
   */
  lemma ReadFinds(b: Buf, wanted: int, between: seq<Datagram>)
    requires BufOk(b)
    ensures var at := (b.rd + 1) % |b.slots|;
            && BufOk(b.(rd := at))
            && (wanted != -1 ==>
                  && (b.seqs[at] == wanted ==>
                        AfterRead(b, wanted, between) == (b.(rd := at, seqs := b.seqs[at := -1]), Some(b.slots[at])))
                  && (b.seqs[at] != wanted ==>
                        && AfterRead(b, wanted, between) == Search(Writes(b.(rd := at), between), wanted)
                        && (AfterRead(b, wanted, between).1.Some?
                            <==> wanted in Writes(b.(rd := at), between).seqs)))
  {
    HeadTakes(b, wanted);
    ReadKeepsIndex(b, wanted);
    var moved := b.(rd := (b.rd + 1) % |b.slots|);
    assert BufOk(moved) by { ReadMoves(b); }
    hide AfterHead, Search, Writes, BufOk;
    SearchIsComplete(Writes(moved, between), wanted);
  }

  lemma ReadMoves(b: Buf)
    requires BufOk(b)
    ensures BufOk(b.(rd := (b.rd + 1) % |b.slots|))
  {
    var b' := b.(rd := (b.rd + 1) % |b.slots|);
    forall i | 0 <= i < |b.slots| ensures SlotOk(b', i) { SlotStays(b, b', i); }
  }

  // ---- The buffer in memory ----

  class RcvBuffer {
    const slots: array<Slot>
    const seqArray: array<int>
    var wrIdx: int
    var rdIdx: int
    var isMaster: bool
    ghost var log: seq<Datagram>

    ghost function Value(): Buf
      reads this, slots, seqArray
    {
      Buf(slots[..], seqArray[..], wrIdx, rdIdx, isMaster, log)
    }

    ghost predicate Valid()
      reads this, slots, seqArray
    {
      BufOk(Value())
    }

    /** init; `left` is what freshly allocated memory holds. */
    constructor (nbElmt: nat, master: bool, left: Slot)
      requires nbElmt > 0
      ensures Valid() && fresh(slots) && fresh(seqArray) && slots.Length == nbElmt && log == [] && isMaster == master
      ensures NothingReceived(Value())
    {
      slots := new Slot[nbElmt](_ => left);
      seqArray := new int[nbElmt](_ => -1);
      wrIdx, rdIdx, isMaster, log := -1, -1, master, [];
    }

    method Write(d: Datagram) returns (seqNo: int)
      requires Valid()
      modifies slots, seqArray, this`wrIdx, this`rdIdx, this`log
      ensures Valid()
      ensures (Value(), seqNo) == AfterWrite(old(Value()), d)
    {
      WriteKeepsIndex(Value(), d);
      IncIsMod(wrIdx, slots.Length);
      hide BufOk, SeqOf;
      var oldWr := wrIdx;
      wrIdx := (wrIdx + 1) % slots.Length;
      if wrIdx > 0 && rdIdx < 0 {
        rdIdx := 0;
      }
      if wrIdx == rdIdx {
        if isMaster {
          wrIdx := oldWr;
          return -1;
        }
        IncIsMod(wrIdx, slots.Length);
        rdIdx := (wrIdx + 1) % slots.Length;
      }
      seqArray[wrIdx] := -1;
      if d == [] {
        return -1;
      }
      var slot := d + slots[wrIdx][|d|..];
      slots[wrIdx] := slot;
      seqNo := SeqOf(slot);
      seqArray[wrIdx] := seqNo;
      log := log + [d];
    }

    /** The first part of read. */
    method ReadHead(wanted: int) returns (packet: Option<Slot>)
      requires Valid()
      modifies seqArray, this`rdIdx
      ensures Valid()
      ensures (Value(), packet) == AfterHead(old(Value()), wanted)
    {
      ReadKeepsIndex(Value(), wanted);
      IncIsMod(rdIdx, slots.Length);
      hide SlotOk;
      rdIdx := (rdIdx + 1) % slots.Length;
      if seqArray[rdIdx] == wanted {
        packet := Some(slots[rdIdx]);
        seqArray[rdIdx] := -1;
      } else {
        packet := None;
      }
    }

    method SearchFor(wanted: int) returns (packet: Option<Slot>)
      requires Valid()
      modifies this`rdIdx
      ensures Valid()
      ensures (Value(), packet) == Search(old(Value()), wanted)
    {
      ReadKeepsIndex(Value(), wanted);
      hide SlotOk;
      for i := 0 to slots.Length
        invariant rdIdx == old(rdIdx)
        invariant Find(seqArray[..], wanted, 0) == Find(seqArray[..], wanted, i)
      {
        if wanted == seqArray[i] {
          rdIdx := i;
          return Some(slots[i]);
        }
      }
      return None;
    }

    /** The loop of the receiving thread, for some datagrams. */
    method RcvThread(ds: seq<Datagram>)
      requires Valid()
      modifies slots, seqArray, this`wrIdx, this`rdIdx, this`log
      ensures Valid() && Value() == Writes(old(Value()), ds)
    {
      hide BufOk, AfterWrite;
      ghost var start := Value();
      assert ds[0..] == ds;
      for i := 0 to |ds|
        invariant Valid() && Writes(Value(), ds[i..]) == Writes(start, ds)
      {
        WritesOne(Value(), ds, i);
        var _ := Write(ds[i]);
      }
      assert ds[|ds|..] == [];
    }

    /** read; `between` is what the receiving thread writes while the mutex is free. */
    method Read(wanted: int, between: seq<Datagram>) returns (packet: Option<Slot>)
      requires Valid()
      modifies slots, seqArray, this`wrIdx, this`rdIdx, this`log
      ensures Valid()
      ensures (Value(), packet) == AfterRead(old(Value()), wanted, between)
    {
      hide BufOk, AfterHead, Search, Writes;
      packet := ReadHead(wanted);
      if packet == None || wanted == -1 {
        RcvThread(between);
        packet := SearchFor(wanted);
      }
    }
  }
}
