/**
 The stream a sender puts on the wire, and a channel that loses nothing: every frame after the one the
 receiver aligns on is delivered, whatever the first sequence number.
 */
module RtpNoLoss {
  import opened Wrappers
  import opened RtpPacket
  import Packetizer
  import opened Reassembly
  import opened RtpStream
  import opened RtpEndToEnd

  /** A place in the frames, or behind all of them. */
  predicate Place(frames: seq<seq<Octet>>, j: nat, pos: nat) { j < |frames| ==> pos < |frames[j]| }

  /** The place of the payload after the one at this place. */
  function NextPlace(sn: Sender, frames: seq<seq<Octet>>, j: nat, pos: nat): (p: (nat, nat))
    requires sn.Valid() && GoodFrames(frames) && j < |frames| && pos < |frames[j]|
    ensures Place(frames, p.0, p.1)
    ensures (p.0 == j && pos < p.1 < |frames[j]|) || p.0 == j + 1
  {
    if pos + sn.payload >= |frames[j]| then
      if j + 1 < |frames| then FramesNonEmpty(frames, j + 1); (j + 1, 0) else (j + 1, 0)
    else (j, pos + sn.payload)
  }

  function Left(frames: seq<seq<Octet>>, j: nat, pos: nat): int { if j < |frames| then |frames[j]| - pos else 0 }

  /** The packets of the frames from a place on; the first of them has number n. */
  function StreamFrom(sn: Sender, frames: seq<seq<Octet>>, j: nat, pos: nat, n: nat): (s: seq<Sent>)
    requires sn.Valid() && GoodFrames(frames) && Place(frames, j, pos)
    decreases |frames| - j, Left(frames, j, pos)
  {
    if j >= |frames| then []
    else
      var next := NextPlace(sn, frames, j, pos);
      [PacketAt(sn, frames, j, pos, n)] + StreamFrom(sn, frames, next.0, next.1, n + 1)
  }

  function PacketAt(sn: Sender, frames: seq<seq<Octet>>, j: nat, pos: nat, n: nat): (e: Sent)
    requires sn.Valid() && j < |frames| && pos < |frames[j]|
    ensures PacketOk(sn, frames, e, n)
  {
    Sent(j, pos, Packetizer.PacketFor(frames[j][pos..], sn.payload, sn.SeqNo(n), sn.payloadType, sn.ssrc))
  }

  lemma FramesNonEmpty(frames: seq<seq<Octet>>, j: nat)
    requires GoodFrames(frames) && j < |frames|
    ensures 0 < |frames[j]|
  {
    assert GoodFrame(frames[j]);
  }

  function Stream(sn: Sender, frames: seq<seq<Octet>>): seq<Sent>
    requires sn.Valid() && GoodFrames(frames)
  {
    StreamFrom(sn, frames, 0, 0, 0)
  }

  /** What is known of a stretch of the stream that starts with packet number n at frame j, position pos. */
  predicate Stretch(sn: Sender, frames: seq<seq<Octet>>, j: nat, pos: nat, n: nat, s: seq<Sent>)
    requires sn.Valid()
  {
    && (forall i :: 0 <= i < |s| ==> PacketOk(sn, frames, s[i], n + i))
    && (forall i :: 0 < i < |s| ==> Continues(sn, frames, s, i))
    && (j < |frames| <==> s != [])
    && (s != [] ==> s[0].id == j && s[0].pos == pos && Ends(sn, frames, s))
  }

  /** The stream stops at the end of the last frame. */
  predicate Ends(sn: Sender, frames: seq<seq<Octet>>, s: seq<Sent>)
    requires s != []
  {
    var e := s[|s| - 1];
    e.id == |frames| - 1 && Last(sn, frames, e)
  }

  lemma Prepend(sn: Sender, frames: seq<seq<Octet>>, e: Sent, n: nat, t: seq<Sent>, j: nat, j': nat, pos': nat)
    requires sn.Valid() && PacketOk(sn, frames, e, n) && e.id == j < |frames| && Stretch(sn, frames, j', pos', n + 1, t)
    requires if Last(sn, frames, e) then j' == j + 1 && pos' == 0 else j' == j && pos' == e.pos + sn.payload
    ensures Stretch(sn, frames, j, e.pos, n, [e] + t)
  {
    hide PacketOk, Last;
    var s := [e] + t;
    forall i | 0 <= i < |s| ensures PacketOk(sn, frames, s[i], n + i) {
      if i > 0 { assert s[i] == t[i - 1] && n + i == (n + 1) + (i - 1); }
    }
    forall i | 0 < i < |s| ensures Continues(sn, frames, s, i) {
      if i > 1 { assert s[i] == t[i - 1] && s[i - 1] == t[i - 2] && Continues(sn, frames, t, i - 1); }
      else { IdOfPacket(sn, frames, e, n); }
    }
    IdOfPacket(sn, frames, e, n);
  }

  lemma IdOfPacket(sn: Sender, frames: seq<seq<Octet>>, e: Sent, n: nat)
    requires sn.Valid() && PacketOk(sn, frames, e, n)
    ensures e.id < |frames|
  {
  }

  lemma {:induction false} StreamFromOk(sn: Sender, frames: seq<seq<Octet>>, j: nat, pos: nat, n: nat)
    requires sn.Valid() && GoodFrames(frames) && Place(frames, j, pos)
    ensures Stretch(sn, frames, j, pos, n, StreamFrom(sn, frames, j, pos, n))
    decreases |frames| - j, Left(frames, j, pos)
  {
    if j < |frames| {
      var e, next := PacketAt(sn, frames, j, pos, n), NextPlace(sn, frames, j, pos);
      var t := StreamFrom(sn, frames, next.0, next.1, n + 1);
      assert StreamFrom(sn, frames, j, pos, n) == [e] + t;
      hide StreamFrom, PacketOk, GoodFrames, Stretch;
      StreamFromOk(sn, frames, next.0, next.1, n + 1);
      Prepend(sn, frames, e, n, t, j, next.0, next.1);
    }
  }

  /** The packetizer's packets of all frames form a stream, and it is complete. */
  lemma StreamIsOk(sn: Sender, frames: seq<seq<Octet>>)
    requires sn.Valid() && GoodFrames(frames)
    ensures StreamOk(sn, frames, Stream(sn, frames))
    ensures frames != [] <==> Stream(sn, frames) != []
    ensures frames != [] ==> Ends(sn, frames, Stream(sn, frames))
  {
    if frames != [] { FramesNonEmpty(frames, 0); }
    StreamFromOk(sn, frames, 0, 0, 0);
    hide StreamFrom, PacketOk, Continues;
    var s := Stream(sn, frames);
    forall g | 0 <= g < |s| ensures PacketOk(sn, frames, s[g], g) {
      assert PacketOk(sn, frames, s[g], 0 + g);
    }
  }

  /** What one send after the other puts on the wire. */
  function SplitAll(sn: Sender, frames: seq<seq<Octet>>, seqNo: int): (ps: seq<seq<Octet>>)
    requires sn.Valid() && 0 <= seqNo < SEQ_MOD
  {
    if frames == [] then []
    else
      var first := Packetizer.Split(frames[0], sn.payload, seqNo, sn.payloadType, sn.ssrc);
      first + SplitAll(sn, frames[1..], Packetizer.SeqAfter(seqNo, |first|))
  }

  function Bytes(s: seq<Sent>): seq<seq<Octet>> { seq(|s|, i requires 0 <= i < |s| => s[i].bytes) }

  function FrameSplit(sn: Sender, left: seq<Octet>, n: nat): seq<seq<Octet>>
    requires sn.Valid()
  {
    Packetizer.Split(left, sn.payload, sn.SeqNo(n), sn.payloadType, sn.ssrc)
  }

  /** What is still to be sent from frame j, position pos on. */
  function LeftToSend(sn: Sender, frames: seq<seq<Octet>>, j: nat, pos: nat, n: nat): seq<seq<Octet>>
    requires sn.Valid() && Place(frames, j, pos)
  {
    if j >= |frames| then []
    else
      var first := FrameSplit(sn, frames[j][pos..], n);
      first + SplitAll(sn, frames[j + 1..], sn.SeqNo(n + |first|))
  }

  lemma LeftAtEnd(sn: Sender, frames: seq<seq<Octet>>, j: nat, pos: nat, n: nat)
    requires sn.Valid() && GoodFrames(frames) && j < |frames| && pos < |frames[j]| <= pos + sn.payload
    ensures j + 1 < |frames| ==> 0 < |frames[j + 1]|
    ensures LeftToSend(sn, frames, j, pos, n)
         == [PacketAt(sn, frames, j, pos, n).bytes] + LeftToSend(sn, frames, j + 1, 0, n + 1)
  {
    var left := frames[j][pos..];
    assert left[Min(|left|, sn.payload)..] == [];
    Packetizer.SplitNothing(sn.payload, sn.payloadType, sn.ssrc);
    hide Packetizer.PacketFor, Packetizer.SeqAfter, SplitAll;
    assert Packetizer.Split([], sn.payload, (sn.SeqNo(n) + 1) % SEQ_MOD, sn.payloadType, sn.ssrc) == [];
    assert FrameSplit(sn, left, n) == [PacketAt(sn, frames, j, pos, n).bytes];
    if j + 1 < |frames| {
      FramesNonEmpty(frames, j + 1);
      assert frames[j + 1][0..] == frames[j + 1];
      hide FrameSplit, GoodFrames;
      SplitAllFirst(sn, frames, j + 1, n + 1);
    } else {
      assert frames[j + 1..] == [];
      NothingLeft(sn, n + 1);
    }
  }

  lemma NothingLeft(sn: Sender, n: nat)
    requires sn.Valid()
    ensures SplitAll(sn, [], sn.SeqNo(n)) == []
  {
  }

  lemma LeftInside(sn: Sender, frames: seq<seq<Octet>>, j: nat, pos: nat, n: nat)
    requires sn.Valid() && j < |frames| && pos + sn.payload < |frames[j]|
    ensures LeftToSend(sn, frames, j, pos, n)
         == [PacketAt(sn, frames, j, pos, n).bytes] + LeftToSend(sn, frames, j, pos + sn.payload, n + 1)
  {
    var left := frames[j][pos..];
    Packetizer.SeqStep(sn.start, n);
    var rest := left[Min(|left|, sn.payload)..];
    assert rest == frames[j][pos + sn.payload..];
    hide Packetizer.PacketFor, Packetizer.SeqAfter, SplitAll;
    assert Packetizer.Split(rest, sn.payload, (sn.SeqNo(n) + 1) % SEQ_MOD, sn.payloadType, sn.ssrc)
        == FrameSplit(sn, rest, n + 1);
    assert FrameSplit(sn, left, n) == [PacketAt(sn, frames, j, pos, n).bytes] + FrameSplit(sn, rest, n + 1);
    hide FrameSplit;
    assert |FrameSplit(sn, left, n)| == 1 + |FrameSplit(sn, rest, n + 1)|;
  }

  lemma {:induction false} StreamFromBytes(sn: Sender, frames: seq<seq<Octet>>, j: nat, pos: nat, n: nat)
    requires sn.Valid() && GoodFrames(frames) && Place(frames, j, pos)
    ensures Bytes(StreamFrom(sn, frames, j, pos, n)) == LeftToSend(sn, frames, j, pos, n)
    decreases |frames| - j, Left(frames, j, pos)
  {
    if j < |frames| {
      var e, next := PacketAt(sn, frames, j, pos, n), NextPlace(sn, frames, j, pos);
      var t := StreamFrom(sn, frames, next.0, next.1, n + 1);
      assert StreamFrom(sn, frames, j, pos, n) == [e] + t;
      hide StreamFrom, LeftToSend, GoodFrames, Bytes, PacketAt;
      BytesPrepend(e, t);
      if Last(sn, frames, e) { LeftAtEnd(sn, frames, j, pos, n); } else { LeftInside(sn, frames, j, pos, n); }
      hide NextPlace;
      StreamFromBytes(sn, frames, next.0, next.1, n + 1);
    }
  }

  lemma BytesPrepend(e: Sent, t: seq<Sent>)
    ensures Bytes([e] + t) == [e.bytes] + Bytes(t)
  {
  }

  lemma SplitAllFirst(sn: Sender, frames: seq<seq<Octet>>, j: nat, n: nat)
    requires sn.Valid() && j < |frames|
    ensures var first := FrameSplit(sn, frames[j], n);
            SplitAll(sn, frames[j..], sn.SeqNo(n)) == first + SplitAll(sn, frames[j + 1..], sn.SeqNo(n + |first|))
  {
    hide Packetizer.Split;
    assert frames[j..][0] == frames[j] && frames[j..][1..] == frames[j + 1..];
    SeqAdd(sn.start, n, |FrameSplit(sn, frames[j], n)|);
  }

  lemma SeqAdd(s: int, n: nat, m: nat)
    ensures Packetizer.SeqAfter(Packetizer.SeqAfter(s, n), m) == Packetizer.SeqAfter(s, n + m)
  {
  }

  /** The stream is, byte for byte, what sending the frames one after the other puts on the wire. */
  lemma StreamIsWhatIsSent(sn: Sender, frames: seq<seq<Octet>>)
    requires sn.Valid() && GoodFrames(frames)
    ensures Bytes(Stream(sn, frames)) == SplitAll(sn, frames, sn.start)
  {
    Packetizer.SeqStart(sn.start);
    hide Packetizer.SeqAfter, Packetizer.Split, Packetizer.PacketFor, SplitAll, Bytes, StreamFrom, GoodFrames;
    if frames != [] {
      FramesNonEmpty(frames, 0);
      assert frames[0][0..] == frames[0] && frames[0..] == frames;
      SplitAllFirst(sn, frames, 0, 0);
    } else {
      NothingLeft(sn, 0);
    }
    StreamFromBytes(sn, frames, 0, 0, 0);
  }

  function Everything(n: nat): (idx: seq<nat>)
    ensures |idx| == n && forall i :: 0 <= i < n ==> idx[i] == i
  {
    seq(n, i requires 0 <= i < n => i)
  }

  /** What can be sent: complete frames, whatever their bytes. */
  predicate Lossless(sn: Sender, frames: seq<seq<Octet>>)
  {
    sn.Valid() && GoodFrames(frames)
  }

  function Arrivals(sn: Sender, frames: seq<seq<Octet>>): seq<nat>
    requires Lossless(sn, frames)
  {
    Everything(|Stream(sn, frames)|)
  }

  /** A channel that loses nothing meets the hypotheses of the end-to-end theorem. */
  lemma LosslessIsChannel(sn: Sender, frames: seq<seq<Octet>>)
    requires Lossless(sn, frames)
    ensures Channel(sn, frames, Stream(sn, frames), Arrivals(sn, frames))
    ensures frames != [] <==> Stream(sn, frames) != []
    ensures frames != [] ==> Ends(sn, frames, Stream(sn, frames))
  {
    StreamIsOk(sn, frames);
    hide Stream, Ends, GoodFrames;
    var s, idx := Stream(sn, frames), Arrivals(sn, frames);
    StreamIds(sn, frames, s);
    hide StreamOk, IdsOk;
    forall i | 0 < i < |idx| ensures Later(idx, i) {}
    forall i | 0 < i < |idx| ensures NextOrGap(sn, idx, i) {}
  }

  /** What is still to be read after k packets have arrived. */
  function Wire(sn: Sender, frames: seq<seq<Octet>>, k: nat): seq<Datagram>
    requires Lossless(sn, frames)
  {
    LosslessIsChannel(sn, frames);
    var s, idx := Stream(sn, frames), Arrivals(sn, frames);
    if k <= |idx| then Inbox(s, idx, k) else []
  }

  lemma {:induction false} AllIntact(sn: Sender, frames: seq<seq<Octet>>, k: nat)
    requires Lossless(sn, frames) && k < |Stream(sn, frames)|
    ensures Channel(sn, frames, Stream(sn, frames), Arrivals(sn, frames))
    ensures Intact(sn, frames, Stream(sn, frames), Arrivals(sn, frames), k)
    decreases |Stream(sn, frames)| - k
  {
    LosslessIsChannel(sn, frames);
    var s, idx := Stream(sn, frames), Arrivals(sn, frames);
    assert Delivery(s, idx) && IdsOk(frames, s) && Ends(sn, frames, s);
    hide Stream, Channel, Last, Delivery, IdsOk, Lossless;
    if !Last(sn, frames, s[idx[k]]) {
      assert k + 1 < |s|;
      AllIntact(sn, frames, k + 1);
    }
  }

  /** Where a frame starts, or the end of the stream behind the last one. */
  predicate StartOf(sn: Sender, frames: seq<seq<Octet>>, j: nat, k: nat)
    requires Lossless(sn, frames)
  {
    var s := Stream(sn, frames);
    if j < |frames| then k < |s| && s[k].id == j && s[k].pos == 0 else k == |s|
  }

  lemma BoundaryIsStart(sn: Sender, frames: seq<seq<Octet>>, k: nat)
    requires Lossless(sn, frames)
    requires AtBoundary(sn, frames, Stream(sn, frames), Arrivals(sn, frames), k)
    ensures var s, idx := Stream(sn, frames), Arrivals(sn, frames); StartOf(sn, frames, FrameBehind(s, idx, k) + 1, k)
  {
    LosslessIsChannel(sn, frames);
    var s, idx := Stream(sn, frames), Arrivals(sn, frames);
    if k < |s| {
      SuccessorFollows(sn, frames, s, k);
      assert s[k].id < |frames|;
    }
    hide Stream, Channel;
  }

  /** What one read that starts where frame j starts has to deliver. */
  predicate Delivers(sn: Sender, frames: seq<seq<Octet>>, j: nat, pin: Pin, r: ReadResult, k': nat)
    requires Lossless(sn, frames) && j < |frames|
  {
    && r.status == Ok && Whole(r.obj, frames[j]) && r.pin == pin
    && StartOf(sn, frames, j + 1, k') && r.rest == Wire(sn, frames, k')
  }

  lemma DeliversParts(sn: Sender, frames: seq<seq<Octet>>, j: nat, pin: Pin, r: ReadResult, k': nat)
    requires Lossless(sn, frames) && j < |frames| && Delivers(sn, frames, j, pin, r, k')
    ensures r.status == Ok && Whole(r.obj, frames[j]) && r.pin == pin
    ensures StartOf(sn, frames, j + 1, k') && r.rest == Wire(sn, frames, k')
  {
    hide StartOf, Wire, Whole;
  }

  /** A read that stands at the start of a frame returns that frame. */
  lemma ReadAtStart(sn: Sender, frames: seq<seq<Octet>>, j: nat, k: nat, pin: Pin, e: ReadIn) returns (k': nat)
    requires Lossless(sn, frames) && j < |frames| && StartOf(sn, frames, j, k)
    requires pin.valid && !pin.waiting && Room(sn, e.obj) && KeepsAll(sn, frames, e.obj) && |e.stamped| == HEADER
    ensures ReadFits(pin, e.obj, Wire(sn, frames, k), e.garbage, e.opens)
    ensures Delivers(sn, frames, j, pin, ReadFrame(pin, e.obj, Wire(sn, frames, k), e.stamped, e.garbage, e.opens), k')
  {
    LosslessIsChannel(sn, frames);
    AllIntact(sn, frames, k);
    var s, idx := Stream(sn, frames), Arrivals(sn, frames);
    assert Delivery(s, idx) && IdsOk(frames, s);
    hide Lossless, Stream, Channel, Inbox, Fits, Intact, SkipToMarker, Whole, Room, KeepsAll, CreateFrame, AtBoundary;
    k' := CreateFromBoundary(sn, frames, s, idx, k, e.obj, e.stamped, e.garbage);
    BoundaryIsStart(sn, frames, k');
  }

  lemma WaitThenRead(pin: Pin, o: FrameObj, inbox: seq<Datagram>, stamped: seq<Octet>, g: seq<Octet>, opens: bool)
    requires ObjOk(o) && ReadFits(pin, o, inbox, g, opens) && |stamped| == HEADER
    requires pin.valid || opens
    requires pin.waiting && pin.started && SkipToMarker(inbox, true, Leftover(g, 1)).0 == Ok
    ensures var ready, rest := pin.(valid := true, waiting := false), SkipToMarker(inbox, true, Leftover(g, 1)).1;
            && ReadFits(ready, o, rest, g, opens)
            && ReadFrame(pin, o, inbox, stamped, g, opens) == ReadFrame(ready, o, rest, stamped, g, opens)
  {
    hide CreateFrame, SkipToMarker, Fits, Leftover;
  }

  /** Nobody stops the pin during the run. */
  predicate Running(ins: seq<ReadIn>) { forall i :: 0 <= i < |ins| ==> ins[i].started && !ins[i].closed }

  /** The reads deliver consecutive frames, the first of them frame j. */
  predicate DeliversFrom(frames: seq<seq<Octet>>, j: nat, rs: seq<ReadResult>)
    requires j + |rs| <= |frames|
  {
    forall i :: 0 <= i < |rs| ==> rs[i].status == Ok && Whole(rs[i].obj, frames[j + i])
  }

  lemma DeliversMore(frames: seq<seq<Octet>>, j: nat, rs: seq<ReadResult>)
    requires rs != [] && j + |rs| <= |frames|
    requires rs[0].status == Ok && Whole(rs[0].obj, frames[j]) && DeliversFrom(frames, j + 1, rs[1..])
    ensures DeliversFrom(frames, j, rs)
  {
    hide Whole;
    forall i | 0 <= i < |rs| ensures rs[i].status == Ok && Whole(rs[i].obj, frames[j + i]) {
      if i > 0 { assert rs[i] == rs[1..][i - 1] && frames[j + i] == frames[j + 1 + (i - 1)]; }
    }
  }

  lemma EmptyRun(pin: Pin, inbox: seq<Datagram>, ins: seq<ReadIn>, rs: seq<ReadResult>, frames: seq<seq<Octet>>, j: nat)
    requires IsRun(pin, inbox, ins, rs) && j <= |frames|
    ensures ins == [] ==> rs == [] && DeliversFrom(frames, j, rs)
  {
    hide ReadFrame, ReadFits, ObjOk, Whole;
  }

  lemma {:induction false} RunDelivers(sn: Sender, frames: seq<seq<Octet>>, j: nat, k: nat, pin: Pin,
                                       ins: seq<ReadIn>, rs: seq<ReadResult>)
    requires Lossless(sn, frames) && j + |ins| <= |frames| && StartOf(sn, frames, j, k)
    requires pin.valid && !pin.waiting && pin.started && Running(ins) && ObjectsFit(sn, frames, ins)
    requires IsRun(pin, Wire(sn, frames, k), ins, rs)
    ensures |rs| == |ins| && DeliversFrom(frames, j, rs)
    decreases |ins|
  {
    hide Lossless, ReadFrame, Wire, ReadFits, Room, KeepsAll, ObjOk, StartOf, DeliversFrom, Whole, ObjectsFit, Running,
         IsRun, Delivers, SkipToMarker, Stream, Place, GoodFrames;
    EmptyRun(pin, Wire(sn, frames, k), ins, rs, frames, j);
    if ins != [] {
      var e := ins[0];
      RestFits(sn, frames, ins);
      RunUnfold(pin, Wire(sn, frames, k), ins, rs);
      var k' := ReadAtStart(sn, frames, j, k, pin, e);
      DeliversParts(sn, frames, j, pin, rs[0], k');
      RunDelivers(sn, frames, j + 1, k', pin, ins[1..], rs[1..]);
      DeliversMore(frames, j, rs);
    }
  }

  /** Waiting at the start of the stream skips the first frame. */
  lemma SkipFirst(sn: Sender, frames: seq<seq<Octet>>, stale: Octet) returns (k: nat)
    requires Lossless(sn, frames) && frames != []
    ensures StartOf(sn, frames, 1, k) && SkipToMarker(Wire(sn, frames, 0), true, stale) == (Ok, Wire(sn, frames, k))
  {
    LosslessIsChannel(sn, frames);
    AllIntact(sn, frames, 0);
    var s, idx := Stream(sn, frames), Arrivals(sn, frames);
    assert Delivery(s, idx) && IdsOk(frames, s) && s[idx[0]].id == 0;
    hide Lossless, Stream, Channel, Inbox, Intact, AtBoundary, EndOf, SkipToMarker, FrameBehind, StartOf;
    SkipIntact(sn, frames, s, idx, 0, stale);
    k := EndOf(sn, frames, s, idx, 0);
    EndIsSameFrame(sn, frames, s, idx, 0);
    BoundaryIsStart(sn, frames, k);
  }

  lemma RunUnfold(pin: Pin, inbox: seq<Datagram>, ins: seq<ReadIn>, rs: seq<ReadResult>)
    requires IsRun(pin, inbox, ins, rs) && ins != []
    ensures rs != [] && ObjOk(ins[0].obj) && |ins[0].stamped| == HEADER
    ensures ReadFits(PinBefore(pin, ins[0]), ins[0].obj, inbox, ins[0].garbage, ins[0].opens)
    ensures rs[0] == ReadFrame(PinBefore(pin, ins[0]), ins[0].obj, inbox, ins[0].stamped, ins[0].garbage, ins[0].opens)
    ensures IsRun(rs[0].pin, rs[0].rest, ins[1..], rs[1..])
  {
    hide ReadFrame, ReadFits, ObjOk;
  }

  /** What is asked of a run's reads is asked of the first and of the rest. */
  lemma RestFits(sn: Sender, frames: seq<seq<Octet>>, ins: seq<ReadIn>)
    requires ins != [] && Running(ins) && ObjectsFit(sn, frames, ins)
    ensures ins[0].started && !ins[0].closed && Room(sn, ins[0].obj) && KeepsAll(sn, frames, ins[0].obj)
    ensures Running(ins[1..]) && ObjectsFit(sn, frames, ins[1..])
  {
    hide Room, KeepsAll;
  }

  /** The first read: a pin that waits skips the first frame and returns the second. */
  lemma FirstReadDelivers(sn: Sender, frames: seq<seq<Octet>>, pin: Pin, e: ReadIn) returns (ready: Pin, k': nat)
    requires Lossless(sn, frames) && 2 <= |frames|
    requires ReadFits(pin, e.obj, Wire(sn, frames, 0), e.garbage, e.opens)
    requires pin.waiting && pin.started && (pin.valid || e.opens)
    requires Room(sn, e.obj) && KeepsAll(sn, frames, e.obj) && |e.stamped| == HEADER
    ensures ready == pin.(valid := true, waiting := false) && ObjOk(e.obj)
    ensures Delivers(sn, frames, 1, ready,
                     ReadFrame(pin, e.obj, Wire(sn, frames, 0), e.stamped, e.garbage, e.opens), k')
  {
    assert ObjOk(e.obj);
    hide Lossless, ReadFrame, Wire, ReadFits, Room, KeepsAll, ObjOk, StartOf, Delivers, SkipToMarker;
    var k := SkipFirst(sn, frames, Leftover(e.garbage, 1));
    ready := pin.(valid := true, waiting := false);
    WaitThenRead(pin, e.obj, Wire(sn, frames, 0), e.stamped, e.garbage, e.opens);
    k' := ReadAtStart(sn, frames, 1, k, ready, e);
  }

  /**
   Nothing lost, nothing missed: over a channel without loss, whatever the first sequence number and
   however often it wraps, a pin that starts waiting uses up the first frame to find a boundary and then
   delivers every other one, in order.
   */
  lemma EveryLaterFrameIsRead(sn: Sender, frames: seq<seq<Octet>>, pin: Pin, ins: seq<ReadIn>, rs: seq<ReadResult>)
    requires Lossless(sn, frames) && 1 + |ins| <= |frames|
    requires pin.waiting && Running(ins) && ObjectsFit(sn, frames, ins) && (ins != [] ==> pin.valid || ins[0].opens)
    requires IsRun(pin, Wire(sn, frames, 0), ins, rs)
    ensures |rs| == |ins| && DeliversFrom(frames, 1, rs)
  {
    hide Lossless, ReadFrame, Wire, ReadFits, Room, KeepsAll, ObjOk, StartOf, DeliversFrom, Whole, SkipToMarker,
         ObjectsFit, Running, IsRun, Delivers, Stream, Place, GoodFrames;
    EmptyRun(pin, Wire(sn, frames, 0), ins, rs, frames, 1);
    if ins != [] {
      RestFits(sn, frames, ins);
      RunUnfold(pin, Wire(sn, frames, 0), ins, rs);
      var ready, k' := FirstReadDelivers(sn, frames, PinBefore(pin, ins[0]), ins[0]);
      DeliversParts(sn, frames, 1, ready, rs[0], k');
      RunDelivers(sn, frames, 2, k', ready, ins[1..], rs[1..]);
      DeliversMore(frames, 1, rs);
    }
  }
}
