/** Where the guarantees of the RTP receiver stop: when a loss goes unnoticed, and when a payload is lost. */
module RtpLimits {
  import opened Wrappers
  import opened RtpPacket
  import Packetizer
  import opened Reassembly
  import opened RtpStream
  import opened RtpEndToEnd

  /** How often the sequence number has wrapped before packet number g. */
  function Wraps(sn: Sender, g: nat): int { (sn.start + g) / SEQ_MOD }

  /**
   When a loss of any length shows: a whole turn of the sequence numbers is not seen, and what remains of the
   distance must be more than one step and not wrap.
   */
  predicate Shows(sn: Sender, g: nat, h: nat)
    requires sn.Valid() && g < h
  {
    var rest := (h - g) % SEQ_MOD;
    rest >= 2 && sn.SeqNo(g) + rest < SEQ_MOD
  }

  lemma LossShowsIff(sn: Sender, g: nat, h: nat)
    requires sn.Valid() && g < h
    ensures Gap(sn.SeqNo(g), sn.SeqNo(h)) <==> Shows(sn, g, h)
  {
    var n := h - g;
    assert sn.start + h == (sn.start + g) + n;
    ModPlus(sn.start + g, n);
  }

  lemma ModPlus(a: nat, n: nat)
    ensures var sum := a % SEQ_MOD + n % SEQ_MOD;
            (a + n) % SEQ_MOD == if sum < SEQ_MOD then sum else sum - SEQ_MOD
  {
  }

  /** For a loss of fewer than 65535 packets that means: the sequence numbers do not wrap across it. */
  lemma LossShowsIffNoWrap(sn: Sender, g: nat, h: nat)
    requires sn.Valid() && g + 1 < h < g + SEQ_MOD
    ensures Gap(sn.SeqNo(g), sn.SeqNo(h)) <==> Wraps(sn, g) == Wraps(sn, h)
  {
    var a, b := sn.start + g, sn.start + h;
    assert a == Wraps(sn, g) * SEQ_MOD + sn.SeqNo(g) && b == Wraps(sn, h) * SEQ_MOD + sn.SeqNo(h);
  }

  /** A longer one can span the wrap and still show. */
  lemma LongLossShows(sn: Sender)
    requires sn.Valid() && sn.start == 0
    ensures Gap(sn.SeqNo(0), sn.SeqNo(65541)) && Wraps(sn, 0) != Wraps(sn, 65541)
  {
  }

  predicate SuccessorOrShows(sn: Sender, idx: seq<nat>, i: nat)
    requires sn.Valid() && 0 < i < |idx| && Later(idx, i)
  {
    idx[i] == idx[i - 1] + 1 || Shows(sn, idx[i - 1], idx[i])
  }

  /** No loss among some arrivals is hidden, in terms of how many packets were lost where. */
  lemma SeenLossesIff(sn: Sender, s: seq<Sent>, idx: seq<nat>, k: nat, k': nat)
    requires sn.Valid() && Delivery(s, idx)
    ensures SeenLosses(sn, idx, k, k')
       <==> forall i :: k < i < k' && i < |idx| ==> Later(idx, i) && SuccessorOrShows(sn, idx, i)
  {
    hide Gap, Shows, Sender.SeqNo;
    forall i | k < i < k' && i < |idx|
      ensures Later(idx, i) && (NextOrGap(sn, idx, i) <==> SuccessorOrShows(sn, idx, i))
    {
      assert Later(idx, i);
      if idx[i] != idx[i - 1] + 1 { LossShowsIff(sn, idx[i - 1], idx[i]); }
    }
  }

  /** And of the whole delivery: when every drop shows. */
  lemma DropsVisibleIff(sn: Sender, s: seq<Sent>, idx: seq<nat>)
    requires sn.Valid() && Delivery(s, idx)
    ensures DropsVisible(sn, idx) <==> forall i :: 0 < i < |idx| ==> Later(idx, i) && SuccessorOrShows(sn, idx, i)
  {
    hide NextOrGap, SuccessorOrShows, Later;
    SeenLossesIff(sn, s, idx, 0, |idx|);
  }

  /** A frame of three payloads of 128 bytes: its header, then ones, then twos. */
  function ThreePayloads(): (f: seq<Octet>)
    ensures |f| == 384
  {
    seq(384, i requires 0 <= i < 384 =>
      if i == 3 || i == 18 then 1 else if i == 4 then 2 else if i == 6 then 3
      else if i < 128 then 0 else if i < 256 then 1 else 2)
  }

  /**
   A loss across the wrap goes unnoticed: of three packets numbered 65535, 0 and 1 the middle one is lost,
   and the frame is returned as OK with the last payload in the place of the middle one.
   */
  lemma WrapHidesLoss(ssrc: seq<Octet>, stamped: seq<Octet>, g: seq<Octet>)
    requires |ssrc| == 4 && |stamped| == HEADER
    ensures var f := ThreePayloads();
            var first := Packetizer.PacketFor(f, 128, 65535, 96, ssrc);
            var last := Packetizer.PacketFor(f[256..], 128, 1, 96, ssrc);
            && GoodFrame(f)
            && Packetizer.Split(f, 128, 65535, 96, ssrc)
            == [first, Packetizer.PacketFor(f[128..], 128, 0, 96, ssrc), last]
            && var o := FrameObj([], 0);
               var inbox := [Data(first), Data(last)];
               && Fits(o, inbox)
               && var c := CreateFrame(o, inbox, stamped, g);
                  c.status == Ok && c.obj.frameSize == |f| && !Carries(c.obj.buf, f, |f|)
  {
    hide Packetizer.PacketFor, Packetizer.Split, ThreePayloads, MediaSize, SeqOf, EndOfFrame, Collect, CreateFrame,
         Carries, FirstBuffer, Overlay, InitBuffer, GoodFrame;
    var f := ThreePayloads();
    var first := Packetizer.PacketFor(f, 128, 65535, 96, ssrc);
    var last := Packetizer.PacketFor(f[256..], 128, 1, 96, ssrc);
    SplitThree(f, ssrc);
    var o, inbox := FrameObj([], 0), [Data(first), Data(last)];
    GoodThree();
    FieldsOfPacket(f, 65535, ssrc);
    FieldsOfPacket(f[256..], 1, ssrc);
    HeaderInFirst(f, first, 128);
    var o1 := Ready(o, g);
    CreateUnfold(o, inbox, stamped, g, 384);
    var b := FirstBuffer(o1, first[12..], stamped, g, 384);
    CollectOne(b, 128, 384, 65535, inbox[1..]);
    var c := CreateFrame(o, inbox, stamped, g);
    assert c.obj.buf == Overlay(b, 128, last[12..140]);
    Misplaced(b, f, last[12..140]);
  }

  lemma GoodThree()
    ensures GoodFrame(ThreePayloads())
  {
  }

  lemma SplitThree(f: seq<Octet>, ssrc: seq<Octet>)
    requires |f| == 384 && |ssrc| == 4
    ensures Packetizer.Split(f, 128, 65535, 96, ssrc)
         == [Packetizer.PacketFor(f, 128, 65535, 96, ssrc), Packetizer.PacketFor(f[128..], 128, 0, 96, ssrc),
             Packetizer.PacketFor(f[256..], 128, 1, 96, ssrc)]
  {
    hide Packetizer.PacketFor;
    assert f[128..][128..] == f[256..] && f[256..][128..] == [];
    Packetizer.SplitNothing(128, 96, ssrc);
    assert Packetizer.Split([], 128, 2, 96, ssrc) == [];
    var s1 := Packetizer.Split(f[256..], 128, 1, 96, ssrc);
    assert s1 == [Packetizer.PacketFor(f[256..], 128, 1, 96, ssrc)];
    var s0 := Packetizer.Split(f[128..], 128, 0, 96, ssrc);
    assert s0 == [Packetizer.PacketFor(f[128..], 128, 0, 96, ssrc)] + s1;
  }

  lemma FieldsOfPacket(left: seq<Octet>, seqNo: int, ssrc: seq<Octet>)
    requires |left| >= 128 && |ssrc| == 4 && 0 <= seqNo < SEQ_MOD
    ensures var p := Packetizer.PacketFor(left, 128, seqNo, 96, ssrc);
            && SeqOf(p) == seqNo && EndOfFrame(p) == (|left| == 128)
            && p[12..140] == left[..128] && p[12..] == left[..128]
  {
    HeaderRoundTrip(seqNo, |left| <= 128, 96, ssrc, left[..128] + Packetizer.Zeros(0));
    assert Packetizer.PacketFor(left, 128, seqNo, 96, ssrc)
        == Header(seqNo, |left| <= 128, 96, ssrc) + (left[..128] + Packetizer.Zeros(0));
  }

  lemma Misplaced(b: seq<Octet>, f: seq<Octet>, tail: seq<Octet>)
    requires f == ThreePayloads() && |b| >= 384 && tail == f[256..384]
    ensures !Carries(Overlay(b, 128, tail), f, 384)
  {
    var r := Overlay(b, 128, tail);
    assert r[128] == tail[0] == f[256] == 2 && f[128] == 1;
    assert r[HEADER..384][0] == r[128] && f[HEADER..384][0] == f[128];
  }

  function Spoiled(bytes: seq<Octet>): seq<Octet>
  {
    seq(|bytes|, i requires 0 <= i < |bytes| => if bytes[i] == 0 then 1 else 0)
  }

  lemma {:induction false} CollectKeepsStart(buf: seq<Octet>, pos: nat, size: nat, last: int, inbox: seq<Datagram>,
                                             i: nat)
    requires i < pos && i < size <= |buf|
    ensures Collect(buf, pos, size, last, inbox).buf[i] == buf[i]
    decreases |inbox|
  {
    if pos < size && inbox != [] && inbox[0].Data? && |inbox[0].bytes| > RTP_HEADERS_LENGTH {
      var p := inbox[0].bytes;
      var n: nat := Min(size - pos, |p| - RTP_HEADERS_LENGTH);
      var buf' := Overlay(buf, pos, p[RTP_HEADERS_LENGTH..RTP_HEADERS_LENGTH + n]);
      assert buf'[i] == buf[i];
      hide Overlay, SeqOf, EndOfFrame;
      CollectKeepsStart(buf', pos + n, size, SeqOf(p), inbox[1..], i);
    }
  }

  /** Reading this inbox leaves the media bytes of f in the object, when fresh memory holds g. */
  predicate ReadsWhole(o: FrameObj, inbox: seq<Datagram>, stamped: seq<Octet>, f: seq<Octet>, g: seq<Octet>)
    requires ObjOk(o) && Fits(o, inbox) && |stamped| == HEADER
  {
    Carries(CreateFrame(o, inbox, stamped, g).obj.buf, f, |f|)
  }

  /** The condition on the frame object in the end-to-end theorem is exact. */
  lemma KeepsIsExact(sn: Sender, frames: seq<seq<Octet>>, s: seq<Sent>, idx: seq<nat>, k: nat,
                     o: FrameObj, stamped: seq<Octet>)
    requires Channel(sn, frames, s, idx) && k < |idx| && s[idx[k]].pos == 0 && Intact(sn, frames, s, idx, k)
    requires Room(sn, o) && |stamped| == HEADER && sn.payload > HEADER
    ensures Fits(o, Inbox(s, idx, k))
    ensures (forall g: seq<Octet> :: ReadsWhole(o, Inbox(s, idx, k), stamped, frames[s[idx[k]].id], g))
       <==> Keeps(sn, o, |frames[s[idx[k]].id]|)
  {
    hide Channel, StreamOk, Delivery, IdsOk, CreateFrame, Fits, Inbox, Carries, Keeps, Room, Intact, FrameCloses,
         FrameCloseEnd;
    ChannelParts(sn, frames, s, idx);
    ArrivalOk(sn, frames, s, idx, k);
    RoomFits(sn, frames, s, idx, k, o);
    var f := frames[s[idx[k]].id];
    if Keeps(sn, o, |f|) {
      forall g: seq<Octet> ensures ReadsWhole(o, Inbox(s, idx, k), stamped, f, g) {
        var k' := CreateFromFirst(sn, frames, s, idx, k, o, stamped, g);
      }
    } else {
      FirstLost(sn, frames, s, idx, k, o, stamped);
      assert !ReadsWhole(o, Inbox(s, idx, k), stamped, f, Spoiled(f));
    }
  }

  lemma FirstLost(sn: Sender, frames: seq<seq<Octet>>, s: seq<Sent>, idx: seq<nat>, k: nat,
                  o: FrameObj, stamped: seq<Octet>)
    requires Channel(sn, frames, s, idx) && k < |idx| && s[idx[k]].pos == 0
    requires Room(sn, o) && |stamped| == HEADER && sn.payload > HEADER && !Keeps(sn, o, |frames[s[idx[k]].id]|)
    ensures Fits(o, Inbox(s, idx, k))
    ensures var f := frames[s[idx[k]].id];
            !Carries(CreateFrame(o, Inbox(s, idx, k), stamped, Spoiled(f)).obj.buf, f, |f|)
  {
    hide Channel, StreamOk, Delivery, IdsOk, PacketOk, Fits, Inbox, FirstBuffer, CreateFrame, Collect, Carries, SeqOf,
         EndOfFrame, MediaSize, Spoiled, Sender.SeqNo;
    ChannelParts(sn, frames, s, idx);
    RoomFits(sn, frames, s, idx, k, o);
    InboxStep(s, idx, k);
    ArrivalPacket(sn, frames, s, idx, k);
    var e := s[idx[k]];
    var f, p, inbox := frames[e.id], e.bytes, Inbox(s, idx, k);
    PacketFields(sn, frames, e, idx[k]);
    var n := sn.payload;
    assert f[0..0 + n] == f[..n];
    HeaderInFirst(f, p, n);
    var payload, g := p[RTP_HEADERS_LENGTH..], Spoiled(f);
    CreateUnfold(o, inbox, stamped, g, |f|);
    SpoiledByte(o, payload, stamped, f, n);
    var b := FirstBuffer(o, payload, stamped, g, |f|);
    CollectKeepsStart(b, n, |f|, SeqOf(p), inbox[1..], n - 1);
    NotCarried(CreateFrame(o, inbox, stamped, g).obj.buf, f, n - 1);
  }

  lemma SpoiledByte(o: FrameObj, payload: seq<Octet>, stamped: seq<Octet>, f: seq<Octet>, n: nat)
    requires ObjOk(o) && HEADER < n <= |payload| <= |o.buf| && n <= |f| && |stamped| == HEADER
    requires o.frameSize < n && |o.buf| < |f|
    ensures FirstBuffer(o, payload, stamped, Spoiled(f), |f|)[n - 1] != f[n - 1]
  {
    assert FirstBuffer(o, payload, stamped, Spoiled(f), |f|)[n - 1] == Spoiled(f)[n - 1];
  }

  lemma NotCarried(b: seq<Octet>, f: seq<Octet>, i: nat)
    requires HEADER <= i < |f| && i < |b| && b[i] != f[i]
    ensures !Carries(b, f, |f|)
  {
    if |f| <= |b| {
      assert b[HEADER..|f|][i - HEADER] == b[i] && f[HEADER..|f|][i - HEADER] == f[i];
    }
  }
}
