/**
 End to end: frames cut by the packetizer, carried by a channel that keeps the order and may drop
 packets, and put together by the receiver.
 */
module RtpStream {
  import opened Wrappers
  import opened RtpPacket
  import Packetizer
  import opened Reassembly

  /** How a stream is sent: payload size, first sequence number, payload type, SSRC. */
  datatype Sender = Sender(payload: nat, start: int, payloadType: int, ssrc: seq<Octet>) {
    predicate Valid()
    {
      && HEADER <= payload && RTP_HEADERS_LENGTH + payload <= MAX_DATAGRAM
      && 0 <= start < SEQ_MOD && 0 <= payloadType && |ssrc| == 4
    }

    /** The sequence number of packet number g of the stream. */
    function SeqNo(g: nat): int { Packetizer.SeqAfter(start, g) }
  }

  /** One packet of the stream: which frame it belongs to and where in it its payload starts. */
  datatype Sent = Sent(id: nat, pos: nat, bytes: seq<Octet>)

  /** A complete frame: its header announces its size. */
  predicate GoodFrame(f: seq<Octet>) { |f| >= HEADER && MediaSize(f[..HEADER]) == Some(|f| - HEADER) }

  predicate GoodFrames(frames: seq<seq<Octet>>) { forall j :: 0 <= j < |frames| ==> GoodFrame(frames[j]) }

  predicate Last(sn: Sender, frames: seq<seq<Octet>>, e: Sent)
    requires e.id < |frames|
  {
    e.pos + sn.payload >= |frames[e.id]|
  }

  /** Packet number g is what the packetizer makes of its frame from its position on. */
  predicate PacketOk(sn: Sender, frames: seq<seq<Octet>>, e: Sent, g: nat)
    requires sn.Valid()
  {
    && e.id < |frames| && e.pos < |frames[e.id]|
    && e.bytes == Packetizer.PacketFor(frames[e.id][e.pos..], sn.payload, sn.SeqNo(g), sn.payloadType, sn.ssrc)
  }

  /** Packets follow one another within a frame and from frame to frame. */
  predicate Follows(sn: Sender, frames: seq<seq<Octet>>, e: Sent, e': Sent)
    requires e.id < |frames|
  {
    if Last(sn, frames, e) then e'.id == e.id + 1 && e'.pos == 0
    else e'.id == e.id && e'.pos == e.pos + sn.payload
  }

  predicate Continues(sn: Sender, frames: seq<seq<Octet>>, s: seq<Sent>, g: nat)
    requires 0 < g < |s|
  {
    s[g - 1].id < |frames| && Follows(sn, frames, s[g - 1], s[g])
  }

  /** The packets of a sequence of frames. */
  predicate StreamOk(sn: Sender, frames: seq<seq<Octet>>, s: seq<Sent>)
    requires sn.Valid()
  {
    && GoodFrames(frames)
    && (forall g :: 0 <= g < |s| ==> PacketOk(sn, frames, s[g], g))
    && (forall g :: 0 < g < |s| ==> Continues(sn, frames, s, g))
    && (s != [] ==> s[0].id == 0 && s[0].pos == 0)
  }

  predicate Later(idx: seq<nat>, i: nat)
    requires 0 < i < |idx|
  {
    idx[i - 1] < idx[i]
  }

  /** A delivery: the numbers of the packets that arrive, in order. */
  predicate Delivery(s: seq<Sent>, idx: seq<nat>)
  {
    && (forall i :: 0 <= i < |idx| ==> idx[i] < |s|)
    && (forall i :: 0 < i < |idx| ==> Later(idx, i))
  }

  /** What is still to be read after k packets have arrived. */
  function Inbox(s: seq<Sent>, idx: seq<nat>, k: nat): (inbox: seq<Datagram>)
    requires Delivery(s, idx) && k <= |idx|
    ensures |inbox| == |idx| - k
  {
    seq(|idx| - k, i requires 0 <= i < |idx| - k => Data(s[idx[k + i]].bytes))
  }

  lemma InboxStep(s: seq<Sent>, idx: seq<nat>, k: nat)
    requires Delivery(s, idx) && k < |idx|
    ensures Inbox(s, idx, k) != [] && Inbox(s, idx, k)[0] == Data(s[idx[k]].bytes)
    ensures Inbox(s, idx, k)[1..] == Inbox(s, idx, k + 1)
  {
  }

  predicate NextOrGap(sn: Sender, idx: seq<nat>, i: nat)
    requires 0 < i < |idx|
  {
    idx[i] == idx[i - 1] + 1 || Gap(sn.SeqNo(idx[i - 1]), sn.SeqNo(idx[i]))
  }

  /** Every drop shows as a jump to a higher sequence number. */
  predicate DropsVisible(sn: Sender, idx: seq<nat>)
  {
    forall i :: 0 < i < |idx| ==> NextOrGap(sn, idx, i)
  }

  /** No loss among arrivals k to k' - 1 is hidden: each shows as a jump to a higher sequence number. */
  predicate SeenLosses(sn: Sender, idx: seq<nat>, k: nat, k': nat)
  {
    forall i :: k < i < k' && i < |idx| ==> NextOrGap(sn, idx, i)
  }

  /** Payloads from the middle of a frame do not look like a vMI header. */
  predicate MidFramesUnlikeHeaders(s: seq<Sent>)
  {
    forall g :: 0 <= g < |s| && s[g].pos > 0 && |s[g].bytes| >= RTP_HEADERS_LENGTH + HEADER ==>
      MediaSize(s[g].bytes[RTP_HEADERS_LENGTH..RTP_HEADERS_LENGTH + HEADER]) == None
  }

  /** From packet k on, everything up to the end of its frame arrives. */
  predicate Intact(sn: Sender, frames: seq<seq<Octet>>, s: seq<Sent>, idx: seq<nat>, k: nat)
    requires Delivery(s, idx) && k < |idx| && IdsOk(frames, s)
    decreases |idx| - k
  {
    || Last(sn, frames, s[idx[k]])
    || (k + 1 < |idx| && idx[k + 1] == idx[k] + 1 && Intact(sn, frames, s, idx, k + 1))
  }

  /** The number of arrivals up to and including the end of an intact frame. */
  function EndOf(sn: Sender, frames: seq<seq<Octet>>, s: seq<Sent>, idx: seq<nat>, k: nat): (e: nat)
    requires Delivery(s, idx) && k < |idx| && IdsOk(frames, s)
    requires Intact(sn, frames, s, idx, k)
    ensures k < e <= |idx| && Last(sn, frames, s[idx[e - 1]])
    decreases |idx| - k
  {
    if Last(sn, frames, s[idx[k]]) then k + 1 else EndOf(sn, frames, s, idx, k + 1)
  }

  /** A buffer carries the media bytes of a frame. */
  predicate Carries(buf: seq<Octet>, f: seq<Octet>, upto: nat)
  {
    HEADER <= upto <= |f| && upto <= |buf| && buf[HEADER..upto] == f[HEADER..upto]
  }

  /** The fields of a packet of the stream as the receiver sees them. */
  lemma PacketFields(sn: Sender, frames: seq<seq<Octet>>, e: Sent, g: nat)
    requires sn.Valid() && PacketOk(sn, frames, e, g)
    ensures |e.bytes| == RTP_HEADERS_LENGTH + sn.payload
    ensures SeqOf(e.bytes) == sn.SeqNo(g)
    ensures EndOfFrame(e.bytes) == Last(sn, frames, e)
    ensures var n := Min(|frames[e.id]| - e.pos, sn.payload);
            0 <= n && e.bytes[RTP_HEADERS_LENGTH..RTP_HEADERS_LENGTH + n] == frames[e.id][e.pos..e.pos + n]
  {
    var left := frames[e.id][e.pos..];
    var n := Min(|left|, sn.payload);
    HeaderRoundTrip(sn.SeqNo(g), |left| <= sn.payload, sn.payloadType, sn.ssrc,
                    left[..n] + Packetizer.Zeros(sn.payload - n));
    assert e.bytes == Header(sn.SeqNo(g), |left| <= sn.payload, sn.payloadType, sn.ssrc)
                      + (left[..n] + Packetizer.Zeros(sn.payload - n));
    assert left[..n] == frames[e.id][e.pos..e.pos + n];
  }

  /** The rest of the packet: payload type, SSRC, and zeros behind the end of the frame. */
  lemma PacketRest(sn: Sender, frames: seq<seq<Octet>>, e: Sent, g: nat)
    requires sn.Valid() && PacketOk(sn, frames, e, g)
    ensures |e.bytes| == RTP_HEADERS_LENGTH + sn.payload
    ensures e.bytes[1] % 128 == sn.payloadType % 128 && e.bytes[8..12] == sn.ssrc
    ensures forall k :: 12 + |frames[e.id]| - e.pos <= k < 12 + sn.payload ==> e.bytes[k] == 0
  {
    HeaderFields(sn.SeqNo(g), |frames[e.id]| - e.pos <= sn.payload, sn.payloadType, sn.ssrc);
    hide Header;
  }

  lemma OverlayExtends(buf: seq<Octet>, f: seq<Octet>, pos: nat, n: nat, bytes: seq<Octet>)
    requires Carries(buf, f, pos) && pos + n <= |f| && pos + n <= |buf| && bytes == f[pos..pos + n]
    ensures Carries(Overlay(buf, pos, bytes), f, pos + n)
  {
    var b := Overlay(buf, pos, bytes);
    forall i | HEADER <= i < pos + n ensures b[i] == f[i] {
      if i < pos { assert b[i] == buf[HEADER..pos][i - HEADER]; }
    }
  }

  predicate IdsOk(frames: seq<seq<Octet>>, s: seq<Sent>) { forall g :: 0 <= g < |s| ==> s[g].id < |frames| }

  /**
   What the collecting loop goes by, from the arrival after k on: no jump in the sequence numbers, and a
   marker before the frame is full.
   */
  predicate Closes(sn: Sender, frames: seq<seq<Octet>>, s: seq<Sent>, idx: seq<nat>, k: nat, pos: nat, size: nat)
    requires Delivery(s, idx) && k < |idx| && IdsOk(frames, s)
    decreases |idx| - k
  {
    || pos >= size
    || (&& k + 1 < |idx| && !Gap(sn.SeqNo(idx[k]), sn.SeqNo(idx[k + 1]))
        && (|| Last(sn, frames, s[idx[k + 1]])
            || (pos + sn.payload < size && Closes(sn, frames, s, idx, k + 1, pos + sn.payload, size))))
  }

  /** The number of arrivals consumed when it does. */
  function CloseEnd(sn: Sender, frames: seq<seq<Octet>>, s: seq<Sent>, idx: seq<nat>, k: nat, pos: nat, size: nat)
      : (e: nat)
    requires Delivery(s, idx) && k < |idx| && IdsOk(frames, s) && Closes(sn, frames, s, idx, k, pos, size)
    ensures k < e <= |idx| && (pos < size ==> k + 1 < e && Last(sn, frames, s[idx[e - 1]]))
    decreases |idx| - k
  {
    if pos >= size then k + 1
    else if Last(sn, frames, s[idx[k + 1]]) then k + 2
    else CloseEnd(sn, frames, s, idx, k + 1, pos + sn.payload, size)
  }

  lemma CollectOne(buf: seq<Octet>, pos: nat, size: nat, last: int, inbox: seq<Datagram>)
    requires pos < size <= |buf| && inbox != [] && inbox[0].Data? && |inbox[0].bytes| > RTP_HEADERS_LENGTH
    ensures var p := inbox[0].bytes;
            var n: nat := Min(size - pos, |p| - RTP_HEADERS_LENGTH);
            var buf' := Overlay(buf, pos, p[RTP_HEADERS_LENGTH..RTP_HEADERS_LENGTH + n]);
            && (Gap(last, SeqOf(p)) ==>
                  Collect(buf, pos, size, last, inbox) == Collected(InvalidFrame, buf, inbox[1..]))
            && (!Gap(last, SeqOf(p)) && EndOfFrame(p) ==>
                  Collect(buf, pos, size, last, inbox) == Collected(Ok, buf', inbox[1..]))
            && (!Gap(last, SeqOf(p)) && !EndOfFrame(p) && pos + n == size ==>
                  Collect(buf, pos, size, last, inbox) == Collected(InvalidFrame, buf', inbox[1..]))
            && (!Gap(last, SeqOf(p)) && !EndOfFrame(p) && pos + n < size ==>
                  Collect(buf, pos, size, last, inbox) == Collect(buf', pos + n, size, SeqOf(p), inbox[1..]))
  {
    hide Overlay, SeqOf, EndOfFrame;
  }

  /** What is known about the next packet of a frame, when it arrives. */
  lemma NextArrival(sn: Sender, frames: seq<seq<Octet>>, s: seq<Sent>, idx: seq<nat>, k: nat)
    requires sn.Valid() && StreamOk(sn, frames, s) && Delivery(s, idx)
    requires k + 1 < |idx| && idx[k + 1] == idx[k] + 1
    requires idx[k] < |s| && s[idx[k]].id < |frames| && !Last(sn, frames, s[idx[k]])
    ensures idx[k + 1] < |s| && PacketOk(sn, frames, s[idx[k + 1]], idx[k + 1])
    ensures s[idx[k + 1]].id == s[idx[k]].id && s[idx[k + 1]].pos == s[idx[k]].pos + sn.payload
    ensures !Gap(sn.SeqNo(idx[k]), sn.SeqNo(idx[k + 1]))
  {
    hide PacketOk, Gap;
    NextIsNoGap(sn, idx[k]);
    assert Continues(sn, frames, s, idx[k + 1]);
  }

  lemma StreamIds(sn: Sender, frames: seq<seq<Octet>>, s: seq<Sent>)
    requires sn.Valid() && StreamOk(sn, frames, s)
    ensures IdsOk(frames, s)
  {
  }

  /** A channel that keeps the order: a stream, and which of its packets arrive. */
  predicate Channel(sn: Sender, frames: seq<seq<Octet>>, s: seq<Sent>, idx: seq<nat>)
  {
    sn.Valid() && StreamOk(sn, frames, s) && IdsOk(frames, s) && Delivery(s, idx)
  }

  lemma ChannelParts(sn: Sender, frames: seq<seq<Octet>>, s: seq<Sent>, idx: seq<nat>)
    requires Channel(sn, frames, s, idx)
    ensures sn.Valid() && StreamOk(sn, frames, s) && IdsOk(frames, s) && Delivery(s, idx)
  {
  }

  /** Packet idx[k], not the last of its frame, has just been put into the buffer. */
  predicate Entered(sn: Sender, frames: seq<seq<Octet>>, s: seq<Sent>, idx: seq<nat>, k: nat, buf: seq<Octet>)
    requires Channel(sn, frames, s, idx)
  {
    && k < |idx| && !Last(sn, frames, s[idx[k]])
    && |frames[s[idx[k]].id]| <= |buf|
    && Carries(buf, frames[s[idx[k]].id], s[idx[k]].pos + sn.payload)
  }

  function CollectAfter(sn: Sender, frames: seq<seq<Octet>>, s: seq<Sent>, idx: seq<nat>, k: nat, buf: seq<Octet>)
      : Collected
    requires Channel(sn, frames, s, idx) && Entered(sn, frames, s, idx, k, buf)
  {
    var e := s[idx[k]];
    Collect(buf, e.pos + sn.payload, |frames[e.id]|, sn.SeqNo(idx[k]), Inbox(s, idx, k + 1))
  }

  /** The next packet of the frame arrives: the loop goes on with the buffer extended by it, or ends. */
  lemma CollectNext(sn: Sender, frames: seq<seq<Octet>>, s: seq<Sent>, idx: seq<nat>, k: nat, buf: seq<Octet>)
      returns (buf': seq<Octet>)
    requires Channel(sn, frames, s, idx) && Entered(sn, frames, s, idx, k, buf)
    requires k + 1 < |idx| && idx[k + 1] == idx[k] + 1
    ensures s[idx[k + 1]].id == s[idx[k]].id
    ensures Last(sn, frames, s[idx[k + 1]]) ==>
              && CollectAfter(sn, frames, s, idx, k, buf) == Collected(Ok, buf', Inbox(s, idx, k + 2))
              && Carries(buf', frames[s[idx[k]].id], |frames[s[idx[k]].id]|)
    ensures !Last(sn, frames, s[idx[k + 1]]) ==>
              && Entered(sn, frames, s, idx, k + 1, buf')
              && CollectAfter(sn, frames, s, idx, k, buf) == CollectAfter(sn, frames, s, idx, k + 1, buf')
  {
    hide Collect, StreamOk, PacketOk, Overlay, Carries, SeqOf, EndOfFrame, Gap, Inbox, Sender.SeqNo;
    var e, e2 := s[idx[k]], s[idx[k + 1]];
    var f, pos := frames[e.id], e.pos + sn.payload;
    NextArrival(sn, frames, s, idx, k);
    InboxStep(s, idx, k + 1);
    PacketFields(sn, frames, e2, idx[k + 1]);
    CollectOne(buf, pos, |f|, sn.SeqNo(idx[k]), Inbox(s, idx, k + 1));
    var n: nat := Min(|f| - pos, sn.payload);
    var bytes := e2.bytes[RTP_HEADERS_LENGTH..RTP_HEADERS_LENGTH + n];
    OverlayExtends(buf, f, pos, n, bytes);
    buf' := Overlay(buf, pos, bytes);
  }

  /** When the rest of the frame arrives, the loop succeeds right behind it, with the frame in the buffer. */
  lemma {:induction false} CollectIntact(sn: Sender, frames: seq<seq<Octet>>, s: seq<Sent>, idx: seq<nat>,
                                         k: nat, buf: seq<Octet>) returns (buf': seq<Octet>)
    requires Channel(sn, frames, s, idx) && Entered(sn, frames, s, idx, k, buf) && Intact(sn, frames, s, idx, k)
    ensures CollectAfter(sn, frames, s, idx, k, buf) == Collected(Ok, buf', Inbox(s, idx, EndOf(sn, frames, s, idx, k)))
    ensures Carries(buf', frames[s[idx[k]].id], |frames[s[idx[k]].id]|)
    decreases |idx| - k
  {
    assert IdsOk(frames, s) && Delivery(s, idx) && !Last(sn, frames, s[idx[k]]) && Intact(sn, frames, s, idx, k + 1);
    assert EndOf(sn, frames, s, idx, k) == EndOf(sn, frames, s, idx, k + 1);
    var next := CollectNext(sn, frames, s, idx, k, buf);
    hide CollectAfter, Channel, Entered, Carries, Inbox, IdsOk, Delivery;
    if Last(sn, frames, s[idx[k + 1]]) {
      assert EndOf(sn, frames, s, idx, k + 1) == k + 2;
      buf' := next;
    } else {
      buf' := CollectIntact(sn, frames, s, idx, k + 1, next);
    }
  }

  /** The loop's end: where it leaves the inbox, and when it succeeds. */
  predicate ClosedAs(sn: Sender, frames: seq<seq<Octet>>, s: seq<Sent>, idx: seq<nat>, k: nat, pos: nat, size: nat,
                     c: Collected, k': nat)
    requires Delivery(s, idx) && k < |idx| && IdsOk(frames, s)
  {
    && k < k' <= |idx| && c.rest == Inbox(s, idx, k')
    && (c.status == Ok <==> Closes(sn, frames, s, idx, k, pos, size))
    && (c.status == Ok ==> k' == CloseEnd(sn, frames, s, idx, k, pos, size))
  }

  lemma ArrivalOk(sn: Sender, frames: seq<seq<Octet>>, s: seq<Sent>, idx: seq<nat>, k: nat)
    requires Channel(sn, frames, s, idx) && k < |idx|
    ensures idx[k] < |s| && s[idx[k]].id < |frames|
    ensures |s[idx[k]].bytes| == RTP_HEADERS_LENGTH + sn.payload
    ensures SeqOf(s[idx[k]].bytes) == sn.SeqNo(idx[k])
    ensures EndOfFrame(s[idx[k]].bytes) == Last(sn, frames, s[idx[k]])
  {
    assert PacketOk(sn, frames, s[idx[k]], idx[k]);
    PacketFields(sn, frames, s[idx[k]], idx[k]);
  }

  /** One arrival further. */
  lemma CloseStep(sn: Sender, frames: seq<seq<Octet>>, s: seq<Sent>, idx: seq<nat>, k: nat, pos: nat, size: nat)
    requires Delivery(s, idx) && IdsOk(frames, s) && k + 1 < |idx| && pos < size
    ensures var gap, last := Gap(sn.SeqNo(idx[k]), sn.SeqNo(idx[k + 1])), Last(sn, frames, s[idx[k + 1]]);
            var next := pos + sn.payload;
            && (gap ==> !Closes(sn, frames, s, idx, k, pos, size))
            && (!gap && last ==>
                  Closes(sn, frames, s, idx, k, pos, size) && CloseEnd(sn, frames, s, idx, k, pos, size) == k + 2)
            && (!gap && !last && next >= size ==> !Closes(sn, frames, s, idx, k, pos, size))
            && (!gap && !last && next < size ==>
                  && (Closes(sn, frames, s, idx, k, pos, size) <==> Closes(sn, frames, s, idx, k + 1, next, size))
                  && (Closes(sn, frames, s, idx, k, pos, size) ==>
                        CloseEnd(sn, frames, s, idx, k, pos, size) == CloseEnd(sn, frames, s, idx, k + 1, next, size)))
  {
    hide Gap, Sender.SeqNo;
  }

  /** The collecting loop over one arrival. */
  lemma CollectStep(sn: Sender, frames: seq<seq<Octet>>, s: seq<Sent>, idx: seq<nat>, k: nat,
                    buf: seq<Octet>, pos: nat, size: nat) returns (buf': seq<Octet>)
    requires Channel(sn, frames, s, idx) && k + 1 < |idx| && pos < size <= |buf|
    ensures idx[k + 1] < |s| && s[idx[k + 1]].id < |frames| && size <= |buf'|
    ensures var c := Collect(buf, pos, size, sn.SeqNo(idx[k]), Inbox(s, idx, k + 1));
            var gap, last := Gap(sn.SeqNo(idx[k]), sn.SeqNo(idx[k + 1])), Last(sn, frames, s[idx[k + 1]]);
            var next := pos + sn.payload;
            && (gap || (!last && next >= size) ==> c.status == InvalidFrame && c.rest == Inbox(s, idx, k + 2))
            && (!gap && last ==> c.status == Ok && c.rest == Inbox(s, idx, k + 2))
            && (!gap && !last && next < size ==>
                  c == Collect(buf', next, size, sn.SeqNo(idx[k + 1]), Inbox(s, idx, k + 2)))
  {
    hide Collect, Channel, Inbox, Overlay, Sender.SeqNo, Gap, SeqOf, EndOfFrame, Delivery, IdsOk, Last, StreamOk;
    ChannelParts(sn, frames, s, idx);
    InboxStep(s, idx, k + 1);
    ArrivalOk(sn, frames, s, idx, k + 1);
    var inbox := Inbox(s, idx, k + 1);
    var n: nat := Min(size - pos, sn.payload);
    CollectOne(buf, pos, size, sn.SeqNo(idx[k]), inbox);
    buf' := Overlay(buf, pos, inbox[0].bytes[RTP_HEADERS_LENGTH..RTP_HEADERS_LENGTH + n]);
  }

  lemma CloseNow(sn: Sender, frames: seq<seq<Octet>>, s: seq<Sent>, idx: seq<nat>, k: nat,
                 buf: seq<Octet>, pos: nat, size: nat)
    requires Delivery(s, idx) && IdsOk(frames, s) && k < |idx| && (pos >= size || k + 1 == |idx|) && size <= |buf|
    ensures ClosedAs(sn, frames, s, idx, k, pos, size,
                     Collect(buf, pos, size, sn.SeqNo(idx[k]), Inbox(s, idx, k + 1)), k + 1)
  {
  }

  /** Whatever was lost, the loop succeeds exactly when what it goes by says so, and then stops behind a marker. */
  lemma {:induction false} CollectCloses(sn: Sender, frames: seq<seq<Octet>>, s: seq<Sent>, idx: seq<nat>, k: nat,
                                         buf: seq<Octet>, pos: nat, size: nat) returns (k': nat)
    requires Channel(sn, frames, s, idx) && k < |idx| && size <= |buf|
    ensures ClosedAs(sn, frames, s, idx, k, pos, size,
                     Collect(buf, pos, size, sn.SeqNo(idx[k]), Inbox(s, idx, k + 1)), k')
    decreases |idx| - k
  {
    hide Collect, Channel, Inbox, Sender.SeqNo, Gap, Delivery, IdsOk, Last, Closes, CloseEnd, StreamOk;
    ChannelParts(sn, frames, s, idx);
    if pos >= size || k + 1 == |idx| {
      CloseNow(sn, frames, s, idx, k, buf, pos, size);
      k' := k + 1;
    } else {
      var buf' := CollectStep(sn, frames, s, idx, k, buf, pos, size);
      CloseStep(sn, frames, s, idx, k, pos, size);
      k' := k + 2;
      var next := pos + sn.payload;
      if !Gap(sn.SeqNo(idx[k]), sn.SeqNo(idx[k + 1])) && !Last(sn, frames, s[idx[k + 1]]) && next < size {
        k' := CollectCloses(sn, frames, s, idx, k + 1, buf', next, size);
      }
    }
  }

  /** The loop succeeds on the frame of packet idx[k], entered right behind it. */
  predicate FrameCloses(sn: Sender, frames: seq<seq<Octet>>, s: seq<Sent>, idx: seq<nat>, k: nat)
    requires Delivery(s, idx) && k < |idx| && IdsOk(frames, s)
  {
    Closes(sn, frames, s, idx, k, s[idx[k]].pos + sn.payload, |frames[s[idx[k]].id]|)
  }

  function FrameCloseEnd(sn: Sender, frames: seq<seq<Octet>>, s: seq<Sent>, idx: seq<nat>, k: nat): (e: nat)
    requires Delivery(s, idx) && k < |idx| && IdsOk(frames, s) && FrameCloses(sn, frames, s, idx, k)
    ensures k < e <= |idx| && Last(sn, frames, s[idx[e - 1]])
  {
    CloseEnd(sn, frames, s, idx, k, s[idx[k]].pos + sn.payload, |frames[s[idx[k]].id]|)
  }

  lemma MustArrive(sn: Sender, frames: seq<seq<Octet>>, s: seq<Sent>, idx: seq<nat>, k: nat, pos: nat, size: nat)
    requires Delivery(s, idx) && k < |idx| && IdsOk(frames, s) && Closes(sn, frames, s, idx, k, pos, size) && pos < size
    ensures k + 1 < |idx|
  {
  }

  lemma ClosedAlready(sn: Sender, frames: seq<seq<Octet>>, s: seq<Sent>, idx: seq<nat>, k: nat, pos: nat, size: nat)
    requires Delivery(s, idx) && k < |idx| && IdsOk(frames, s)
    ensures pos >= size ==>
              Closes(sn, frames, s, idx, k, pos, size) && CloseEnd(sn, frames, s, idx, k, pos, size) == k + 1
  {
  }

  lemma LaterLosses(sn: Sender, idx: seq<nat>, k: nat, k': nat)
    requires SeenLosses(sn, idx, k, k')
    ensures SeenLosses(sn, idx, k + 1, k')
  {
    hide NextOrGap;
  }

  /** One packet further, when no loss is hidden: the packet that arrived is the next one. */
  lemma SeenStep(sn: Sender, frames: seq<seq<Octet>>, s: seq<Sent>, idx: seq<nat>, k: nat)
    requires Channel(sn, frames, s, idx) && k < |idx| && !Last(sn, frames, s[idx[k]])
    requires FrameCloses(sn, frames, s, idx, k) && SeenLosses(sn, idx, k, FrameCloseEnd(sn, frames, s, idx, k))
    ensures k + 1 < |idx| && idx[k + 1] == idx[k] + 1
    ensures FrameCloses(sn, frames, s, idx, k + 1)
    ensures SeenLosses(sn, idx, k + 1, FrameCloseEnd(sn, frames, s, idx, k + 1))
  {
    hide Channel, Delivery, IdsOk, Sender.SeqNo, PacketOk, StreamOk, Gap, Closes, CloseEnd;
    ChannelParts(sn, frames, s, idx);
    ArrivalOk(sn, frames, s, idx, k);
    MustArrive(sn, frames, s, idx, k, s[idx[k]].pos + sn.payload, |frames[s[idx[k]].id]|);
    ArrivalOk(sn, frames, s, idx, k + 1);
    CloseStep(sn, frames, s, idx, k, s[idx[k]].pos + sn.payload, |frames[s[idx[k]].id]|);
    assert NextOrGap(sn, idx, k + 1);
    NextArrival(sn, frames, s, idx, k);
    ClosedAlready(sn, frames, s, idx, k + 1, s[idx[k + 1]].pos + sn.payload, |frames[s[idx[k]].id]|);
    hide SeenLosses;
    LaterLosses(sn, idx, k, FrameCloseEnd(sn, frames, s, idx, k));
  }

  /** So if it succeeds without a hidden loss, the rest of the frame did arrive. */
  lemma {:induction false} ClosesSeen(sn: Sender, frames: seq<seq<Octet>>, s: seq<Sent>, idx: seq<nat>, k: nat)
    requires Channel(sn, frames, s, idx) && k < |idx|
    requires FrameCloses(sn, frames, s, idx, k) && SeenLosses(sn, idx, k, FrameCloseEnd(sn, frames, s, idx, k))
    ensures Intact(sn, frames, s, idx, k)
    decreases |idx| - k
  {
    hide Channel, Delivery, IdsOk, FrameCloses, FrameCloseEnd, SeenLosses, Last, StreamOk;
    ChannelParts(sn, frames, s, idx);
    if !Last(sn, frames, s[idx[k]]) {
      SeenStep(sn, frames, s, idx, k);
      ClosesSeen(sn, frames, s, idx, k + 1);
    }
  }

  lemma SeenMore(sn: Sender, idx: seq<nat>, k: nat, k': nat)
    requires k + 1 < |idx| && NextOrGap(sn, idx, k + 1) && SeenLosses(sn, idx, k + 1, k')
    ensures SeenLosses(sn, idx, k, k')
  {
    hide NextOrGap;
  }

  lemma EndsLater(sn: Sender, frames: seq<seq<Octet>>, s: seq<Sent>, idx: seq<nat>, k: nat)
    requires Delivery(s, idx) && k < |idx| && IdsOk(frames, s) && !Last(sn, frames, s[idx[k]])
    requires Intact(sn, frames, s, idx, k)
    ensures k + 1 < |idx| && idx[k + 1] == idx[k] + 1 && Intact(sn, frames, s, idx, k + 1)
    ensures EndOf(sn, frames, s, idx, k) == EndOf(sn, frames, s, idx, k + 1)
  {
  }

  /** One packet further in an intact frame. */
  lemma IntactStep(sn: Sender, frames: seq<seq<Octet>>, s: seq<Sent>, idx: seq<nat>, k: nat)
    requires Channel(sn, frames, s, idx) && k < |idx| && Intact(sn, frames, s, idx, k) && !Last(sn, frames, s[idx[k]])
    ensures k + 1 < |idx| && Intact(sn, frames, s, idx, k + 1) && NextOrGap(sn, idx, k + 1)
    ensures EndOf(sn, frames, s, idx, k) == EndOf(sn, frames, s, idx, k + 1)
    ensures FrameCloses(sn, frames, s, idx, k) <==> FrameCloses(sn, frames, s, idx, k + 1)
    ensures FrameCloses(sn, frames, s, idx, k) ==>
              FrameCloseEnd(sn, frames, s, idx, k) == FrameCloseEnd(sn, frames, s, idx, k + 1)
  {
    hide Channel, Delivery, IdsOk, Sender.SeqNo, PacketOk, StreamOk, Gap, Closes, CloseEnd, Intact, EndOf;
    ChannelParts(sn, frames, s, idx);
    EndsLater(sn, frames, s, idx, k);
    ArrivalOk(sn, frames, s, idx, k);
    ArrivalOk(sn, frames, s, idx, k + 1);
    NextArrival(sn, frames, s, idx, k);
    CloseStep(sn, frames, s, idx, k, s[idx[k]].pos + sn.payload, |frames[s[idx[k]].id]|);
    ClosedAlready(sn, frames, s, idx, k + 1, s[idx[k + 1]].pos + sn.payload, |frames[s[idx[k]].id]|);
  }

  /** A frame that arrives closes at its end, and none of its losses is hidden, as it has none. */
  lemma {:induction false} IntactCloses(sn: Sender, frames: seq<seq<Octet>>, s: seq<Sent>, idx: seq<nat>, k: nat)
    requires Channel(sn, frames, s, idx) && k < |idx| && Intact(sn, frames, s, idx, k)
    ensures FrameCloses(sn, frames, s, idx, k)
    ensures FrameCloseEnd(sn, frames, s, idx, k) == EndOf(sn, frames, s, idx, k)
    ensures SeenLosses(sn, idx, k, EndOf(sn, frames, s, idx, k))
    decreases |idx| - k
  {
    if Last(sn, frames, s[idx[k]]) {
      ClosedAlready(sn, frames, s, idx, k, s[idx[k]].pos + sn.payload, |frames[s[idx[k]].id]|);
    } else {
      IntactStep(sn, frames, s, idx, k);
      hide Channel, Delivery, IdsOk, FrameCloses, FrameCloseEnd, SeenLosses, Last, StreamOk, Intact, EndOf, NextOrGap;
      IntactCloses(sn, frames, s, idx, k + 1);
      SeenMore(sn, idx, k, EndOf(sn, frames, s, idx, k));
    }
  }

  /** When the loop succeeds, the rest of the frame has arrived exactly if no loss among its packets is hidden. */
  lemma IntactIffSeen(sn: Sender, frames: seq<seq<Octet>>, s: seq<Sent>, idx: seq<nat>, k: nat)
    requires Channel(sn, frames, s, idx) && k < |idx| && FrameCloses(sn, frames, s, idx, k)
    ensures Intact(sn, frames, s, idx, k) <==> SeenLosses(sn, idx, k, FrameCloseEnd(sn, frames, s, idx, k))
  {
    hide FrameCloses, FrameCloseEnd, SeenLosses, Intact, EndOf, StreamOk, Last;
    if Intact(sn, frames, s, idx, k) {
      IntactCloses(sn, frames, s, idx, k);
    } else if SeenLosses(sn, idx, k, FrameCloseEnd(sn, frames, s, idx, k)) {
      ClosesSeen(sn, frames, s, idx, k);
    }
  }

  lemma NextIsNoGap(sn: Sender, g: nat)
    requires sn.Valid()
    ensures !Gap(sn.SeqNo(g), sn.SeqNo(g + 1))
  {
  }
}
