/** The end-to-end guarantees of packetizer, lossy channel and receiver, and where they stop. */
module RtpEndToEnd {
  import opened Wrappers
  import opened RtpPacket
  import opened Reassembly
  import opened RtpStream

  /** The frame object can take the first payload of any frame of this sender. */
  predicate Room(sn: Sender, o: FrameObj) { ObjOk(o) && (o.frameSize > 0 ==> |o.buf| >= sn.payload) }

  /** Growing the buffer to this frame's size will not lose bytes of the first payload. */
  predicate Keeps(sn: Sender, o: FrameObj, size: nat)
  {
    o.frameSize <= 0 || o.frameSize >= sn.payload || size <= |o.buf|
  }

  lemma RoomFits(sn: Sender, frames: seq<seq<Octet>>, s: seq<Sent>, idx: seq<nat>, k: nat, o: FrameObj)
    requires Channel(sn, frames, s, idx) && k <= |idx| && Room(sn, o)
    ensures ObjOk(o) && Fits(o, Inbox(s, idx, k))
  {
    hide StreamOk, SeqOf, EndOfFrame, Last, Sender.SeqNo;
    if k < |idx| {
      ArrivalOk(sn, frames, s, idx, k);
    }
  }

  /** The buffer after the first payload was copied, its header restamped, and room for the frame made. */
  function FirstBuffer(o: FrameObj, payload: seq<Octet>, stamped: seq<Octet>, g: seq<Octet>, size: nat): (b: seq<Octet>)
    requires ObjOk(o) && |payload| <= |o.buf| && HEADER <= |o.buf| && size > 0
    requires |stamped| == HEADER
    ensures size <= |b|
  {
    var b2 := Overlay(o.buf, 0, payload);
    InitBuffer(o.(buf := Overlay(b2, 0, stamped)), size, g).buf
  }

  lemma FirstBufferCarries(o: FrameObj, payload: seq<Octet>, stamped: seq<Octet>, g: seq<Octet>, f: seq<Octet>, n: nat)
    requires ObjOk(o) && |payload| <= |o.buf| && HEADER <= n <= |payload| && n <= |f| && payload[..n] == f[..n]
    requires |stamped| == HEADER
    requires o.frameSize >= n || |f| <= |o.buf|
    ensures Carries(FirstBuffer(o, payload, stamped, g, |f|), f, n)
  {
    var b2 := Overlay(o.buf, 0, payload);
    var b3 := Overlay(b2, 0, stamped);
    var b := FirstBuffer(o, payload, stamped, g, |f|);
    forall i | HEADER <= i < n ensures b[i] == f[i] {
      assert b3[i] == b2[i] == payload[i] == payload[..n][i] == f[..n][i];
    }
  }

  /** createFrameFromUDP, once the first packet turned out to start a frame of this size. */
  lemma CreateUnfold(o: FrameObj, inbox: seq<Datagram>, stamped: seq<Octet>, g: seq<Octet>, size: nat)
    requires ObjOk(o) && Fits(o, inbox) && |stamped| == HEADER
    requires inbox != [] && inbox[0].Data? && |inbox[0].bytes| >= RTP_HEADERS_LENGTH + HEADER
    requires MediaSize(inbox[0].bytes[RTP_HEADERS_LENGTH..RTP_HEADERS_LENGTH + HEADER]) == Some(size - HEADER)
    requires size > 0
    ensures var p, o1 := inbox[0].bytes, Ready(o, g);
            var payload := p[RTP_HEADERS_LENGTH..];
            && |payload| <= |o1.buf| && HEADER <= |o1.buf|
            && var c := Collect(FirstBuffer(o1, payload, stamped, g, size), |payload|, size, SeqOf(p), inbox[1..]);
               CreateFrame(o, inbox, stamped, g) == Created(c.status, FrameObj(c.buf, size), c.rest)
  {
    hide Collect, MediaSize, SeqOf;
    var p, o1 := inbox[0].bytes, Ready(o, g);
    var payload := p[RTP_HEADERS_LENGTH..];
    assert Overlay(o1.buf, 0, payload)[..HEADER] == p[RTP_HEADERS_LENGTH..RTP_HEADERS_LENGTH + HEADER];
  }

  /** A payload that is no header is dropped, and only that packet. */
  lemma CreateRejects(o: FrameObj, inbox: seq<Datagram>, stamped: seq<Octet>, g: seq<Octet>)
    requires ObjOk(o) && Fits(o, inbox) && |stamped| == HEADER
    requires inbox != [] && inbox[0].Data? && |inbox[0].bytes| >= RTP_HEADERS_LENGTH + HEADER
    requires MediaSize(inbox[0].bytes[RTP_HEADERS_LENGTH..RTP_HEADERS_LENGTH + HEADER]) == None
    ensures var c := CreateFrame(o, inbox, stamped, g); c.status == InvalidFrame && c.rest == inbox[1..]
  {
    hide Collect, MediaSize, SeqOf;
    var p, o1 := inbox[0].bytes, Ready(o, g);
    var payload := p[RTP_HEADERS_LENGTH..];
    assert Overlay(o1.buf, 0, payload)[..HEADER] == p[RTP_HEADERS_LENGTH..RTP_HEADERS_LENGTH + HEADER];
  }

  /**
   The outcome of reading a frame that starts with arrival k, with k' arrivals consumed: OK exactly if the
   loop's own tests pass, and then it stands behind a marker; OK with the frame if all of it arrives; and OK
   without a hidden loss only then.
   */
  predicate CreatedAs(sn: Sender, frames: seq<seq<Octet>>, s: seq<Sent>, idx: seq<nat>, k: nat, c: Created, k': nat)
    requires Delivery(s, idx) && k < |idx| && IdsOk(frames, s)
  {
    var f := frames[s[idx[k]].id];
    && k < k' <= |idx|
    && c.rest == Inbox(s, idx, k')
    && (c.status == Ok <==> FrameCloses(sn, frames, s, idx, k))
    && (c.status == Ok ==> k' == FrameCloseEnd(sn, frames, s, idx, k))
    && (Intact(sn, frames, s, idx, k) ==>
          && c.status == Ok && k' == EndOf(sn, frames, s, idx, k)
          && c.obj.frameSize == |f| && Carries(c.obj.buf, f, |f|))
  }

  /** What the first packet of a frame does to the object, before the rest is collected. */
  lemma FirstPacket(sn: Sender, frames: seq<seq<Octet>>, s: seq<Sent>, idx: seq<nat>, k: nat,
                    o: FrameObj, stamped: seq<Octet>, g: seq<Octet>) returns (b: seq<Octet>)
    requires Channel(sn, frames, s, idx) && k < |idx| && s[idx[k]].pos == 0
    requires Room(sn, o) && Keeps(sn, o, |frames[s[idx[k]].id]|) && |stamped| == HEADER
    ensures Fits(o, Inbox(s, idx, k))
    ensures var f := frames[s[idx[k]].id];
            && |f| <= |b| && Carries(b, f, Min(|f|, sn.payload))
            && var c := Collect(b, sn.payload, |f|, sn.SeqNo(idx[k]), Inbox(s, idx, k + 1));
               CreateFrame(o, Inbox(s, idx, k), stamped, g) == Created(c.status, FrameObj(c.buf, |f|), c.rest)
  {
    hide Collect, MediaSize, SeqOf, EndOfFrame, Overlay, FirstBuffer, CreateFrame, MidFramesUnlikeHeaders, Sender.SeqNo,
         Channel, StreamOk, Delivery, IdsOk, Fits, Inbox, PacketOk;
    ChannelParts(sn, frames, s, idx);
    RoomFits(sn, frames, s, idx, k, o);
    InboxStep(s, idx, k);
    ArrivalPacket(sn, frames, s, idx, k);
    var e := s[idx[k]];
    var f, p, o1 := frames[e.id], e.bytes, Ready(o, g);
    PacketFields(sn, frames, e, idx[k]);
    var n: nat := Min(|f|, sn.payload);
    assert f[0..0 + n] == f[..n];
    HeaderInFirst(f, p, n);
    CreateUnfold(o, Inbox(s, idx, k), stamped, g, |f|);
    var payload := p[RTP_HEADERS_LENGTH..];
    assert payload[..n] == p[RTP_HEADERS_LENGTH..RTP_HEADERS_LENGTH + n];
    FirstBufferCarries(o1, payload, stamped, g, f, n);
    b := FirstBuffer(o1, payload, stamped, g, |f|);
  }

  lemma ArrivalPacket(sn: Sender, frames: seq<seq<Octet>>, s: seq<Sent>, idx: seq<nat>, k: nat)
    requires Channel(sn, frames, s, idx) && k < |idx|
    ensures idx[k] < |s| && PacketOk(sn, frames, s[idx[k]], idx[k])
    ensures s[idx[k]].id < |frames| && GoodFrame(frames[s[idx[k]].id])
  {
    hide GoodFrame;
  }

  /** Reading at the first packet of a frame. */
  lemma CreateFromFirst(sn: Sender, frames: seq<seq<Octet>>, s: seq<Sent>, idx: seq<nat>, k: nat,
                        o: FrameObj, stamped: seq<Octet>, g: seq<Octet>) returns (k': nat)
    requires Channel(sn, frames, s, idx) && k < |idx| && s[idx[k]].pos == 0
    requires Room(sn, o) && Keeps(sn, o, |frames[s[idx[k]].id]|) && |stamped| == HEADER
    ensures Fits(o, Inbox(s, idx, k))
    ensures CreatedAs(sn, frames, s, idx, k, CreateFrame(o, Inbox(s, idx, k), stamped, g), k')
  {
    hide Channel, StreamOk, Delivery, IdsOk, Fits, Inbox, CreateFrame, Collect, Carries, Closes, CloseEnd, Room, Keeps,
         Sender.SeqNo;
    ChannelParts(sn, frames, s, idx);
    ArrivalOk(sn, frames, s, idx, k);
    var b := FirstPacket(sn, frames, s, idx, k, o, stamped, g);
    var size := |frames[s[idx[k]].id]|;
    k' := CollectCloses(sn, frames, s, idx, k, b, sn.payload, size);
    if size <= sn.payload {
      CollectNothing(b, sn.payload, size, sn.SeqNo(idx[k]), Inbox(s, idx, k + 1));
      ClosedAlready(sn, frames, s, idx, k, sn.payload, size);
    } else if Intact(sn, frames, s, idx, k) {
      var b' := CollectIntact(sn, frames, s, idx, k, b);
      SameInbox(s, idx, k', EndOf(sn, frames, s, idx, k));
    }
  }

  lemma SameInbox(s: seq<Sent>, idx: seq<nat>, a: nat, b: nat)
    requires Delivery(s, idx) && a <= |idx| && b <= |idx|
    ensures |Inbox(s, idx, a)| == |Inbox(s, idx, b)| ==> a == b
  {
  }

  lemma CollectNothing(buf: seq<Octet>, pos: nat, size: nat, last: int, inbox: seq<Datagram>)
    requires size <= |buf| && size <= pos
    ensures Collect(buf, pos, size, last, inbox) == Collected(Ok, buf, inbox)
  {
  }

  lemma HeaderInFirst(f: seq<Octet>, p: seq<Octet>, n: nat)
    requires GoodFrame(f) && HEADER <= n <= |f| && |p| >= RTP_HEADERS_LENGTH + n
    requires p[RTP_HEADERS_LENGTH..RTP_HEADERS_LENGTH + n] == f[..n]
    ensures MediaSize(p[RTP_HEADERS_LENGTH..RTP_HEADERS_LENGTH + HEADER]) == Some(|f| - HEADER)
  {
    hide MediaSize;
    assert p[RTP_HEADERS_LENGTH..RTP_HEADERS_LENGTH + HEADER] == f[..n][..HEADER] == f[..HEADER];
  }

  /** Reading in the middle of a frame fails at once. */
  lemma CreateFromMiddle(sn: Sender, frames: seq<seq<Octet>>, s: seq<Sent>, idx: seq<nat>, k: nat,
                         o: FrameObj, stamped: seq<Octet>, g: seq<Octet>)
    requires Channel(sn, frames, s, idx) && k < |idx| && s[idx[k]].pos > 0 && MidFramesUnlikeHeaders(s)
    requires Room(sn, o) && |stamped| == HEADER
    ensures Fits(o, Inbox(s, idx, k))
    ensures var c := CreateFrame(o, Inbox(s, idx, k), stamped, g);
            c.status == InvalidFrame && c.rest == Inbox(s, idx, k + 1)
  {
    hide Collect, MediaSize, SeqOf, Overlay, CreateFrame;
    RoomFits(sn, frames, s, idx, k, o);
    InboxStep(s, idx, k);
    assert PacketOk(sn, frames, s[idx[k]], idx[k]);
    CreateRejects(o, Inbox(s, idx, k), stamped, g);
  }

  /** A frame boundary: the arrival before k ends a frame. */
  predicate AtBoundary(sn: Sender, frames: seq<seq<Octet>>, s: seq<Sent>, idx: seq<nat>, k: nat)
  {
    0 < k <= |idx| && idx[k - 1] < |s| && s[idx[k - 1]].id < |frames| && Last(sn, frames, s[idx[k - 1]])
  }

  /** The frame whose end is the arrival before k. */
  function FrameBehind(s: seq<Sent>, idx: seq<nat>, k: nat): nat
  {
    if 0 < k <= |idx| && idx[k - 1] < |s| then s[idx[k - 1]].id else 0
  }

  /** k is a frame boundary, and the object holds exactly the media bytes of the frame that ends there. */
  predicate HoldsFrameBehind(sn: Sender, frames: seq<seq<Octet>>, s: seq<Sent>, idx: seq<nat>, o: FrameObj, k: nat)
  {
    && AtBoundary(sn, frames, s, idx, k)
    && FrameBehind(s, idx, k) < |frames| && Whole(o, frames[FrameBehind(s, idx, k)])
  }

  /** Between two reads: the pin waits for a boundary, or stands at one. */
  predicate Aligned(sn: Sender, frames: seq<seq<Octet>>, s: seq<Sent>, idx: seq<nat>, k: nat, waiting: bool)
  {
    k <= |idx| && (!waiting ==> AtBoundary(sn, frames, s, idx, k))
  }

  /** An object holds exactly the media bytes of a frame. */
  predicate Whole(o: FrameObj, f: seq<Octet>) { o.frameSize == |f| && Carries(o.buf, f, |f|) }

  /** What waiting from arrival k on has done when k' arrivals are consumed: stopped behind the first end of a frame. */
  predicate SkippedAs(sn: Sender, frames: seq<seq<Octet>>, s: seq<Sent>, idx: seq<nat>, k: nat, started: bool,
                      r: (Status, seq<Datagram>), k': nat)
    requires Delivery(s, idx) && IdsOk(frames, s)
  {
    && k <= k' <= |idx| && r.1 == Inbox(s, idx, k')
    && (r.0 == Ok ==> started && k < k' && AtBoundary(sn, frames, s, idx, k'))
  }

  lemma {:induction false} SkipStops(sn: Sender, frames: seq<seq<Octet>>, s: seq<Sent>, idx: seq<nat>, k: nat,
                                     started: bool, stale: Octet) returns (k': nat)
    requires Channel(sn, frames, s, idx) && k <= |idx|
    ensures SkippedAs(sn, frames, s, idx, k, started, SkipToMarker(Inbox(s, idx, k), started, stale), k')
    decreases |idx| - k
  {
    hide EndOfFrame, Channel, StreamOk, Delivery, IdsOk, Inbox, Last, SkipToMarker, SeqOf, Sender.SeqNo;
    ChannelParts(sn, frames, s, idx);
    if k == |idx| {
      SkipNothing(Inbox(s, idx, k), started, stale);
      k' := k;
    } else {
      InboxStep(s, idx, k);
      ArrivalOk(sn, frames, s, idx, k);
      SkipUnfold(Inbox(s, idx, k), started, stale);
      if !started || Last(sn, frames, s[idx[k]]) {
        k' := k + 1;
      } else {
        k' := SkipStops(sn, frames, s, idx, k + 1, started, s[idx[k]].bytes[1]);
      }
    }
  }

  /** From the start of an intact frame, waiting skips exactly that frame. */
  lemma {:induction false} SkipIntact(sn: Sender, frames: seq<seq<Octet>>, s: seq<Sent>, idx: seq<nat>, k: nat,
                                      stale: Octet)
    requires Channel(sn, frames, s, idx) && k < |idx| && Intact(sn, frames, s, idx, k)
    ensures SkipToMarker(Inbox(s, idx, k), true, stale) == (Ok, Inbox(s, idx, EndOf(sn, frames, s, idx, k)))
    decreases |idx| - k
  {
    hide EndOfFrame, Channel, StreamOk, Delivery, IdsOk, Inbox, Last, SkipToMarker, SeqOf, Sender.SeqNo;
    ChannelParts(sn, frames, s, idx);
    InboxStep(s, idx, k);
    ArrivalOk(sn, frames, s, idx, k);
    SkipUnfold(Inbox(s, idx, k), true, stale);
    if !Last(sn, frames, s[idx[k]]) { SkipIntact(sn, frames, s, idx, k + 1, s[idx[k]].bytes[1]); }
  }

  lemma SkipNothing(inbox: seq<Datagram>, started: bool, stale: Octet)
    requires inbox == []
    ensures SkipToMarker(inbox, started, stale) == (ConnectionClosed, inbox)
  {
  }

  lemma SkipUnfold(inbox: seq<Datagram>, started: bool, stale: Octet)
    requires inbox != [] && inbox[0].Data? && |inbox[0].bytes| >= 2
    ensures SkipToMarker(inbox, started, stale)
         == if !started then (ConnectionClosed, inbox[1..])
            else if EndOfFrame(inbox[0].bytes) then (Ok, inbox[1..])
            else SkipToMarker(inbox[1..], started, inbox[0].bytes[1])
  {
  }

  lemma SuccessorFollows(sn: Sender, frames: seq<seq<Octet>>, s: seq<Sent>, g: nat)
    requires sn.Valid() && StreamOk(sn, frames, s) && IdsOk(frames, s) && 0 < g < |s|
    ensures Follows(sn, frames, s[g - 1], s[g])
  {
    assert Continues(sn, frames, s, g);
  }

  lemma NextInFrame(sn: Sender, frames: seq<seq<Octet>>, s: seq<Sent>, idx: seq<nat>, k: nat)
    requires Channel(sn, frames, s, idx) && k + 1 < |idx| && idx[k + 1] == idx[k] + 1
    requires idx[k] < |s| && s[idx[k]].id < |frames| && !Last(sn, frames, s[idx[k]])
    ensures idx[k + 1] < |s| && s[idx[k + 1]].id == s[idx[k]].id
  {
    hide Channel, StreamOk, Delivery, IdsOk, Last;
    ChannelParts(sn, frames, s, idx);
    ArrivalOk(sn, frames, s, idx, k + 1);
    SuccessorFollows(sn, frames, s, idx[k + 1]);
  }

  lemma EndsHere(sn: Sender, frames: seq<seq<Octet>>, s: seq<Sent>, idx: seq<nat>, k: nat)
    requires Delivery(s, idx) && k < |idx| && IdsOk(frames, s) && Last(sn, frames, s[idx[k]])
    ensures Intact(sn, frames, s, idx, k) && EndOf(sn, frames, s, idx, k) == k + 1
    ensures AtBoundary(sn, frames, s, idx, k + 1) && FrameBehind(s, idx, k + 1) == s[idx[k]].id
  {
  }

  /** The end of an intact frame is a boundary and belongs to the frame it started with. */
  lemma {:induction false} EndIsSameFrame(sn: Sender, frames: seq<seq<Octet>>, s: seq<Sent>, idx: seq<nat>, k: nat)
    requires Channel(sn, frames, s, idx) && k < |idx| && Intact(sn, frames, s, idx, k)
    ensures AtBoundary(sn, frames, s, idx, EndOf(sn, frames, s, idx, k))
    ensures FrameBehind(s, idx, EndOf(sn, frames, s, idx, k)) == s[idx[k]].id
    decreases |idx| - k
  {
    hide Channel, StreamOk, IdsOk, Delivery, Last, EndOf, Intact, AtBoundary, FrameBehind;
    ChannelParts(sn, frames, s, idx);
    ArrivalOk(sn, frames, s, idx, k);
    if Last(sn, frames, s[idx[k]]) {
      EndsHere(sn, frames, s, idx, k);
    } else {
      EndsLater(sn, frames, s, idx, k);
      NextInFrame(sn, frames, s, idx, k);
      EndIsSameFrame(sn, frames, s, idx, k + 1);
    }
  }

  /** The arrivals from one on up to another are all the packets of one frame. */
  predicate Complete(sn: Sender, frames: seq<seq<Octet>>, s: seq<Sent>, idx: seq<nat>, from: nat, to: nat)
  {
    && Delivery(s, idx) && IdsOk(frames, s) && from < |idx|
    && s[idx[from]].pos == 0 && Intact(sn, frames, s, idx, from) && EndOf(sn, frames, s, idx, from) == to
  }

  /** The outcome of createFrameFromUDP with k arrivals consumed before and k' after it. */
  predicate BoundaryRead(sn: Sender, frames: seq<seq<Octet>>, s: seq<Sent>, idx: seq<nat>, k: nat, c: Created, k': nat)
    requires Delivery(s, idx) && IdsOk(frames, s)
  {
    && k <= k' <= |idx| && c.rest == Inbox(s, idx, k')
    && (c.status == Ok <==> k < |idx| && s[idx[k]].pos == 0 && FrameCloses(sn, frames, s, idx, k))
    && (c.status == Ok ==>
          && k < k' && AtBoundary(sn, frames, s, idx, k')
          && (SeenLosses(sn, idx, k, k') <==> Complete(sn, frames, s, idx, k, k')))
    && (k < |idx| && s[idx[k]].pos == 0 && Intact(sn, frames, s, idx, k) ==>
          && c.status == Ok && HoldsFrameBehind(sn, frames, s, idx, c.obj, k')
          && FrameBehind(s, idx, k') == s[idx[k]].id)
  }

  lemma CreatedAtBoundary(sn: Sender, frames: seq<seq<Octet>>, s: seq<Sent>, idx: seq<nat>, k: nat, c: Created, k': nat)
    requires Channel(sn, frames, s, idx) && k < |idx| && s[idx[k]].pos == 0
    requires CreatedAs(sn, frames, s, idx, k, c, k')
    ensures BoundaryRead(sn, frames, s, idx, k, c, k')
  {
    hide Channel, StreamOk, Delivery, IdsOk, EndOf, Intact, Last, FrameBehind, Carries, Inbox, FrameCloses,
         FrameCloseEnd, SeenLosses;
    ChannelParts(sn, frames, s, idx);
    ArrivalOk(sn, frames, s, idx, k);
    if c.status == Ok {
      ArrivalOk(sn, frames, s, idx, k' - 1);
      IntactIffSeen(sn, frames, s, idx, k);
    }
    if Intact(sn, frames, s, idx, k) { EndIsSameFrame(sn, frames, s, idx, k); }
  }

  lemma CreateFromBoundary(sn: Sender, frames: seq<seq<Octet>>, s: seq<Sent>, idx: seq<nat>, k: nat,
                           o: FrameObj, stamped: seq<Octet>, g: seq<Octet>) returns (k': nat)
    requires Channel(sn, frames, s, idx) && k <= |idx|
    requires k == |idx| || s[idx[k]].pos == 0 || MidFramesUnlikeHeaders(s)
    requires Room(sn, o) && KeepsAll(sn, frames, o) && |stamped| == HEADER
    ensures Fits(o, Inbox(s, idx, k))
    ensures BoundaryRead(sn, frames, s, idx, k, CreateFrame(o, Inbox(s, idx, k), stamped, g), k')
  {
    hide CreateFrame, Channel, StreamOk, Inbox, Fits, CreatedAs, IdsOk, Delivery, Keeps, Room, AtBoundary, SeenLosses,
         FrameCloses, Intact, HoldsFrameBehind, FrameBehind;
    ChannelParts(sn, frames, s, idx);
    RoomFits(sn, frames, s, idx, k, o);
    if k == |idx| {
      k' := k;
      CreateFromNothing(o, Inbox(s, idx, k), stamped, g);
    } else if s[idx[k]].pos == 0 {
      ArrivalOk(sn, frames, s, idx, k);
      assert Keeps(sn, o, |frames[s[idx[k]].id]|);
      k' := CreateFromFirst(sn, frames, s, idx, k, o, stamped, g);
      CreatedAtBoundary(sn, frames, s, idx, k, CreateFrame(o, Inbox(s, idx, k), stamped, g), k');
    } else {
      k' := k + 1;
      CreateFromMiddle(sn, frames, s, idx, k, o, stamped, g);
    }
  }

  lemma CreateFromNothing(o: FrameObj, inbox: seq<Datagram>, stamped: seq<Octet>, g: seq<Octet>)
    requires ObjOk(o) && Fits(o, inbox) && inbox == [] && |stamped| == HEADER
    ensures var c := CreateFrame(o, inbox, stamped, g); c.status == ConnectionClosed && c.rest == inbox
  {
  }

  predicate KeepsAll(sn: Sender, frames: seq<seq<Octet>>, o: FrameObj)
  {
    forall j :: 0 <= j < |frames| ==> Keeps(sn, o, |frames[j]|)
  }

  /**
   The outcome of CInRTP::read with k arrivals consumed before and k' after it, of which the ones from
   arrival `from` on went into the frame.
   */
  predicate ReadAs(sn: Sender, frames: seq<seq<Octet>>, s: seq<Sent>, idx: seq<nat>, k: nat, r: ReadResult,
                   from: nat, k': nat)
    requires Delivery(s, idx)
  {
    && k <= from <= k' <= |idx| && r.rest == Inbox(s, idx, k')
    && Aligned(sn, frames, s, idx, k', r.pin.waiting)
    && (r.status == Ok ==> r.pin.valid && !r.pin.waiting && RightIfSeen(sn, frames, s, idx, r.obj, from, k'))
  }

  /**
   An OK read ends at a frame boundary. It took all the packets of the frame that ends there, and has that
   frame, exactly if no loss among the packets it took is hidden.
   */
  predicate RightIfSeen(sn: Sender, frames: seq<seq<Octet>>, s: seq<Sent>, idx: seq<nat>, o: FrameObj,
                        from: nat, k': nat)
  {
    && from < k' && AtBoundary(sn, frames, s, idx, k')
    && (SeenLosses(sn, idx, from, k') <==> Complete(sn, frames, s, idx, from, k'))
    && (SeenLosses(sn, idx, from, k') ==> HoldsFrameBehind(sn, frames, s, idx, o, k'))
  }

  lemma BoundaryIsRight(sn: Sender, frames: seq<seq<Octet>>, s: seq<Sent>, idx: seq<nat>, k: nat, c: Created, k': nat)
    requires Delivery(s, idx) && IdsOk(frames, s) && BoundaryRead(sn, frames, s, idx, k, c, k') && c.status == Ok
    ensures RightIfSeen(sn, frames, s, idx, c.obj, k, k')
  {
    hide Delivery, IdsOk, Intact, EndOf, AtBoundary, HoldsFrameBehind, SeenLosses, FrameCloses, FrameBehind, Inbox;
  }

  /** One call of CInRTP::read keeps the alignment, and returns OK only with a frame that was sent. */
  lemma ReadKeepsAligned(sn: Sender, frames: seq<seq<Octet>>, s: seq<Sent>, idx: seq<nat>, k: nat,
                         pin: Pin, o: FrameObj, stamped: seq<Octet>, g: seq<Octet>, opens: bool)
      returns (from: nat, k': nat)
    requires Channel(sn, frames, s, idx) && MidFramesUnlikeHeaders(s) && Aligned(sn, frames, s, idx, k, pin.waiting)
    requires Room(sn, o) && KeepsAll(sn, frames, o) && |stamped| == HEADER
    ensures ReadFits(pin, o, Inbox(s, idx, k), g, opens)
    ensures ReadAs(sn, frames, s, idx, k, ReadFrame(pin, o, Inbox(s, idx, k), stamped, g, opens), from, k')
  {
    hide CreateFrame, SkipToMarker, Channel, Inbox, Fits, Room, KeepsAll, StreamOk, IdsOk, Delivery, RightIfSeen,
         BoundaryRead, AtBoundary, MidFramesUnlikeHeaders;
    ChannelParts(sn, frames, s, idx);
    from, k' := k, k;
    if pin.waiting || !pin.valid {
      from := SkipStops(sn, frames, s, idx, k, pin.started, Leftover(g, 1));
      k' := from;
    }
    RoomFits(sn, frames, s, idx, from, o);
    if pin.valid || opens {
      if Wait(pin, Inbox(s, idx, k), g).0 == Ok {
        k' := CreateFromBoundary(sn, frames, s, idx, from, o, stamped, g);
        var c := CreateFrame(o, Inbox(s, idx, from), stamped, g);
        BoundaryParts(sn, frames, s, idx, from, c, k');
        if c.status == Ok { BoundaryIsRight(sn, frames, s, idx, from, c, k'); }
      }
    } else {
      from, k' := k, k;
    }
  }

  lemma BoundaryParts(sn: Sender, frames: seq<seq<Octet>>, s: seq<Sent>, idx: seq<nat>, k: nat, c: Created, k': nat)
    requires Delivery(s, idx) && IdsOk(frames, s) && BoundaryRead(sn, frames, s, idx, k, c, k')
    ensures k <= k' <= |idx| && c.rest == Inbox(s, idx, k')
    ensures c.status == Ok ==> AtBoundary(sn, frames, s, idx, k')
  {
  }

  /** One read of a run: the frame object it is given, and what the environment does before and during it. */
  datatype ReadIn = ReadIn(obj: FrameObj, garbage: seq<Octet>, stamped: seq<Octet>, opens: bool, started: bool,
                           closed: bool)

  function PinBefore(pin: Pin, e: ReadIn): Pin { pin.(started := e.started, valid := pin.valid && !e.closed) }

  /** A run of reads: each continues with the pin and the inbox the one before it left, start and stop intervening. */
  predicate IsRun(pin: Pin, inbox: seq<Datagram>, ins: seq<ReadIn>, rs: seq<ReadResult>)
    decreases |ins|
  {
    if ins == [] then rs == []
    else
      && rs != [] && ObjOk(ins[0].obj) && |ins[0].stamped| == HEADER
      && ReadFits(PinBefore(pin, ins[0]), ins[0].obj, inbox, ins[0].garbage, ins[0].opens)
      && rs[0] == ReadFrame(PinBefore(pin, ins[0]), ins[0].obj, inbox, ins[0].stamped, ins[0].garbage, ins[0].opens)
      && IsRun(rs[0].pin, rs[0].rest, ins[1..], rs[1..])
  }

  /** The frame objects handed to the reads can take the frames of this stream. */
  predicate ObjectsFit(sn: Sender, frames: seq<seq<Octet>>, ins: seq<ReadIn>)
  {
    forall i :: 0 <= i < |ins| ==> Room(sn, ins[i].obj) && KeepsAll(sn, frames, ins[i].obj)
  }

  /** Frame numbers only grow along the stream, and a frame's end is the last of it. */
  lemma {:induction false} IdsGrow(sn: Sender, frames: seq<seq<Octet>>, s: seq<Sent>, a: nat, b: nat)
    requires sn.Valid() && StreamOk(sn, frames, s) && IdsOk(frames, s) && a <= b < |s|
    ensures s[a].id <= s[b].id
    ensures a < b && Last(sn, frames, s[a]) ==> s[a].id < s[b].id
    decreases b
  {
    if a < b {
      SuccessorFollows(sn, frames, s, b);
      hide StreamOk;
      IdsGrow(sn, frames, s, a, b - 1);
    }
  }

  lemma {:induction false} DeliveryGrows(s: seq<Sent>, idx: seq<nat>, i: nat, j: nat)
    requires Delivery(s, idx) && i < j < |idx|
    ensures idx[i] < idx[j]
    decreases j
  {
    assert Later(idx, j);
    if i < j - 1 { DeliveryGrows(s, idx, i, j - 1); }
  }

  /** Which arrivals went into the frame of a read: from one on, up to another. */
  datatype Span = Span(from: nat, to: nat)

  /**
   The frames a run delivers. Each read consumed arrivals of its own, after those of the reads before it. An
   OK one ends where a frame ends, a later one each time. It took all the packets of that frame and no other
   exactly if no loss among its arrivals is hidden, and then it has the frame.
   */
  ghost predicate Sound(sn: Sender, frames: seq<seq<Octet>>, s: seq<Sent>, idx: seq<nat>, rs: seq<ReadResult>,
                        spans: seq<Span>, ids: seq<nat>)
  {
    && |spans| == |ids| == |rs|
    && (forall i :: 0 <= i < |rs| ==> SoundRead(sn, frames, s, idx, rs[i], spans[i], ids[i]))
    && (forall i, j :: 0 <= i < j < |rs| ==> spans[i].to <= spans[j].from)
    && (forall i, j :: 0 <= i < j < |rs| && rs[i].status == Ok && rs[j].status == Ok ==> ids[i] < ids[j])
  }

  predicate SoundRead(sn: Sender, frames: seq<seq<Octet>>, s: seq<Sent>, idx: seq<nat>, r: ReadResult, span: Span,
                      id: nat)
  {
    && span.from <= span.to == |idx| - |r.rest|
    && (r.status == Ok ==>
          && span.from < span.to && AtBoundary(sn, frames, s, idx, span.to)
          && id == FrameBehind(s, idx, span.to) && id < |frames|
          && (SeenLosses(sn, idx, span.from, span.to) <==> Complete(sn, frames, s, idx, span.from, span.to))
          && (SeenLosses(sn, idx, span.from, span.to) ==> Whole(r.obj, frames[id])))
  }

  /** A later boundary ends a later frame. */
  lemma BoundariesGrow(sn: Sender, frames: seq<seq<Octet>>, s: seq<Sent>, idx: seq<nat>, a: nat, b: nat)
    requires Channel(sn, frames, s, idx)
    requires AtBoundary(sn, frames, s, idx, a) && a < b <= |idx|
    ensures FrameBehind(s, idx, a) < FrameBehind(s, idx, b)
  {
    DeliveryGrows(s, idx, a - 1, b - 1);
    IdsGrow(sn, frames, s, idx[a - 1], idx[b - 1]);
  }

  /** The spans of a run's reads, one after the other. */
  predicate SpansOk(sn: Sender, frames: seq<seq<Octet>>, s: seq<Sent>, idx: seq<nat>, k: nat,
                    rs: seq<ReadResult>, spans: seq<Span>)
    decreases |rs|
  {
    if rs == [] then spans == []
    else
      && spans != [] && SpanOk(sn, frames, s, idx, k, rs[0], spans[0])
      && SpansOk(sn, frames, s, idx, spans[0].to, rs[1..], spans[1..])
  }

  predicate SpanOk(sn: Sender, frames: seq<seq<Octet>>, s: seq<Sent>, idx: seq<nat>, k: nat, r: ReadResult, span: Span)
  {
    && k <= span.from <= span.to == |idx| - |r.rest|
    && (r.status == Ok ==> RightIfSeen(sn, frames, s, idx, r.obj, span.from, span.to))
  }

  lemma {:induction false} RunSpans(sn: Sender, frames: seq<seq<Octet>>, s: seq<Sent>, idx: seq<nat>, k: nat,
                                    pin: Pin, ins: seq<ReadIn>, rs: seq<ReadResult>)
      returns (spans: seq<Span>)
    requires Channel(sn, frames, s, idx) && MidFramesUnlikeHeaders(s) && Aligned(sn, frames, s, idx, k, pin.waiting)
    requires ObjectsFit(sn, frames, ins)
    requires IsRun(pin, Inbox(s, idx, k), ins, rs)
    ensures SpansOk(sn, frames, s, idx, k, rs, spans)
    decreases |ins|
  {
    hide Channel, Inbox, ReadFrame, ReadFits, Room, KeepsAll, RightIfSeen, AtBoundary, Delivery, ObjOk, StreamOk, IdsOk,
         MidFramesUnlikeHeaders;
    ChannelParts(sn, frames, s, idx);
    if ins == [] {
      spans := [];
    } else {
      var e := ins[0];
      var pin1 := PinBefore(pin, e);
      var from, to := ReadKeepsAligned(sn, frames, s, idx, k, pin1, e.obj, e.stamped, e.garbage, e.opens);
      var more := RunSpans(sn, frames, s, idx, to, rs[0].pin, ins[1..], rs[1..]);
      spans := [Span(from, to)] + more;
      assert spans[1..] == more;
    }
  }

  lemma {:induction false} SpanOfRead(sn: Sender, frames: seq<seq<Octet>>, s: seq<Sent>, idx: seq<nat>, k: nat,
                                      rs: seq<ReadResult>, spans: seq<Span>, i: nat)
    requires SpansOk(sn, frames, s, idx, k, rs, spans) && i < |rs|
    ensures i < |spans| && SpanOk(sn, frames, s, idx, k, rs[i], spans[i])
    decreases i
  {
    hide RightIfSeen;
    if i > 0 { SpanOfRead(sn, frames, s, idx, spans[0].to, rs[1..], spans[1..], i - 1); }
  }

  lemma {:induction false} SpansFollow(sn: Sender, frames: seq<seq<Octet>>, s: seq<Sent>, idx: seq<nat>, k: nat,
                                       rs: seq<ReadResult>, spans: seq<Span>, i: nat, j: nat)
    requires SpansOk(sn, frames, s, idx, k, rs, spans) && i < j < |rs|
    ensures j < |spans| && spans[i].to <= spans[j].from
    decreases i
  {
    hide RightIfSeen;
    if i == 0 {
      SpanOfRead(sn, frames, s, idx, spans[0].to, rs[1..], spans[1..], j - 1);
    } else {
      SpansFollow(sn, frames, s, idx, spans[0].to, rs[1..], spans[1..], i - 1, j - 1);
    }
  }

  lemma {:induction false} SpansCount(sn: Sender, frames: seq<seq<Octet>>, s: seq<Sent>, idx: seq<nat>, k: nat,
                                      rs: seq<ReadResult>, spans: seq<Span>)
    requires SpansOk(sn, frames, s, idx, k, rs, spans)
    ensures |spans| == |rs|
    decreases |rs|
  {
    hide SpanOk;
    if rs != [] { SpansCount(sn, frames, s, idx, spans[0].to, rs[1..], spans[1..]); }
  }

  lemma SpanIsSound(sn: Sender, frames: seq<seq<Octet>>, s: seq<Sent>, idx: seq<nat>, r: ReadResult, span: Span)
    requires SpanOk(sn, frames, s, idx, 0, r, span)
    ensures SoundRead(sn, frames, s, idx, r, span, FrameBehind(s, idx, span.to))
  {
    hide SeenLosses, Whole, Last, Complete;
  }

  lemma ReadsAreOrdered(sn: Sender, frames: seq<seq<Octet>>, s: seq<Sent>, idx: seq<nat>, r: ReadResult, r': ReadResult,
                        span: Span, span': Span)
    requires Channel(sn, frames, s, idx) && span.to <= span'.from
    requires SpanOk(sn, frames, s, idx, 0, r, span) && SpanOk(sn, frames, s, idx, 0, r', span')
    requires r.status == Ok && r'.status == Ok
    ensures FrameBehind(s, idx, span.to) < FrameBehind(s, idx, span'.to)
  {
    hide Channel, SeenLosses, HoldsFrameBehind, AtBoundary, FrameBehind;
    BoundariesGrow(sn, frames, s, idx, span.to, span'.to);
  }

  /**
   End-to-end safety: over a channel that keeps the order and may drop packets, every frame that the pin
   returns as OK ends with the last packet of a frame that was sent, a later frame each time, whatever is
   lost. It was put together from all the packets of that frame, and has exactly its media bytes, if and only
   if none of the losses among the packets that went into it is hidden.
   */
  lemma EveryOkFrameWasSent(sn: Sender, frames: seq<seq<Octet>>, s: seq<Sent>, idx: seq<nat>, pin: Pin,
                            ins: seq<ReadIn>, rs: seq<ReadResult>) returns (spans: seq<Span>, ids: seq<nat>)
    requires Channel(sn, frames, s, idx) && MidFramesUnlikeHeaders(s) && pin.waiting
    requires ObjectsFit(sn, frames, ins) && IsRun(pin, Inbox(s, idx, 0), ins, rs)
    ensures Sound(sn, frames, s, idx, rs, spans, ids)
  {
    spans := RunSpans(sn, frames, s, idx, 0, pin, ins, rs);
    hide Channel, Inbox, IsRun, ObjectsFit, SpansOk, FrameBehind, SpanOk, SoundRead;
    SpansCount(sn, frames, s, idx, 0, rs, spans);
    var behind := spans;
    ids := seq(|rs|, i requires 0 <= i < |behind| => FrameBehind(s, idx, behind[i].to));
    forall i | 0 <= i < |rs| ensures SoundRead(sn, frames, s, idx, rs[i], spans[i], ids[i]) {
      SpanOfRead(sn, frames, s, idx, 0, rs, spans, i);
      SpanIsSound(sn, frames, s, idx, rs[i], spans[i]);
    }
    forall i, j | 0 <= i < j < |rs| ensures spans[i].to <= spans[j].from {
      SpansFollow(sn, frames, s, idx, 0, rs, spans, i, j);
    }
    forall i, j | 0 <= i < j < |rs| && rs[i].status == Ok && rs[j].status == Ok ensures ids[i] < ids[j] {
      SpanOfRead(sn, frames, s, idx, 0, rs, spans, i);
      SpanOfRead(sn, frames, s, idx, 0, rs, spans, j);
      ReadsAreOrdered(sn, frames, s, idx, rs[i], rs[j], spans[i], spans[j]);
    }
  }

  /** So if every loss shows, every frame returned as OK has exactly the media bytes of a frame sent. */
  lemma AllRightIfLossesShow(sn: Sender, frames: seq<seq<Octet>>, s: seq<Sent>, idx: seq<nat>, pin: Pin,
                             ins: seq<ReadIn>, rs: seq<ReadResult>) returns (ids: seq<nat>)
    requires Channel(sn, frames, s, idx) && MidFramesUnlikeHeaders(s) && pin.waiting && DropsVisible(sn, idx)
    requires ObjectsFit(sn, frames, ins) && IsRun(pin, Inbox(s, idx, 0), ins, rs)
    ensures |ids| == |rs|
    ensures forall i :: 0 <= i < |rs| && rs[i].status == Ok ==> ids[i] < |frames| && Whole(rs[i].obj, frames[ids[i]])
    ensures forall i, j :: 0 <= i < j < |rs| && rs[i].status == Ok && rs[j].status == Ok ==> ids[i] < ids[j]
  {
    var spans;
    spans, ids := EveryOkFrameWasSent(sn, frames, s, idx, pin, ins, rs);
    hide Channel, Inbox, IsRun, ObjectsFit, Whole, NextOrGap;
    forall i | 0 <= i < |rs| && rs[i].status == Ok ensures ids[i] < |frames| && Whole(rs[i].obj, frames[ids[i]]) {
      assert SoundRead(sn, frames, s, idx, rs[i], spans[i], ids[i]);
    }
  }
}
