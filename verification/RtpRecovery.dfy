/**
 Recovery from loss, which is what waiting for the next frame is for: a frame that arrives whole behind
 another one that arrives whole is delivered, whatever was lost before.
 */
module RtpRecovery {
  import opened RtpPacket
  import opened Reassembly
  import opened RtpStream
  import opened RtpEndToEnd
  import opened RtpNoLoss

  /** From arrival a on, a frame of at least two packets arrives whole, and right behind it the next frame. */
  predicate TwoWhole(sn: Sender, frames: seq<seq<Octet>>, s: seq<Sent>, idx: seq<nat>, a: nat)
    requires Channel(sn, frames, s, idx)
  {
    && a < |idx| && s[idx[a]].pos == 0 && Intact(sn, frames, s, idx, a) && !Last(sn, frames, s[idx[a]])
    && var b := EndOf(sn, frames, s, idx, a);
       && b < |idx| && s[idx[b]].pos == 0 && s[idx[b]].id == s[idx[a]].id + 1
       && Intact(sn, frames, s, idx, b)
  }

  /** The arrival with which the second of them starts. */
  function Second(sn: Sender, frames: seq<seq<Octet>>, s: seq<Sent>, idx: seq<nat>, a: nat): (b: nat)
    requires Channel(sn, frames, s, idx) && TwoWhole(sn, frames, s, idx, a)
    ensures a < b < |idx|
  {
    EndOf(sn, frames, s, idx, a)
  }

  /** Inside an intact frame nothing is missing, and only its last packet carries a marker. */
  lemma {:induction false} Inside(sn: Sender, frames: seq<seq<Octet>>, s: seq<Sent>, idx: seq<nat>, a: nat, m: nat)
    requires Channel(sn, frames, s, idx) && a < |idx| && Intact(sn, frames, s, idx, a)
    requires a <= m < EndOf(sn, frames, s, idx, a)
    ensures Last(sn, frames, s[idx[m]]) <==> m + 1 == EndOf(sn, frames, s, idx, a)
    ensures m + 1 < EndOf(sn, frames, s, idx, a) ==> idx[m + 1] == idx[m] + 1
    decreases m - a
  {
    hide StreamOk, Last;
    if Last(sn, frames, s[idx[a]]) {
      EndsHere(sn, frames, s, idx, a);
    } else {
      EndsLater(sn, frames, s, idx, a);
      if m > a { Inside(sn, frames, s, idx, a + 1, m); }
    }
  }

  /** Waiting stops at the next marker. */
  lemma {:induction false} SkipBefore(sn: Sender, frames: seq<seq<Octet>>, s: seq<Sent>, idx: seq<nat>, k: nat, b: nat,
                                      stale: Octet) returns (k': nat)
    requires Channel(sn, frames, s, idx) && k < b <= |idx| && Last(sn, frames, s[idx[b - 1]])
    ensures k < k' <= b && SkipToMarker(Inbox(s, idx, k), true, stale) == (Ok, Inbox(s, idx, k'))
    ensures Last(sn, frames, s[idx[k' - 1]])
    decreases b - k
  {
    hide EndOfFrame, Channel, StreamOk, Delivery, IdsOk, Inbox, Last, SkipToMarker, SeqOf, Sender.SeqNo;
    ChannelParts(sn, frames, s, idx);
    InboxStep(s, idx, k);
    ArrivalOk(sn, frames, s, idx, k);
    SkipUnfold(Inbox(s, idx, k), true, stale);
    k' := k + 1;
    if !Last(sn, frames, s[idx[k]]) { k' := SkipBefore(sn, frames, s, idx, k + 1, b, s[idx[k]].bytes[1]); }
  }

  /** The collecting loop, entered before the last two packets of an intact frame, goes no further than these. */
  predicate StopsBy(sn: Sender, frames: seq<seq<Octet>>, s: seq<Sent>, idx: seq<nat>, k: nat, b: nat,
                    status: Status, rest: seq<Datagram>, k': nat)
    requires Channel(sn, frames, s, idx)
  {
    && k < k' <= b <= |idx| && rest == Inbox(s, idx, k')
    && (status == Ok || (status == InvalidFrame && k' < b))
    && (status == Ok ==> k' == k + 1 || Last(sn, frames, s[idx[k' - 1]]))
  }

  lemma {:induction false} CollectBefore(sn: Sender, frames: seq<seq<Octet>>, s: seq<Sent>, idx: seq<nat>, k: nat,
                                         b: nat, buf: seq<Octet>, pos: nat, size: nat) returns (k': nat)
    requires Channel(sn, frames, s, idx) && k + 1 < b <= |idx| && size <= |buf|
    requires Last(sn, frames, s[idx[b - 1]]) && idx[b - 1] == idx[b - 2] + 1
    ensures var c := Collect(buf, pos, size, sn.SeqNo(idx[k]), Inbox(s, idx, k + 1));
            StopsBy(sn, frames, s, idx, k, b, c.status, c.rest, k') && (pos < size && c.status == Ok ==> k' > k + 1)
    decreases b - k
  {
    hide Collect, Channel, Inbox, Sender.SeqNo, Gap, Delivery, IdsOk, Last, StreamOk;
    ChannelParts(sn, frames, s, idx);
    k' := k + 1;
    if pos >= size {
      CollectNothing(buf, pos, size, sn.SeqNo(idx[k]), Inbox(s, idx, k + 1));
    } else {
      var buf' := CollectStep(sn, frames, s, idx, k, buf, pos, size);
      NextIsNoGap(sn, idx[b - 2]);
      k' := k + 2;
      var next := pos + sn.payload;
      if !Gap(sn.SeqNo(idx[k]), sn.SeqNo(idx[k + 1])) && !Last(sn, frames, s[idx[k + 1]]) && next < size {
        k' := CollectBefore(sn, frames, s, idx, k + 1, b, buf', next, size);
      }
    }
  }

  /** Reading anywhere in the stream: the packet is rejected, or the collecting loop is entered behind it. */
  lemma CreateAnywhere(sn: Sender, frames: seq<seq<Octet>>, s: seq<Sent>, idx: seq<nat>, k: nat, o: FrameObj,
                       stamped: seq<Octet>, g: seq<Octet>) returns (buf: seq<Octet>, size: nat)
    requires Channel(sn, frames, s, idx) && k < |idx| && Room(sn, o) && |stamped| == HEADER
    ensures Fits(o, Inbox(s, idx, k)) && size <= |buf|
    ensures var c := CreateFrame(o, Inbox(s, idx, k), stamped, g);
            var r := Collect(buf, sn.payload, size, sn.SeqNo(idx[k]), Inbox(s, idx, k + 1));
            || (c.status == InvalidFrame && c.rest == Inbox(s, idx, k + 1))
            || (c.status == r.status && c.rest == r.rest)
  {
    hide Collect, Channel, StreamOk, Delivery, IdsOk, Inbox, MediaSize, SeqOf, Last, EndOfFrame, Sender.SeqNo, Overlay;
    ChannelParts(sn, frames, s, idx);
    RoomFits(sn, frames, s, idx, k, o);
    InboxStep(s, idx, k);
    ArrivalOk(sn, frames, s, idx, k);
    var p, o1 := s[idx[k]].bytes, Ready(o, g);
    var payload := p[RTP_HEADERS_LENGTH..];
    var o2 := o1.(buf := Overlay(o1.buf, 0, payload));
    var media := MediaSize(o2.buf[..HEADER]);
    buf, size := [], 0;
    if media.Some? && media.value + HEADER > 0 {
      size := media.value + HEADER;
      buf := InitBuffer(o2.(buf := Overlay(o2.buf, 0, stamped)), size, g).buf;
    }
  }

  /** Still before the second frame, or at its start and ready for it. */
  predicate Approaching(sn: Sender, frames: seq<seq<Octet>>, s: seq<Sent>, idx: seq<nat>, a: nat, k: nat, pin: Pin)
    requires Channel(sn, frames, s, idx) && TwoWhole(sn, frames, s, idx, a)
  {
    var b := Second(sn, frames, s, idx, a);
    k <= a || (k < b && pin.waiting) || (k == b && pin.valid && !pin.waiting)
  }

  /** A read has delivered the second frame, and stands behind it. */
  predicate DeliveredSecond(sn: Sender, frames: seq<seq<Octet>>, s: seq<Sent>, idx: seq<nat>, a: nat, r: ReadResult)
    requires Channel(sn, frames, s, idx) && TwoWhole(sn, frames, s, idx, a)
  {
    var b := Second(sn, frames, s, idx, a);
    && r.status == Ok && s[idx[b]].id < |frames| && Whole(r.obj, frames[s[idx[b]].id])
    && r.rest == Inbox(s, idx, EndOf(sn, frames, s, idx, b))
  }

  lemma TwoWholeParts(sn: Sender, frames: seq<seq<Octet>>, s: seq<Sent>, idx: seq<nat>, a: nat)
    requires Channel(sn, frames, s, idx) && TwoWhole(sn, frames, s, idx, a)
    ensures var b := Second(sn, frames, s, idx, a);
            && a + 1 < b < |idx| && Last(sn, frames, s[idx[b - 1]]) && idx[b - 1] == idx[b - 2] + 1
            && s[idx[a]].pos == 0 && Intact(sn, frames, s, idx, a) && EndOf(sn, frames, s, idx, a) == b
            && s[idx[b]].pos == 0 && Intact(sn, frames, s, idx, b)
  {
    hide Channel, StreamOk, Last;
    ChannelParts(sn, frames, s, idx);
    var b := Second(sn, frames, s, idx, a);
    EndsLater(sn, frames, s, idx, a);
    Inside(sn, frames, s, idx, a, b - 1);
    Inside(sn, frames, s, idx, a, b - 2);
  }

  /** A marker before the second frame stands before the first one or at its end. */
  lemma MarkerWhere(sn: Sender, frames: seq<seq<Octet>>, s: seq<Sent>, idx: seq<nat>, a: nat, m: nat)
    requires Channel(sn, frames, s, idx) && TwoWhole(sn, frames, s, idx, a)
    requires m < Second(sn, frames, s, idx, a) && Last(sn, frames, s[idx[m]])
    ensures m < a || m + 1 == Second(sn, frames, s, idx, a)
  {
    hide Channel, StreamOk, Last, Delivery, IdsOk;
    ChannelParts(sn, frames, s, idx);
    TwoWholeParts(sn, frames, s, idx, a);
    if m >= a { Inside(sn, frames, s, idx, a, m); }
  }

  /** Reading before the second frame ends at its start with OK, or else before it. */
  lemma CreateBefore(sn: Sender, frames: seq<seq<Octet>>, s: seq<Sent>, idx: seq<nat>, a: nat, k: nat, o: FrameObj,
                     stamped: seq<Octet>, g: seq<Octet>) returns (k': nat)
    requires Channel(sn, frames, s, idx) && TwoWhole(sn, frames, s, idx, a) && k <= a
    requires Room(sn, o) && KeepsAll(sn, frames, o) && |stamped| == HEADER
    ensures Fits(o, Inbox(s, idx, k))
    ensures var b, c := Second(sn, frames, s, idx, a), CreateFrame(o, Inbox(s, idx, k), stamped, g);
            && k < k' <= b && c.rest == Inbox(s, idx, k')
            && ((c.status == Ok && (k' <= a || k' == b)) || (c.status == InvalidFrame && k' < b))
  {
    hide Channel, StreamOk, Delivery, IdsOk, Inbox, Fits, CreateFrame, Collect, Room, Keeps, Intact, EndOf, Last,
         TwoWhole, Second, Sender.SeqNo, FrameCloses, FrameCloseEnd, Carries;
    ChannelParts(sn, frames, s, idx);
    TwoWholeParts(sn, frames, s, idx, a);
    ArrivalOk(sn, frames, s, idx, a);
    RoomFits(sn, frames, s, idx, k, o);
    var b := Second(sn, frames, s, idx, a);
    if k == a {
      assert Keeps(sn, o, |frames[s[idx[a]].id]|);
      k' := CreateFromFirst(sn, frames, s, idx, a, o, stamped, g);
    } else {
      var buf, size := CreateAnywhere(sn, frames, s, idx, k, o, stamped, g);
      k' := CollectBefore(sn, frames, s, idx, k, b, buf, sn.payload, size);
      var c := CreateFrame(o, Inbox(s, idx, k), stamped, g);
      if c.status == InvalidFrame && c.rest == Inbox(s, idx, k + 1) {
        k' := k + 1;
      } else if c.status == Ok && k' > k + 1 {
        MarkerWhere(sn, frames, s, idx, a, k' - 1);
      }
    }
  }

  /** Reading at the start of the second frame delivers it. */
  lemma CreateSecond(sn: Sender, frames: seq<seq<Octet>>, s: seq<Sent>, idx: seq<nat>, a: nat, o: FrameObj,
                     stamped: seq<Octet>, g: seq<Octet>)
    requires Channel(sn, frames, s, idx) && TwoWhole(sn, frames, s, idx, a)
    requires Room(sn, o) && KeepsAll(sn, frames, o) && |stamped| == HEADER
    ensures var b := Second(sn, frames, s, idx, a);
            && Fits(o, Inbox(s, idx, b))
            && var c := CreateFrame(o, Inbox(s, idx, b), stamped, g);
               && c.status == Ok && s[idx[b]].id < |frames| && Whole(c.obj, frames[s[idx[b]].id])
               && c.rest == Inbox(s, idx, EndOf(sn, frames, s, idx, b))
  {
    hide Channel, StreamOk, Delivery, IdsOk, Inbox, Fits, CreateFrame, Room, Keeps, Intact, EndOf, Last, TwoWhole,
         Second, FrameCloses, FrameCloseEnd, Carries;
    ChannelParts(sn, frames, s, idx);
    TwoWholeParts(sn, frames, s, idx, a);
    var b := Second(sn, frames, s, idx, a);
    ArrivalOk(sn, frames, s, idx, b);
    assert Keeps(sn, o, |frames[s[idx[b]].id]|);
    var k' := CreateFromFirst(sn, frames, s, idx, b, o, stamped, g);
  }

  /** Where the wait of a read ends: before the first frame, or at the start of the second. */
  lemma WaitBefore(sn: Sender, frames: seq<seq<Octet>>, s: seq<Sent>, idx: seq<nat>, a: nat, k: nat, pin: Pin,
                   g: seq<Octet>) returns (from: nat)
    requires Channel(sn, frames, s, idx) && TwoWhole(sn, frames, s, idx, a)
    requires Approaching(sn, frames, s, idx, a, k, pin)
    requires pin.started
    ensures k <= from < |idx| && Wait(pin, Inbox(s, idx, k), g) == (Ok, Inbox(s, idx, from))
    ensures from <= a || from == Second(sn, frames, s, idx, a)
  {
    hide Channel, StreamOk, Delivery, IdsOk, Inbox, TwoWhole, Second, Last, SkipToMarker, Leftover, Intact, EndOf;
    ChannelParts(sn, frames, s, idx);
    TwoWholeParts(sn, frames, s, idx, a);
    from := k;
    if pin.waiting || !pin.valid {
      from := SkipBefore(sn, frames, s, idx, k, Second(sn, frames, s, idx, a), Leftover(g, 1));
      MarkerWhere(sn, frames, s, idx, a, from - 1);
    }
  }

  /** One read: it delivers the second frame, or comes closer to it. */
  lemma ReadApproaches(sn: Sender, frames: seq<seq<Octet>>, s: seq<Sent>, idx: seq<nat>, a: nat, k: nat, pin: Pin,
                       e: ReadIn) returns (k': nat)
    requires Channel(sn, frames, s, idx) && TwoWhole(sn, frames, s, idx, a)
    requires Approaching(sn, frames, s, idx, a, k, pin)
    requires Room(sn, e.obj) && KeepsAll(sn, frames, e.obj) && |e.stamped| == HEADER
    requires pin.started && (pin.valid || e.opens)
    ensures k <= |idx| && ReadFits(pin, e.obj, Inbox(s, idx, k), e.garbage, e.opens)
    ensures var r := ReadFrame(pin, e.obj, Inbox(s, idx, k), e.stamped, e.garbage, e.opens);
            || DeliveredSecond(sn, frames, s, idx, a, r)
            || (&& k < k' <= Second(sn, frames, s, idx, a) && r.rest == Inbox(s, idx, k')
                && r.pin.valid && r.pin.started && Approaching(sn, frames, s, idx, a, k', r.pin))
  {
    hide Channel, StreamOk, Delivery, IdsOk, Inbox, Fits, CreateFrame, Room, KeepsAll, Intact, EndOf, Last, TwoWhole,
         Second, Wait, Whole;
    ChannelParts(sn, frames, s, idx);
    TwoWholeParts(sn, frames, s, idx, a);
    var from := WaitBefore(sn, frames, s, idx, a, k, pin, e.garbage);
    if from <= a {
      k' := CreateBefore(sn, frames, s, idx, a, from, e.obj, e.stamped, e.garbage);
    } else {
      k' := from;
      CreateSecond(sn, frames, s, idx, a, e.obj, e.stamped, e.garbage);
    }
  }

  /** A run of more reads than there are arrivals up to here, or one that has read beyond here. */
  predicate LongEnough(idx: seq<nat>, k: nat, b: nat, rs: seq<ReadResult>)
  {
    |rs| > b - k || (rs != [] && |rs[|rs| - 1].rest| < |idx| - b)
  }

  lemma {:induction false} RunApproaches(sn: Sender, frames: seq<seq<Octet>>, s: seq<Sent>, idx: seq<nat>, a: nat,
                                         k: nat, pin: Pin, ins: seq<ReadIn>, rs: seq<ReadResult>) returns (i: nat)
    requires Channel(sn, frames, s, idx) && TwoWhole(sn, frames, s, idx, a)
    requires Approaching(sn, frames, s, idx, a, k, pin)
    requires k <= |idx| && Running(ins) && ObjectsFit(sn, frames, ins) && IsRun(pin, Inbox(s, idx, k), ins, rs)
    requires ins != [] ==> pin.valid || ins[0].opens
    requires LongEnough(idx, k, Second(sn, frames, s, idx, a), rs)
    ensures i < |rs| && DeliveredSecond(sn, frames, s, idx, a, rs[i])
    decreases |ins|
  {
    assert ins == [] ==> rs == [];
    ChannelParts(sn, frames, s, idx);
    var b := Second(sn, frames, s, idx, a);
    assert k <= b;
    hide Channel, StreamOk, Delivery, IdsOk, Inbox, TwoWhole, Second, DeliveredSecond, ReadFrame, ReadFits, Room,
         KeepsAll, ObjOk, ObjectsFit, Running, IsRun;
    var e := ins[0];
    RestFits(sn, frames, ins);
    RunUnfold(pin, Inbox(s, idx, k), ins, rs);
    SamePlace(sn, frames, s, idx, a, k, pin, PinBefore(pin, e));
    var k' := ReadApproaches(sn, frames, s, idx, a, k, PinBefore(pin, e), e);
    i := 0;
    if !DeliveredSecond(sn, frames, s, idx, a, rs[0]) {
      assert |rs| == 1 ==> rs[|rs| - 1] == rs[0];
      assert |rs| > 1 ==> rs[1..][|rs[1..]| - 1] == rs[|rs| - 1];
      i := RunApproaches(sn, frames, s, idx, a, k', rs[0].pin, ins[1..], rs[1..]);
      i := i + 1;
    }
  }

  lemma SamePlace(sn: Sender, frames: seq<seq<Octet>>, s: seq<Sent>, idx: seq<nat>, a: nat, k: nat, pin: Pin, pin': Pin)
    requires Channel(sn, frames, s, idx) && TwoWhole(sn, frames, s, idx, a)
    requires Approaching(sn, frames, s, idx, a, k, pin)
    requires pin'.valid == pin.valid && pin'.waiting == pin.waiting
    ensures Approaching(sn, frames, s, idx, a, k, pin')
  {
  }

  /**
   Recovery: whatever was lost before, even unnoticed, and whatever the payloads look like, a pin that is
   not stopped delivers every frame that arrives whole right behind a whole frame of at least two packets, if
   it reads long enough.
   */
  lemma SecondIsDelivered(sn: Sender, frames: seq<seq<Octet>>, s: seq<Sent>, idx: seq<nat>, a: nat, pin: Pin,
                          ins: seq<ReadIn>, rs: seq<ReadResult>) returns (i: nat)
    requires Channel(sn, frames, s, idx) && TwoWhole(sn, frames, s, idx, a)
    requires Running(ins) && ObjectsFit(sn, frames, ins) && IsRun(pin, Inbox(s, idx, 0), ins, rs)
    requires ins != [] ==> pin.valid || ins[0].opens
    requires LongEnough(idx, 0, Second(sn, frames, s, idx, a), rs)
    ensures i < |rs| && DeliveredSecond(sn, frames, s, idx, a, rs[i])
  {
    i := RunApproaches(sn, frames, s, idx, a, 0, pin, ins, rs);
  }

  // ---- Why two packets ----

  /** Four frames of one, two, one and one packets. */
  predicate OneTwoOneOne(sn: Sender, frames: seq<seq<Octet>>)
  {
    && sn.Valid() && sn.start + 4 < SEQ_MOD && GoodFrames(frames) && |frames| == 4
    && |frames[0]| <= sn.payload && sn.payload < |frames[1]| <= 2 * sn.payload
    && |frames[2]| <= sn.payload && |frames[3]| <= sn.payload
  }

  lemma NextPacket(sn: Sender, frames: seq<seq<Octet>>, s: seq<Sent>, g: nat)
    requires sn.Valid() && StreamOk(sn, frames, s) && IdsOk(frames, s) && g < |s| && Ends(sn, frames, s)
    requires s[g].id + 1 < |frames|
    ensures g + 1 < |s| && Follows(sn, frames, s[g], s[g + 1])
  {
    hide StreamOk;
    assert g + 1 < |s|;
    SuccessorFollows(sn, frames, s, g + 1);
  }

  /** The five packets; all but the third arrive. */
  lemma FivePackets(sn: Sender, frames: seq<seq<Octet>>) returns (s: seq<Sent>, idx: seq<nat>)
    requires OneTwoOneOne(sn, frames)
    ensures s == Stream(sn, frames) && |s| >= 5 && idx == [0, 1, 3, 4] && Channel(sn, frames, s, idx)
    ensures s[0].id == 0 && s[1].id == 1 && s[2].id == 1 && s[3].id == 2 && s[4].id == 3
    ensures s[0].pos == s[1].pos == s[3].pos == s[4].pos == 0
  {
    s, idx := Stream(sn, frames), [0, 1, 3, 4];
    StreamIsOk(sn, frames);
    StreamIds(sn, frames, s);
    assert s[0].id == 0 && s[0].pos == 0 && Ends(sn, frames, s);
    hide Stream, StreamOk, GoodFrames;
    NextPacket(sn, frames, s, 0);
    NextPacket(sn, frames, s, 1);
    NextPacket(sn, frames, s, 2);
    NextPacket(sn, frames, s, 3);
    assert Later(idx, 1) && Later(idx, 2) && Later(idx, 3);
  }

  lemma {:induction false} NothingFromNothing(pin: Pin, ins: seq<ReadIn>, rs: seq<ReadResult>)
    requires IsRun(pin, [], ins, rs)
    ensures forall i :: 0 <= i < |rs| ==> rs[i].status != Ok
    decreases |ins|
  {
    if ins != [] { NothingFromNothing(rs[0].pin, ins[1..], rs[1..]); }
  }

  /** The first read skips the first frame, and fails at the packet behind the loss. */
  lemma FailsBehindLoss(sn: Sender, frames: seq<seq<Octet>>, s: seq<Sent>, idx: seq<nat>, pin: Pin, e: ReadIn)
    requires Channel(sn, frames, s, idx) && 3 < |idx|
    requires Last(sn, frames, s[idx[0]]) && s[idx[1]].pos == 0 && !Last(sn, frames, s[idx[1]])
    requires Gap(sn.SeqNo(idx[1]), sn.SeqNo(idx[2]))
    requires pin.valid && pin.waiting && pin.started && Room(sn, e.obj) && KeepsAll(sn, frames, e.obj)
    requires |e.stamped| == HEADER
    ensures ReadFits(pin, e.obj, Inbox(s, idx, 0), e.garbage, e.opens)
    ensures var r := ReadFrame(pin, e.obj, Inbox(s, idx, 0), e.stamped, e.garbage, e.opens);
            r.status == InvalidFrame && r.rest == Inbox(s, idx, 3) && r.pin == pin
  {
    hide Channel, StreamOk, Delivery, IdsOk, Inbox, Fits, CreateFrame, Collect, Room, Keeps, Last, SkipToMarker, Gap,
         Sender.SeqNo, Carries, Leftover;
    ChannelParts(sn, frames, s, idx);
    SkipOne(sn, frames, s, idx, 0, Leftover(e.garbage, 1));
    ArrivalOk(sn, frames, s, idx, 1);
    assert Keeps(sn, e.obj, |frames[s[idx[1]].id]|);
    var b := FirstPacket(sn, frames, s, idx, 1, e.obj, e.stamped, e.garbage);
    NotLastIsLonger(sn, frames, s[idx[1]]);
    var b' := CollectStep(sn, frames, s, idx, 1, b, sn.payload, |frames[s[idx[1]].id]|);
  }

  lemma NotLastIsLonger(sn: Sender, frames: seq<seq<Octet>>, e: Sent)
    requires e.id < |frames| && !Last(sn, frames, e)
    ensures e.pos + sn.payload < |frames[e.id]|
  {
  }

  /** Waiting at a marker takes that packet only. */
  lemma SkipOne(sn: Sender, frames: seq<seq<Octet>>, s: seq<Sent>, idx: seq<nat>, k: nat, stale: Octet)
    requires Channel(sn, frames, s, idx) && k < |idx| && Last(sn, frames, s[idx[k]])
    ensures SkipToMarker(Inbox(s, idx, k), true, stale) == (Ok, Inbox(s, idx, k + 1))
  {
    hide Channel, StreamOk, Inbox, SkipToMarker, Last;
    ChannelParts(sn, frames, s, idx);
    EndsHere(sn, frames, s, idx, k);
    SkipIntact(sn, frames, s, idx, k, stale);
  }

  /** The second read takes the last packet for the end of the frame that failed. */
  lemma SkipsWholeFrame(sn: Sender, frames: seq<seq<Octet>>, s: seq<Sent>, idx: seq<nat>, pin: Pin, e: ReadIn)
    requires Channel(sn, frames, s, idx) && |idx| == 4 && Last(sn, frames, s[idx[3]])
    requires pin.waiting && pin.started && ObjOk(e.obj) && |e.stamped| == HEADER
    requires ReadFits(pin, e.obj, Inbox(s, idx, 3), e.garbage, e.opens)
    ensures var r := ReadFrame(pin, e.obj, Inbox(s, idx, 3), e.stamped, e.garbage, e.opens);
            (pin.valid || e.opens) ==> r.status == InvalidFrame && r.rest == []
  {
    hide Channel, StreamOk, Delivery, IdsOk, Inbox, Fits, CreateFrame, Last, SkipToMarker, Leftover;
    ChannelParts(sn, frames, s, idx);
    SkipOne(sn, frames, s, idx, 3, Leftover(e.garbage, 1));
    if pin.valid || e.opens { CreateFromNothing(e.obj, [], e.stamped, e.garbage); }
  }

  /**
   Two packets are needed: a loss that shows at a frame of one packet uses up that frame's marker, and the
   next frame is skipped. Of four frames with one packet lost, the last two arrive whole, and no read
   delivers anything.
   */
  lemma TwoPacketsAreNeeded(sn: Sender, frames: seq<seq<Octet>>, pin: Pin, ins: seq<ReadIn>, rs: seq<ReadResult>)
      returns (s: seq<Sent>, idx: seq<nat>)
    requires OneTwoOneOne(sn, frames) && pin.valid && pin.waiting && Running(ins) && ObjectsFit(sn, frames, ins)
    ensures s == Stream(sn, frames) && |s| >= 5 && idx == [0, 1, 3, 4] && Channel(sn, frames, s, idx)
    ensures s[3].id == 2 && s[4].id == 3 && s[3].pos == 0 && s[4].pos == 0
    ensures Intact(sn, frames, s, idx, 2) && Intact(sn, frames, s, idx, 3)
    ensures IsRun(pin, Inbox(s, idx, 0), ins, rs) ==> forall i :: 0 <= i < |rs| ==> rs[i].status != Ok
  {
    s, idx := FivePackets(sn, frames);
    TheyEnd(sn, frames, s, idx);
    hide Channel, StreamOk, Delivery, IdsOk, Inbox, Last, Intact, EndOf, Gap, Stream, Running, ObjectsFit, IsRun;
    ChannelParts(sn, frames, s, idx);
    if IsRun(pin, Inbox(s, idx, 0), ins, rs) { NothingEver(sn, frames, s, idx, pin, ins, rs); }
  }

  lemma TheyEnd(sn: Sender, frames: seq<seq<Octet>>, s: seq<Sent>, idx: seq<nat>)
    requires OneTwoOneOne(sn, frames) && |s| >= 5 && idx == [0, 1, 3, 4] && Channel(sn, frames, s, idx)
    requires s[0].id == 0 && s[1].id == 1 && s[3].id == 2 && s[4].id == 3
    requires s[0].pos == s[1].pos == s[3].pos == s[4].pos == 0
    ensures Last(sn, frames, s[0]) && !Last(sn, frames, s[1]) && Last(sn, frames, s[3]) && Last(sn, frames, s[4])
    ensures Gap(sn.SeqNo(1), sn.SeqNo(3))
    ensures Intact(sn, frames, s, idx, 2) && Intact(sn, frames, s, idx, 3)
  {
    hide StreamOk, GoodFrames;
    EndsHere(sn, frames, s, idx, 2);
    EndsHere(sn, frames, s, idx, 3);
  }

  lemma NothingEver(sn: Sender, frames: seq<seq<Octet>>, s: seq<Sent>, idx: seq<nat>, pin: Pin,
                    ins: seq<ReadIn>, rs: seq<ReadResult>)
    requires Channel(sn, frames, s, idx) && |idx| == 4
    requires Last(sn, frames, s[idx[0]]) && s[idx[1]].pos == 0 && !Last(sn, frames, s[idx[1]])
    requires Last(sn, frames, s[idx[3]]) && Gap(sn.SeqNo(idx[1]), sn.SeqNo(idx[2]))
    requires pin.valid && pin.waiting && Running(ins) && ObjectsFit(sn, frames, ins)
    requires IsRun(pin, Inbox(s, idx, 0), ins, rs)
    ensures forall i :: 0 <= i < |rs| ==> rs[i].status != Ok
  {
    assert ins == [] ==> rs == [];
    hide Channel, StreamOk, Delivery, IdsOk, Inbox, Last, Gap, ReadFrame, ReadFits, Room, KeepsAll, ObjectsFit, Running,
         ObjOk, Sender.SeqNo, IsRun;
    ChannelParts(sn, frames, s, idx);
    if ins != [] {
      RestFits(sn, frames, ins);
      RunUnfold(pin, Inbox(s, idx, 0), ins, rs);
      FailsBehindLoss(sn, frames, s, idx, PinBefore(pin, ins[0]), ins[0]);
      NothingLater(sn, frames, s, idx, rs[0].pin, ins[1..], rs[1..]);
      NoneOk(rs);
    }
  }

  lemma NoneOk(rs: seq<ReadResult>)
    requires rs != [] && rs[0].status != Ok && forall i :: 0 <= i < |rs[1..]| ==> rs[1..][i].status != Ok
    ensures forall i :: 0 <= i < |rs| ==> rs[i].status != Ok
  {
    forall i | 0 <= i < |rs| ensures rs[i].status != Ok {
      if i > 0 { assert rs[i] == rs[1..][i - 1]; }
    }
  }

  lemma NothingLater(sn: Sender, frames: seq<seq<Octet>>, s: seq<Sent>, idx: seq<nat>, pin: Pin,
                     ins: seq<ReadIn>, rs: seq<ReadResult>)
    requires Channel(sn, frames, s, idx) && |idx| == 4 && Last(sn, frames, s[idx[3]])
    requires pin.valid && pin.waiting && Running(ins) && ObjectsFit(sn, frames, ins)
    requires IsRun(pin, Inbox(s, idx, 3), ins, rs)
    ensures forall i :: 0 <= i < |rs| ==> rs[i].status != Ok
  {
    assert ins == [] ==> rs == [];
    hide Channel, StreamOk, Delivery, IdsOk, Inbox, Last, ReadFrame, ReadFits, Room, KeepsAll, ObjectsFit, Running,
         ObjOk, IsRun;
    ChannelParts(sn, frames, s, idx);
    if ins != [] {
      RestFits(sn, frames, ins);
      RunUnfold(pin, Inbox(s, idx, 3), ins, rs);
      SkipsWholeFrame(sn, frames, s, idx, PinBefore(pin, ins[0]), ins[0]);
      NothingFromNothing(rs[0].pin, ins[1..], rs[1..]);
      NoneOk(rs);
    }
  }
}
