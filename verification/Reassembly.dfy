/**
 The receiving side: CvMIFrame::createFrameFromUDP puts a frame together from RTP packets, and
 CInRTP::read finds the frame boundaries. Two things are parameters of each call: `g`, what memory contains
 that nobody has written to yet, and `stamped`, the 128 header bytes that WriteHeaders puts in place of
 the received ones after the module id is set.
 */
module Reassembly {
  import opened Wrappers
  import opened RtpPacket

  const MAX_DATAGRAM: nat := 65535
  const HEADER: nat := 128

  /** One recvfrom: a datagram, or an error. */
  datatype Datagram = Data(bytes: seq<Octet>) | Broken

  datatype Status = Ok | InvalidFrame | FailedToReceive | ConnectionClosed | FailedToOpen

  /** CFrameHeaders::ReadHeaders: magic number, version, and then the media size, a signed 32-bit field. */
  function MediaSize(h: seq<Octet>): Option<int>
    requires |h| >= HEADER
  {
    if h[..4] != [0, 0, 0, 1] || h[4..7] != [2, 0, 3] then None
    else
      var high: int := h[16];
      var size := ((high * 256 + h[17]) * 256 + h[18]) * 256 + h[19];
      Some(if size >= 0x8000_0000 then size - 0x1_0000_0000 else size)
  }

  /** The buffer of a CvMIFrame (empty: none allocated) and its logical size. */
  datatype FrameObj = FrameObj(buf: seq<Octet>, frameSize: int)

  predicate ObjOk(o: FrameObj)
  {
    o.frameSize <= |o.buf| && (o.buf == [] || |o.buf| >= HEADER) && (o.frameSize <= 0 ==> o.buf == [])
  }

  /** Byte i of memory not yet written to, which holds whatever was left there. */
  function Leftover(g: seq<Octet>, i: nat): Octet { if i < |g| then g[i] else 0 }

  /** _init_buffer: never shrinks; growing keeps only the first `_frame_size` bytes, of the OLD frame size. */
  function InitBuffer(o: FrameObj, size: nat, g: seq<Octet>): (o': FrameObj)
    requires size > 0 && o.frameSize <= |o.buf|
    ensures o'.frameSize == size <= |o'.buf|
  {
    if o.buf == [] || size > |o.buf| then
      FrameObj(seq(size, i requires 0 <= i < size => if i < o.frameSize then o.buf[i] else Leftover(g, i)), size)
    else o.(frameSize := size)
  }

  /** Writes bytes into a buffer at a position. */
  function Overlay(buf: seq<Octet>, pos: nat, bytes: seq<Octet>): (r: seq<Octet>)
    requires pos + |bytes| <= |buf|
    ensures |r| == |buf|
  {
    buf[..pos] + bytes + buf[pos + |bytes|..]
  }

  datatype Collected = Collected(status: Status, buf: seq<Octet>, rest: seq<Datagram>)

  /** A jump to a higher sequence number that is not the successor. */
  predicate Gap(last: int, cur: int) { cur > last && cur != last + 1 }

  /** The loop that collects the rest of a frame from position `pos` on. */
  function Collect(buf: seq<Octet>, pos: nat, size: nat, last: int, inbox: seq<Datagram>): (c: Collected)
    requires size <= |buf|
    ensures |c.buf| == |buf|
    decreases |inbox|
  {
    if pos >= size then Collected(Ok, buf, inbox)
    else if inbox == [] then Collected(ConnectionClosed, buf, inbox)
    else if inbox[0].Broken? then Collected(FailedToReceive, buf, inbox[1..])
    else
      var p := inbox[0].bytes;
      if p == [] then Collected(ConnectionClosed, buf, inbox[1..])
      else if |p| <= RTP_HEADERS_LENGTH then Collected(InvalidFrame, buf, inbox[1..])
      else if Gap(last, SeqOf(p)) then Collected(InvalidFrame, buf, inbox[1..])
      else
        var n: nat := Min(size - pos, |p| - RTP_HEADERS_LENGTH);
        var buf' := Overlay(buf, pos, p[RTP_HEADERS_LENGTH..RTP_HEADERS_LENGTH + n]);
        if EndOfFrame(p) then Collected(Ok, buf', inbox[1..])
        else if pos + n == size then Collected(InvalidFrame, buf', inbox[1..])
        else Collect(buf', pos + n, size, SeqOf(p), inbox[1..])
  }

  datatype Created = Created(status: Status, obj: FrameObj, rest: seq<Datagram>)

  /** The buffer ready for the first packet: a fresh object gets room for the largest datagram. */
  function Ready(o: FrameObj, g: seq<Octet>): (o': FrameObj)
    requires ObjOk(o)
    ensures ObjOk(o') && o'.buf != []
  {
    if o.frameSize <= 0 then InitBuffer(o, MAX_DATAGRAM, g) else o
  }

  /** The next datagram fits the buffer it is copied to; later ones are cut to what is missing. */
  predicate Fits(o: FrameObj, inbox: seq<Datagram>)
  {
    inbox != [] && inbox[0].Data? ==>
      |inbox[0].bytes| <= MAX_DATAGRAM && (o.frameSize > 0 ==> |inbox[0].bytes| - RTP_HEADERS_LENGTH <= |o.buf|)
  }

  /** createFrameFromUDP */
  function CreateFrame(o: FrameObj, inbox: seq<Datagram>, stamped: seq<Octet>, g: seq<Octet>): (c: Created)
    requires ObjOk(o) && Fits(o, inbox) && |stamped| == HEADER
    ensures ObjOk(c.obj)
  {
    var o1 := Ready(o, g);
    if inbox == [] then Created(ConnectionClosed, o1, inbox)
    else if inbox[0].Broken? then Created(FailedToReceive, o1, inbox[1..])
    else
      var p, rest := inbox[0].bytes, inbox[1..];
      if p == [] then Created(ConnectionClosed, o1, rest)
      else if |p| < RTP_HEADERS_LENGTH then Created(InvalidFrame, o1, rest)
      else
        var payload := p[RTP_HEADERS_LENGTH..];
        var o2 := o1.(buf := Overlay(o1.buf, 0, payload));
        var media := MediaSize(o2.buf[..HEADER]);
        if media == None then Created(InvalidFrame, o2, rest)
        else
          var o3 := o2.(buf := Overlay(o2.buf, 0, stamped));
          var size := media.value + HEADER;
          if size <= 0 then Created(InvalidFrame, o3, rest)
          else
            var o4 := InitBuffer(o3, size, g);
            var c := Collect(o4.buf, |payload|, size, SeqOf(p), rest);
            Created(c.status, FrameObj(c.buf, size), c.rest)
  }

  /** The second byte of the packet buffer, with the marker bit, after a datagram was received into it. */
  function SecondByte(p: seq<Octet>, stale: Octet): Octet { if |p| >= 2 then p[1] else stale }

  /**
   What waiting for the end of a frame leaves of the inbox, and how it ends; `stale` is what the packet buffer
   has as its second byte, which a datagram of a single byte does not overwrite.
   */
  function SkipToMarker(inbox: seq<Datagram>, started: bool, stale: Octet): (r: (Status, seq<Datagram>))
    ensures |r.1| <= |inbox|
    decreases |inbox|
  {
    if inbox == [] then (ConnectionClosed, inbox)
    else if !started then (ConnectionClosed, inbox[1..])
    else if inbox[0].Broken? then (FailedToReceive, inbox[1..])
    else if inbox[0].bytes == [] then (ConnectionClosed, inbox[1..])
    else
      var second := SecondByte(inbox[0].bytes, stale);
      if second >= 128 then (Ok, inbox[1..]) else SkipToMarker(inbox[1..], started, second)
  }

  /** The input pin: is the socket open, was it started, must it look for the next frame boundary. */
  datatype Pin = Pin(valid: bool, started: bool, waiting: bool)

  datatype ReadResult = ReadResult(status: Status, pin: Pin, obj: FrameObj, rest: seq<Datagram>)

  /** The wait of a read, if it has to look for the next frame boundary. */
  function Wait(pin: Pin, inbox: seq<Datagram>, g: seq<Octet>): (r: (Status, seq<Datagram>))
  {
    if pin.waiting || !pin.valid then SkipToMarker(inbox, pin.started, Leftover(g, 1)) else (Ok, inbox)
  }

  /** The datagram that a read takes for the first of a frame, if it comes to that, fits. */
  predicate ReadFits(pin: Pin, o: FrameObj, inbox: seq<Datagram>, g: seq<Octet>, opens: bool)
  {
    (pin.valid || opens) && Wait(pin, inbox, g).0 == Ok ==> Fits(o, Wait(pin, inbox, g).1)
  }

  /** CInRTP::read; `opens` says whether reopening the socket would succeed. */
  function ReadFrame(pin: Pin, o: FrameObj, inbox: seq<Datagram>, stamped: seq<Octet>, g: seq<Octet>, opens: bool)
      : ReadResult
    requires ObjOk(o) && ReadFits(pin, o, inbox, g, opens) && |stamped| == HEADER
  {
    if !pin.valid && !opens then ReadResult(FailedToOpen, pin, o, inbox)
    else
      var pin1 := if pin.valid then pin else pin.(valid := true, waiting := true);
      var wait := Wait(pin, inbox, g);
      if wait.0 != Ok then
        ReadResult(wait.0, pin1.(valid := !pin1.started), o, wait.1)
      else
        var c := CreateFrame(o, wait.1, stamped, g);
        if c.status == Ok then ReadResult(Ok, pin1.(waiting := false), c.obj, c.rest)
        else
          var closes := c.status == FailedToReceive || c.status == ConnectionClosed;
          ReadResult(InvalidFrame, pin1.(waiting := true, valid := !closes), c.obj, c.rest)
  }

  // ---- What the outcomes mean ----

  /**
   A vMI header starts with 0, 0, 0, 1 and version 2.0.3; its media size is the signed number in bytes 16 to
   19, the highest first.
   */
  lemma MediaSizeSays(h: seq<Octet>)
    requires |h| >= HEADER
    ensures MediaSize(h).Some?
       <==> h[0] == 0 && h[1] == 0 && h[2] == 0 && h[3] == 1 && h[4] == 2 && h[5] == 0 && h[6] == 3
    ensures MediaSize(h).Some? ==>
              var n, v := ((h[16] as int * 256 + h[17]) * 256 + h[18]) * 256 + h[19], MediaSize(h).value;
              -0x8000_0000 <= v < 0x8000_0000 && (v == n || v == n - 0x1_0000_0000)
  {
  }

  /** A frame object's buffer never shrinks; it is replaced exactly when it is missing or too small. */
  lemma InitBufferSays(o: FrameObj, size: nat, g: seq<Octet>)
    requires size > 0 && o.frameSize <= |o.buf|
    ensures var o' := InitBuffer(o, size, g);
            && o'.frameSize == size && |o.buf| <= |o'.buf|
            && (if 0 < |o.buf| && size <= |o.buf| then o'.buf == o.buf
                else
                  && |o'.buf| == size
                  && (forall i :: 0 <= i < size && i < o.frameSize ==> o'.buf[i] == o.buf[i])
                  && (forall i :: 0 <= i < size && o.frameSize <= i < |g| ==> o'.buf[i] == g[i]))
  {
  }

  /** A fresh object gets a buffer of 65535 bytes, the largest datagram; any other is left as it is. */
  lemma ReadySays(o: FrameObj, g: seq<Octet>)
    requires ObjOk(o)
    ensures o.frameSize > 0 ==> Ready(o, g) == o
    ensures o.frameSize <= 0 ==> Ready(o, g).frameSize == 65535 && |Ready(o, g).buf| == 65535
  {
  }

  /** When no frame is started: what is said, and that one datagram at most is used up. */
  lemma CreateFails(o: FrameObj, inbox: seq<Datagram>, stamped: seq<Octet>, g: seq<Octet>)
    requires ObjOk(o) && Fits(o, inbox) && |stamped| == HEADER
    ensures var c := CreateFrame(o, inbox, stamped, g);
            && (inbox == [] ==> c.status == ConnectionClosed && c.rest == [])
            && (inbox != [] && inbox[0].Broken? ==> c.status == FailedToReceive && c.rest == inbox[1..])
            && (inbox != [] && inbox[0].Data? && |inbox[0].bytes| == 0 ==>
                  c.status == ConnectionClosed && c.rest == inbox[1..])
            && (inbox != [] && inbox[0].Data? && 1 <= |inbox[0].bytes| <= 11 ==>
                  c.status == InvalidFrame && c.rest == inbox[1..])
  {
    hide Collect, MediaSize, Overlay, SeqOf;
  }

  /**
   The header of a frame is read from the buffer, where the first payload lies on top of what was there before.
   A packet is dropped if that is no header, or announces no bytes at all; otherwise the frame has the size it
   announces.
   */
  lemma HeaderIsChecked(o: FrameObj, inbox: seq<Datagram>, stamped: seq<Octet>, g: seq<Octet>)
    requires ObjOk(o) && Fits(o, inbox) && |stamped| == HEADER
    requires inbox != [] && inbox[0].Data? && |inbox[0].bytes| >= 12
    ensures var p, buf := inbox[0].bytes, Ready(o, g).buf;
            && |p| - 12 <= |buf| && 128 <= |buf|
            && var m := MediaSize((p[12..] + buf[|p| - 12..])[..128]);
               var c := CreateFrame(o, inbox, stamped, g);
               if m == None || m.value <= -128 then c.status == InvalidFrame && c.rest == inbox[1..]
               else c.obj.frameSize == m.value + 128
  {
    hide Collect, MediaSize, SeqOf;
    var p, o1 := inbox[0].bytes, Ready(o, g);
    var payload := p[RTP_HEADERS_LENGTH..];
    assert Overlay(o1.buf, 0, payload) == payload + o1.buf[|payload|..];
  }

  /** In the loop: what ends it before a packet is used. */
  lemma CollectFails(buf: seq<Octet>, pos: nat, size: nat, last: int, inbox: seq<Datagram>)
    requires pos < size <= |buf|
    ensures var c := Collect(buf, pos, size, last, inbox);
            && (inbox == [] ==> c == Collected(ConnectionClosed, buf, []))
            && (inbox != [] && inbox[0].Broken? ==> c == Collected(FailedToReceive, buf, inbox[1..]))
            && (inbox != [] && inbox[0].Data? && |inbox[0].bytes| == 0 ==>
                  c == Collected(ConnectionClosed, buf, inbox[1..]))
            && (inbox != [] && inbox[0].Data? && 1 <= |inbox[0].bytes| <= 12 ==>
                  c == Collected(InvalidFrame, buf, inbox[1..]))
  {
    hide Overlay, SeqOf;
  }

  /** While waiting: the marker is the top bit of the second byte, and what ends the wait without one. */
  lemma WaitEnds(inbox: seq<Datagram>, started: bool, stale: Octet)
    ensures var r := SkipToMarker(inbox, started, stale);
            && (inbox == [] ==> r == (ConnectionClosed, []))
            && (inbox != [] && !started ==> r == (ConnectionClosed, inbox[1..]))
            && (inbox != [] && started && inbox[0].Broken? ==> r == (FailedToReceive, inbox[1..]))
            && (inbox != [] && started && inbox[0].Data? && |inbox[0].bytes| == 0 ==>
                  r == (ConnectionClosed, inbox[1..]))
            && (inbox != [] && started && inbox[0].Data? && |inbox[0].bytes| == 1 ==>
                  r == if stale >= 128 then (Ok, inbox[1..]) else SkipToMarker(inbox[1..], started, stale))
            && (inbox != [] && started && inbox[0].Data? && |inbox[0].bytes| >= 2 ==>
                  r == if inbox[0].bytes[1] >= 128 then (Ok, inbox[1..])
                       else SkipToMarker(inbox[1..], started, inbox[0].bytes[1]))
  {
  }

  /**
   What a read does to the pin: nothing if it cannot open the socket; a failed wait closes the socket of a
   started pin; a frame that fails makes the next read wait, and closes the socket exactly if nothing could
   be received; an OK read leaves it open and at a boundary. A new connection always waits.
   */
  lemma ReadSays(pin: Pin, o: FrameObj, inbox: seq<Datagram>, stamped: seq<Octet>, g: seq<Octet>, opens: bool)
    requires ObjOk(o) && ReadFits(pin, o, inbox, g, opens) && |stamped| == HEADER
    ensures var r := ReadFrame(pin, o, inbox, stamped, g, opens);
            if !pin.valid && !opens then r == ReadResult(FailedToOpen, pin, o, inbox)
            else
              var (s, rest) := if pin.waiting || !pin.valid then SkipToMarker(inbox, pin.started, Leftover(g, 1))
                               else (Ok, inbox);
              if s != Ok then
                r == ReadResult(s, Pin(!pin.started, pin.started, pin.waiting || !pin.valid), o, rest)
              else
                && Fits(o, rest)
                && var c := CreateFrame(o, rest, stamped, g);
                   && r.obj == c.obj && r.rest == c.rest && r.pin.started == pin.started
                   && (c.status == Ok ==> r.status == Ok && r.pin.valid && !r.pin.waiting)
                   && (c.status != Ok ==>
                         && r.status == InvalidFrame && r.pin.waiting
                         && (r.pin.valid <==> c.status != FailedToReceive && c.status != ConnectionClosed))
  {
    hide CreateFrame, SkipToMarker, Fits;
  }
}
