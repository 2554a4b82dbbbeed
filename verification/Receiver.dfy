/** The receiving classes as code: the socket, CvMIFrame and CInRTP. */
module Receiver {
  import opened Wrappers
  import opened RtpPacket
  import opened Reassembly

  class InSocket {
    var inbox: seq<Datagram>
    var valid: bool

    constructor (inbox: seq<Datagram>, valid: bool)
      ensures this.inbox == inbox && this.valid == valid
    {
      this.inbox, this.valid := inbox, valid;
    }

    /** recvfrom: the size read, 0 when the connection is closed, -1 on error. */
    method ReadSocket() returns (result: int, packet: seq<Octet>)
      modifies this
      ensures valid == old(valid)
      ensures old(inbox) == [] ==> result == 0 && packet == [] && inbox == []
      ensures old(inbox) != [] ==> inbox == old(inbox)[1..]
      ensures old(inbox) != [] && old(inbox)[0].Broken? ==> result == -1 && packet == []
      ensures old(inbox) != [] && old(inbox)[0].Data? ==> packet == old(inbox)[0].bytes && result == |packet|
    {
      if inbox == [] {
        return 0, [];
      }
      var first := inbox[0];
      inbox := inbox[1..];
      match first
      case Broken => return -1, [];
      case Data(bytes) => return |bytes|, bytes;
    }
  }

  class VmiFrame {
    /** `_frame_buffer`; its length is `_buffer_size` */
    var buffer: array?<Octet>
    /** `_frame_size` */
    var frameSize: int

    ghost function Obj(): FrameObj
      reads this, buffer
    {
      FrameObj(if buffer == null then [] else buffer[..], frameSize)
    }

    ghost predicate Valid()
      reads this, buffer
    {
      ObjOk(Obj()) && (buffer != null ==> buffer.Length > 0)
    }

    constructor ()
      ensures Valid() && Obj() == FrameObj([], 0)
    {
      buffer, frameSize := null, 0;
    }

    /** _init_buffer */
    method InitFrameBuffer(size: int, g: seq<Octet>) returns (ok: bool)
      requires frameSize <= |Obj().buf| && (buffer != null ==> buffer.Length > 0)
      modifies this
      ensures ok <==> size > 0
      ensures !ok ==> Obj() == old(Obj()) && buffer == old(buffer)
      ensures ok ==> Obj() == InitBuffer(old(Obj()), size, g)
      ensures ok ==> buffer != null && buffer.Length > 0
      ensures buffer == old(buffer) || fresh(buffer)
    {
      if size <= 0 {
        return false;
      }
      if buffer == null || size > buffer.Length {
        var oldBuffer, keep := buffer, frameSize;
        var bigger := new Octet[size](i requires i >= 0 => Leftover(g, i));
        if oldBuffer != null {
          forall i | 0 <= i < keep {
            bigger[i] := oldBuffer[i];
          }
        }
        buffer := bigger;
      }
      frameSize := size;
      return true;
    }

    /** memcpy into the frame buffer */
    method CopyIn(pos: nat, bytes: seq<Octet>)
      requires buffer != null && pos + |bytes| <= buffer.Length
      modifies buffer
      ensures buffer[..] == Overlay(old(buffer[..]), pos, bytes)
    {
      forall i | 0 <= i < |bytes| {
        buffer[pos + i] := bytes[i];
      }
    }

    /** The loop of createFrameFromUDP. */
    method CollectRest(sock: InSocket, start: nat, firstSeq: int) returns (status: Status)
      requires buffer != null && 0 <= frameSize <= buffer.Length
      modifies sock, buffer
      ensures sock.valid == old(sock.valid)
      ensures Collected(status, buffer[..], sock.inbox)
           == Collect(old(buffer[..]), start, frameSize, firstSeq, old(sock.inbox))
    {
      hide Overlay, SeqOf, EndOfFrame;
      var pos: nat, last, ended := start, firstSeq, false;
      ghost var goal := Collect(buffer[..], start, frameSize, firstSeq, sock.inbox);
      while !ended && pos < frameSize
        invariant sock.valid == old(sock.valid)
        invariant goal == if ended then Collected(Ok, buffer[..], sock.inbox)
                          else Collect(buffer[..], pos, frameSize, last, sock.inbox)
        decreases |sock.inbox|, !ended
      {
        var result, packet := sock.ReadSocket();
        if result < 0 {
          return FailedToReceive;
        } else if result == 0 {
          return ConnectionClosed;
        } else if result <= RTP_HEADERS_LENGTH {
          return InvalidFrame;
        }
        if SeqOf(packet) > last && SeqOf(packet) != last + 1 {
          return InvalidFrame;
        }
        last := SeqOf(packet);
        var n: nat := Min(frameSize - pos, |packet| - RTP_HEADERS_LENGTH);
        CopyIn(pos, packet[RTP_HEADERS_LENGTH..RTP_HEADERS_LENGTH + n]);
        pos := pos + n;
        if EndOfFrame(packet) {
          ended := true;
        } else if pos == frameSize {
          return InvalidFrame;
        }
      }
      return Ok;
    }

    /** createFrameFromUDP */
    method CreateFromUdp(sock: InSocket, stamped: seq<Octet>, g: seq<Octet>) returns (status: Status)
      requires Valid() && Fits(Obj(), sock.inbox) && |stamped| == HEADER
      modifies this, buffer, sock
      ensures Valid() && sock.valid == old(sock.valid)
      ensures buffer == old(buffer) || fresh(buffer)
      ensures Created(status, Obj(), sock.inbox) == CreateFrame(old(Obj()), old(sock.inbox), stamped, g)
    {
      hide Collect, MediaSize, SeqOf, Overlay;
      if frameSize <= 0 {
        var _ := InitFrameBuffer(MAX_DATAGRAM, g);
      }
      var result, packet := sock.ReadSocket();
      if result < 0 {
        return FailedToReceive;
      } else if result == 0 {
        return ConnectionClosed;
      } else if result < RTP_HEADERS_LENGTH {
        return InvalidFrame;
      }
      var payload := packet[RTP_HEADERS_LENGTH..];
      CopyIn(0, payload);
      var head := buffer[..HEADER];
      var media := MediaSize(head);
      if media == None {
        return InvalidFrame;
      }
      CopyIn(0, stamped);
      var ok := InitFrameBuffer(media.value + HEADER, g);
      if !ok {
        return InvalidFrame;
      }
      status := CollectRest(sock, |payload|, SeqOf(packet));
    }
  }

  class RtpInput {
    var started: bool
    /** `_waitForNextFrame` */
    var waiting: bool

    constructor ()
      ensures !started && waiting
    {
      started, waiting := false, true;
    }

    ghost function PinOf(sock: InSocket): Pin
      reads this, sock
    {
      Pin(sock.valid, started, waiting)
    }

    /** The loop that waits for the end of a frame; `second` is the second byte of its packet buffer. */
    method WaitForMarker(sock: InSocket, g: seq<Octet>) returns (status: Status)
      modifies this, sock
      ensures started == old(started) && (status == Ok ==> !waiting) && (status != Ok ==> waiting == old(waiting))
      ensures (status, sock.inbox) == SkipToMarker(old(sock.inbox), started, Leftover(g, 1))
      ensures sock.valid == (if status == Ok || !started then old(sock.valid) else false)
    {
      var ended, second := false, Leftover(g, 1);
      while !ended
        invariant started == old(started) && waiting == old(waiting) && sock.valid == old(sock.valid)
        invariant SkipToMarker(old(sock.inbox), started, Leftover(g, 1))
               == if ended then (Ok, sock.inbox) else SkipToMarker(sock.inbox, started, second)
        decreases |sock.inbox|, !ended
      {
        var result, packet := sock.ReadSocket();
        if !started {
          return ConnectionClosed;
        }
        if result < 0 {
          sock.valid := false;
          return FailedToReceive;
        } else if result == 0 {
          sock.valid := false;
          return ConnectionClosed;
        }
        if result >= 2 {
          second := packet[1];
        }
        ended := second >= 128;
      }
      waiting := false;
      return Ok;
    }

    /** CInRTP::read */
    method Read(sock: InSocket, frame: VmiFrame, stamped: seq<Octet>, g: seq<Octet>, opens: bool)
        returns (status: Status)
      requires frame.Valid() && ReadFits(PinOf(sock), frame.Obj(), sock.inbox, g, opens) && |stamped| == HEADER
      modifies this, sock, frame, frame.buffer
      ensures frame.Valid()
      ensures ReadResult(status, PinOf(sock), frame.Obj(), sock.inbox)
           == ReadFrame(old(PinOf(sock)), old(frame.Obj()), old(sock.inbox), stamped, g, opens)
    {
      hide SkipToMarker, CreateFrame, Fits;
      if !sock.valid {
        if !opens {
          return FailedToOpen;
        }
        sock.valid := true;
        waiting := true;
      }
      if waiting {
        status := WaitForMarker(sock, g);
        if status != Ok {
          return;
        }
      }
      status := frame.CreateFromUdp(sock, stamped, g);
      if status != Ok {
        if status == FailedToReceive || status == ConnectionClosed {
          sock.valid := false;
        }
        waiting := true;
        return InvalidFrame;
      }
    }
  }
}
