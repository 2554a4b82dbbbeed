/** CRTPPacketizer: a frame is cut into RTP packets of equal size, the last one padded and marked. */
module Packetizer {
  import opened Wrappers
  import opened RtpPacket

  function Zeros(n: nat): (z: seq<Octet>)
    ensures |z| == n
  {
    seq(n, _ => 0)
  }

  /** One packet: header, as much of the frame as fits, zero padding. */
  function PacketFor(frame: seq<Octet>, payload: nat, seqNo: int, payloadType: int, ssrc: seq<Octet>): (p: seq<Octet>)
    requires payload > 0 && 0 <= seqNo < SEQ_MOD && 0 <= payloadType && |ssrc| == 4
    ensures |p| == RTP_HEADERS_LENGTH + payload
  {
    var n := Min(|frame|, payload);
    Header(seqNo, |frame| <= payload, payloadType, ssrc) + frame[..n] + Zeros(payload - n)
  }

  /** All packets of a frame. */
  function Split(frame: seq<Octet>, payload: nat, seqNo: int, payloadType: int, ssrc: seq<Octet>): (ps: seq<seq<Octet>>)
    requires payload > 0 && 0 <= seqNo < SEQ_MOD && 0 <= payloadType && |ssrc| == 4
    decreases |frame|
  {
    if frame == [] then []
    else
      [PacketFor(frame, payload, seqNo, payloadType, ssrc)]
      + Split(frame[Min(|frame|, payload)..], payload, (seqNo + 1) % SEQ_MOD, payloadType, ssrc)
  }

  /** The socket: what was sent on it, and how many more datagrams the transport will accept. */
  class UdpSocket {
    var valid: bool
    var sent: seq<seq<Octet>>
    var quota: nat

    constructor (quota: nat)
      ensures valid && sent == [] && this.quota == quota
    {
      valid, sent, this.quota := true, [], quota;
    }

    method WriteSocket(p: seq<Octet>) returns (result: int)
      modifies this
      ensures valid == old(valid)
      ensures old(quota) == 0 ==> result == -1 && sent == old(sent) && quota == 0
      ensures old(quota) > 0 ==> result == |p| && sent == old(sent) + [p] && quota == old(quota) - 1
    {
      if quota == 0 {
        return -1;
      }
      sent, quota := sent + [p], quota - 1;
      return |p|;
    }
  }

  datatype SendStatus = SendOk | FailedToSend

  class RtpPacketizer {
    const packetSize: nat
    const payloadSize: nat
    const payloadType: nat
    /** `_RTPframe` */
    const frame: array<Octet>
    /** `_seq` */
    var seqNo: int

    ghost predicate Valid()
      reads this
    {
      && payloadSize > 0 && packetSize == RTP_HEADERS_LENGTH + payloadSize
      && frame.Length >= packetSize && 0 <= seqNo < SEQ_MOD
    }

    /** An MTU must leave room for the IP, UDP and RTP headers and at least one byte of payload. */
    constructor (mtu: nat, payloadType: nat)
      requires 40 < mtu <= 65535
      ensures Valid() && fresh(frame) && seqNo == 0 && payloadSize == mtu - 40 && this.payloadType == payloadType
    {
      packetSize, payloadSize, this.payloadType := mtu - 28, mtu - 40, payloadType;
      frame := new Octet[65535](_ => 0);
      seqNo := 0;
    }

    ghost function Ssrc(): (s: seq<Octet>)
      reads this, frame
      requires Valid()
      ensures |s| == 4
    {
      frame[8..12]
    }

    method WriteHeader(seqNo: int, marker: bool)
      requires Valid() && 0 <= seqNo < SEQ_MOD
      modifies frame
      ensures frame[..RTP_HEADERS_LENGTH] == Header(seqNo, marker, payloadType, old(Ssrc()))
      ensures frame[RTP_HEADERS_LENGTH..] == old(frame[RTP_HEADERS_LENGTH..])
    {
      frame[0], frame[1] := 128, (if marker then 128 else 0) + payloadType % 128;
      frame[2], frame[3] := seqNo / 256, seqNo % 256;
      frame[4], frame[5], frame[6], frame[7] := 0, 0, 0, 0;
    }

    /** Copies the payload behind the header and pads it with zeros. */
    method FillPayload(data: seq<Octet>)
      requires Valid() && |data| <= payloadSize
      modifies frame
      ensures frame[..RTP_HEADERS_LENGTH] == old(frame[..RTP_HEADERS_LENGTH])
      ensures frame[RTP_HEADERS_LENGTH..packetSize] == data + Zeros(payloadSize - |data|)
    {
      forall i | 0 <= i < payloadSize {
        frame[RTP_HEADERS_LENGTH + i] := if i < |data| then data[i] else 0;
      }
    }

    /** Builds the packet for what is left of the frame. */
    method MakePacket(left: seq<Octet>) returns (n: nat)
      requires Valid()
      modifies frame
      ensures n == Min(|left|, payloadSize)
      ensures Ssrc() == old(Ssrc())
      ensures frame[..packetSize] == PacketFor(left, payloadSize, seqNo, payloadType, old(Ssrc()))
    {
      n := Min(|left|, payloadSize);
      FillPayload(left[..n]);
      ghost var body := frame[RTP_HEADERS_LENGTH..packetSize];
      WriteHeader(seqNo, n == |left|);
      assert frame[RTP_HEADERS_LENGTH..packetSize] == body;
      assert frame[..packetSize] == frame[..RTP_HEADERS_LENGTH] + body;
      assert frame[8..12] == frame[..RTP_HEADERS_LENGTH][8..12];
    }

    /** One turn of the loop of send: build the packet, advance the sequence number, write. */
    method SendNext(sock: UdpSocket, left: seq<Octet>) returns (n: nat, result: int)
      requires Valid()
      modifies this, frame, sock
      ensures Valid() && Ssrc() == old(Ssrc()) && sock.valid == old(sock.valid)
      ensures n == Min(|left|, payloadSize) && seqNo == (old(seqNo) + 1) % SEQ_MOD
      ensures result == -1 <==> old(sock.quota) == 0
      ensures old(sock.quota) == 0 ==> sock.sent == old(sock.sent) && sock.quota == 0
      ensures old(sock.quota) > 0 ==>
                && sock.quota == old(sock.quota) - 1
                && sock.sent == old(sock.sent) + [PacketFor(left, payloadSize, old(seqNo), payloadType, old(Ssrc()))]
    {
      hide PacketFor;
      n := MakePacket(left);
      seqNo := (seqNo + 1) % SEQ_MOD;
      result := sock.WriteSocket(frame[..packetSize]);
    }

    /**
     Sends one frame. Without a valid socket nothing happens. If the transport refuses a packet, the
     packets before it have been sent and its sequence number is used up.
     */
    method Send(sock: UdpSocket, buffer: seq<Octet>) returns (status: SendStatus)
      requires Valid()
      modifies this, frame, sock
      ensures Valid()
      ensures !old(sock.valid) ==> status == SendOk && sock.sent == old(sock.sent) && seqNo == old(seqNo)
      ensures old(sock.valid) ==>
                var all, room := Split(buffer, payloadSize, old(seqNo), payloadType, old(Ssrc())), old(sock.quota);
                if |all| <= room then
                  status == SendOk && sock.sent == old(sock.sent) + all && seqNo == SeqAfter(old(seqNo), |all|)
                else
                  && status == FailedToSend && sock.sent == old(sock.sent) + all[..room]
                  && seqNo == SeqAfter(old(seqNo), room + 1)
    {
      if !sock.valid {
        return SendOk;
      }
      hide PacketFor, Split, Header, SeqAfter, Zeros;
      ghost var start, room, ssrc := seqNo, sock.quota, Ssrc();
      ghost var all := Split(buffer, payloadSize, start, payloadType, ssrc);
      SeqStart(seqNo);
      SplitNothing(payloadSize, payloadType, ssrc);
      ghost var i := 0;
      var left := buffer;
      while left != []
        invariant Valid() && Ssrc() == ssrc && sock.valid && i <= |all| && i <= room
        invariant all[i..] == Split(left, payloadSize, seqNo, payloadType, ssrc)
        invariant seqNo == SeqAfter(start, i) && sock.quota == room - i
        invariant sock.sent == old(sock.sent) + all[..i]
        decreases |left|
      {
        SplitFirst(left, payloadSize, seqNo, payloadType, ssrc, all, i);
        AppendNext(old(sock.sent), all, i);
        SeqStep(start, i);
        var n, result := SendNext(sock, left);
        left := left[n..];
        if result == -1 {
          return FailedToSend;
        }
        i := i + 1;
      }
      assert all[i..] == [] && all[..i] == all;
      return SendOk;
    }
  }

  lemma AppendNext(base: seq<seq<Octet>>, all: seq<seq<Octet>>, i: nat)
    requires i < |all|
    ensures base + all[..i + 1] == (base + all[..i]) + [all[i]]
  {
  }

  /** The sequence number n packets later. */
  function SeqAfter(s: int, n: nat): (r: int)
    ensures 0 <= r < SEQ_MOD
  {
    (s + n) % SEQ_MOD
  }

  lemma SeqStart(s: int)
    requires 0 <= s < SEQ_MOD
    ensures SeqAfter(s, 0) == s
  {
  }

  lemma SeqStep(s: int, n: nat)
    ensures SeqAfter(s, n + 1) == (SeqAfter(s, n) + 1) % SEQ_MOD
  {
  }

  lemma SplitNothing(payload: nat, payloadType: int, ssrc: seq<Octet>)
    requires payload > 0 && 0 <= payloadType && |ssrc| == 4
    ensures forall s :: 0 <= s < SEQ_MOD ==> Split([], payload, s, payloadType, ssrc) == []
  {
  }

  lemma SplitFirst(left: seq<Octet>, payload: nat, seqNo: int, payloadType: int, ssrc: seq<Octet>,
                   all: seq<seq<Octet>>, i: nat)
    requires payload > 0 && 0 <= seqNo < SEQ_MOD && 0 <= payloadType && |ssrc| == 4
    requires left != [] && i <= |all| && all[i..] == Split(left, payload, seqNo, payloadType, ssrc)
    ensures i < |all| && all[i] == PacketFor(left, payload, seqNo, payloadType, ssrc)
    ensures all[i + 1..] == Split(left[Min(|left|, payload)..], payload, (seqNo + 1) % SEQ_MOD, payloadType, ssrc)
  {
    hide PacketFor;
    assert all[i] == all[i..][0] && all[i + 1..] == all[i..][1..];
  }
}
