/** RTP headers as CRTPFrame writes and reads them (RFC 3550, section 5.1). */
module RtpPacket {

  type Octet = x: int | 0 <= x < 256

  const RTP_HEADERS_LENGTH: nat := 12
  const SEQ_MOD: nat := 65536

  /** writeHeader; the SSRC bytes are those the buffer held when the CRTPFrame was made over it. */
  function Header(seqNo: int, marker: bool, payloadType: int, ssrc: seq<Octet>): (h: seq<Octet>)
    requires 0 <= seqNo < SEQ_MOD && 0 <= payloadType && |ssrc| == 4
    ensures |h| == RTP_HEADERS_LENGTH
  {
    [128, (if marker then 128 else 0) + payloadType % 128, seqNo / 256, seqNo % 256, 0, 0, 0, 0] + ssrc
  }

  /** extractData: the fields of a received packet. */
  function SeqOf(p: seq<Octet>): (s: int)
    requires |p| >= RTP_HEADERS_LENGTH
    ensures 0 <= s < SEQ_MOD
  {
    var high: int := p[2];
    high * 256 + p[3]
  }

  function PayloadTypeOf(p: seq<Octet>): int
    requires |p| >= RTP_HEADERS_LENGTH
  {
    p[1] % 128
  }

  /** isEndOfFrame */
  predicate EndOfFrame(p: seq<Octet>) { |p| >= 2 && p[1] >= 128 }

  /**
   A header as section 5.1 of RFC 3550 has it: version 2, no padding, extension or contributing sources; the
   marker; the payload type in seven bits; the number with its high byte first; timestamp zero; the SSRC.
   */
  lemma HeaderFields(seqNo: int, marker: bool, payloadType: int, ssrc: seq<Octet>)
    requires 0 <= seqNo < SEQ_MOD && 0 <= payloadType && |ssrc| == 4
    ensures var h := Header(seqNo, marker, payloadType, ssrc);
            && h[0] / 64 == 2 && h[0] % 64 == 0
            && (h[1] >= 128 <==> marker) && h[1] % 128 == payloadType % 128
            && h[2] as int * 256 + h[3] as int == seqNo
            && h[4..8] == [0, 0, 0, 0] && h[8..12] == ssrc
  {
  }

  /** What is written is read back, whatever payload follows. */
  lemma HeaderRoundTrip(seqNo: int, marker: bool, payloadType: int, ssrc: seq<Octet>, payload: seq<Octet>)
    requires 0 <= seqNo < SEQ_MOD && 0 <= payloadType && |ssrc| == 4
    ensures var p := Header(seqNo, marker, payloadType, ssrc) + payload;
            && SeqOf(p) == seqNo && EndOfFrame(p) == marker && PayloadTypeOf(p) == payloadType % 128
            && p[RTP_HEADERS_LENGTH..] == payload
  {
  }

  /** overrideSeqNumber */
  function WithSeq(p: seq<Octet>, seqNo: int): (p': seq<Octet>)
    requires |p| >= RTP_HEADERS_LENGTH && 0 <= seqNo < SEQ_MOD
    ensures |p'| == |p| && SeqOf(p') == seqNo
    ensures EndOfFrame(p') == EndOfFrame(p) && PayloadTypeOf(p') == PayloadTypeOf(p)
    ensures forall i :: 0 <= i < |p| && i != 2 && i != 3 ==> p'[i] == p[i]
  {
    p[2 := seqNo / 256][3 := seqNo % 256]
  }
}
