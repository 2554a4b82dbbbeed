# A verified model of the media transport's hard parts

This project models the state machines and arithmetic kernels at the centre of the repository and proves
what they promise, for all inputs, all runs and all interleavings. `dafny verify dfyconfig.toml` checks it.

Code that changes state step by step is modelled as classes and methods, each proved equal to a function of
the old state; the results about whole runs are lemmas about those functions.

| files | what they model |
|---|---|
| `RingArith`, `TaggedRing`, `TaggedQueue`, `LockedRing` | the queue `Q` of libegel, whose only synchronisation is the low bit of each slot: as a machine of single loads and stores under every interleaving, as code, and with many threads per side |
| `RtpPacket`, `Packetizer`, `Reassembly`, `Receiver` | cutting a frame into RTP packets, putting it together again, finding frame boundaries |
| `RtpStream`, `RtpEndToEnd`, `RtpNoLoss`, `RtpRecovery`, `RtpLimits` | the end-to-end guarantees over a channel that drops packets: what is delivered was sent, what arrives is delivered, and exactly where that stops |
| `TenBit`, `SampleDepth` | 10-bit words in bytes as a big-endian stream of bits; conversions between 10-bit and 8-bit samples |
| `Crc18`, `CrcTheory`, `CrcPolynomial`, `CrcDevice` | the CRC of SMPTE ST 292-1:2012, section 5.4: table, shift register, polynomial, error detection |
| `Pacer`, `PacerRun`, `PacerDevice` | the fractional packet scheduler, its pause frames, its rate and phase control |
| `CircularBuffer`, `SpsSource`, `SpsDevice` | the dual-source reader of SMPTE ST 2022-7 over its two buffers |
| `FramePool`, `FrameMachine`, `FrameRetarder` | reference-counted frames behind handles, the outputs that share them, a delay line |
| `Collectd`, `CollectdFrame` | the statistics frame that does not repeat unchanged settings |
| `PacketGaps` | running statistics of packet gaps |
| `IgmpChecksum`, `IgmpTimers` | IGMP packets and their checksums, report timers |
| `Wrappers` | the option type and the minimum that the others share |

Results that are not simply positive, because the code does not do what one would expect of it:

- A loss that spans the wrap of the RTP sequence number can go unnoticed, and a frame with misplaced payload
  is returned as OK (`RtpLimits.WrapHidesLoss`). A loss of fewer than 65535 packets is seen exactly when it does
  not span the wrap (`RtpLimits.LossShowsIffNoWrap`); of a longer one only the rest modulo 65536 counts, so it
  can span the wrap and still be seen (`RtpLimits.LossShowsIff`, `RtpLimits.LongLossShows`). A read that
  is OK has a frame that arrived whole exactly if no loss among the packets it took is hidden
  (`RtpStream.IntactIffSeen`), so a hidden loss spoils only the read that takes the packets around it
  (`RtpEndToEnd.EveryOkFrameWasSent`).
- A loss that shows at a frame of one packet uses up that frame's marker, and the next frame is skipped although
  both arrive (`RtpRecovery.TwoPacketsAreNeeded`); behind a whole frame of two packets or more nothing is skipped
  (`RtpRecovery.SecondIsDelivered`).
- `_init_buffer` says it keeps the old content, but keeps only as many bytes as the *old frame* had; growing
  the buffer can lose part of the first payload (`RtpLimits.KeepsIsExact` gives the exact condition).
- A pacer gap can be filled exactly if it is `Fillable`; pauses larger than half a full one make a gap that
  ends the program (`Pacer.FillsIffFillable`, `Pacer.LargePausesGetStuck`, `PacerRun.UnfillableGetsStuck`).
- Clearing the handle of a free frame is called optional in the code; it is what makes a released handle
  unknown, but it also makes the invalid handle lead to a free frame (`FramePool.SoundIffValidHandle`).
- The length field of `addRecordn` wraps above 7281 values, and that of a string above 65530 characters
  (`Collectd.ValuesRoundTripIff`, `Collectd.StringRoundTripIff`). One such part makes the whole frame
  unreadable until the next reset (`CollectdFrame.FrameSaysWhatWasMeant`). The first frame carries no host name.
- An IGMP query whose response time is zero ticks makes the program divide by zero as soon as a flow has to
  be armed (`IgmpTimers.FailsIff`).
- Recovery from the secondary source goes on exactly as long as that source is online and its buffer still
  holds the next packet (`SpsSource.RecoversIff`); a packet that is written over in the meantime ends it.

## Model

| member | source | states |
|---|---|---|
| RingArith.MaskIsMod | external/libegel/src/q.h:135 | masking a counter with capacity - 1 is reduction modulo the capacity, for every power of two |
| RingArith.WrappedCounterSelectsSlot | external/libegel/src/q.h:43-48 | a counter that has wrapped at 32 bits selects the slot of the true count |
| TaggedQueue.Capacity | external/libegel/src/q.c:47-52 | the capacity is the least power of two that is at least n, but at most 2^21; the assertion of the plain queue holds exactly up to 2^20 elements |
| TaggedRing.TagIsLowestBit | external/libegel/src/q.h:62-66 | tagging and untagging change the lowest bit of a word and nothing else |
| TaggedRing.StepKeepsInv | external/libegel/src/q.h:129-159 | every single load, store or increment of a get or put keeps the invariant: occupied slots first, then free ones, one lap in all; what came out is the beginning of what went in, in both directions |
| TaggedRing.StepRefinesFifo | external/libegel/src/q.h:198-226 | each step is one dequeue, one enqueue, or changes neither queue; a get gives up or waits exactly when the queue is empty at that load, a put exactly when it is full |
| TaggedRing.OccupiedSlotsAreInFlight | external/libegel/src/q.h:62-66 | the slots with even words are exactly those of the items in flight, and hold them in order |
| TaggedRing.FifoInEveryRun | external/libegel/src/q.h:129-226 | in every run under every interleaving nothing is lost, duplicated or reordered, and at most n items are in flight |
| TaggedRing.PutReturnsEarlierGive | external/libegel/src/q.h:333-363 | put number j of the exchange queue returns the buffer of get number j - n, or fill number j while j is less than n |
| TaggedRing.BuffersNeverChangeInNumber | external/libegel/src/q.h:266-363 | the buffers held by producer, ring and consumer together are always the initial ones, as a multiset |
| TaggedQueue.GetRuns | external/libegel/src/q.h:266-280 | an undisturbed get takes the first item and leaves the given buffer as the last return |
| TaggedQueue.PutRuns | external/libegel/src/q.h:333-347 | an undisturbed put appends its item and takes the first return |
| TaggedQueue.Queue.constructor | external/libegel/src/q.c:64-87 | a new queue is empty and will return its fill values in order |
| TaggedQueue.Queue.TryGet | external/libegel/src/q.h:129-143 | returns the first item, or a free word exactly when empty; the code's loads and stores are the machine's steps |
| TaggedQueue.Queue.TryPut | external/libegel/src/q.h:198-212 | appends exactly when there is room, and hands back the first return |
| LockedRing.MoveIsCoreStep | external/libegel/src/q.h:176-196 | whatever a thread does while it holds its side's lock is a step of the machine with one consumer and one producer |
| LockedRing.LocksWork | external/libegel/src/q.h:176-196 | a lock that was taken keeps every other thread out until its owner has finished and released it; then anyone may take it |
| LockedRing.MovesRefineRuns | external/libegel/src/q.h:246-264 | every run of many threads is a run of one consumer and one producer; at most one thread per side is inside an operation |
| LockedRing.FifoWithManyThreads | external/libegel/src/q.h:161-196 | many threads, too, take out the beginning of what was put in, in one common order |
| RtpPacket.HeaderRoundTrip | ip2vf/common/rtpframe.cpp:71-121 | sequence number, marker, payload type and payload of a written packet are read back |
| RtpPacket.HeaderFields | ip2vf/common/rtpframe.cpp:92-121 | every field of the header as section 5.1 of RFC 3550 has it |
| RtpPacket.WithSeq | ip2vf/common/rtpframe.cpp:123-136 | overriding the sequence number changes what is read as the number and no other byte |
| Packetizer.RtpPacketizer.MakePacket | ip2vf/common/rtppacketizer.cpp:43-57 | the packet buffer holds header, as much of the frame as fits, and zeros; the marker is set on the last |
| Packetizer.RtpPacketizer.SendNext | ip2vf/common/rtppacketizer.cpp:52-71 | one turn of the loop: the sequence number advances modulo 65536 even when the transport refuses the packet |
| Packetizer.RtpPacketizer.Send | ip2vf/common/rtppacketizer.cpp:31-81 | what is sent is the split of the frame, all of it or, when the transport refuses a packet, everything before that one |
| Receiver.VmiFrame.InitFrameBuffer | ip2vf/common/vmiframe.cpp:83-114 | the buffer in memory is enlarged as the model says, keeping the bytes of the old frame size only |
| Receiver.VmiFrame.CollectRest | ip2vf/common/vmiframe.cpp:343-386 | the collecting loop's status, buffer and remaining input are those of the recursive definition |
| Receiver.VmiFrame.CreateFromUdp | ip2vf/common/vmiframe.cpp:275-390 | createFrameFromUDP on the buffer in memory is the model's CreateFrame, in every error case too |
| Receiver.RtpInput.WaitForMarker | ip2vf/common/pins/rtp/inrtp.cpp:90-118 | waiting uses up packets to the end of a frame, or ends with the connection; a datagram of one byte leaves the marker of the one before it in the packet buffer |
| Receiver.RtpInput.Read | ip2vf/common/pins/rtp/inrtp.cpp:55-141 | the pin's flags, the socket, the frame object and the status after a read are those of the model |
| Reassembly.MediaSizeSays | ip2vf/common/frameheaders.cpp:221-251 | what a header of a frame is, and the signed size it announces |
| Reassembly.InitBufferSays | ip2vf/common/vmiframe.cpp:83-114 | the buffer never shrinks, and what a new one keeps |
| Reassembly.ReadySays | ip2vf/common/vmiframe.cpp:285-290 | a fresh object gets room for the largest datagram |
| Reassembly.CreateFails | ip2vf/common/vmiframe.cpp:295-309 | what is said when no datagram with a header of its own arrives |
| Reassembly.HeaderIsChecked | ip2vf/common/vmiframe.cpp:311-336 | the header is read from the first payload on top of the old buffer; without one, or without any bytes announced, the packet is dropped |
| Reassembly.CollectFails | ip2vf/common/vmiframe.cpp:346-359 | what ends the loop before a packet is used |
| Reassembly.WaitEnds | ip2vf/common/pins/rtp/inrtp.cpp:97-116 | a marker, a stop, an error or a closed connection ends the wait, nothing else |
| Reassembly.ReadSays | ip2vf/common/pins/rtp/inrtp.cpp:55-141 | what each outcome of a read does to the pin: when the socket is closed, and when the next read waits |
| RtpStream.PacketFields | ip2vf/common/rtppacketizer.cpp:43-57 | the receiver reads from a packet the number, marker and payload bytes of its place in the stream |
| RtpStream.PacketRest | ip2vf/common/rtppacketizer.cpp:43-57 | payload type and SSRC of every packet, and zeros behind the end of the frame |
| RtpStream.CollectIntact | ip2vf/common/vmiframe.cpp:343-386 | entered after packet k of a frame whose rest arrives, the loop succeeds right behind it, and the buffer carries the frame |
| RtpStream.CollectCloses | ip2vf/common/vmiframe.cpp:343-386 | whatever was lost, and whatever the buffer holds, the loop succeeds exactly when no jump shows before a marker comes in time, and then stops behind a marker |
| RtpStream.ClosesSeen | ip2vf/common/vmiframe.cpp:361-376 | a success without a hidden loss means that all of the frame arrived |
| RtpStream.IntactCloses | ip2vf/common/vmiframe.cpp:343-386 | and where all of it arrives the loop succeeds at its end |
| RtpStream.IntactIffSeen | ip2vf/common/vmiframe.cpp:361-376 | so after a success the frame has arrived whole if and only if none of the losses on the way is hidden |
| RtpEndToEnd.CreateFromFirst | ip2vf/common/vmiframe.cpp:275-390 | a read at the first packet of a frame is OK exactly when the tests of the loop pass, whatever was lost; it is OK with the bytes of the frame when all of it arrives |
| RtpEndToEnd.CreateFromMiddle | ip2vf/common/vmiframe.cpp:311-319 | reading at a packet from the middle of a frame fails and uses up that packet only |
| RtpEndToEnd.SkipStops | ip2vf/common/pins/rtp/inrtp.cpp:97-116 | waiting stops behind the end of a frame, wherever it begins |
| RtpEndToEnd.ReadKeepsAligned | ip2vf/common/pins/rtp/inrtp.cpp:88-137 | between two reads the pin waits for a boundary or stands at one, whatever is lost; an OK read took all the packets of the frame that ended there, and leaves that frame, exactly if no loss among the packets it took is hidden |
| RtpEndToEnd.EveryOkFrameWasSent | ip2vf/common/pins/rtp/inrtp.cpp:55-141 | over an in-order channel that drops packets, in every run of reads, every OK read ends where a frame sent ends, a later frame each time; it took that frame's packets and no others, and has its media bytes, exactly if no loss among the packets of that very read is hidden |
| RtpEndToEnd.AllRightIfLossesShow | ip2vf/common/pins/rtp/inrtp.cpp:55-141 | when every loss shows, every OK frame of every run is a frame sent, in the order sent, none twice |
| RtpNoLoss.StreamIsOk | ip2vf/common/rtppacketizer.cpp:31-81 | the packets of any frames form a complete stream, so the hypotheses of the channel can be met |
| RtpNoLoss.StreamIsWhatIsSent | ip2vf/common/rtppacketizer.cpp:31-81 | that stream is, byte for byte, what sending the frames one after the other puts on the wire |
| RtpNoLoss.LosslessIsChannel | ip2vf/common/vmiframe.cpp:361-366 | a channel without loss is one of those of the end-to-end theorems, for every first sequence number and all frames |
| RtpNoLoss.ReadAtStart | ip2vf/common/pins/rtp/inrtp.cpp:120-138 | without loss a read at the start of a frame returns it and stands at the start of the next, whatever the payloads look like |
| RtpNoLoss.EveryLaterFrameIsRead | ip2vf/common/pins/rtp/inrtp.cpp:88-137 | without loss a waiting pin skips the first frame and then delivers every other one, for every first sequence number and through every wrap |
| RtpRecovery.SecondIsDelivered | ip2vf/common/pins/rtp/inrtp.cpp:88-137 | whatever was lost before, hidden or not, and whatever the payloads look like: a frame that arrives whole behind a whole frame of at least two packets is delivered by every run that reads long enough and is not stopped |
| RtpRecovery.TwoPacketsAreNeeded | ip2vf/common/pins/rtp/inrtp.cpp:92-118 | of four frames with one packet lost, visibly, the last two arrive whole, and no run of reads delivers anything |
| RtpRecovery.CollectBefore | ip2vf/common/vmiframe.cpp:343-386 | the collecting loop, wherever it was entered, does not read past the end of a frame whose last two packets arrive, and fails only before that end |
| RtpLimits.LossShowsIff | ip2vf/common/vmiframe.cpp:362 | a loss of any length shows as a gap exactly when what remains of it modulo 65536 is more than one step and does not pass the wrap |
| RtpLimits.LossShowsIffNoWrap | ip2vf/common/vmiframe.cpp:362 | for a loss of fewer than 65535 packets: exactly when the sequence numbers do not wrap across it |
| RtpLimits.LongLossShows | ip2vf/common/vmiframe.cpp:362 | a longer loss can span the wrap and still show |
| RtpLimits.SeenLossesIff | ip2vf/common/vmiframe.cpp:361-366 | no loss among some arrivals is hidden exactly when each shows, by how many packets were lost where |
| RtpLimits.DropsVisibleIff | ip2vf/common/vmiframe.cpp:361-366 | so for a whole delivery, with losses of any length |
| RtpLimits.WrapHidesLoss | ip2vf/common/vmiframe.cpp:361-390 | a concrete frame whose middle packet is lost across the wrap is returned as OK with other bytes |
| RtpLimits.KeepsIsExact | ip2vf/common/vmiframe.cpp:104-110 | an intact frame is read right whatever fresh memory holds exactly when the old frame was a payload long or the buffer need not grow |
| TenBit.GetReadsStream | ip2vf/common/tools.h:90-94 | get10bitsWord reads bits 10 pos to 10 pos + 9 of the stream |
| TenBit.PutWritesStream | ip2vf/common/tools.h:96-101 | set10bitsWord replaces exactly those bits |
| TenBit.SetThenGet | ip2vf/common/tools.h:90-101 | reading back gives the ten bits written; every other position reads as before |
| TenBit.GetTenBitsWord | ip2vf/common/tools.h:90-94 | bit i of the word read from the caller's buffer is bit 10 pos + i of the stream |
| TenBit.SetTenBitsWord | ip2vf/common/tools.h:96-101 | in the caller's buffer those ten bits of the stream become the word's, every other bit stays |
| SampleDepth.WordOfTo10 | ip2vf/common/tools.cpp:485-509 | word k of the converted buffer is sample k, clamped and shifted up |
| SampleDepth.RoundTripIsClamp | ip2vf/common/tools.cpp:462-509 | 10-to-8 after 8-to-10 is the clamp at every index |
| SampleDepth.SampleIsTop | ip2vf/common/tools.cpp:462-483 | sample k has the first eight bits of word k of the stream |
| SampleDepth.WordsAreLegal | ip2vf/common/tools.cpp:485-509 | word k is four times sample k, made at least 16 and at most 235 at odd places and 240 at even ones |
| SampleDepth.Convert10To8 | ip2vf/common/tools.cpp:462-483 | sample k has bits 10 k to 10 k + 7 of the input read as a stream, also when both buffers are the same one |
| SampleDepth.Convert8To10 | ip2vf/common/tools.cpp:485-509 | word k of the output is four times the legal value of sample k, and nothing behind it changes |
| Crc18.FeedIsLinear | ip2vf/common/pins/st2022/smptecrc.cpp:31-45 | the shift register is linear over GF(2), for any number of bits |
| Crc18.FastIsSlow | ip2vf/common/pins/st2022/smptecrc.cpp:78-82 | the table form equals ten single-bit steps for every register and every 10-bit word |
| CrcDevice.FeedBits | ip2vf/common/pins/st2022/smptecrc.cpp:31-45 | the register on machine words is the register on bits |
| CrcDevice.TableEntry | ip2vf/common/pins/st2022/smptecrc.cpp:29-46 | the inner loop computes ten steps from zero |
| CrcDevice.PrecomputeTable | ip2vf/common/pins/st2022/smptecrc.cpp:23-48 | every entry of the table is that of its index |
| CrcDevice.SmpteCrc.ComputeWord | ip2vf/common/pins/st2022/smptecrc.cpp:78-82 | one look-up advances the register by the ten bits of the word |
| CrcDevice.SmpteCrc.ComputeScanline | ip2vf/common/pins/st2022/smptecrc.cpp:94-106 | the result is the register after n words, and bit j of word i is bit 10 (start + i step) + j of the buffer read as a stream |
| CrcDevice.MessageBit | ip2vf/common/pins/st2022/smptecrc.cpp:29-46 | the register takes the words in order, and of each word the lowest bit first |
| CrcDevice.SmpteCrc.GetCrc0 | ip2vf/common/pins/st2022/smptecrc.cpp:114-125 | the low nine bits of the CRC, and above them the complement of the top one |
| CrcDevice.SmpteCrc.GetCrc1 | ip2vf/common/pins/st2022/smptecrc.cpp:133-144 | the high nine bits of the CRC, and above them the complement of the top one |
| CrcDevice.CrcFromWords | ip2vf/common/pins/st2022/smptecrc.cpp:114-144 | a receiver recovers the CRC from the two words |
| CrcDevice.ComplementBit | ip2vf/common/pins/st2022/smptecrc.cpp:123 | bit 9 of such a word is the complement of bit 8 |
| CrcDevice.OwnCrcGivesZero | ip2vf/common/pins/st2022/smptecrc.cpp:31-45 | a line followed by 18 bits brings the register to zero exactly when they are its own CRC |
| CrcTheory.ZeroedOnlyByItself | ip2vf/common/pins/st2022/smptecrc.cpp:33-43 | up to 18 bits bring a register to zero exactly when they are its own bits |
| CrcTheory.BurstsAreDetected | ip2vf/common/pins/st2022/smptecrc.cpp:33-43 | every error confined to 18 consecutive bits changes the CRC, in messages of any length |
| CrcTheory.OddErrorsAreDetected | ip2vf/common/pins/st2022/smptecrc.cpp:33-43 | so does every odd number of errors |
| CrcPolynomial.RegisterIsRemainder | ip2vf/common/pins/st2022/smptecrc.cpp:27-47 | after every message, message times X^18 is a multiple of X^18 + X^5 + X^4 + 1 plus the register |
| CrcPolynomial.DivisionIsUnique | ip2vf/common/pins/st2022/smptecrc.cpp:27-47 | division by the generator leaves one remainder of degree below 18 |
| CrcPolynomial.CrcIsTheRemainder | ip2vf/common/pins/st2022/smptecrc.cpp:84-106 | the CRC is that remainder, and nothing else is |
| Pacer.FillsIffFillable | pacer/examples/pcap_pacer/basicfwd.c:264-305 | the branches get through a gap exactly when its residue is at most a full pause or at least two smallest ones |
| Pacer.ResidueIs | pacer/examples/pcap_pacer/basicfwd.c:264-270 | the residue of a gap is the number within one full pause above the smallest that differs from it by full pauses |
| Pacer.SmallPausesFillAll | pacer/examples/pcap_pacer/basicfwd.c:264-305 | with small enough pauses every gap of zero or at least the smallest pause can be filled |
| Pacer.LargePausesGetStuck | pacer/examples/pcap_pacer/basicfwd.c:301-304 | otherwise the gap one above a full pause cannot |
| Pacer.FillIsExact | pacer/examples/pcap_pacer/basicfwd.c:264-300 | the pauses fill a gap exactly, each is in range, at most two are partial |
| Pacer.PacketSays | pacer/examples/pcap_pacer/basicfwd.c:250-262 | what a packet does to each field: time by its length and the overhead, at most 100 bytes of phase, the distance left open, the fraction carried |
| Pacer.PauseSays | pacer/examples/pcap_pacer/basicfwd.c:264-305 | when a pause is full, of the size of the gap, or a smallest one first, and when there is none |
| PacerRun.AdvanceKeepsLaw | pacer/examples/pcap_pacer/basicfwd.c:230-371 | every turn, every change of rate and phase, and every arrival keeps the conservation law, wrap-around counted |
| PacerRun.RunKeepsLaw | pacer/examples/pcap_pacer/basicfwd.c:230-371 | denom (scheduled + gap) + frac is the sum of the numerators in force minus denom times the phase shifted, in every run |
| PacerRun.TimeIsScheduled | pacer/examples/pcap_pacer/basicfwd.c:230-319 | in every run time has grown by exactly the bytes scheduled, overheads included |
| PacerRun.NoDrift | pacer/examples/pcap_pacer/basicfwd.c:236-263 | at a constant rate packet k starts exactly floor(k num / denom) bytes into the run |
| PacerRun.NeverInvalid | pacer/examples/pcap_pacer/basicfwd.c:301-304 | the exit is never taken while every packet leaves a fillable gap |
| PacerRun.NeverInvalidWithRoom | pacer/examples/pcap_pacer/basicfwd.c:230-371 | however often rate and phase are changed: if every rate in force leaves room behind the longest packet for a smallest pause and the phase shifted there, with small enough pauses, no run takes the exit |
| PacerRun.NeverInvalidAtAnyPhase | pacer/examples/pcap_pacer/basicfwd.c:253-255 | with 100 bytes to spare behind the longest packet no setting of the phase can lead to the exit |
| PacerRun.ConstantRateNeverInvalid | pacer/examples/pcap_pacer/basicfwd.c:234-305 | in particular at a constant rate that leaves room for a pause behind every packet |
| PacerRun.GapIsFilled | pacer/examples/pcap_pacer/basicfwd.c:264-371 | however packets arrive and rate and phase are changed in between, the turns after a packet emit exactly the pauses of its gap, those still missing fill the rest, and after the last nothing is left |
| PacerRun.UnfillableGetsStuck | pacer/examples/pcap_pacer/basicfwd.c:264-305 | a gap that cannot be filled ends at the exit after no more turns than it has bytes, whatever happens in between |
| PacerRun.PhaseIsWorkedOff | pacer/examples/pcap_pacer/basicfwd.c:253-255 | after n packets n times 100 bytes of the phase are worked off, without overshooting |
| PacerRun.PhaseIsConserved | pacer/examples/pcap_pacer/basicfwd.c:253-255 | what was shifted plus what is left is what was asked for |
| PacerDevice.BuildIsRun | pacer/examples/pcap_pacer/basicfwd.c:232-311 | building a vector is a stretch of the run, with any packets arriving before each turn |
| PacerDevice.Scheduler.SchedulePacket | pacer/examples/pcap_pacer/basicfwd.c:250-262 | the fields after a packet are those of the model, in 64 bits |
| PacerDevice.Scheduler.SchedulePause | pacer/examples/pcap_pacer/basicfwd.c:264-305 | the branch taken and its effect are those of the model |
| PacerDevice.Scheduler.BuildVector | pacer/examples/pcap_pacer/basicfwd.c:232-311 | the vector, the ring and the fields are those of as many turns as fit, up to the end of the stream, while the receiving core fills the ring; time grows by the bytes of the vector on the wire |
| PacerDevice.StoreKeeps | pacer/examples/pcap_pacer/basicfwd.c:321-330 | the window always holds the latest measurements, from the slot to be written next |
| PacerDevice.Fitted | pacer/examples/pcap_pacer/basicfwd.c:351-356 | the fitted rate has the numerator computed from the window, and a remainder below the denominator |
| PacerDevice.Scheduler.Measure | pacer/examples/pcap_pacer/basicfwd.c:319-371 | the time stored is that since the last measurement, which the vectors built since have taken on the wire; after a full round the rate is fitted to the latest measurements only, summed in 64 bits; the division fails exactly when that sum of packets is zero |
| CircularBuffer.WriteKeepsIndex | ip2vf/common/circularbuffer.cpp:138-191 | after a write every slot index is empty or the number in the header stored there, of a packet that was received |
| CircularBuffer.ReadKeepsIndex | ip2vf/common/circularbuffer.cpp:193-253 | so after a read or a search |
| CircularBuffer.DeliversWanted | ip2vf/common/circularbuffer.cpp:193-253 | what is delivered is a received packet with the number wanted |
| CircularBuffer.SearchIsComplete | ip2vf/common/circularbuffer.cpp:222-253 | the search fails exactly when no slot holds the number |
| CircularBuffer.FullMasterWaits | ip2vf/common/circularbuffer.cpp:152-164 | a full master keeps all its packets; a full secondary stores the new one and gives up the oldest |
| CircularBuffer.WriteStores | ip2vf/common/circularbuffer.cpp:138-191 | what a write changes, slot by slot: the packet and its number go behind the last one, in front of what was left there; when reading starts, when it is pushed on, and when nothing is stored |
| CircularBuffer.StoredIsFound | ip2vf/common/circularbuffer.cpp:138-253 | a packet that was stored can be found at once |
| CircularBuffer.HeadTakes | ip2vf/common/circularbuffer.cpp:193-211 | the first part of a read moves to the next slot and takes the packet out exactly if it is the one wanted |
| CircularBuffer.SearchStopsAt | ip2vf/common/circularbuffer.cpp:222-253 | a search stops at the first slot with the number, takes nothing out, and changes nothing if there is none |
| CircularBuffer.ReadFinds | ip2vf/common/circularbuffer.cpp:193-253 | a read finds the packet exactly if it is in the next slot, or in any slot after what arrives in between |
| CircularBuffer.AfterReadOk | ip2vf/common/circularbuffer.cpp:193-253 | a whole read delivers only the packet wanted, one that was received, whatever is written while its mutex is free |
| CircularBuffer.RcvBuffer.Write | ip2vf/common/circularbuffer.cpp:138-191 | the arrays and indices after a write are those of the model |
| CircularBuffer.RcvBuffer.ReadHead | ip2vf/common/circularbuffer.cpp:193-211 | so for the first part of a read |
| CircularBuffer.RcvBuffer.Read | ip2vf/common/circularbuffer.cpp:193-220 | so for the whole read, with any packets written between its two parts |
| CircularBuffer.RcvBuffer.SearchFor | ip2vf/common/circularbuffer.cpp:222-253 | the loop finds the first slot with the number |
| SpsSource.CounterAgrees | ip2vf/common/pins/st2022/datasourceSPSRTP.cpp:120-124 | the counter of missing packets reaches zero exactly when the explicit comparison says so |
| SpsSource.ReadOk | ip2vf/common/pins/st2022/datasourceSPSRTP.cpp:91-209 | every read keeps the invariant (missing packets are the distance to the last number, both included) and delivers only the packet expected, one that was received |
| SpsSource.EventSays | ip2vf/common/pins/st2022/datasourceSPSRTP.cpp:132-204 | in terms of the state: an event of the other source changes nothing but that source; one of the master with an unexpected number starts the recovery that ends with it; one with the expected number is delivered exactly if the master has the packet |
| SpsSource.OfflineDetection | ip2vf/common/pins/st2022/datasourceSPSRTP.cpp:150-172 | who is online and who is master after an event, from the last signs of life, the threshold and the clock |
| SpsSource.SilentMaster | ip2vf/common/pins/st2022/datasourceSPSRTP.cpp:157-176 | a master that has fallen silent costs the position, and the read fails |
| SpsSource.FailedRecovery | ip2vf/common/pins/st2022/datasourceSPSRTP.cpp:107-131 | a recovery from an offline source changes nothing; one that does not find the packet gives up the position |
| SpsSource.NothingRead | ip2vf/common/pins/st2022/datasourceSPSRTP.cpp:99-149 | a closed source, one that is being closed, and an event that is none read nothing |
| SpsSource.NextKeepsInv | ip2vf/common/pins/st2022/datasourceSPSRTP.cpp:91-209 | so does every packet written, every event reported, before or long after, every read and close |
| SpsSource.ReportSays | ip2vf/common/circularbuffer.cpp:112-123 | a report queues the source above the 16 bits of the number; close queues -1 |
| SpsSource.PositionCounts | ip2vf/common/pins/st2022/datasourceSPSRTP.cpp:182-204 | in every run of such steps without a reset the position is the first one plus the number of packets delivered, through any losses and switches |
| SpsSource.DeliveredAreConsecutive | ip2vf/common/pins/st2022/datasourceSPSRTP.cpp:91-209 | between two resets the k-th packet delivered has number first + k modulo 65536 |
| SpsSource.RecoveryCounts | ip2vf/common/pins/st2022/datasourceSPSRTP.cpp:107-130 | every packet recovered takes the position one further and the counter one down |
| SpsSource.RecoversIff | ip2vf/common/pins/st2022/datasourceSPSRTP.cpp:107-130 | a missing packet is recovered exactly when the secondary source is online and its buffer holds the number |
| SpsSource.RecoveryDelivers | ip2vf/common/pins/st2022/datasourceSPSRTP.cpp:107-130 | a recovery in which every read succeeds delivers next to last, also across the wrap, then nothing is missing and reading goes on behind the last |
| SpsSource.StockedRecoverySucceeds | ip2vf/common/pins/st2022/datasourceSPSRTP.cpp:107-130 | every read does succeed if at its start the secondary source is online with all missing packets, and none of them is written over before it is read |
| SpsDevice.SpsDataSource.DetectOffline | ip2vf/common/pins/st2022/datasourceSPSRTP.cpp:157-172 | silent sources go offline, and the roles change when the master is one of them |
| SpsDevice.SpsDataSource.RecoverOne | ip2vf/common/pins/st2022/datasourceSPSRTP.cpp:107-131 | the fields after a recovery are those of the model |
| SpsDevice.SpsDataSource.Read | ip2vf/common/pins/st2022/datasourceSPSRTP.cpp:91-209 | so after a whole read, which keeps the invariant, with any packets arriving while the mutex of the buffer is free |
| FramePool.CreateOk | ip2vf/libvMI/libvMI.cpp:51-82 | a new handle was never used, no other frame changes; creation fails exactly when every item is in use and the list has reached its limit, and the list grows only then and only up to it |
| FramePool.ReleaseOk | ip2vf/libvMI/libvMI.cpp:186-210 | one reference less on this frame and no other; the last one frees it |
| FramePool.AddRefOk | ip2vf/libvMI/libvMI.cpp:218-232 | one reference more on this frame and no other |
| FramePool.UnknownHandle | ip2vf/libvMI/libvMI.cpp:186-252 | a handle nobody owns leads to no frame, and using it changes nothing |
| FramePool.SoundIffValidHandle | ip2vf/libvMI/libvMI.cpp:199-202 | a release or an added reference keeps the pool sound exactly when the handle is not the invalid one or no item is free |
| FramePool.FrameList.FrameCreate | ip2vf/libvMI/libvMI.cpp:51-82 | the list after the scan is that of the model |
| FramePool.FrameList.FrameRelease | ip2vf/libvMI/libvMI.cpp:186-210 | so after a release |
| FramePool.FrameList.FrameAddRef | ip2vf/libvMI/libvMI.cpp:218-232 | so after a reference was added |
| FramePool.FrameList.FrameGet | ip2vf/libvMI/libvMI.cpp:242-252 | the place of the handle's frame, or none |
| FrameMachine.StepKeepsInv | ip2vf/libvMI/vMI_output.cpp:46-56 | whatever threads do, each frame has as many references as owners: callbacks, queues, outputs emitting it; each queue keeps its order; a stop may come between an output testing its flag and its pop |
| FrameMachine.RunKeepsInv | ip2vf/libvMI/vMI_output.cpp:186-256 | so in every run under every interleaving |
| FrameMachine.OwnedResolves | ip2vf/libvMI/vMI_output.cpp:202-203 | the handle of a frame that is held, queued or being emitted leads to a frame |
| FrameMachine.OwnedFramesStay | ip2vf/libvMI/vMI_output.cpp:190-247 | and to the same one as long as it has an owner: it is never recycled while queued |
| FrameMachine.SpentStaysSpent | ip2vf/libvMI/libvMI.cpp:186-252 | a handle whose frame was fully released never leads to a frame again |
| FrameMachine.CreateFailsOnlyWhenOwned | ip2vf/libvMI/libvMI.cpp:67-74 | creation fails only when the list is full and every frame in it has an owner |
| FrameMachine.StaysWithin | ip2vf/libvMI/libvMI.cpp:67-74 | no step of any thread makes the list longer than its limit |
| FrameMachine.NothingAfterStop | ip2vf/libvMI/vMI_output.cpp:186-280 | in every run, until the next start, an output emits nothing that was queued after it was stopped |
| FrameMachine.ThreadSays | ip2vf/libvMI/vMI_output.cpp:153-205 | an output's thread: what starts it, what it takes from its queue, and what ends it |
| FrameRetarder.Retarder.Tick | ip2vf/vMIModules/vMI_frameretarder.cpp:85-112 | tick k sends the frame of tick k - N, nothing before that, and leaves min(k + 1, N) frames queued |
| FrameRetarder.MoveKeeps | ip2vf/libvMI/vMI_input.cpp:158-196 | every step of the reading thread and of the outputs keeps what each output was given in step with the delay |
| FrameRetarder.MovesAreSteps | ip2vf/libvMI/vMI_input.cpp:158-196 | what the reading thread does to pool and outputs are steps of theirs |
| FrameRetarder.OutputsGetDelayedFrames | ip2vf/vMIModules/vMI_frameretarder.cpp:97-110 | in every run each output has been given, in order, exactly the frames received more than N ticks ago, and has emitted a beginning of them |
| FrameRetarder.CreationFailsOnlyWhenOutputsLag | ip2vf/vMIModules/vMI_frameretarder.cpp:188-189 | with room for N + 20 frames creation fails only while the outputs have at least 20 different frames |
| Collectd.ParseConcat | ip2vf/common/collectdframe.cpp:31-43 | parsing goes on where it left off, with nothing but the settings in mind |
| Collectd.StringRoundTripIff | ip2vf/common/collectdframe.cpp:31-43 | a string part is read back exactly when its length fits 16 bits |
| Collectd.ValuesRoundTripIff | ip2vf/common/collectdframe.cpp:115-144 | values are read back exactly when there are at most 7281 |
| Collectd.TimeRoundTrip | ip2vf/common/collectdframe.cpp:146-161 | the time is read back in its units of 2^-30 seconds, converted as the double arithmetic rounds it |
| Collectd.RoundedIs | ip2vf/common/collectdframe.cpp:151-153 | rounding to a double takes the nearest multiple of the spacing, the even one of two |
| Collectd.SpacingIs | ip2vf/common/collectdframe.cpp:151-153 | that spacing is the power of two that leaves 53 significant bits |
| Collectd.FactorIs | ip2vf/common/collectdframe.h:42 | the conversion factor is the double nearest to 2^30 / 10^9 |
| Collectd.UnitsAreNear | ip2vf/common/collectdframe.cpp:151-153 | the time sent is that of the caller up to one unit of 2^-30 seconds and the 2^51st part of it |
| Collectd.UnitsExample | ip2vf/common/collectdframe.cpp:151-153 | a date for which both roundings count |
| CollectdFrame.PartBreaks | ip2vf/common/collectdframe.cpp:31-43 | a part longer than 16 bits can say makes everything unreadable, whatever is written behind it |
| CollectdFrame.CallKeeps | ip2vf/common/collectdframe.cpp:78-161 | after every call the frame says what the caller has said, with the settings remembered in force, or it is unreadable because a part was too long, until the next reset |
| CollectdFrame.FrameSaysWhatWasMeant | ip2vf/common/collectdframe.cpp:45-161 | for every sequence of calls: the frame parses exactly when plugin, instance and everything written since the last reset fit their lengths, and then into the records added since, each under the type, instance and time last set |
| CollectdFrame.NamesAreSaid | ip2vf/common/collectdframe.cpp:45-66 | plugin and instance are always in the frame, the host's name from the first explicit reset on |
| CollectdFrame.Encoder.AddString | ip2vf/common/collectdframe.cpp:31-43 | the copying loop appends two bytes each of kind and length, the characters and a zero |
| CollectdFrame.Encoder.SetType | ip2vf/common/collectdframe.cpp:78-84 | a new type is appended as a part of kind 4, the same one is not |
| CollectdFrame.Encoder.SetTypeInstance | ip2vf/common/collectdframe.cpp:86-92 | a new type instance is appended as a part of kind 5, the same one is not |
| CollectdFrame.Encoder.ResetNow | ip2vf/common/collectdframe.cpp:56-66 | the frame is host, plugin and instance, as parts of kind 0, 2 and 3, and nothing else |
| CollectdFrame.Encoder.AddRecord | ip2vf/common/collectdframe.cpp:94-113 | the 15 bytes appended: kind, length, count 1, the code, and the value, a gauge as it lies in memory and anything else with the last byte first |
| CollectdFrame.Encoder.AddRecordN | ip2vf/common/collectdframe.cpp:115-144 | the bytes appended: kind, length modulo 2^16, count, a code for each value, and each value in the order of its code |
| CollectdFrame.ValuesSent | ip2vf/common/collectdframe.cpp:94-144 | the same of the values part of the model, for every code and all values |
| CollectdFrame.Encoder.SetTimestamp | ip2vf/common/collectdframe.cpp:146-161 | a new time is appended in its units, rounded as the original does; the same one is not |
| PacketGaps.CollectDescribes | ip2vf/common/pins/pktTS.cpp:242-257 | one more packet keeps mean, deviations, extremes and count those of the whole list of gaps |
| PacketGaps.ControlKeepsSound | ip2vf/common/pins/pktTS.cpp:179-268 | whatever calls are made, each queued aggregate describes its gaps, at least two |
| PacketGaps.FrameIsQueued | ip2vf/common/pins/pktTS.cpp:179-268 | what is queued for a frame: the identifiers of the calls that started and stopped it, the times of the packet before it and of its last, and the statistics of the gaps between; nothing for fewer than two packets |
| PacketGaps.IdlePacket | ip2vf/common/pins/pktTS.cpp:210-213 | a packet before the start leaves its time for the first gap |
| PacketGaps.OtherCallsStartAfresh | ip2vf/common/pins/pktTS.cpp:260-268 | calls out of place queue nothing and clear the aggregate |
| PacketGaps.MeanTelescopes | ip2vf/common/pins/pktTS.cpp:243-248 | count times mean is the time from the first packet to the last |
| PacketGaps.MinMeanMax | ip2vf/common/pins/pktTS.cpp:252-255 | with gaps in range the mean lies between the smallest and the largest, which are gaps of the list |
| PacketGaps.Collector.PktTSctl | ip2vf/common/pins/pktTS.cpp:179-268 | the fields and the queue after a call are those of the model |
| IgmpChecksum.FoldTwice | external/libegel/src/igmp.c:12-21 | folding keeps the sum modulo 65535 and gives zero only for zero |
| IgmpChecksum.HeaderVerifies | external/libegel/src/igmp.c:47-69 | the IP header with its checksum is a multiple of 65535 and verifies |
| IgmpChecksum.MessageVerifies | external/libegel/src/igmp.c:74-80 | the IGMP message alone verifies, for every group and host address, although its checksum covers the IP header too |
| IgmpChecksum.MacTellsLowBits | external/libegel/src/igmp.c:34-40 | the Ethernet address carries the low 23 bits of the group |
| IgmpChecksum.FrameIsReport | external/libegel/src/igmp.c:23-87 | the frame byte by byte: addresses, types, lengths, group, and two checksums that verify and are not zero |
| IgmpChecksum.Sum | external/libegel/src/igmp.c:12-21 | the loop over 16-bit words computes the folded sum of a part of the buffer |
| IgmpChecksum.Template | external/libegel/src/igmp.c:23-87 | the packet buffer holds that frame, for the group itself or all routers according to the type; other types are refused |
| IgmpTimers.AnswersInTime | external/libegel/src/igmp.c:221-313 | after a query every flow that must answer (in use, IPv4 multicast, in the group asked for, no reports pending) is due within the response time, no unexpired timer is put off, flows of other groups are left alone |
| IgmpTimers.LateClockAnswersLate | external/libegel/src/igmp.c:281-311 | the bound on the lag between the two clock readings is needed |
| IgmpTimers.FailsIff | external/libegel/src/igmp.c:311 | the division fails exactly when the response time is zero ticks and some flow must answer |
| IgmpTimers.EveryFlow | external/libegel/src/igmp.c:246-312 | every flow is treated as if it were the only one |
| IgmpTimers.ThreeReports | external/libegel/src/igmp.c:179-204 | a new flow reports three times, and once more for every query that finds its timer stopped; without queries exactly three times |
| IgmpTimers.ReportSchedule | external/libegel/src/igmp.c:179-204 | when the three reports of a new flow are due: after one second, two more and one more; flows that are not multicast report nothing |
| IgmpTimers.Nic.IgmpQuery | external/libegel/src/igmp.c:221-313 | each flow afterwards, in terms of its fields and the message's; the loop fails exactly when the message's time is less than a tick and some flow must answer |

## Left out

- TaggedRing.FifoInEveryRun: safety only, with sequentially consistent slot accesses; weak memory, `qkick`, lost wake-ups and the condition variables' own behaviour are not modelled.
- LockedRing.FifoWithManyThreads: all threads of a side use the same lock; mixing the blocking and the non-blocking forms, which take different ones, is not modelled.
- `qmnbput`: it looks at the word in the slot instead of its tag and does not follow the queue's protocol.
- TaggedQueue.Queue.TryGet: the class has the non-blocking operations only; the waiting forms are steps of the machine. The queue of `qcreate` (capacities up to 2^20) and that of `qxcreate` are the same class.
- RtpEndToEnd.EveryOkFrameWasSent: assumes that the channel keeps the order, that payloads from the middle of a frame do not parse as a header (not assumed by `RtpNoLoss` and `RtpRecovery`), that a payload has room for the 128 header bytes, and that frame objects are fresh or can take a payload without losing it; which losses are hidden and which objects qualify is made exact in `RtpLimits`.
- Receiver.VmiFrame.CreateFromUdp: a datagram larger than the object's buffer, taken for the first of a frame, is excluded (`Fits`), because the original copies it past the end of the buffer and what that does cannot be said; what WriteHeaders writes over the 128 header bytes and what fresh memory holds are parameters; of the header only magic number, version and media size are modelled; media sizes whose sum with the header length overflows 32 bits are not.
- Receiver.RtpInput.Read: excludes the same, for the datagram it comes to take for the first of a frame.
- Packetizer.RtpPacketizer.Send: the sleep every 500 packets, and the HBRMP and mmsg packetizers, are not modelled.
- CSMPTPFrame, SMPTE profiles and the rest of the ST 2022-6 pins: not modelled.
- SampleDepth.Convert10To8: for overlapping buffers only the case that both are the same one is covered.
- PacerDevice.Scheduler.Measure: the measurements in clock cycles and the printed frequencies are not modelled; the received packets and the phase from shared memory are parameters.
- PacerDevice.Scheduler.BuildVector: an item stands for the length scheduled; that the partial pauses of one vector share their buffers is not modelled, nor is sending the vector.
- SpsSource.ReadOk: while packets are missing and the secondary source is offline, read fails without using up an event.
- SpsSource.RecoveryDelivers: assumes that every read succeeds; `SpsSource.StockedRecoverySucceeds` gives the condition.
- SpsSource.NextKeepsInv: close sets the flag and wakes the reader; that it also frees the buffers of the two sources, and opening again, are not modelled.
- SpsDevice.SpsDataSource.Read: a read that waits for an event is a step only once there is one; close between the test and the pop is in the model of runs, not in this method.
- CircularBuffer.RcvBuffer.Write: the counters and sizes kept for display are not modelled.
- FrameMachine.StepKeepsInv: threads use a handle only while they hold a reference; overflow of counts and handles, exceptions in the output loop and waiting for timestamps are not modelled.
- FrameRetarder.OutputsGetDelayedFrames: one input; the set of outputs does not change during a run.
- Collectd.TimeRoundTrip: times before the epoch are not modelled; `double` rounds to nearest, ties to even, at every operation.
- CollectdFrame.Encoder.constructor: the host's name is a parameter, of fewer than 128 characters.
- PacketGaps.CollectDescribes: over the reals; rounding of `double` and overflow of 64-bit times are not modelled.
- PacketGaps.ControlKeepsSound: over the reals, as above.
- PacketGaps.MeanTelescopes: over the reals, as above.
- PacketGaps.MinMeanMax: over the reals, as above.
- PacketGaps.Collector.PktTSctl: over the reals, as above.
- IgmpChecksum.Template: `rte_raw_cksum` is taken as RFC 1071 describes it for an even number of bytes; allocating, cloning and sending the packet are left out.
- IgmpTimers.AnswersInTime: the timer library is modelled by what its functions promise; the state in which it runs a timer is not entered during a query.
- Sockets, DPDK and netmap calls, shared memory, file sources, players, configuration strings: input and output, or code not in the repository.
