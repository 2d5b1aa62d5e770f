# Verification model of the Comelit intercom client

A Dafny model of the stateful cores of the `comelit_intercom_local` integration, with proofs of
what they promise over every input, every run and every interleaving. `dafny verify
dfyconfig.toml` checks all of it.

- **Media** (`Rtp`, `H264`, `VideoClock`, `MediaPaths`, `Interleaving`, `ServerLog`,
  `MediaQueues`, `RtspServer`, `ServerLaws`, `ClientView`, `RtpReceiver`): RTP and RTCP packets, FU-A
  fragmentation and reassembly, timestamp translation, the fast and the slow route from device to
  client, the two classes that run them, and what a client rebuilds. A ghost log records what the
  server built and sent; its class invariant ties every counter and every client's bytes to it.
- **ICONA** (`IconaFraming`, `ChannelRegistry`, `IconaClient`): packet framing over TCP segments,
  the insertion-ordered channel registry, dispatch, futures and response queues.
- **CTPP** (`CallCounter`, `SetupCounters`, `CutRenewal`, `VideoCall`): the counters of a call's
  start, renewals, keepalives, door opens and answers. Tasks are interleaved by lists of critical
  sections; a connection may die and a renewal may be cut short at any message.
- **VIP** (`VipParser`, `EventDedup`, `CrashWindow`, `VipListener`): message parsing, ACKs, event
  deduplication and the supervisor's crash window.
- **Coordinator** (`VideoLifecycle`, `RtspReadiness`, `UserStops`, `Lifelines`, `Coordinator`): the
  video lifecycle as tasks that run from await to await in any order. A step function is the
  specification; the class has one method for each stretch between two awaits and ties it to a
  step.

Where the source changes fields step by step the model is a class whose methods are proved against
functions on values; the theorems are about those functions. Bytes are integers below 256 and bit
operations are written with `/` and `%`. Clocks, timeouts, device replies and failing writes are
parameters.

Where code and comments disagree the model follows the code: the ACK timestamp of the listener is
`init_ts + 0x01000000` (ctpp.py:22), although `_send_renewal_ack` and the coordinator speak of
0x01010000; `_send_initial_sr_to_client` sends no audio report, because audio packets are never
counted; the audio feed loop is never started, so the audio clock stays 0. The branch for
0x1860/0x0000 inside the FSM handler is unreachable; that message counts as a decode miss. A door
open checks that the session is active before it waits for the lock, so its message may follow the
session's end; stopping the session while a renewal holds the lock lets a waiting door open or
answer go out with the old call's counter. The RTSP server can lose its readiness under a published
session in two ways: the tail of an older stop, and a shutdown that had begun before the start
published. A failing send still uses up the counter it drew; on a connection that has failed no
later send succeeds.

## Model

| member | source | states |
|---|---|---|
| `MediaPaths.FastRefinesSlow` | custom_components/comelit_intercom_local/rtsp_server.py:687-802 | For every device stream of whole NALs (single packets or in-order FU-A groups sharing a timestamp), from any reassembly buffers: header rewriting and reassemble-translate-refragment hand a client the same (timestamp, NAL) list, the one the device sent at translated times, and leave the same clock. |
| `MediaPaths.FastKeepsNals` | custom_components/comelit_intercom_local/rtsp_server.py:709-743 | On any video packet stream, lossy and malformed ones included, a client of the fast route rebuilds exactly the NAL bytes the receiver does. |
| `MediaPaths.RoutesAgreeIff` | custom_components/comelit_intercom_local/rtsp_server.py:687-802 | Under any loss a client of the fast route gets the receiver's NAL bytes in order; an idle client of the slow route gets them too if and only if no short reassembled NAL has a type that cannot be a single packet. |
| `MediaPaths.RoutesAgreeUnderLoss` | custom_components/comelit_intercom_local/rtsp_server.py:687-802 | In that case the routes agree whatever the slow client held before. |
| `MediaPaths.FastDelivers` | custom_components/comelit_intercom_local/rtsp_server.py:709-743 | The fast route delivers each unit of a whole stream once, at its translated time. |
| `MediaPaths.SlowDelivers` | custom_components/comelit_intercom_local/rtsp_server.py:781-802 | The slow route delivers each queued item once, at its translated time, from any client buffer. |
| `MediaPaths.FastMirrors` | custom_components/comelit_intercom_local/rtsp_server.py:709-743 | The fragments of one NAL are forwarded one for one with their payloads under a single translated timestamp: translating the same timestamp again moves nothing. |
| `MediaPaths.CachesAgreeIff` | custom_components/comelit_intercom_local/rtsp_server.py:718-723 | The two routes cache the same parameter sets from a NAL if and only if it is none, is cached already, or came as a single packet of more than one byte; the fast route never caches a fragmented SPS or PPS. |
| `MediaPaths.SetsByBytes` | custom_components/comelit_intercom_local/rtsp_server.py:718-800 | Which set each route caches from a packet or a NAL, by its type 7 or 8; the other set stays. |
| `MediaPaths.StartCodesStripped` | custom_components/comelit_intercom_local/rtsp_server.py:788-793 | A start code of four or three bytes is taken off, nothing else is. |
| `H264.RoundTrip` | custom_components/comelit_intercom_local/rtsp_server.py:886-933 | Any list of packetisable NALs, of any length: feeding the packets of `_send_h264` to the receiver queues exactly those NALs, in order, with timestamps and all header bits, and an empty buffer stays empty. |
| `H264.RoundTripOne` | custom_components/comelit_intercom_local/rtp_receiver.py:320-362 | One NAL there and back whatever the reassembly buffer held; a fragmented one leaves the buffer empty, a single packet leaves it alone. |
| `H264.RoundTripIff` | custom_components/comelit_intercom_local/rtp_receiver.py:320-362 | From an idle receiver a NAL comes back if and only if it is non-empty and has type 1..23 or is long enough to be fragmented. |
| `H264.FragmentationShape` | custom_components/comelit_intercom_local/rtsp_server.py:902-933 | A NAL of n > 1400 bytes becomes ceil((n-1)/1398) >= 2 fragments: S only on the first, E and marker only on the last, payloads of at most 1400 bytes, (n-1)+2k octets in all. |
| `H264.FragmentHead` | custom_components/comelit_intercom_local/rtsp_server.py:904-918 | Every fragment byte for byte: type 28 under the NAL's upper bits, the NAL's type with 0x80 on the first and 0x40 on the last, and its 1398-byte chunk. |
| `H264.ShortNalWhole` | custom_components/comelit_intercom_local/rtsp_server.py:888-896 | A NAL of at most 1400 bytes goes out whole, with the marker. |
| `H264.DepacketiseByBytes` | custom_components/comelit_intercom_local/rtp_receiver.py:320-362 | One payload told by its bytes: types 1 to 23 are queued whole, type 28 starts, continues or ends a fragmented NAL by bits 0x80 and 0x40, anything else is ignored. |
| `H264.PartialReassembly` | custom_components/comelit_intercom_local/rtp_receiver.py:330-345 | After the first k fragments the buffer holds the start code, the original header and exactly the first k chunks, and nothing has been queued. |
| `H264.LossyReassembly` | custom_components/comelit_intercom_local/rtp_receiver.py:330-356 | On an arbitrary packet stream the queued FU-A NALs correspond one to one, in order, to the end fragments that have a start since the previous end; each is the latest start's rebuilt header and all FU-A payloads through the end. |
| `VideoClock.TranslateAdvances` | custom_components/comelit_intercom_local/rtsp_server.py:751-779 | One frame moves the output by the device's forward distance modulo 2^32, or by exactly 1 on a rebase, and re-establishes out = last + offset. |
| `VideoClock.FrameDistance` | custom_components/comelit_intercom_local/rtsp_server.py:764-779 | Between two frames of one call the output moves by the device's own distance up to 0x80000000, modulo 2^32, and by exactly 1 beyond. |
| `VideoClock.FirstFrame` | custom_components/comelit_intercom_local/rtsp_server.py:753-755 | The first frame of a server or of a call goes exactly 1 past the last output, wherever the device's clock starts. |
| `VideoClock.EveryFrame` | custom_components/comelit_intercom_local/rtsp_server.py:751-779 | Every frame of every run, told from the event before it: the device's distance up to 0x80000000 after a frame, 1 beyond it, after a reset or at the beginning; a reset moves nothing. |
| `VideoClock.OutputIsTimeline` | custom_components/comelit_intercom_local/rtsp_server.py:751-779 | In every run of frames and resets the 32-bit output is the unwrapped timeline modulo 2^32. |
| `VideoClock.TimelineNeverGoesBack` | custom_components/comelit_intercom_local/rtsp_server.py:751-779 | The unwrapped timeline never goes back and each step moves it by at most half the range. |
| `VideoClock.DevicePacingExact` | custom_components/comelit_intercom_local/rtsp_server.py:764-779 | Within a call in which no frame is more than 0x80000000 ahead of the one before, the distance between any two output timestamps is the device's own. |
| `VideoClock.ResetForwardIff` | custom_components/comelit_intercom_local/rtsp_server.py:310-317 | `reset` keeps the output from going back if and only if the 90 kHz audio clock is at most half the range above the last output: the plain maximum is not wrap-aware. |
| `VideoClock.ResetCanGoBack` | custom_components/comelit_intercom_local/rtsp_server.py:316 | A concrete audio clock and output for which `reset` goes back by 272 ticks. |
| `Rtp.BuildFields` | custom_components/comelit_intercom_local/rtsp_server.py:1111-1122 | A built packet is video with exactly the given sequence number, timestamp, marker and payload (section 5.1 of RFC 3550). |
| `Rtp.BuildRead` | custom_components/comelit_intercom_local/rtsp_server.py:1111-1122 | The twelve header bytes a client reads: version 2, payload type 96 under the marker, sequence number, timestamp, SSRC 0xC0DE1234. |
| `Rtp.RewriteFields` | custom_components/comelit_intercom_local/rtsp_server.py:728-740 | A rewritten packet differs from the device's exactly in payload type, sequence number, timestamp and SSRC. |
| `Rtp.RewriteRead` | custom_components/comelit_intercom_local/rtsp_server.py:728-738 | The twelve bytes of a rewritten header. |
| `Rtp.DeviceFields` | custom_components/comelit_intercom_local/rtp_receiver.py:292-324 | What is read from a device packet, byte for byte, and that version 2 with a payload type other than 0 and 8 is video. |
| `Rtp.SrIsCompound` | custom_components/comelit_intercom_local/rtsp_server.py:1068-1108 | The report splits into exactly one SR and one SDES with the CNAME, and carries timestamp and totals modulo 2^32 (sections 6.1 and 6.4.1 of RFC 3550). |
| `Rtp.SrRead` | custom_components/comelit_intercom_local/rtsp_server.py:1083-1108 | Every field of the datagram: SSRC, both halves of the NTP time, RTP timestamp, packet and octet count modulo 2^32, and the SDES packet with the same SSRC and the CNAME. |
| `Interleaving.ParseEncoded` | custom_components/comelit_intercom_local/rtsp_server.py:660 | A stream of interleaved frames parses as exactly those frames (section 10.12 of RFC 2326). |
| `Interleaving.FrameRead` | custom_components/comelit_intercom_local/rtsp_server.py:660 | A frame byte for byte: 0x24, channel, big-endian length, packet. |
| `ServerLog.VideoChannel` | custom_components/comelit_intercom_local/rtsp_server.py:644-673 | Demultiplexing a client's video channel gives its priming packets and the broadcasts since PLAY in order, plus one packet per audio report on a colliding channel. |
| `ServerLog.VideoChannelExactIff` | custom_components/comelit_intercom_local/rtsp_server.py:1030-1047 | The video channel holds exactly the video packets if and only if no audio report shares its number. |
| `ServerLog.ReportChannel` | custom_components/comelit_intercom_local/rtsp_server.py:1021-1047 | The channel above it holds exactly the client's Sender Reports. |
| `ServerLaws.AudioChannel` | custom_components/comelit_intercom_local/rtsp_server.py:1003-1047 | The channel above a client's audio channel carries exactly the audio reports since its PLAY. |
| `ServerLog.SequenceNumbersIncrease` | custom_components/comelit_intercom_local/rtsp_server.py:589-597 | Each client's packets carry a strictly increasing count of all packets built, modulo 2^16, across resets and re-priming. |
| `ServerLog.GapsArePriming` | custom_components/comelit_intercom_local/rtsp_server.py:586-597 | How many numbers a client misses: as many as packets were built to prime others, or to prime it when the write failed. |
| `ServerLog.MissedIff` | custom_components/comelit_intercom_local/rtsp_server.py:586-597 | Which ones: since its PLAY a client misses the n-th packet if and only if that packet primed another client, or was to prime it and could not be written. |
| `RtspServer.ClientReadsItsShare` | custom_components/comelit_intercom_local/rtsp_server.py:566-673 | In every reachable server state each client's bytes parse as whole frames, its channels hold its share, and its sequence numbers unwrap to a strictly increasing count. |
| `ClientViews.ViewIsRebuilt` | custom_components/comelit_intercom_local/rtsp_server.py:566-603 | Reassembling its video channel gives a client exactly its view: broadcast NALs with its own parameter sets in between, which leave the reassembly buffer alone even in the middle of a fragmented NAL. |
| `ClientViews.ViewParts` | custom_components/comelit_intercom_local/rtsp_server.py:566-673 | The view taken apart: the broadcasts alone, reassembled, and the parameter sets written to the client, each in order. |
| `ClientViews.ClientRebuilds` | custom_components/comelit_intercom_local/rtsp_server.py:644-743 | In every reachable server state, when whole NALs were forwarded since its PLAY, a client rebuilds from its bytes the device's NALs at translated times and its own parameter sets. |
| `RtspServer.LocalRtspServer.Broadcast` | custom_components/comelit_intercom_local/rtsp_server.py:644-673 | Appends the frame to every client with the channel, and drops exactly those whose writer is closing or raises or whose frame cannot be packed; all survivors hold exactly their transcript. |
| `ServerLaws.SurvivesIff` | custom_components/comelit_intercom_local/rtsp_server.py:651-667 | A client survives a broadcast if and only if it lacks the channel, or its writer is neither closing nor raising and channel and packet fit the frame header. |
| `ServerLaws.SurvivorsSplit` | custom_components/comelit_intercom_local/rtsp_server.py:652-667 | Survivors keep their order. |
| `RtspServer.LocalRtspServer.DropDead` | custom_components/comelit_intercom_local/rtsp_server.py:664-674 | Removing the dead clients one by one leaves exactly the others, in order. |
| `RtspServer.LocalRtspServer.Emit` | custom_components/comelit_intercom_local/rtsp_server.py:739-743 | One broadcast video packet keeps the numbering, the packet and octet totals and the last timestamp in step with the log. |
| `RtspServer.LocalRtspServer.SendH264` | custom_components/comelit_intercom_local/rtsp_server.py:886-933 | Broadcasts exactly the packets of the NAL's packetisation, numbered on from those built before. |
| `RtspServer.LocalRtspServer.SendFragments` | custom_components/comelit_intercom_local/rtsp_server.py:902-933 | The offset loop produces exactly the specified fragments. |
| `RtspServer.LocalRtspServer.PassThrough` | custom_components/comelit_intercom_local/rtsp_server.py:709-743 | One packet of the fast route: the log, clock and parameter sets are those of the step the refinement theorem is about; short and empty packets change nothing. |
| `RtspServer.LocalRtspServer.DrainFallback` | custom_components/comelit_intercom_local/rtsp_server.py:781-802 | The slow route over the whole queue: empties it and leaves the log, clock and parameter sets of the folds the refinement and cache theorems are about. |
| `RtspServer.LocalRtspServer.FeedRound` | custom_components/comelit_intercom_local/rtsp_server.py:698-709 | One round: a packet is forwarded and the idle count cleared; the third and later empty round in a row drains a non-empty NAL queue; log, clock and parameter sets are those of the fast or the slow step. |
| `RtspServer.LocalRtspServer.PassthroughLoop` | custom_components/comelit_intercom_local/rtsp_server.py:687-743 | The loop over everything queued and any number of idle rounds: log and clock are `Fast` over the whole packet queue, then `Slow` over the NAL queue once three rounds were empty, and the cached sets are the folds of both. |
| `RtspServer.LocalRtspServer.ForwardQueued` | custom_components/comelit_intercom_local/rtsp_server.py:709-743 | The rounds that find a packet: log, clock and sets are those of `Fast` over the queue. |
| `RtspServer.LocalRtspServer.SendInitialSr` | custom_components/comelit_intercom_local/rtsp_server.py:611-631 | One report to one client, only when video has been sent since the last reset; a failing write is swallowed. |
| `RtspServer.LocalRtspServer.Prime` | custom_components/comelit_intercom_local/rtsp_server.py:566-603 | Report, then SPS and PPS to one client; every packet built, written or not, uses up a global sequence number and the first failing write ends it. |
| `RtspServer.LocalRtspServer.PrimeOne` | custom_components/comelit_intercom_local/rtsp_server.py:589-603 | One parameter-set packet: numbered, counted as built, and written unless the writer fails. |
| `RtspServer.LocalRtspServer.Play` | custom_components/comelit_intercom_local/rtsp_server.py:439-456 | Registers a client and primes it; it starts with an empty transcript. |
| `ServerLaws.PlayGreets` | custom_components/comelit_intercom_local/rtsp_server.py:439-456 | What a client reads right after PLAY: a Sender Report if video is flowing, then SPS and PPS at the current output time under consecutive numbers. |
| `ServerLaws.GreetingReport` | custom_components/comelit_intercom_local/rtsp_server.py:621-631 | The report comes exactly when the client has video, something was broadcast in this call, and its writer takes it. |
| `ServerLaws.TotalsSince` | custom_components/comelit_intercom_local/rtsp_server.py:740-743 | What a report says, told from the last broadcast: its timestamp, one packet and its payload more than before; zero before the first and after a reset. |
| `ServerLaws.ReportSources` | custom_components/comelit_intercom_local/rtsp_server.py:993-1010 | The two reports carry the two streams' own SSRCs. |
| `ServerLaws.ThirdRoundDrains` | custom_components/comelit_intercom_local/rtsp_server.py:703-706 | The NAL queue waits for the third empty round in a row, and then all of it goes out. |
| `RtspServer.LocalRtspServer.Unregister` | custom_components/comelit_intercom_local/rtsp_server.py:473-484 | Removes exactly that client; an absent one is ignored. |
| `RtspServer.LocalRtspServer.DisconnectClients` | custom_components/comelit_intercom_local/rtsp_server.py:253-267 | Empties the list and closes exactly the clients that were in it. |
| `RtspServer.LocalRtspServer.SrTick` | custom_components/comelit_intercom_local/rtsp_server.py:973-1011 | Nothing before the first packet; then a video and an audio report with the current totals to whoever is registered. |
| `RtspServer.LocalRtspServer.Reset` | custom_components/comelit_intercom_local/rtsp_server.py:275-334 | Empties the queues, keeps sequence numbers and timeline, zeroes the totals, asks for a rebase and re-primes every client. |
| `ServerLaws.ResetPrimesAll` | custom_components/comelit_intercom_local/rtsp_server.py:333-334 | After a reset every connected client with video, in order, gets SPS then PPS at the output time the stream had reached, numbered on; nobody else gets anything. |
| `ServerLaws.HealthyClientPrimed` | custom_components/comelit_intercom_local/rtsp_server.py:586-599 | The same for one client. |
| `ServerLaws.OtherClientsPrimed` | custom_components/comelit_intercom_local/rtsp_server.py:583-603 | A client whose writer raises uses up one number for an SPS it does not get; one without video none. |
| `MediaQueues.KeepsOldest` | custom_components/comelit_intercom_local/rtp_receiver.py:403-426 | A bounded queue takes a prefix of what it is offered and drops the rest. |
| `MediaQueues.MediaQueue.PutNowait` | custom_components/comelit_intercom_local/rtp_receiver.py:403-426 | Takes the item exactly when there is room. |
| `RtpReceivers.RtpReceiver.ProcessRtp` | custom_components/comelit_intercom_local/rtp_receiver.py:290-362 | The reassembly buffer and queued NALs are those of the pure receiver step; a video packet is also passed through; audio goes to its own queue; dropped items are counted, none lost. |
| `RtpReceivers.RtpReceiver.ProcessPayload` | custom_components/comelit_intercom_local/rtp_receiver.py:320-362 | Single NALs, FU-A start, middle and end, and everything ignored, as the pure state machine says. |
| `RtpReceivers.RtpReceiver.ProcessAudio` | custom_components/comelit_intercom_local/rtp_receiver.py:364-382 | Audio payloads are queued or counted as dropped. |
| `RtpReceivers.RtpReceiver.QueueNal` | custom_components/comelit_intercom_local/rtp_receiver.py:403-426 | Conservation: items queued plus drops grow by exactly one per NAL, and the RTSP NAL queue is used only without pass-through. |
| `RtpReceivers.RtpReceiver.ReceiveTcp` | custom_components/comelit_intercom_local/rtp_receiver.py:246-259 | A packet over TCP counts as media and is processed. |
| `RtpReceivers.RtpReceiver.OnUdpPacket` | custom_components/comelit_intercom_local/rtp_receiver.py:261-288 | Only a datagram whose ICONA header carries the media id is unwrapped and processed. |
| `RtpReceivers.UdpRtpRead` | custom_components/comelit_intercom_local/rtp_receiver.py:263-284 | A datagram of the media id hands over exactly the packet its header measures, trailer cut off; others hand over nothing. |
| `RtpReceivers.ReceiveSession` | custom_components/comelit_intercom_local/rtp_receiver.py:290-382 | A whole session of packets, whatever queues are attached: the decoder queue holds the fold of the pure step, the server's packet queue the video packets and its audio queue the payloads, each up to its room; packets passed through are queued or counted as dropped. |
| `IconaFraming.PacketsOfEncoded` | custom_components/comelit_intercom_local/protocol.py:36-55 | Encoded packets, with any cut-off tail, read back as exactly those packets. |
| `IconaFraming.HeaderRead` | custom_components/comelit_intercom_local/protocol.py:36-46 | The eight header bytes: 00 06, length, request id, padding. |
| `IconaFraming.SegmentsDoNotMatter` | custom_components/comelit_intercom_local/client.py:130-149 | However TCP cuts the bytes, repeated reads return exactly the whole packets. |
| `IconaFraming.CutPacketIsNone` | custom_components/comelit_intercom_local/client.py:134-143 | A packet cut anywhere is not yet a packet. |
| `IconaFraming.ReencodeIff` | custom_components/comelit_intercom_local/protocol.py:36-55 | Re-encoding what was read gives the bytes back if and only if every header is canonical: reading ignores the magic and the padding. |
| `IconaFraming.StreamReader.ReadExactly` | custom_components/comelit_intercom_local/client.py:134-143 | Returns the next n bytes of the segments joined, or fails with nothing left. |
| `IconaFraming.ReadPacket` | custom_components/comelit_intercom_local/client.py:130-149 | Returns the first whole packet of the bytes to come and leaves the rest. |
| `IconaFraming.ReceiveLoop` | custom_components/comelit_intercom_local/client.py:159-195 | Up to the end of the stream dispatch gets exactly the whole packets of the byte stream. |
| `ChannelRegistry.CommandOpensAtMostOne` | custom_components/comelit_intercom_local/client.py:199-263 | A request-id-0 frame opens at most one channel, a placeholder only by a device open and a client channel only by another COMMAND; open entries do not change. |
| `ChannelRegistry.DeviceOpenFills` | custom_components/comelit_intercom_local/client.py:210-248 | For every device open the first entry that is not open and has neither id nor request is open under the id afterwards, and every other entry is as before, whatever client opens are pending. |
| `ChannelRegistry.ReplyFills` | custom_components/comelit_intercom_local/client.py:250-263 | For every other COMMAND the first entry that is not open, has no id and has a request is open under the reply's id, and every other entry is as before. |
| `ChannelRegistry.CommandChangesNothing` | custom_components/comelit_intercom_local/client.py:199-294 | A frame that nothing waits for, or that is no COMMAND, changes nothing. |
| `ChannelRegistry.DeviceOpensFillPlaceholdersInOrder` | custom_components/comelit_intercom_local/client.py:210-248 | In every orderly run the k-th device open fills the k-th placeholder. |
| `ChannelRegistry.AnswersMatchInOrder` | custom_components/comelit_intercom_local/client.py:197-263 | The law behind both orders: the i-th entry that waits, a client open or a placeholder, gets the i-th answer's id. |
| `ChannelRegistry.AssignedIsOpen` | custom_components/comelit_intercom_local/client.py:234-263 | What is assigned in a run is what the registry shows: that name is open under that id. |
| `ChannelRegistry.OpenIdNeverChanges` | custom_components/comelit_intercom_local/client.py:197-263 | In every run of opens, placeholders, removals, renames and frames an open channel keeps its server id, under whatever name, until that name is used again or removed. |
| `ChannelRegistry.PendingIsQueue` | custom_components/comelit_intercom_local/client.py:233-263 | Pending opens, and free placeholders, form a queue: fresh ones join at the back, an answer takes the front, nothing else touches it. |
| `ChannelRegistry.RepliesMatchOpensInOrder` | custom_components/comelit_intercom_local/client.py:341-384 | In every orderly run the i-th client open receives the i-th reply's id. |
| `ChannelRegistry.ReplyOpensFront` | custom_components/comelit_intercom_local/client.py:253-263 | A reply opens the longest-waiting client channel under the reply's id. |
| `ChannelRegistry.OpenQueuesLastIff` | custom_components/comelit_intercom_local/client.py:373 | An open, or a placeholder, queues last if and only if nothing pending of its kind stands behind its name's old position: a re-used name keeps its place. |
| `ChannelRegistry.ReachesChannelIff` | custom_components/comelit_intercom_local/client.py:296-314 | A frame reaches a channel if and only if an open channel serves its id and no future is registered; a future left behind by a raising send swallows the next frame. |
| `ChannelRegistry.FrameHasOneFate` | custom_components/comelit_intercom_local/client.py:296-329 | Which of the four fates a frame has: future, first open channel with its id, push callback, or discarded. |
| `ChannelRegistry.DeviceOpenIdIff` | custom_components/comelit_intercom_local/client.py:210-222 | Dispatch recovers the id of a device open if and only if the id's low byte is not zero, for every NUL-free name and trailing byte. |
| `ChannelRegistry.ResponseCarriesId` | custom_components/comelit_intercom_local/protocol.py:109-122 | The reply to a device open parses back to its id. |
| `ChannelRegistry.ResponseRead` | custom_components/comelit_intercom_local/protocol.py:109-122 | The twelve bytes of the reply. |
| `ChannelRegistry.OpenBodyRead` | custom_components/comelit_intercom_local/protocol.py:74-106 | What the device reads in a channel open: COMMAND, sequence 1, type, name, request id, trailing byte. |
| `ChannelRegistry.ExtraDataRead` | custom_components/comelit_intercom_local/protocol.py:101-105 | Extra data after it: a zero byte, the length with its terminator, the text, the terminator. |
| `IconaClients.IconaBridgeClient.DispatchCommand` | custom_components/comelit_intercom_local/client.py:199-294 | The registry becomes the specified one, the bytes written are the open response or close acknowledgement, and no queue or open id changes. |
| `IconaClients.ReactionRead` | custom_components/comelit_intercom_local/client.py:210-283 | What is written for a request-id-0 frame: the reply to a device open, the answer to a device's close, otherwise nothing. |
| `IconaClients.OpenResponseRead` | custom_components/comelit_intercom_local/client.py:228-231 | The reply reads back as one packet. |
| `IconaClients.CloseAckRead` | custom_components/comelit_intercom_local/client.py:264-278 | The close answer reads back as one packet with END, 4, type 4 and the channel's id. |
| `IconaClients.IconaBridgeClient.DispatchData` | custom_components/comelit_intercom_local/client.py:296-329 | Every frame has exactly one fate: future, first open channel with its id, push callback, or discarded; what each channel has delivered plus holds stays the arrival-order subsequence routed to it. |
| `IconaClients.IconaBridgeClient.OpenChannelAt` | custom_components/comelit_intercom_local/client.py:234-263 | Opens that one entry and no other. |
| `IconaClients.IconaBridgeClient.OpenChannel` | custom_components/comelit_intercom_local/client.py:341-376 | Registers a pending channel under a new request id and writes the open packet; the packet is missing but the entry stays when there is no connection. |
| `IconaClients.IconaBridgeClient.RegisterPlaceholder` | custom_components/comelit_intercom_local/client.py:464-473 | Registers a fresh entry with request id 0. |
| `IconaClients.IconaBridgeClient.Remove` | custom_components/comelit_intercom_local/client.py:483-489 | Removes exactly that name; the channel object lives on outside the registry. |
| `IconaClients.IconaBridgeClient.RenameChannel` | custom_components/comelit_intercom_local/client.py:491-501 | Moves the entry to the end under its new name, keeping its id and queue. |
| `ChannelRegistry.RenameMovesLast` | custom_components/comelit_intercom_local/client.py:498-501 | Renaming moves the entry to the end under a fresh name, id and state unchanged. |
| `ChannelRegistry.RenameAbsent` | custom_components/comelit_intercom_local/client.py:498 | Renaming an absent name changes nothing. |
| `IconaClients.IconaBridgeClient.SendJsonBegin` | custom_components/comelit_intercom_local/client.py:407-424 | Refuses a channel that is not open; otherwise registers the future first, so a raising send leaves it behind. |
| `IconaClients.IconaBridgeClient.SendJsonEnd` | custom_components/comelit_intercom_local/client.py:426-439 | Returns the answer, or on timeout removes the entry. |
| `IconaClients.Channel.ReadResponse` | custom_components/comelit_intercom_local/client.py:452-462 | Takes the oldest queued frame; delivered plus queued is unchanged. |
| `CallCounter.CallIdDiffersFromInit` | custom_components/comelit_intercom_local/video_call.py:280-289 | Init message and ACK pair share a session id, the call's is the next one. |
| `CallCounter.RenewalChangesIdIff` | custom_components/comelit_intercom_local/video_call.py:719-736 | A renewal changes the session id if and only if the init timestamps differ modulo 2^16. |
| `CallCounter.AcksBounded` | custom_components/comelit_intercom_local/video_call.py:122-170 | For every reply sequence the loop's ACK counters keep the session id, increase, and move by at most one largest step a round. |
| `CallCounter.LinkAckedOnce` | custom_components/comelit_intercom_local/video_call.py:172-201 | The device's RTPC link is ACKed at most once, by +0x01000000. |
| `CallCounter.SetupBounded` | custom_components/comelit_intercom_local/video_call.py:333-428 | Every message from call init to HANGUP/ZERO carries the call's session id and lies within call_ts .. call_ts + 0x0B0D0000, whatever the device replies. |
| `CallCounter.SetupBoundReached` | custom_components/comelit_intercom_local/video_call.py:131-170 | Some replies reach 0x0B0D0000 exactly. |
| `SetupCounters.ExchangeEnds` | custom_components/comelit_intercom_local/video_call.py:131-170 | The exact counter for every reply list: the codec ACK plus 0x01010000 for each 0x1840/0x0008, 0x01000000 for the accept, 0x00010000 for each other 0x1840, among the at most ten replies up to the first accept or timeout; one ACK for each. |
| `SetupCounters.AcceptIsLast` | custom_components/comelit_intercom_local/video_call.py:154-162 | Nothing is taken after the accept. |
| `SetupCounters.SetupEnds` | custom_components/comelit_intercom_local/video_call.py:333-428 | HANGUP/ZERO's exact counter for every reply list, with 0x01000000 if an RTPC link of either type comes among the five replies. |
| `SetupCounters.LinkFrom` | custom_components/comelit_intercom_local/video_call.py:186-201 | The link wait sends one ACK, 0x01000000 up, if a 0x1840 or 0x1860 with action 0x000A comes before a timeout, and otherwise nothing. |
| `SetupCounters.SetupIsChained` | custom_components/comelit_intercom_local/video_call.py:288-428 | Every setup message follows the one before it in kind and counter: steps of 0x10000, the RTPC link none, the ACKs their own. |
| `SetupCounters.InitPairStamp` | custom_components/comelit_intercom_local/ctpp.py:57-71 | The ACK pair carries the init timestamp with only its highest byte stepped. |
| `CallCounter.MonitorPacing` | custom_components/comelit_intercom_local/video_call.py:642-656 | Whatever door opens and answers interleave, the monitor's k-th ACK is the base plus k * 0x10000 and the shared counter is never behind it. |
| `CallCounter.LiveMessages` | custom_components/comelit_intercom_local/video_call.py:642-673 | Every live message carries the session id and lies within one step per message of the base. |
| `SetupCounters.LiveSteps` | custom_components/comelit_intercom_local/video_call.py:647-667 | A door open or answer steps 0x10000 from the message before it; the k-th keepalive ACK is the base plus k * 0x10000. |
| `CallCounter.CountersDistinctIff` | custom_components/comelit_intercom_local/video_call.py:647-667 | The live counters are pairwise distinct if and only if no keepalive ACK follows a door open or an answer: the monitor's copy does not see their steps. |
| `CallCounter.FirstCollision` | custom_components/comelit_intercom_local/video_call.py:832-857 | The first keepalive after a door open or answer repeats that message's counter. |
| `CallCounter.CounterFits` | custom_components/comelit_intercom_local/video_call.py:706-775 | With call_ts below 2^31 every counter of 29939 steps after a start (29938 after a renewal) fits 32 bits, and the next CALL_END ACK too when 256 steps are left. |
| `CallCounter.StepsThatFit` | custom_components/comelit_intercom_local/video_call.py:333-428 | 29939 is exact. |
| `CallCounter.SessionFits` | custom_components/comelit_intercom_local/video_call.py:333-452 | Every message of a session is below 2^32 when each of its calls stays in that budget. |
| `CutRenewals.WireFits` | custom_components/comelit_intercom_local/video_call.py:606-785 | Also when a renewal is cut short and sections of the old call run afterwards. |
| `CallCounter.CallCarriesOneId` | custom_components/comelit_intercom_local/video_call.py:716-785 | Every message of one call, start or renewal and live part, carries its call timestamp's session id within the stated bounds. |
| `CallCounter.AfterRenewalIsSuffix` | custom_components/comelit_intercom_local/video_call.py:706-711 | The session's messages split at the ACK of the m-th CALL_END, which steps from the monitor's own counter. |
| `SetupCounters.RenewalStamps` | custom_components/comelit_intercom_local/video_call.py:716-775 | A renewal's first ACK is 0x01000000 above the monitor's last counter, its call timestamp the init timestamp plus one, and its live part starts 0x10000 above HANGUP/ZERO. |
| `CallCounter.OldIdNeverReturnsIff` | custom_components/comelit_intercom_local/video_call.py:706-785 | After the m-th renewal's CALL_END ACK no message carries a given id if and only if no later init or call timestamp does. |
| `VideoCalls.WireAvoidsOldId` | custom_components/comelit_intercom_local/video_call.py:706-785 | What is on the wire in any reachable session: after the CALL_END ACK of a completed renewal no message carries a session id that no later call uses, even if a later renewal is cut short or the connection dies. |
| `VideoCalls.WireAfterCutIff` | custom_components/comelit_intercom_local/video_call.py:606-644 | After a renewal that was cut short on a live connection an id the new call does not use is on the wire again if and only if it is the old call's and a door open or answer has run since. |
| `CutRenewals.OldIdComesBackIff` | custom_components/comelit_intercom_local/video_call.py:853-865 | The same on the list of messages: the waiting section draws from the old shared counter. |
| `CutRenewals.CompletedKeepAway` | custom_components/comelit_intercom_local/video_call.py:706-785 | Completed renewals keep every earlier id away whatever ends the session. |
| `VideoCalls.CutShortRun` | custom_components/comelit_intercom_local/video_call.py:523-543 | Such a run: a door open passes its check, the renewal is cancelled after its second message, and the door open sends the old call's id after the new init. |
| `VideoCalls.VideoCallSession.RunCodecExchange` | custom_components/comelit_intercom_local/video_call.py:122-170 | At most ten replies; sends exactly the specified ACKs and returns the last counter, or a prefix of them when the connection dies. |
| `VideoCalls.VideoCallSession.AckDeviceRtpcLink` | custom_components/comelit_intercom_local/video_call.py:172-201 | At most five replies; ACKs the first RTPC link and returns the counter. |
| `VideoCalls.VideoCallSession.CtppInitSequence` | custom_components/comelit_intercom_local/ctpp.py:57-71 | Init and the ACK pair at init + 0x01000000 modulo 2^32, or a prefix. |
| `VideoCalls.VideoCallSession.OfferCall` | custom_components/comelit_intercom_local/video_call.py:333-392 | Call init, codec ACK, exchange, RTPC link on the unchanged counter, video config. |
| `VideoCalls.VideoCallSession.AcceptCall` | custom_components/comelit_intercom_local/video_call.py:415-428 | Link ACK and HANGUP/ZERO. |
| `VideoCalls.VideoCallSession.Start` | custom_components/comelit_intercom_local/video_call.py:203-452 | Sends exactly the start sequence and hands one counter to the monitor and the shared field; a dead connection or a channel that does not open in time raises with a prefix sent. |
| `VideoCalls.VideoCallSession.MonitorAck` | custom_components/comelit_intercom_local/video_call.py:642-673 | Steps the monitor's copy and overwrites the shared counter; a failing send ends the monitor with the counter drawn. |
| `VideoCalls.VideoCallSession.SendBump` | custom_components/comelit_intercom_local/video_call.py:811-865 | Door open and answer step only the shared counter under the lock, whenever it comes free, also after a stop or a renewal that was cut short. |
| `VideoCalls.VideoCallSession.MayOpenDoor` | custom_components/comelit_intercom_local/video_call.py:853-855 | The check before the lock. |
| `VideoCalls.VideoCallSession.InlineReestablish` | custom_components/comelit_intercom_local/video_call.py:687-785 | Sends exactly the renewal sequence, or the prefix the connection takes. |
| `VideoCalls.VideoCallSession.Renew` | custom_components/comelit_intercom_local/video_call.py:687-785 | The renewal up to a cut after any of its messages, or to the end of the connection. |
| `VideoCalls.VideoCallSession.MonitorCallEnd` | custom_components/comelit_intercom_local/video_call.py:614-644 | A completed renewal sets both counters to the new call's base; one that fails or is cancelled after any message, the connection alive or not, leaves both alone, ends the monitor and releases the lock. |
| `VipParser.SpansExact` | custom_components/comelit_intercom_local/vip_listener.py:95-107 | The scan reports only NUL-delimited "SB" strings, apart and in order, and every "SB" in the data lies in one. |
| `VipParser.SpansUnique` | custom_components/comelit_intercom_local/vip_listener.py:95-107 | Those two conditions determine the result. |
| `VipParser.TextRead` | custom_components/comelit_intercom_local/vip_listener.py:103 | ASCII bytes decode as themselves, every other byte as the replacement character. |
| `VipParser.ParseCtppMessage` | custom_components/comelit_intercom_local/vip_listener.py:73-110 | The index loop computes the specified head, flags and addresses for every input, and None below 8 bytes. |
| `VipParser.AckRoundTrip` | custom_components/comelit_intercom_local/protocol.py:430-445 | Parsing an encoded ACK gives prefix, timestamp and action 0, and exactly [caller, callee] if and only if the timestamp's bytes hold no "SB"; otherwise exactly one more string precedes them. |
| `EventDedup.TypesIndependent` | custom_components/comelit_intercom_local/vip_listener.py:499-508 | What is fired of one type is what that type's attempts alone would fire. |
| `EventDedup.FiredSpaced` | custom_components/comelit_intercom_local/vip_listener.py:499-508 | Any two fired events of a type are at least 10 s apart per step between them, for every clock. |
| `EventDedup.ThinSpaced` | custom_components/comelit_intercom_local/vip_listener.py:499-508 | The k-th fired event of a type comes no earlier than 10 (k + 1) s. |
| `EventDedup.SuppressedIff` | custom_components/comelit_intercom_local/vip_listener.py:501-505 | An attempt is suppressed if and only if it lies less than 10 s after the last fired event of its type, or time 0. |
| `EventDedup.LastIsLastFired` | custom_components/comelit_intercom_local/vip_listener.py:506 | `_last_fired` is the time of the last fired event of each type. |
| `VipListener.DeriveIsBijection` | custom_components/comelit_intercom_local/vip_listener.py:58-70 | Each ACK timestamp answers exactly one device timestamp. |
| `VipListener.FiredAreAcked` | custom_components/comelit_intercom_local/vip_listener.py:315-351 | Every message that fires is ACKed once, except door_opened, which is not; only a renewal gets two ACKs. |
| `VipListener.RunByBytes` | custom_components/comelit_intercom_local/vip_listener.py:232-489 | Over any run the attempts of each type are exactly the messages that mean it, by their bytes and in order, with their addresses, and the decode misses exactly the messages no handler takes. |
| `VipListener.ListenerFires` | custom_components/comelit_intercom_local/vip_listener.py:232-520 | What any listener has fired of a type: those messages less the ones within 10 s of the last one kept; and what it has counted. |
| `VipListener.HandledByBytes` | custom_components/comelit_intercom_local/vip_listener.py:411-489 | One message: doorbell for C0 18, or 60 18 with action 1; missed call for 40 18 with action 0; door opening for 60 18 with action 3 unless the apartment is named first. |
| `VipListener.AcksByBytes` | custom_components/comelit_intercom_local/vip_listener.py:311-333 | What each message makes the listener send, by its bytes, and the ACK timestamp byte for byte. |
| `VipListener.AckRead` | custom_components/comelit_intercom_local/protocol.py:430-445 | Every byte of an ACK body. |
| `VipListener.HeadBytes` | custom_components/comelit_intercom_local/vip_listener.py:82-93 | The parsed head byte for byte. |
| `VipListener.EventAckRoundTrip` | custom_components/comelit_intercom_local/vip_listener.py:354-376 | An event's ACK parses back to the two addresses and, inverted, to the event's timestamp, and is not itself an event. |
| `VipListener.TallyCounts` | custom_components/comelit_intercom_local/vip_listener.py:470-489 | The decode-miss counters are the multiplicities of the missed keys. |
| `VipListener.VipEventListener.FireEvent` | custom_components/comelit_intercom_local/vip_listener.py:499-520 | Records the attempt; `_last_fired` and the fired events stay those of the deduplication run. |
| `VipListener.VipEventListener.HandleVipEvent` | custom_components/comelit_intercom_local/vip_listener.py:411-489 | One event type, nothing, or one decode miss per message. |
| `VipListener.VipEventListener.ProcessMessage` | custom_components/comelit_intercom_local/vip_listener.py:232-352 | The whole reaction: ACKs sent, message recorded with attempts and misses in step with the run, retransmission detected; too short a message changes nothing. |
| `VipListener.VipEventListener.SendAcks` | custom_components/comelit_intercom_local/vip_listener.py:311-330 | Exactly the planned ACKs, up to a failing send. |
| `VipListener.VipEventListener.ListenLoop` | custom_components/comelit_intercom_local/vip_listener.py:190-230 | Survives exactly the crashes before the first that escalates and counts each. |
| `CrashWindow.ListIsWindowIff` | custom_components/comelit_intercom_local/vip_listener.py:212-214 | The pruned list is always the last 60 s of the full history if and only if the clock never returns to within 60 s of a crash it had left. |
| `CrashWindow.EscalatesIff` | custom_components/comelit_intercom_local/vip_listener.py:212-229 | Under a clock that does not step back a crash is re-raised if and only if it is the sixth within 60 s. |
| `CrashWindow.SurvivedCrashesAreSparse` | custom_components/comelit_intercom_local/vip_listener.py:196-230 | No 60 s window holds more than five survived crashes, under a clock that does not step back. |
| `CrashWindow.SixSurvivedAreSpread` | custom_components/comelit_intercom_local/vip_listener.py:196-230 | Of any six survived crashes, consecutive or not, one lies 60 s or more before the last, whenever the clock never returns to within 60 s of a crash it had left. |
| `CrashWindow.StepBackHidesCrashes` | custom_components/comelit_intercom_local/vip_listener.py:213 | A clock that steps back: six crashes within a second, all survived. |
| `VideoLifecycle.InvAlways` | custom_components/comelit_intercom_local/coordinator.py:410-660 | At every await of every interleaving of start, stop, reconnect, auto-restart and shutdown: a session is published exactly when the ready event is set, the lock is held by exactly one task inside the start, ids are fresh, and without a session the RTSP server is ready only while a stop has its tail to run. |
| `VideoLifecycle.StepKeeps` | custom_components/comelit_intercom_local/coordinator.py:410-660 | Every step of every task keeps that invariant. |
| `VideoLifecycle.OneStartInFlight` | custom_components/comelit_intercom_local/coordinator.py:429-436 | At most one `VideoCallSession.start` is in flight, and a start that comes meanwhile is answered at once and changes nothing. |
| `UserStops.StopSticksIff` | custom_components/comelit_intercom_local/coordinator.py:436-447 | After a user's stop with no session published, no interleaving publishes one before a user starts video if and only if no start is in flight that can still publish (one that has not published already, whose own stop has not raised, and that was not launched without a client). |
| `Lifelines.CallEndRestartsIff` | custom_components/comelit_intercom_local/coordinator.py:513-536 | When a call ends with the lock free and a connection, some run without a start by a user publishes a new session if and only if the user has not stopped video. |
| `Lifelines.UserStartPublishes` | custom_components/comelit_intercom_local/coordinator.py:429-511 | A user's start publishes a new session in some run without another, if the lock is free and there is a client; otherwise it does nothing. |
| `Lifelines.HealthCheckReconnects` | custom_components/comelit_intercom_local/coordinator.py:680-702 | A health check with the connection lost brings it back in some run, taking any session down and giving the listener a new channel if it is wanted; with the connection up it does nothing. |
| `Lifelines.StopRestoresListener` | custom_components/comelit_intercom_local/coordinator.py:626-660 | A stop that runs undisturbed takes the session down, closes the RTSP server, and brings the listener back exactly when no start holds the lock, listening is wanted and the channel is there. |
| `Lifelines.StartPausesListener` | custom_components/comelit_intercom_local/coordinator.py:465-497 | A start takes the listener off before it launches. |
| `Lifelines.ShutdownReleases` | custom_components/comelit_intercom_local/coordinator.py:287-302 | A shutdown, run to its end, leaves no session, no listener, no RTSP server and no client. |
| `UserStops.StaysDown` | custom_components/comelit_intercom_local/coordinator.py:513-536 | Auto-restarts, reconnects, health checks and further stops keep it so. |
| `UserStops.CanPublish` | custom_components/comelit_intercom_local/coordinator.py:462-501 | Otherwise: the steps by which the start in flight publishes its session after the stop, a health check first bringing back a missing client. |
| `UserStops.ReconnectForgetsStop` | custom_components/comelit_intercom_local/coordinator.py:454-462 | A start that is reconnecting clears a stop that came meanwhile, in whichever way the reconnect returns. |
| `RtspReadiness.StaysReadyIff` | custom_components/comelit_intercom_local/coordinator.py:644-652 | Once the server is ready under a published session, it stays ready in every run that keeps that session if and only if no task is suspended in a stop, or in a shutdown that still has the server to stop. |
| `RtspReadiness.StaysOpen` | custom_components/comelit_intercom_local/coordinator.py:410-660 | Undisturbed, every such run keeps it ready. |
| `RtspReadiness.CanClose` | custom_components/comelit_intercom_local/coordinator.py:287-299 | Otherwise: the steps by which the suspended stop or shutdown closes it under the session. |
| `VideoLifecycle.LateTailUnmarks` | custom_components/comelit_intercom_local/coordinator.py:644-652 | The tail of an older stop makes the RTSP server not ready under a published session. |
| `VideoLifecycle.LateTailReachable` | custom_components/comelit_intercom_local/coordinator.py:617-660 | Such a state is reached. |
| `Coordinators.ComelitLocalCoordinator.AsyncStartVideo` | custom_components/comelit_intercom_local/coordinator.py:410-462 | The stretch to the first await is the specified step and keeps the invariant; with the lock taken it returns the session or raises. |
| `Coordinators.ComelitLocalCoordinator.StartVideo` | custom_components/comelit_intercom_local/coordinator.py:429-462 | When a start is refused, and that a refused one does not keep the lock. |
| `Coordinators.ComelitLocalCoordinator.AsyncStopVideo` | custom_components/comelit_intercom_local/coordinator.py:617-629 | Session and event are cleared before the first await. |
| `Coordinators.ComelitLocalCoordinator.ResumeTask` | custom_components/comelit_intercom_local/coordinator.py:410-660 | Resuming any suspended task is the specified step and keeps the invariant. |
| `Coordinators.ComelitLocalCoordinator.AsyncShutdown` | custom_components/comelit_intercom_local/coordinator.py:287-302 | Shutdown stops video first. |
| `Coordinators.ComelitLocalCoordinator.UpdateData` | custom_components/comelit_intercom_local/coordinator.py:680-699 | Reconnects exactly when there is no connected client. |
| `Coordinators.ComelitLocalCoordinator.OnVideoCallEnd` | custom_components/comelit_intercom_local/coordinator.py:513-519 | Schedules a restart unless the user stopped video. |
| `Coordinators.ComelitLocalCoordinator.RequestVideoStop` | custom_components/comelit_intercom_local/coordinator.py:542-544 | Sets the flag and nothing else. |

## Left out

- UDP clients of the RTSP server and UDP sockets: the single UDP fallback receives copies of what the TCP clients do.
- The audio RTP feed loop: it is never started; audio packets are modelled up to their queue.
- The older NAL feed loop of the server (`_video_feed_loop`): it is not started and repeats the slow route.
- RTSP request text, SDP, session ids and the wait for readiness before PLAY is answered: text and I/O.
- Decoding NALs to pictures (PyAV, Pillow) and JPEG frames: foreign libraries.
- JSON encoding and decoding: a body counts as JSON by its first byte; a push callback that raises is not told apart.
- TCP connect, keepalive options, TLS and disconnect of the client: sockets; a writer either accepts bytes or fails.
- Timeouts as durations: a timeout is a missing reply.
- Waiting for the channel lock and fairness: critical sections run one after the other in any order.
- Door sequences without video, configuration, push registration, token extraction and the fixed-layout encoders: straight-line code.
- Home Assistant entities, options, logging and diagnostics.
- VideoCalls.VideoCallSession.Start: the RTP receiver and the readiness wait inside the start are not modelled, only what goes out on CTPP and whether the channels open in time; a start that is cancelled elsewhere sends some other prefix and nothing after it; `RtspServer.LocalRtspServer.Reset` is proved on its own.
- VideoCalls.VideoCallSession.MonitorAck: the unmasked counter is a natural number; that packing it does not overflow is CallCounter.CounterFits.
- CallCounter.CountersDistinctIff: speaks of the counters drawn; a section whose send fails draws one without a message.
- Coordinators.ComelitLocalCoordinator.StartVideo: the check for a missing configuration, since setup always fetches one; stop callbacks and `session.stop` are one await.
- Coordinators.ComelitLocalCoordinator.ResumeTask: the failure inside a state-change callback is caught by the source and leaves no trace; the suspended disconnect of a client whose set-up failed is not a separate step.
- The restart of notifications by an option change: it changes only whether the listener runs.
- IconaClients.IconaBridgeClient.OpenChannel: the wait for the open event and its timeout; the entry stays registered after a timeout as in the source.
- ChannelRegistry.RepliesMatchOpensInOrder: needs fresh names and no removal or renaming of pending opens; ChannelRegistry.OpenQueuesLastIff says what a re-used name does.
