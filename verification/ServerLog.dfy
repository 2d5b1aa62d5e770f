/** The order in which the server built and sent things, and what each client must have
    received because of it. */
module ServerLog {
  import opened Bytes
  import opened Rtp
  import opened H264
  import opened Interleaving

  /** What SETUP left in `_TcpClient`; the id stands for the connection's writer. */
  datatype Setup = Setup(id: nat, videoCh: Option<nat>, audioCh: Option<nat>)

  datatype LogEvent =
    | Play(id: nat)                                       // registered by PLAY
    | VideoRtp(pkt: seq<byte>)                            // broadcast video packet
    | PrimeRtp(id: nat, pkt: seq<byte>, written: bool)    // SPS or PPS built for one client
    | PrimeSr(id: nat, pkt: seq<byte>)                    // first Sender Report to one client
    | VideoSr(pkt: seq<byte>)                             // periodic reports, broadcast
    | AudioSr(pkt: seq<byte>)
    | NewCall                                             // reset

  predicate IsBuilt(e: LogEvent) {
    e.VideoRtp? || e.PrimeRtp?
  }

  /** Video RTP packets ever built. */
  function Built(log: seq<LogEvent>): nat {
    if log == [] then 0
    else Built(log[..|log| - 1]) + (if IsBuilt(log[|log| - 1]) then 1 else 0)
  }

  /** The k-th video packet ever built carries sequence number k mod 2^16. */
  ghost predicate Numbered(log: seq<LogEvent>) {
    forall k | 0 <= k < |log| && IsBuilt(log[k]) ::
      |log[k].pkt| >= 12 && SequenceOf(log[k].pkt) == Built(log[..k]) % MOD16
  }

  /** Every priming packet carries a parameter set. */
  ghost predicate PrimesAreSets(log: seq<LogEvent>) {
    forall k | 0 <= k < |log| && log[k].PrimeRtp? :: IsSetPacket(log[k].pkt)
  }

  predicate IsSetPacket(pkt: seq<byte>) {
    IsVideo(pkt) && IsParameterSet(PayloadOf(pkt))
  }

  lemma PrimesAppend(log: seq<LogEvent>, e: LogEvent)
    requires PrimesAreSets(log) && (e.PrimeRtp? ==> IsSetPacket(e.pkt))
    ensures PrimesAreSets(log + [e])
  {
    hide IsSetPacket;
  }

  /** Packets and payload octets broadcast since the last reset. */
  function PacketsSinceCall(log: seq<LogEvent>): nat {
    if log == [] || log[|log| - 1].NewCall? then 0
    else PacketsSinceCall(log[..|log| - 1]) + (if log[|log| - 1].VideoRtp? then 1 else 0)
  }

  function OctetsSinceCall(log: seq<LogEvent>): int {
    if log == [] || log[|log| - 1].NewCall? then 0
    else OctetsSinceCall(log[..|log| - 1]) + (if log[|log| - 1].VideoRtp? then |log[|log| - 1].pkt| - 12 else 0)
  }

  /** Timestamp of the last broadcast packet, 0 before the first. */
  function LastTimestamp(log: seq<LogEvent>): u32 {
    if log == [] then 0
    else
      var e := log[|log| - 1];
      if e.VideoRtp? && |e.pkt| >= 12 then TimestampOf(e.pkt) else LastTimestamp(log[..|log| - 1])
  }

  // ---- One client's share -----------------------------------------------------

  function FramesFor(c: Setup, e: LogEvent): seq<Frame> {
    match e
    case VideoRtp(pkt) => if c.videoCh.Some? then [Frame(c.videoCh.value, pkt)] else []
    case PrimeRtp(id, pkt, written) =>
      if id == c.id && written && c.videoCh.Some? then [Frame(c.videoCh.value, pkt)] else []
    case PrimeSr(id, pkt) => if id == c.id && c.videoCh.Some? then [Frame(c.videoCh.value + 1, pkt)] else []
    case VideoSr(pkt) => if c.videoCh.Some? then [Frame(c.videoCh.value + 1, pkt)] else []
    case AudioSr(pkt) => if c.audioCh.Some? then [Frame(c.audioCh.value + 1, pkt)] else []
    case Play(_) => []
    case NewCall => []
  }

  /** Everything meant for a client since its PLAY. */
  function Transcript(log: seq<LogEvent>, c: Setup): seq<Frame> {
    if log == [] || log[|log| - 1] == Play(c.id) then []
    else Transcript(log[..|log| - 1], c) + FramesFor(c, log[|log| - 1])
  }

  /** Its video RTP: own priming packets and broadcasts since PLAY, in order. */
  function VideoShare(log: seq<LogEvent>, c: Setup): seq<seq<byte>> {
    if log == [] || log[|log| - 1] == Play(c.id) then []
    else
      var e := log[|log| - 1];
      VideoShare(log[..|log| - 1], c)
      + (if e.VideoRtp? || (e.PrimeRtp? && e.id == c.id && e.written) then [e.pkt] else [])
  }

  /** Its video Sender Reports. */
  function ReportShare(log: seq<LogEvent>, c: Setup): seq<seq<byte>> {
    if log == [] || log[|log| - 1] == Play(c.id) then []
    else
      var e := log[|log| - 1];
      ReportShare(log[..|log| - 1], c)
      + (if e.VideoSr? || (e.PrimeSr? && e.id == c.id) then [e.pkt] else [])
  }

  /** Running numbers of its video packets among all ever built. */
  function Numbers(log: seq<LogEvent>, c: Setup): seq<nat> {
    if log == [] || log[|log| - 1] == Play(c.id) then []
    else
      var before, e := log[..|log| - 1], log[|log| - 1];
      Numbers(before, c)
      + (if e.VideoRtp? || (e.PrimeRtp? && e.id == c.id && e.written) then [Built(before)] else [])
  }

  function AudioReports(log: seq<LogEvent>, c: Setup): nat {
    if log == [] || log[|log| - 1] == Play(c.id) then 0
    else AudioReports(log[..|log| - 1], c) + (if log[|log| - 1].AudioSr? then 1 else 0)
  }

  lemma ChannelNone(channel: nat)
    ensures OnChannel([], channel) == []
  {
  }

  lemma ChannelStep(before: seq<Frame>, more: seq<Frame>, channel: nat)
    requires |more| <= 1
    ensures OnChannel(before + more, channel)
         == OnChannel(before, channel) + (if more != [] && more[0].channel == channel then [more[0].pkt] else [])
  {
    if more == [] {
      assert before + more == before;
    } else {
      assert (before + more)[..|before|] == before;
    }
  }

  /** Demultiplexing the video channel of a transcript: the client's RTP packets, plus one
      packet per audio report when the audio RTCP channel is the same number. */
  lemma {:induction false} VideoChannel(log: seq<LogEvent>, c: Setup)
    requires c.videoCh.Some?
    ensures var got := OnChannel(Transcript(log, c), c.videoCh.value);
            var clash := c.audioCh.Some? && c.audioCh.value + 1 == c.videoCh.value;
            && (!clash ==> got == VideoShare(log, c))
            && |got| == |VideoShare(log, c)| + (if clash then AudioReports(log, c) else 0)
  {
    hide OnChannel;
    ChannelNone(c.videoCh.value);
    if log != [] && log[|log| - 1] != Play(c.id) {
      var before, e := log[..|log| - 1], log[|log| - 1];
      VideoChannel(before, c);
      ChannelStep(Transcript(before, c), FramesFor(c, e), c.videoCh.value);
    }
  }

  /** A client reads exactly its video packets on its video channel if and only if no audio
      report shares that channel number. */
  lemma VideoChannelExactIff(log: seq<LogEvent>, c: Setup)
    requires c.videoCh.Some?
    ensures OnChannel(Transcript(log, c), c.videoCh.value) == VideoShare(log, c)
        <==> !(c.audioCh.Some? && c.audioCh.value + 1 == c.videoCh.value) || AudioReports(log, c) == 0
  {
    hide *;
    VideoChannel(log, c);
    if AudioReports(log, c) == 0 {
      NoReportsNoClash(log, c);
    }
  }

  lemma {:induction false} NoReportsNoClash(log: seq<LogEvent>, c: Setup)
    requires c.videoCh.Some? && AudioReports(log, c) == 0
    ensures OnChannel(Transcript(log, c), c.videoCh.value) == VideoShare(log, c)
  {
    hide OnChannel;
    ChannelNone(c.videoCh.value);
    if log != [] && log[|log| - 1] != Play(c.id) {
      var before, e := log[..|log| - 1], log[|log| - 1];
      NoReportsNoClash(before, c);
      ChannelStep(Transcript(before, c), FramesFor(c, e), c.videoCh.value);
    }
  }

  /** The channel above it carries the Sender Reports, unless audio uses the same pair. */
  lemma {:induction false} ReportChannel(log: seq<LogEvent>, c: Setup)
    requires c.videoCh.Some? && c.audioCh != c.videoCh
    ensures OnChannel(Transcript(log, c), c.videoCh.value + 1) == ReportShare(log, c)
  {
    hide OnChannel;
    ChannelNone(c.videoCh.value + 1);
    if log != [] && log[|log| - 1] != Play(c.id) {
      var before, e := log[..|log| - 1], log[|log| - 1];
      ReportChannel(before, c);
      ChannelStep(Transcript(before, c), FramesFor(c, e), c.videoCh.value + 1);
    }
  }

  // ---- Sequence numbers ---------------------------------------------------------

  ghost predicate Increasing(ns: seq<nat>) {
    forall i, j | 0 <= i < j < |ns| :: ns[i] < ns[j]
  }

  lemma NumberedPrefix(log: seq<LogEvent>, n: nat)
    requires Numbered(log) && n <= |log|
    ensures Numbered(log[..n])
  {
    forall k | 0 <= k < n && IsBuilt(log[..n][k])
      ensures |log[..n][k].pkt| >= 12 && SequenceOf(log[..n][k].pkt) == Built(log[..n][..k]) % MOD16
    {
      assert log[..n][..k] == log[..k] && log[..n][k] == log[k];
    }
  }

  /** Each client's packets are numbered by a strictly increasing sequence, across resets
      and re-priming, and carry those numbers modulo 2^16: unwrapping never goes back. */
  lemma {:induction false} SequenceNumbersIncrease(log: seq<LogEvent>, c: Setup)
    requires Numbered(log)
    ensures var ns, pkts := Numbers(log, c), VideoShare(log, c);
            && |ns| == |pkts| && Increasing(ns)
            && (forall i | 0 <= i < |ns| :: ns[i] < Built(log))
            && (forall i | 0 <= i < |ns| :: |pkts[i]| >= 12 && SequenceOf(pkts[i]) == ns[i] % MOD16)
  {
    if log != [] && log[|log| - 1] != Play(c.id) {
      NumberedPrefix(log, |log| - 1);
      SequenceNumbersIncrease(log[..|log| - 1], c);
      assert IsBuilt(log[|log| - 1]) ==> SequenceOf(log[|log| - 1].pkt) == Built(log[..|log| - 1]) % MOD16;
    }
  }

  /** Video packets built since a client's PLAY that did not go to it. */
  function Foreign(log: seq<LogEvent>, c: Setup): nat {
    if log == [] || log[|log| - 1] == Play(c.id) then 0
    else
      var e := log[|log| - 1];
      Foreign(log[..|log| - 1], c) + (if e.PrimeRtp? && !(e.id == c.id && e.written) then 1 else 0)
  }

  function BuiltAtPlay(log: seq<LogEvent>, c: Setup): nat {
    if log == [] then 0
    else if log[|log| - 1] == Play(c.id) then Built(log)
    else BuiltAtPlay(log[..|log| - 1], c)
  }

  /** The sequence numbers a client misses are exactly the packets built to prime others, or to
      prime it when the write failed. */
  lemma {:induction false} GapsArePriming(log: seq<LogEvent>, c: Setup)
    ensures Built(log) == BuiltAtPlay(log, c) + |VideoShare(log, c)| + Foreign(log, c)
  {
    if log != [] && log[|log| - 1] != Play(c.id) {
      GapsArePriming(log[..|log| - 1], c);
    }
  }

  /** Position of the n-th video packet built. */
  function EventOf(log: seq<LogEvent>, n: nat): (k: nat)
    requires n < Built(log)
    ensures k < |log| && IsBuilt(log[k]) && Built(log[..k]) == n
  {
    var before := log[..|log| - 1];
    if n == Built(before) then |log| - 1
    else
      var k := EventOf(before, n);
      assert before[..k] == log[..k];
      k
  }

  /** The event was built for another client, or never reached this one. */
  predicate Misses(c: Setup, e: LogEvent) {
    e.PrimeRtp? && !(e.id == c.id && e.written)
  }

  lemma {:induction false} NumbersInRange(log: seq<LogEvent>, c: Setup)
    ensures forall i | 0 <= i < |Numbers(log, c)| :: BuiltAtPlay(log, c) <= Numbers(log, c)[i] < Built(log)
    ensures BuiltAtPlay(log, c) <= Built(log)
  {
    if log != [] && log[|log| - 1] != Play(c.id) {
      NumbersInRange(log[..|log| - 1], c);
    }
  }

  /** Since its PLAY a client misses the n-th video packet if and only if that packet primed
      another client, or was to prime it and could not be written. */
  lemma {:induction false} MissedIff(log: seq<LogEvent>, c: Setup, n: nat)
    requires BuiltAtPlay(log, c) <= n < Built(log)
    ensures n !in Numbers(log, c) <==> Misses(c, log[EventOf(log, n)])
  {
    if log[|log| - 1] != Play(c.id) {
      var before := log[..|log| - 1];
      NumbersInRange(before, c);
      if n < Built(before) {
        MissedIff(before, c, n);
      }
    }
  }

  // ---- Appending events -----------------------------------------------------------

  lemma Append(log: seq<LogEvent>, e: LogEvent)
    ensures (log + [e])[..|log|] == log
    ensures Built(log + [e]) == Built(log) + (if IsBuilt(e) then 1 else 0)
    ensures Numbered(log) && (IsBuilt(e) ==> |e.pkt| >= 12 && SequenceOf(e.pkt) == Built(log) % MOD16) ==> Numbered(log + [e])
  {
    var after := log + [e];
    assert after[..|log|] == log;
    if Numbered(log) && (IsBuilt(e) ==> |e.pkt| >= 12 && SequenceOf(e.pkt) == Built(log) % MOD16) {
      forall k | 0 <= k < |after| && IsBuilt(after[k])
        ensures |after[k].pkt| >= 12 && SequenceOf(after[k].pkt) == Built(after[..k]) % MOD16
      {
        assert after[..k] == log[..k];
        assert k < |log| ==> after[k] == log[k];
      }
    }
  }

  lemma TranscriptAppend(log: seq<LogEvent>, e: LogEvent, c: Setup)
    ensures Transcript(log + [e], c) == if e == Play(c.id) then [] else Transcript(log, c) + FramesFor(c, e)
  {
    assert (log + [e])[..|log|] == log;
  }

  function VideoEvents(pkts: seq<seq<byte>>): seq<LogEvent> {
    seq(|pkts|, i requires 0 <= i < |pkts| => VideoRtp(pkts[i]))
  }

  /** What one broadcast packet does to every total. */
  lemma CountVideo(log: seq<LogEvent>, pkt: seq<byte>)
    requires |pkt| >= 12
    ensures var after := log + [VideoRtp(pkt)];
            && Built(after) == Built(log) + 1
            && PacketsSinceCall(after) == PacketsSinceCall(log) + 1
            && OctetsSinceCall(after) == OctetsSinceCall(log) + |PayloadOf(pkt)|
            && LastTimestamp(after) == TimestampOf(pkt)
            && (Numbered(log) && SequenceOf(pkt) == Built(log) % MOD16 ==> Numbered(after))
            && (PrimesAreSets(log) ==> PrimesAreSets(after))
  {
    hide Numbered, PrimesAreSets, SequenceOf, TimestampOf;
    if PrimesAreSets(log) {
      PrimesAppend(log, VideoRtp(pkt));
    }
    Append(log, VideoRtp(pkt));
  }

  lemma NoVideoEvents(log: seq<LogEvent>)
    ensures log + VideoEvents([]) == log
  {
  }

  lemma VideoEventsNext(pkts: seq<seq<byte>>, i: nat)
    requires i < |pkts|
    ensures VideoEvents(pkts[..i + 1]) == VideoEvents(pkts[..i]) + [VideoRtp(pkts[i])]
  {
  }

  lemma VideoEventsAppend(a: seq<seq<byte>>, b: seq<seq<byte>>)
    ensures VideoEvents(a + b) == VideoEvents(a) + VideoEvents(b)
  {
  }

  lemma {:induction false} BuiltAfter(log: seq<LogEvent>, pkts: seq<seq<byte>>)
    ensures Built(log + VideoEvents(pkts)) == Built(log) + |pkts|
    ensures PacketsSinceCall(log + VideoEvents(pkts)) == PacketsSinceCall(log) + |pkts|
  {
    if pkts == [] {
      assert log + VideoEvents(pkts) == log;
    } else {
      var n := |pkts| - 1;
      BuiltAfter(log, pkts[..n]);
      assert (log + VideoEvents(pkts))[..|log| + n] == log + VideoEvents(pkts[..n]);
    }
  }
}
