/** What clients are owed: who survives a broadcast, what PLAY greets a client with, what a reset
    sends to everyone, and what their audio reports come on. */
module ServerLaws {
  import opened Bytes
  import opened Rtp
  import opened H264
  import opened MediaPaths
  import opened Interleaving
  import opened ServerLog
  import opened RtspServer

  // ---- Broadcasts ---------------------------------------------------------------------

  /** The channel a packet of each kind goes out on: the client's video channel, the one above it,
      or the one above its audio channel. */
  predicate Served(c: Setup, kind: Kind, channel: nat) {
    match kind
    case VideoRtpKind => c.videoCh == Some(channel)
    case VideoRtcpKind => channel > 0 && c.videoCh == Some(channel - 1)
    case AudioRtcpKind => channel > 0 && c.audioCh == Some(channel - 1)
  }

  /** A client is dropped exactly when it has the channel and its writer is closing or raises, or
      the frame cannot be packed; all others stay, in order. */
  lemma {:induction false} SurvivesIff(ss: seq<Setup>, broken: set<nat>, kind: Kind, pkt: seq<byte>, c: Setup)
    ensures c in Survivors(ss, broken, kind, pkt)
       <==> c in ss && forall channel: nat | Served(c, kind, channel) :: c.id !in broken && channel < 0x100 && |pkt| < 0x1_0000
  {
    if ss != [] {
      SurvivesIff(ss[1..], broken, kind, pkt, c);
      ServedIs(c, kind);
      assert c in ss <==> c == ss[0] || c in ss[1..];
    }
  }

  lemma ServedIs(c: Setup, kind: Kind)
    ensures ChannelFor(c, kind).Some? ==> Served(c, kind, ChannelFor(c, kind).value)
    ensures forall channel: nat | Served(c, kind, channel) :: ChannelFor(c, kind) == Some(channel)
  {
  }

  lemma {:induction false} SurvivorsSplit(a: seq<Setup>, b: seq<Setup>, broken: set<nat>, kind: Kind, pkt: seq<byte>)
    ensures Survivors(a + b, broken, kind, pkt) == Survivors(a, broken, kind, pkt) + Survivors(b, broken, kind, pkt)
  {
    if a == [] {
      assert a + b == b;
    } else {
      assert (a + b)[1..] == a[1..] + b;
      SurvivorsSplit(a[1..], b, broken, kind, pkt);
    }
  }

  // ---- Priming ---------------------------------------------------------------------------

  /** The packet carries the NAL at that time under that number: payload type 96, no marker. */
  predicate PrimesWith(pkt: seq<byte>, number: nat, out: u32, nal: seq<byte>) {
    && |pkt| == 12 + |nal| && pkt[0] == 0x80 && pkt[1] == 96 && pkt[12..] == nal
    && pkt[2] as int * 256 + pkt[3] as int == number % 0x1_0000 && Word(pkt, 4) == out && Word(pkt, 8) == 0xC0DE1234
  }

  lemma PrimePacketRead(built: nat, out: u32, nal: seq<byte>)
    ensures PrimesWith(PrimePacket(built, out, nal), built, out, nal)
  {
    BuildRead(built % MOD16, out, nal, false);
  }

  /** Sets a client can be primed with, and a client that can be reached. */
  predicate Sendable(sets: ParameterSets) {
    0 < |sets.sps| < 0xFFF0 && 0 < |sets.pps| < 0xFFF0
  }

  predicate Reachable(c: Setup) {
    c.videoCh.Some? ==> c.videoCh.value < 0xFF
  }

  /** The client gets SPS, then PPS, numbered one after the other, at the current output time. */
  predicate PrimesBoth(events: seq<LogEvent>, id: nat, built: nat, out: u32, sets: ParameterSets) {
    && |events| == 2 && events[0].PrimeRtp? && events[1].PrimeRtp?
    && events[0].id == id && events[1].id == id && events[0].written && events[1].written
    && PrimesWith(events[0].pkt, built, out, sets.sps) && PrimesWith(events[1].pkt, built + 1, out, sets.pps)
  }

  lemma HealthyClientPrimed(c: Setup, built: nat, out: u32, sets: ParameterSets)
    requires c.videoCh.Some? && Reachable(c) && Sendable(sets)
    ensures PrimesBoth(SetsFor(c, built, out, sets, false), c.id, built, out, sets)
  {
    PrimePacketRead(built, out, sets.sps);
    PrimePacketRead(built + 1, out, sets.pps);
    var nals: seq<seq<byte>> := [sets.sps, sets.pps];
    assert nals[1..] == [sets.pps] && |nals| == 2;
    hide PrimePacket, PrimesWith;
    var ch := c.videoCh.value;
    assert PrimeEvents(c.id, ch, built + 2, out, [], false) == [];
    PacketLength(built, out, sets.sps);
    PacketLength(built + 1, out, sets.pps);
    assert PrimeEvents(c.id, ch, built + 1, out, [sets.pps], false)
        == [PrimeRtp(c.id, PrimePacket(built + 1, out, sets.pps), true)] + [];
  }

  lemma PacketLength(built: nat, out: u32, nal: seq<byte>)
    ensures |PrimePacket(built, out, nal)| == 12 + |nal|
  {
  }

  /** A client whose writer raises uses up one number, for an SPS it does not get; one without video
      none. */
  lemma OtherClientsPrimed(c: Setup, built: nat, out: u32, sets: ParameterSets)
    requires Sendable(sets)
    ensures var events := SetsFor(c, built, out, sets, true);
            if c.videoCh.None? then events == []
            else |events| == 1 && events[0].PrimeRtp? && events[0].id == c.id && !events[0].written
                 && PrimesWith(events[0].pkt, built, out, sets.sps)
    ensures c.videoCh.None? ==> SetsFor(c, built, out, sets, false) == []
  {
    PrimePacketRead(built, out, sets.sps);
    hide PrimePacket, PrimesWith;
  }

  function WithVideo(ss: seq<Setup>): seq<Setup> {
    if ss == [] then [] else (if ss[0].videoCh.Some? then [ss[0]] else []) + WithVideo(ss[1..])
  }

  /** After a reset every connected client with video, in order, gets SPS then PPS at the output time
      the stream had reached, numbered on from what was built; nobody else gets anything. */
  lemma {:induction false} ResetPrimesAll(ss: seq<Setup>, built: nat, out: u32, sets: ParameterSets, raising: set<nat>)
    requires Sendable(sets) && forall i | 0 <= i < |ss| :: Reachable(ss[i]) && ss[i].id !in raising
    ensures var events, vs := PrimeAllEvents(ss, built, out, sets, raising), WithVideo(ss);
            && |events| == 2 * |vs|
            && forall i | 0 <= i < |vs| :: PrimesBoth(events[2 * i..2 * i + 2], vs[i].id, built + 2 * i, out, sets)
    decreases |ss|
  {
    hide SetsFor, PrimesBoth;
    if ss != [] {
      assert Reachable(ss[0]) && ss[0].id !in raising;
      var rest := ss[1..];
      assert forall i | 0 <= i < |rest| :: rest[i] == ss[i + 1];
      var first := SetsFor(ss[0], built, out, sets, false);
      if ss[0].videoCh.Some? {
        HealthyClientPrimed(ss[0], built, out, sets);
        assert |first| == 2 by {
          TwoEvents(first, ss[0].id, built, out, sets);
        }
        ResetPrimesAll(rest, built + 2, out, sets, raising);
        var more, vs := PrimeAllEvents(rest, built + 2, out, sets, raising), WithVideo(rest);
        var events := first + more;
        forall i | 0 <= i < |vs| + 1
          ensures PrimesBoth(events[2 * i..2 * i + 2], ([ss[0]] + vs)[i].id, built + 2 * i, out, sets)
        {
          if i == 0 {
            assert events[0..2] == first;
          } else {
            assert events[2 * i..2 * i + 2] == more[2 * (i - 1)..2 * (i - 1) + 2];
            assert ([ss[0]] + vs)[i] == vs[i - 1] && built + 2 + 2 * (i - 1) == built + 2 * i;
          }
        }
      } else {
        OtherClientsPrimed(ss[0], built, out, sets);
        ResetPrimesAll(rest, built, out, sets, raising);
        assert [] + PrimeAllEvents(rest, built, out, sets, raising) == PrimeAllEvents(rest, built, out, sets, raising);
        assert [] + WithVideo(rest) == WithVideo(rest);
      }
    }
  }

  lemma TwoEvents(events: seq<LogEvent>, id: nat, built: nat, out: u32, sets: ParameterSets)
    requires PrimesBoth(events, id, built, out, sets)
    ensures |events| == 2 && events[0].PrimeRtp? && events[1].PrimeRtp?
  {
  }

  /** The report that greets a client: exactly when it has video, something was broadcast in this
      call, and its writer takes it. */
  lemma GreetingReport(c: Setup, packets: nat, sr: seq<byte>, raising: bool)
    requires Reachable(c) && |sr| < 0x1_0000
    ensures FirstReport(c, packets, sr, raising) == if c.videoCh.Some? && packets > 0 && !raising then [PrimeSr(c.id, sr)] else []
  {
  }

  /** What a client reads right after PLAY: a Sender Report if video is flowing, on the channel above
      its video channel, then SPS and PPS on the video channel. */
  lemma PlayGreets(log: seq<LogEvent>, c: Setup, packets: nat, sr: seq<byte>, built: nat, out: u32, sets: ParameterSets)
    requires c.videoCh.Some? && Reachable(c) && Sendable(sets) && |sr| < 0x1_0000
    ensures var events := [LogEvent.Play(c.id)] + FirstReport(c, packets, sr, false) + SetsFor(c, built, out, sets, false);
            var frames := Transcript(log + events, c);
            var reports := if packets > 0 then 1 else 0;
            && |frames| == reports + 2
            && (packets > 0 ==> frames[0] == Frame(c.videoCh.value + 1, sr))
            && frames[reports].channel == frames[reports + 1].channel == c.videoCh.value
            && PrimesWith(frames[reports].pkt, built, out, sets.sps) && PrimesWith(frames[reports + 1].pkt, built + 1, out, sets.pps)
  {
    var first, primes := FirstReport(c, packets, sr, false), SetsFor(c, built, out, sets, false);
    GreetingReport(c, packets, sr, false);
    HealthyClientPrimed(c, built, out, sets);
    hide FirstReport, SetsFor, PrimesBoth, PrimesWith, Transcript;
    var a, b := PrimesAre(primes, c.id, built, out, sets);
    var start := log + [LogEvent.Play(c.id)];
    ToldPlay(log, c);
    if packets > 0 {
      ToldReport(start, c, sr);
    }
    assert packets == 0 ==> start + first == start;
    ToldPrimes(start + first, c, a, b);
    assert log + ([LogEvent.Play(c.id)] + first + primes) == start + first + primes;
  }

  lemma PrimesAre(events: seq<LogEvent>, id: nat, built: nat, out: u32, sets: ParameterSets) returns (a: seq<byte>, b: seq<byte>)
    requires PrimesBoth(events, id, built, out, sets)
    ensures events == [PrimeRtp(id, a, true), PrimeRtp(id, b, true)]
    ensures PrimesWith(a, built, out, sets.sps) && PrimesWith(b, built + 1, out, sets.pps)
  {
    hide PrimesWith;
    a, b := events[0].pkt, events[1].pkt;
  }

  lemma ToldPlay(log: seq<LogEvent>, c: Setup)
    ensures Transcript(log + [LogEvent.Play(c.id)], c) == []
  {
    TranscriptAppend(log, LogEvent.Play(c.id), c);
  }

  lemma ToldReport(log: seq<LogEvent>, c: Setup, sr: seq<byte>)
    requires c.videoCh.Some?
    ensures Transcript(log + [PrimeSr(c.id, sr)], c) == Transcript(log, c) + [Frame(c.videoCh.value + 1, sr)]
  {
    TranscriptAppend(log, PrimeSr(c.id, sr), c);
  }

  lemma ToldPrimes(log: seq<LogEvent>, c: Setup, a: seq<byte>, b: seq<byte>)
    requires c.videoCh.Some?
    ensures Transcript(log + [PrimeRtp(c.id, a, true), PrimeRtp(c.id, b, true)], c)
         == Transcript(log, c) + [Frame(c.videoCh.value, a), Frame(c.videoCh.value, b)]
  {
    var first, second := PrimeRtp(c.id, a, true), PrimeRtp(c.id, b, true);
    TranscriptAppend(log, first, c);
    TranscriptAppend(log + [first], second, c);
    hide Transcript;
    assert log + [first, second] == log + [first] + [second];
  }

  /** The NAL queue waits for the third empty round in a row, and then all of it goes out. */
  lemma ThirdRoundDrains(count: nat, items: seq<Item>)
    ensures count < 3 ==> Drained(count, items) == []
    ensures count >= 3 ==> Drained(count, items) == items
  {
  }

  // ---- Totals and reports ------------------------------------------------------------------

  predicate Quiet(log: seq<LogEvent>) {
    forall k | 0 <= k < |log| :: !log[k].VideoRtp? && !log[k].NewCall?
  }

  /** What the reports say, told from the last broadcast and the events since: its timestamp, one
      packet and its payload more than before it; and nothing at all before the first. */
  lemma {:induction false} TotalsSince(log: seq<LogEvent>, pkt: seq<byte>, since: seq<LogEvent>)
    requires |pkt| >= 12 && Quiet(since)
    ensures var after := log + [VideoRtp(pkt)] + since;
            && LastTimestamp(after) == Word(pkt, 4)
            && PacketsSinceCall(after) == PacketsSinceCall(log) + 1
            && OctetsSinceCall(after) == OctetsSinceCall(log) + |pkt| - 12
    ensures LastTimestamp(since) == PacketsSinceCall(since) == OctetsSinceCall(since) == 0
    ensures PacketsSinceCall(log + [NewCall]) == OctetsSinceCall(log + [NewCall]) == 0
    decreases |since|
  {
    var told := log + [VideoRtp(pkt)];
    WordIs(pkt, 4);
    if since == [] {
      assert told[..|log|] == log && told + since == told;
    } else {
      var n := |since| - 1;
      TotalsSince(log, pkt, since[..n]);
      assert (told + since)[..|told| + n] == told + since[..n] && (told + since)[|told| + n] == since[n];
    }
  }

  /** The two reports carry the two streams' own SSRCs. */
  lemma ReportSources(ntpSecs: nat, ntpFrac: nat, rtpTs: nat, packets: nat, octets: nat)
    ensures Word(BuildSr(VIDEO_SSRC, ntpSecs, ntpFrac, rtpTs, packets, octets), 4) == 0xC0DE1234
    ensures Word(BuildSr(AUDIO_SSRC, ntpSecs, ntpFrac, rtpTs, packets, octets), 4) == 0xA0D10001
  {
    SrRead(VIDEO_SSRC, ntpSecs, ntpFrac, rtpTs, packets, octets);
    SrRead(AUDIO_SSRC, ntpSecs, ntpFrac, rtpTs, packets, octets);
  }

  // ---- Audio reports ---------------------------------------------------------------------------

  function AudioShare(log: seq<LogEvent>, c: Setup): seq<seq<byte>> {
    if log == [] || log[|log| - 1] == Play(c.id) then []
    else
      var e := log[|log| - 1];
      AudioShare(log[..|log| - 1], c) + (if e.AudioSr? then [e.pkt] else [])
  }

  /** The channel above a client's audio channel carries exactly the audio reports since its PLAY,
      unless video uses it. */
  lemma {:induction false} AudioChannel(log: seq<LogEvent>, c: Setup)
    requires c.audioCh.Some? && c.videoCh != c.audioCh && c.videoCh != Some(c.audioCh.value + 1)
    ensures OnChannel(Transcript(log, c), c.audioCh.value + 1) == AudioShare(log, c)
  {
    hide OnChannel;
    ChannelNone(c.audioCh.value + 1);
    if log != [] && log[|log| - 1] != Play(c.id) {
      var before, e := log[..|log| - 1], log[|log| - 1];
      AudioChannel(before, c);
      ChannelStep(Transcript(before, c), FramesFor(c, e), c.audioCh.value + 1);
    }
  }
}
