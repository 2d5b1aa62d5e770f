/** `LocalRtspServer`: client registration, broadcasting, priming, both feed paths and the
    Sender Reports. The ghost log records what was built and sent; the class invariant ties
    every field and every client's bytes to it. */
module RtspServer {
  import opened Bytes
  import opened Rtp
  import opened H264
  import opened VideoClock
  import opened MediaPaths
  import opened Interleaving
  import opened ServerLog
  import opened MediaQueues

  const DEFAULT_SPS: seq<byte> := [0x67, 0x42, 0x00, 0x1F, 0xE9, 0x02, 0x83, 0xF4, 0x02, 0xC4, 0x08, 0x4A]
  const DEFAULT_PPS: seq<byte> := [0x68, 0xCE, 0x38, 0x80]

  /** A registered client and the bytes handed to its writer since PLAY was answered. */
  datatype TcpClient = TcpClient(setup: Setup, wire: seq<byte>)

  /** Which channel a broadcast goes to. */
  datatype Kind = VideoRtpKind | VideoRtcpKind | AudioRtcpKind

  function ChannelFor(c: Setup, kind: Kind): Option<nat> {
    match kind
    case VideoRtpKind => c.videoCh
    case VideoRtcpKind => if c.videoCh.Some? then Some(c.videoCh.value + 1) else None
    case AudioRtcpKind => if c.audioCh.Some? then Some(c.audioCh.value + 1) else None
  }

  function EventFor(kind: Kind, pkt: seq<byte>): LogEvent {
    match kind
    case VideoRtpKind => VideoRtp(pkt)
    case VideoRtcpKind => VideoSr(pkt)
    case AudioRtcpKind => AudioSr(pkt)
  }

  /** A broadcast drops a client whose writer is closing or raises, or whose frame header
      cannot be packed; a client without the channel is skipped and kept. */
  predicate Fails(c: Setup, broken: set<nat>, kind: Kind, pkt: seq<byte>) {
    && ChannelFor(c, kind).Some?
    && (c.id in broken || !Fits(Frame(ChannelFor(c, kind).value, pkt)))
  }

  function Setups(cs: seq<TcpClient>): seq<Setup> {
    seq(|cs|, i requires 0 <= i < |cs| => cs[i].setup)
  }

  function Survivors(ss: seq<Setup>, broken: set<nat>, kind: Kind, pkt: seq<byte>): seq<Setup> {
    if ss == [] then []
    else (if Fails(ss[0], broken, kind, pkt) then [] else [ss[0]]) + Survivors(ss[1..], broken, kind, pkt)
  }

  predicate DistinctIds(cs: seq<TcpClient>) {
    forall i, j | 0 <= i < j < |cs| :: cs[i].setup.id != cs[j].setup.id
  }

  predicate InStep(log: seq<LogEvent>, c: TcpClient) {
    AllFit(Transcript(log, c.setup)) && c.wire == EncodeAll(Transcript(log, c.setup))
  }

  predicate AllInStep(log: seq<LogEvent>, cs: seq<TcpClient>) {
    forall i | 0 <= i < |cs| :: InStep(log, cs[i])
  }

  /** One client's record after the broadcast wrote to it. */
  function Written(c: TcpClient, broken: set<nat>, kind: Kind, pkt: seq<byte>): TcpClient {
    var ch := ChannelFor(c.setup, kind);
    if ch.None? || Fails(c.setup, broken, kind, pkt) then c
    else c.(wire := c.wire + Encode(Frame(ch.value, pkt)))
  }

  /** A client that gets frame f for event e and nothing else stays in step. */
  lemma OneFrameInStep(log: seq<LogEvent>, c: TcpClient, e: LogEvent, f: Frame)
    requires InStep(log, c) && Fits(f) && e != Play(c.setup.id) && FramesFor(c.setup, e) == [f]
    ensures InStep(log + [e], c.(wire := c.wire + Encode(f)))
  {
    hide Encode, Transcript;
    TranscriptAppend(log, e, c.setup);
    EncodeLast(Transcript(log, c.setup), f);
  }

  lemma NoFrameInStep(log: seq<LogEvent>, c: TcpClient, e: LogEvent)
    requires InStep(log, c) && e != Play(c.setup.id) && FramesFor(c.setup, e) == []
    ensures InStep(log + [e], c)
  {
    hide Encode, Transcript;
    TranscriptAppend(log, e, c.setup);
    assert Transcript(log, c.setup) + [] == Transcript(log, c.setup);
  }

  lemma WrittenInStep(log: seq<LogEvent>, c: TcpClient, broken: set<nat>, kind: Kind, pkt: seq<byte>)
    requires InStep(log, c) && !Fails(c.setup, broken, kind, pkt)
    ensures InStep(log + [EventFor(kind, pkt)], Written(c, broken, kind, pkt))
  {
    hide InStep, Encode;
    var ch := ChannelFor(c.setup, kind);
    if ch.None? {
      NoFrameInStep(log, c, EventFor(kind, pkt));
    } else {
      OneFrameInStep(log, c, EventFor(kind, pkt), Frame(ch.value, pkt));
    }
  }

  // ---- Removing dead clients ------------------------------------------------------

  function Without(cs: seq<TcpClient>, gone: set<nat>): seq<TcpClient> {
    if cs == [] then []
    else (if cs[0].setup.id in gone then [] else [cs[0]]) + Without(cs[1..], gone)
  }

  /** `list.remove`: the first equal entry; entries with the same writer are equal. */
  function RemoveFirst(cs: seq<TcpClient>, id: nat): seq<TcpClient> {
    if cs == [] then []
    else if cs[0].setup.id == id then cs[1..]
    else [cs[0]] + RemoveFirst(cs[1..], id)
  }

  lemma {:induction false} WithoutAbsent(cs: seq<TcpClient>, id: nat)
    requires forall c | c in cs :: c.setup.id != id
    ensures Without(cs, {id}) == cs
  {
    if cs != [] {
      WithoutAbsent(cs[1..], id);
      assert [cs[0]] + cs[1..] == cs;
    }
  }

  lemma {:induction false} RemoveIsWithout(cs: seq<TcpClient>, id: nat)
    requires DistinctIds(cs)
    ensures RemoveFirst(cs, id) == Without(cs, {id})
  {
    if cs != [] {
      assert DistinctIds(cs[1..]);
      if cs[0].setup.id == id {
        WithoutAbsent(cs[1..], id);
      } else {
        RemoveIsWithout(cs[1..], id);
      }
    }
  }

  lemma {:induction false} WithoutTwice(cs: seq<TcpClient>, a: set<nat>, b: set<nat>)
    ensures Without(Without(cs, a), b) == Without(cs, a + b)
  {
    if cs != [] {
      WithoutTwice(cs[1..], a, b);
      var rest := Without(cs[1..], a);
      if cs[0].setup.id !in a {
        assert ([cs[0]] + rest)[1..] == rest;
      } else {
        assert [] + rest == rest;
      }
    }
  }

  lemma {:induction false} WithoutMembers(cs: seq<TcpClient>, gone: set<nat>)
    requires DistinctIds(cs)
    ensures DistinctIds(Without(cs, gone))
    ensures forall c | c in Without(cs, gone) :: c in cs && c.setup.id !in gone
  {
    if cs != [] {
      assert DistinctIds(cs[1..]);
      WithoutMembers(cs[1..], gone);
    }
  }

  lemma {:induction false} WithoutInStep(log: seq<LogEvent>, cs: seq<TcpClient>, gone: set<nat>)
    requires AllInStep(log, cs)
    ensures AllInStep(log, Without(cs, gone))
  {
    hide InStep;
    if cs != [] {
      assert InStep(log, cs[0]);
      forall i | 0 <= i < |cs[1..]| ensures InStep(log, cs[1..][i]) {
        assert cs[1..][i] == cs[i + 1];
      }
      WithoutInStep(log, cs[1..], gone);
      var rest := Without(cs[1..], gone);
      forall i | 0 <= i < |Without(cs, gone)| ensures InStep(log, Without(cs, gone)[i]) {
        assert cs[0].setup.id in gone ==> Without(cs, gone) == [] + rest;
        assert cs[0].setup.id in gone ==> Without(cs, gone)[i] == rest[i];
        assert cs[0].setup.id !in gone && i > 0 ==> Without(cs, gone)[i] == rest[i - 1];
      }
    }
  }

  lemma {:induction false} SurvivorsAreWithout(cs: seq<TcpClient>, ss: seq<Setup>, gone: set<nat>,
                                               broken: set<nat>, kind: Kind, pkt: seq<byte>)
    requires Setups(cs) == ss
    requires forall s | s in ss :: s.id in gone <==> Fails(s, broken, kind, pkt)
    ensures Setups(Without(cs, gone)) == Survivors(ss, broken, kind, pkt)
  {
    if cs != [] {
      assert Setups(cs[1..]) == ss[1..];
      SurvivorsAreWithout(cs[1..], ss[1..], gone, broken, kind, pkt);
      assert ss[0] in ss && cs[0].setup == ss[0];
      var rest := Without(cs[1..], gone);
      assert Setups([cs[0]] + rest) == [ss[0]] + Setups(rest);
      assert [] + rest == rest;
    }
  }

  lemma {:induction false} WithoutNone(cs: seq<TcpClient>)
    ensures Without(cs, {}) == cs
  {
    if cs != [] {
      WithoutNone(cs[1..]);
      assert [cs[0]] + cs[1..] == cs;
    }
  }

  /** After a broadcast: the survivors are the clients that did not fail, each holding exactly
      the bytes of its transcript including the new event. */
  lemma BroadcastInStep(log: seq<LogEvent>, cs: seq<TcpClient>, written: seq<TcpClient>, gone: set<nat>,
                        broken: set<nat>, kind: Kind, pkt: seq<byte>)
    requires DistinctIds(cs) && AllInStep(log, cs) && |written| == |cs|
    requires forall j | 0 <= j < |cs| :: written[j] == Written(cs[j], broken, kind, pkt)
    requires forall j | 0 <= j < |cs| :: cs[j].setup.id in gone <==> Fails(cs[j].setup, broken, kind, pkt)
    ensures DistinctIds(Without(written, gone))
    ensures AllInStep(log + [EventFor(kind, pkt)], Without(written, gone))
    ensures Setups(Without(written, gone)) == Survivors(Setups(cs), broken, kind, pkt)
  {
    assert forall j | 0 <= j < |cs| :: written[j].setup == cs[j].setup;
    WithoutMembers(written, gone);
    SurvivorsAreWithout(written, Setups(cs), gone, broken, kind, pkt);
    forall j | 0 <= j < |cs| && cs[j].setup.id !in gone
      ensures InStep(log + [EventFor(kind, pkt)], written[j])
    {
      WrittenInStep(log, cs[j], broken, kind, pkt);
    }
  }

  // ---- Priming ------------------------------------------------------------------------

  function PrimePacket(built: nat, out: u32, nal: seq<byte>): seq<byte> {
    Build(VIDEO_PT, built % MOD16, out, VIDEO_SSRC, nal, false)
  }

  /** Parameter sets for one client: empty ones are skipped, the first failing write ends it,
      and the packet that failed has still used up a sequence number. */
  function PrimeEvents(id: nat, channel: nat, built: nat, out: u32, nals: seq<seq<byte>>, raising: bool): seq<LogEvent>
    decreases |nals|
  {
    if nals == [] then []
    else if nals[0] == [] then PrimeEvents(id, channel, built, out, nals[1..], raising)
    else
      var pkt := PrimePacket(built, out, nals[0]);
      var ok := !raising && Fits(Frame(channel, pkt));
      [PrimeRtp(id, pkt, ok)]
      + (if ok then PrimeEvents(id, channel, built + 1, out, nals[1..], raising) else [])
  }

  /** The one-shot report before the parameter sets: only once video has been broadcast since
      the last reset; a failing write is swallowed. */
  function FirstReport(c: Setup, packets: nat, sr: seq<byte>, raising: bool): seq<LogEvent> {
    if c.videoCh.Some? && packets > 0 && !raising && Fits(Frame(c.videoCh.value + 1, sr)) then [PrimeSr(c.id, sr)] else []
  }

  /** Parameter sets for a client, if it set up video. */
  function SetsFor(c: Setup, built: nat, out: u32, sets: ParameterSets, raising: bool): seq<LogEvent> {
    if c.videoCh.None? then []
    else PrimeEvents(c.id, c.videoCh.value, built, out, [sets.sps, sets.pps], raising)
  }

  /** `reset` primes every registered client that has a video channel; no Sender Report goes
      out, since the packet count is 0 by then. */
  function PrimeAllEvents(ss: seq<Setup>, built: nat, out: u32, sets: ParameterSets, raising: set<nat>): seq<LogEvent>
    decreases |ss|
  {
    if ss == [] then []
    else
      var first := SetsFor(ss[0], built, out, sets, ss[0].id in raising);
      first + PrimeAllEvents(ss[1..], built + |first|, out, sets, raising)
  }

  // ---- What priming and registration keep -----------------------------------------

  /** Events that are not broadcast packets or resets leave the totals alone. */
  lemma CountQuiet(log: seq<LogEvent>, e: LogEvent)
    requires !IsBuilt(e) && !e.NewCall?
    ensures var after := log + [e];
            && Built(after) == Built(log) && PacketsSinceCall(after) == PacketsSinceCall(log)
            && OctetsSinceCall(after) == OctetsSinceCall(log) && LastTimestamp(after) == LastTimestamp(log)
            && (Numbered(log) ==> Numbered(after)) && (PrimesAreSets(log) ==> PrimesAreSets(after))
  {
    hide PrimesAreSets;
    if PrimesAreSets(log) {
      PrimesAppend(log, e);
    }
    Append(log, e);
  }

  lemma CountPrime(log: seq<LogEvent>, e: LogEvent)
    requires e.PrimeRtp? && |e.pkt| >= 12
    ensures var after := log + [e];
            && Built(after) == Built(log) + 1 && PacketsSinceCall(after) == PacketsSinceCall(log)
            && OctetsSinceCall(after) == OctetsSinceCall(log) && LastTimestamp(after) == LastTimestamp(log)
            && (Numbered(log) && SequenceOf(e.pkt) == Built(log) % MOD16 ==> Numbered(after))
            && (PrimesAreSets(log) && IsSetPacket(e.pkt) ==> PrimesAreSets(after))
  {
    hide PrimesAreSets, IsSetPacket;
    if PrimesAreSets(log) && IsSetPacket(e.pkt) {
      PrimesAppend(log, e);
    }
    Append(log, e);
  }

  lemma CountRestart(log: seq<LogEvent>)
    ensures var after := log + [NewCall];
            && Built(after) == Built(log) && PacketsSinceCall(after) == 0 && OctetsSinceCall(after) == 0
            && LastTimestamp(after) == LastTimestamp(log) && (Numbered(log) ==> Numbered(after))
            && (PrimesAreSets(log) ==> PrimesAreSets(after))
  {
    hide PrimesAreSets;
    if PrimesAreSets(log) {
      PrimesAppend(log, NewCall);
    }
    Append(log, NewCall);
  }

  lemma OneClientInStep(log: seq<LogEvent>, cs: seq<TcpClient>, k: nat, e: LogEvent, f: Frame)
    requires k < |cs| && DistinctIds(cs) && AllInStep(log, cs) && Fits(f)
    requires e.PrimeRtp? || e.PrimeSr?
    requires e.id == cs[k].setup.id && FramesFor(cs[k].setup, e) == [f]
    ensures var after := cs[k := cs[k].(wire := cs[k].wire + Encode(f))];
            AllInStep(log + [e], after) && DistinctIds(after) && Setups(after) == Setups(cs)
  {
    hide InStep, Encode;
    var after := cs[k := cs[k].(wire := cs[k].wire + Encode(f))];
    forall i | 0 <= i < |cs|
      ensures InStep(log + [e], after[i])
    {
      if i == k {
        OneFrameInStep(log, cs[k], e, f);
      } else {
        NoFrameInStep(log, cs[i], e);
      }
    }
  }

  lemma NoClientInStep(log: seq<LogEvent>, cs: seq<TcpClient>, e: LogEvent)
    requires AllInStep(log, cs) && (e.NewCall? || (e.PrimeRtp? && !e.written))
    ensures AllInStep(log + [e], cs)
  {
    hide InStep;
    forall i | 0 <= i < |cs|
      ensures InStep(log + [e], cs[i])
    {
      NoFrameInStep(log, cs[i], e);
    }
  }

  lemma PlayInStep(log: seq<LogEvent>, cs: seq<TcpClient>, s: Setup)
    requires DistinctIds(cs) && AllInStep(log, cs) && forall i | 0 <= i < |cs| :: cs[i].setup.id != s.id
    ensures DistinctIds(cs + [TcpClient(s, [])])
    ensures AllInStep(log + [Play(s.id)], cs + [TcpClient(s, [])])
  {
    TranscriptAppend(log, Play(s.id), s);
    assert InStep(log + [Play(s.id)], TcpClient(s, []));
    hide InStep;
    forall i | 0 <= i < |cs|
      ensures InStep(log + [Play(s.id)], cs[i])
    {
      NoFrameInStep(log, cs[i], Play(s.id));
    }
  }

  predicate OnlyBuilt(events: seq<LogEvent>) {
    forall i | 0 <= i < |events| :: IsBuilt(events[i])
  }

  lemma OnlyBuiltFirst(e: LogEvent, rest: seq<LogEvent>)
    requires IsBuilt(e) && OnlyBuilt(rest)
    ensures OnlyBuilt([e] + rest) && OnlyBuilt([])
  {
  }

  lemma {:induction false} AllBuilt(log: seq<LogEvent>, more: seq<LogEvent>)
    requires OnlyBuilt(more)
    ensures Built(log + more) == Built(log) + |more|
    decreases |more|
  {
    if more == [] {
      assert log + more == log;
    } else {
      var n := |more| - 1;
      AllBuilt(log, more[..n]);
      assert (log + more)[..|log| + n] == log + more[..n];
    }
  }

  lemma {:induction false} PrimeEventsBuilt(id: nat, channel: nat, built: nat, out: u32, nals: seq<seq<byte>>, raising: bool)
    ensures OnlyBuilt(PrimeEvents(id, channel, built, out, nals, raising))
    decreases |nals|
  {
    hide PrimePacket, Fits;
    if nals != [] {
      PrimeEventsBuilt(id, channel, built, out, nals[1..], raising);
      PrimeEventsBuilt(id, channel, built + 1, out, nals[1..], raising);
      if nals[0] != [] {
        var pkt := PrimePacket(built, out, nals[0]);
        var ok := !raising && Fits(Frame(channel, pkt));
        var rest := if ok then PrimeEvents(id, channel, built + 1, out, nals[1..], raising) else [];
        OnlyBuiltFirst(PrimeRtp(id, pkt, ok), rest);
        assert PrimeEvents(id, channel, built, out, nals, raising) == [PrimeRtp(id, pkt, ok)] + rest;
      }
    }
  }

  lemma PrimeAllStep(log: seq<LogEvent>, ss: seq<Setup>, k: nat, out: u32, sets: ParameterSets, raising: set<nat>)
    requires k < |ss|
    ensures var after := log + SetsFor(ss[k], Built(log), out, sets, ss[k].id in raising);
            log + PrimeAllEvents(ss[k..], Built(log), out, sets, raising)
            == after + PrimeAllEvents(ss[k + 1..], Built(after), out, sets, raising)
  {
    hide PrimeEvents, Built;
    var first := SetsFor(ss[k], Built(log), out, sets, ss[k].id in raising);
    var now, rest := ss[k..], ss[k + 1..];
    assert now[1..] == rest && now[0] == ss[k];
    assert PrimeAllEvents(now, Built(log), out, sets, raising)
        == first + PrimeAllEvents(rest, Built(log) + |first|, out, sets, raising);
    hide PrimeAllEvents;
    assert OnlyBuilt([]);
    if ss[k].videoCh.Some? {
      PrimeEventsBuilt(ss[k].id, ss[k].videoCh.value, Built(log), out, [sets.sps, sets.pps], ss[k].id in raising);
    }
    AllBuilt(log, first);
    assert Built(log + first) == Built(log) + |first|;
    hide SetsFor;
    var more := PrimeAllEvents(rest, Built(log + first), out, sets, raising);
    assert log + (first + more) == log + first + more;
  }

  lemma PrimeNobody(log: seq<LogEvent>, out: u32, sets: ParameterSets, raising: set<nat>)
    ensures log + PrimeAllEvents([], Built(log), out, sets, raising) == log
  {
  }

  /** What an empty round drains once `count` rounds in a row were empty. */
  function Drained(count: nat, items: seq<Item>): seq<Item> {
    if count >= 3 then items else []
  }

  lemma NothingDrained(c: Clock, built: nat, sets: ParameterSets)
    ensures Slow(c, built, []) == Sent(c, []) && SlowSetsAll(sets, []) == sets
  {
  }

  lemma FastStepShift(s: Sent, built: nat, rtp: seq<byte>)
    ensures var one := FastStep(Sent(s.clock, []), built + |s.pkts|, rtp);
            FastStep(s, built, rtp) == Sent(one.clock, s.pkts + one.pkts)
  {
    hide Translate, Rewrite;
  }

  lemma SetIsGood(sets: ParameterSets, nal: seq<byte>)
    requires GoodSets(sets) && nal in [sets.sps, sets.pps] && nal != []
    ensures IsParameterSet(nal)
  {
  }

  class LocalRtspServer {
    const nalQueue: MediaQueue<Item>
    const rtpQueue: MediaQueue<seq<byte>>
    const audioQueue: MediaQueue<seq<byte>>

    var clients: seq<TcpClient>
    var closing: set<nat>         // writers that report is_closing()
    var raising: set<nat>         // writers whose write() raises
    var sets: ParameterSets
    var videoSeq: u16
    var audioTs: u32
    var clock: Clock
    var videoPktCount: nat
    var videoOctetCount: nat
    var lastVideoRtpTs: u32
    var fallbackCount: nat
    var srStarted: bool
    ghost var log: seq<LogEvent>

    ghost predicate ClientsInStep()
      reads this
    {
      DistinctIds(clients) && AllInStep(log, clients)
    }

    ghost predicate Valid()
      reads this
    {
      && ClientsInStep()
      && Numbered(log) && videoSeq == Built(log) % MOD16
      && PrimesAreSets(log) && GoodSets(sets)
      && videoPktCount == PacketsSinceCall(log)
      && videoOctetCount == OctetsSinceCall(log)
      && lastVideoRtpTs == LastTimestamp(log)
      && Tracking(clock)
      && audioTs == 0
      && rtpQueue != audioQueue
    }

    constructor ()
      ensures Valid() && clients == [] && log == [] && clock == START
      ensures fresh(nalQueue) && fresh(rtpQueue) && fresh(audioQueue)
      ensures nalQueue.items == [] && rtpQueue.items == [] && audioQueue.items == []
      ensures nalQueue.maxsize == 300 && rtpQueue.maxsize == 500 && audioQueue.maxsize == 500
    {
      nalQueue := new MediaQueue<Item>(300);
      audioQueue := new MediaQueue<seq<byte>>(500);
      rtpQueue := new MediaQueue<seq<byte>>(500);
      clients, closing, raising := [], {}, {};
      sets := ParameterSets(DEFAULT_SPS, DEFAULT_PPS);
      videoSeq, audioTs, clock := 0, 0, START;
      videoPktCount, videoOctetCount, lastVideoRtpTs := 0, 0, 0;
      fallbackCount, srStarted := 0, false;
      log := [];
    }

    /** The clean-up both broadcasts end with. */
    method DropDead(dead: seq<nat>) returns (ghost gone: set<nat>)
      requires DistinctIds(clients)
      modifies this`clients, this`closing
      ensures forall d :: d in gone <==> d in dead
      ensures clients == Without(old(clients), gone) && old(closing) <= closing
    {
      gone := {};
      WithoutNone(clients);
      var k := 0;
      while k < |dead|
        invariant k <= |dead|
        invariant forall d :: d in gone <==> d in dead[..k]
        invariant clients == Without(old(clients), gone) && old(closing) <= closing
      {
        assert dead[..k + 1] == dead[..k] + [dead[k]];
        WithoutMembers(old(clients), gone);
        RemoveIsWithout(clients, dead[k]);
        WithoutTwice(old(clients), gone, {dead[k]});
        clients := RemoveFirst(clients, dead[k]);
        closing := closing + {dead[k]};
        gone := gone + {dead[k]};
        k := k + 1;
      }
      assert dead[..k] == dead;
    }

    /** `_broadcast_rtp` and `_broadcast_rtcp`: write to every client that has the channel,
        then drop and close the ones that failed. */
    method Broadcast(kind: Kind, pkt: seq<byte>)
      requires ClientsInStep()
      modifies this`clients, this`closing, this`log
      ensures ClientsInStep()
      ensures log == old(log) + [EventFor(kind, pkt)]
      ensures Setups(clients) == Survivors(Setups(old(clients)), old(closing) + raising, kind, pkt)
      ensures old(closing) <= closing
    {
      hide InStep, Survivors, Without, Encode;
      var snapshot := clients;
      var broken := closing + raising;
      var dead: seq<nat> := [];
      var i := 0;
      while i < |snapshot|
        invariant i <= |snapshot| == |clients| && closing == old(closing) && log == old(log)
        invariant forall j | 0 <= j < i :: clients[j] == Written(snapshot[j], broken, kind, pkt)
        invariant forall j | i <= j < |snapshot| :: clients[j] == snapshot[j]
        invariant forall j | 0 <= j < i :: snapshot[j].setup.id in dead <==> Fails(snapshot[j].setup, broken, kind, pkt)
        invariant forall j | i <= j < |snapshot| :: snapshot[j].setup.id !in dead
      {
        var c := snapshot[i];
        var ch := ChannelFor(c.setup, kind);
        if ch.Some? {
          if c.setup.id in broken || !Fits(Frame(ch.value, pkt)) {
            dead := dead + [c.setup.id];
          } else {
            clients := clients[i := c.(wire := c.wire + Encode(Frame(ch.value, pkt)))];
          }
        }
        i := i + 1;
      }
      ghost var written := clients;
      ghost var gone := DropDead(dead);
      log := log + [EventFor(kind, pkt)];
      BroadcastInStep(old(log), snapshot, written, gone, broken, kind, pkt);
    }

    // ---- Sending video -----------------------------------------------------------

    /** The tail both feed paths share: advance the sequence number, broadcast, count. */
    method Emit(pkt: seq<byte>)
      requires Valid()
      requires |pkt| >= 12 && SequenceOf(pkt) == videoSeq && TimestampOf(pkt) == clock.out
      modifies this`videoSeq, this`clients, this`closing, this`log
      modifies this`videoPktCount, this`videoOctetCount, this`lastVideoRtpTs
      ensures Valid() && log == old(log) + [VideoRtp(pkt)]
    {
      hide AllInStep, DistinctIds, Survivors, Setups, Numbered, PrimesAreSets, GoodSets, Built, PacketsSinceCall, OctetsSinceCall, LastTimestamp;
      CountVideo(log, pkt);
      videoSeq := (videoSeq + 1) % MOD16;
      Broadcast(VideoRtpKind, pkt);
      videoPktCount := videoPktCount + 1;
      videoOctetCount := videoOctetCount + |PayloadOf(pkt)|;
      lastVideoRtpTs := clock.out;
    }

    /** `_send_h264` */
    method SendH264(nal: seq<byte>)
      requires Valid()
      modifies this`videoSeq, this`clients, this`closing, this`log
      modifies this`videoPktCount, this`videoOctetCount, this`lastVideoRtpTs
      ensures Valid()
      ensures log == old(log) + VideoEvents(Packets(Built(old(log)), clock.out, Packetise(nal)))
    {
      hide AllInStep, DistinctIds, Numbered, PrimesAreSets, GoodSets, Built, PacketsSinceCall, OctetsSinceCall, LastTimestamp, Tracking, Build;
      ghost var built, out := Built(log), clock.out;
      ghost var pkts := Packets(built, out, Packetise(nal));
      if |nal| <= MAX_PAYLOAD {
        var pkt := Build(VIDEO_PT, videoSeq, clock.out, VIDEO_SSRC, nal, true);
        BuildFields(videoSeq, clock.out, nal, true);
        Emit(pkt);
        assert VideoEvents(pkts) == [VideoRtp(pkt)];
      } else {
        SendFragments(nal);
      }
    }

    /** The FU-A branch of `_send_h264` */
    method SendFragments(nal: seq<byte>)
      requires Valid() && |nal| > MAX_PAYLOAD
      modifies this`videoSeq, this`clients, this`closing, this`log
      modifies this`videoPktCount, this`videoOctetCount, this`lastVideoRtpTs
      ensures Valid()
      ensures log == old(log) + VideoEvents(Packets(Built(old(log)), clock.out, Packetise(nal)))
    {
      hide AllInStep, DistinctIds, Numbered, PrimesAreSets, GoodSets, Built, PacketsSinceCall, OctetsSinceCall, LastTimestamp, Tracking, Build;
      hide Packets, Packetise, FuIndicator, FuHeader;
      ghost var built, out := Built(log), clock.out;
      ghost var pkts := Packets(built, out, Packetise(nal));
      var header := nal[0];
      var body := nal[1..];
      var offset, first := 0, true;
      ghost var i := 0;
      while offset < |body|
        invariant Valid() && clock == old(clock)
        invariant i <= |pkts| && offset == Cut(|body|, i) && first == (i == 0)
        invariant log == old(log) + VideoEvents(pkts[..i])
        decreases |body| - offset
      {
        var chunk := body[offset..Min(offset + CHUNK, |body|)];
        NextFragment(built, out, nal, i, chunk);
        offset := offset + |chunk|;
        var last := offset >= |body|;
        var fragment := [FuIndicator(header), FuHeader(header, first, last)] + chunk;
        var pkt := Build(VIDEO_PT, videoSeq, clock.out, VIDEO_SSRC, fragment, last);
        BuildFields(videoSeq, clock.out, fragment, last);
        BuiltAfter(old(log), pkts[..i]);
        assert (built + i) % MOD16 == videoSeq && pkt == pkts[i];
        Emit(pkt);
        VideoEventsNext(pkts, i);
        first := false;
        i := i + 1;
      }
      FragmentsDone(built, out, nal, i);
    }

    /** One packet of `_video_rtp_passthrough_loop`. */
    method PassThrough(rtp: seq<byte>)
      requires Valid()
      modifies this`videoSeq, this`clients, this`closing, this`log, this`sets, this`clock
      modifies this`videoPktCount, this`videoOctetCount, this`lastVideoRtpTs
      ensures Valid()
      ensures var s := FastStep(Sent(old(clock), []), Built(old(log)), rtp);
              clock == s.clock && log == old(log) + VideoEvents(s.pkts)
      ensures sets == FastSets(old(sets), rtp)
    {
      hide AllInStep, DistinctIds, Numbered, PrimesAreSets, GoodSets, Built, PacketsSinceCall, OctetsSinceCall, LastTimestamp, Tracking;
      hide Rewrite, Translate;
      if |rtp| < 12 || |rtp[12..]| == 0 {
        assert old(log) + VideoEvents([]) == old(log);
        return;
      }
      var payload := rtp[12..];
      var nalType := NalType(payload[0]);
      if nalType == 7 && |payload| > 1 {
        sets := sets.(sps := payload);
      } else if nalType == 8 && |payload| > 1 {
        sets := sets.(pps := payload);
      }
      SetsStayGood(old(sets), rtp, []);
      TranslateAdvances(clock, TimestampOf(rtp));
      clock := Translate(clock, TimestampOf(rtp));
      var pkt := Rewrite(rtp, videoSeq, clock.out);
      RewriteFields(rtp, videoSeq, clock.out);
      Emit(pkt);
      assert [] + [pkt] == [pkt];
      assert VideoEvents([pkt]) == [VideoRtp(pkt)];
    }

    /** `_drain_nal_queue_fallback` */
    method DrainFallback()
      requires Valid()
      modifies this`videoSeq, this`clients, this`closing, this`log, this`sets, this`clock
      modifies this`videoPktCount, this`videoOctetCount, this`lastVideoRtpTs, nalQueue
      ensures Valid() && nalQueue.items == []
      ensures var s := Slow(old(clock), Built(old(log)), old(nalQueue.items));
              clock == s.clock && log == old(log) + VideoEvents(s.pkts)
      ensures sets == SlowSetsAll(old(sets), old(nalQueue.items))
    {
      hide AllInStep, DistinctIds, Numbered, PrimesAreSets, GoodSets, Built, PacketsSinceCall, OctetsSinceCall, LastTimestamp, Tracking;
      hide Packetise, Packets, Translate, VideoEvents, StripStartCode;
      ghost var items, built := nalQueue.items, Built(log);
      NoVideoEvents(log);
      ghost var n := 0;
      while nalQueue.items != []
        invariant Valid()
        invariant n <= |items| && nalQueue.items == items[n..]
        invariant sets == SlowSetsAll(old(sets), items[..n])
        invariant var s := Slow(old(clock), built, items[..n]);
                  clock == s.clock && log == old(log) + VideoEvents(s.pkts)
        decreases |nalQueue.items|
      {
        ghost var before := Slow(old(clock), built, items[..n]);
        var item := nalQueue.GetNowait();
        var nal := StripStartCode(item.nal);
        assert item == items[n] && items[..n + 1][..n] == items[..n];
        assert Slow(old(clock), built, items[..n + 1]) == SlowStep(before, built, item);
        assert SlowSetsAll(old(sets), items[..n + 1]) == SlowSets(SlowSetsAll(old(sets), items[..n]), nal);
        if nal != [] {
          SetsStayGood(sets, [], nal);
          sets := SlowSets(sets, nal);
          TranslateAdvances(clock, item.ts);
          clock := Translate(clock, item.ts);
          BuiltAfter(old(log), before.pkts);
          ghost var more := Packets(built + |before.pkts|, clock.out, Packetise(nal));
          SendH264(nal);
          VideoEventsAppend(before.pkts, more);
        }
        n := n + 1;
      }
      assert items[..n] == items;
    }

    /** One round of the pass-through loop: a packet if there is one, else (after 2 s) the
        third and later empty round in a row drains the NAL queue. */
    method FeedRound()
      requires Valid() && rtpQueue as object != nalQueue
      modifies this`videoSeq, this`clients, this`closing, this`log, this`sets, this`clock
      modifies this`videoPktCount, this`videoOctetCount, this`lastVideoRtpTs, this`fallbackCount, nalQueue, rtpQueue
      ensures Valid()
      ensures old(rtpQueue.items) != [] ==>
                var rtp := old(rtpQueue.items)[0];
                var s := FastStep(Sent(old(clock), []), Built(old(log)), rtp);
                && rtpQueue.items == old(rtpQueue.items)[1..] && fallbackCount == 0
                && nalQueue.items == old(nalQueue.items)
                && log == old(log) + VideoEvents(s.pkts) && clock == s.clock && sets == FastSets(old(sets), rtp)
      ensures old(rtpQueue.items) == [] ==>
                var drained := Drained(fallbackCount, old(nalQueue.items));
                var s := Slow(old(clock), Built(old(log)), drained);
                && rtpQueue.items == [] && fallbackCount == old(fallbackCount) + 1
                && nalQueue.items == old(nalQueue.items)[|drained|..]
                && log == old(log) + VideoEvents(s.pkts) && clock == s.clock && sets == SlowSetsAll(old(sets), drained)
    {
      hide Slow, SlowSetsAll, FastStep, FastSets;
      if rtpQueue.items != [] {
        var rtp := rtpQueue.GetNowait();
        fallbackCount := 0;
        PassThrough(rtp);
      } else {
        NothingDrained(clock, Built(log), sets);
        NoVideoEvents(log);
        fallbackCount := fallbackCount + 1;
        if fallbackCount >= 3 && nalQueue.items != [] {
          DrainFallback();
        }
      }
    }

    /** The loop over what is queued, and then `idle` rounds that time out with nothing queued:
        the fast route forwards the queue, the slow one drains the NAL queue once three rounds
        in a row were empty. */
    method PassthroughLoop(idle: nat)
      requires Valid() && rtpQueue as object != nalQueue
      modifies this`videoSeq, this`clients, this`closing, this`log, this`sets, this`clock
      modifies this`videoPktCount, this`videoOctetCount, this`lastVideoRtpTs, this`fallbackCount, nalQueue, rtpQueue
      ensures Valid() && rtpQueue.items == []
      ensures fallbackCount == (if old(rtpQueue.items) == [] then old(fallbackCount) else 0) + idle
      ensures var queued := old(rtpQueue.items);
              var drained := if idle == 0 then [] else Drained(fallbackCount, old(nalQueue.items));
              var fast := Fast(old(clock), Built(old(log)), queued);
              var slow := Slow(fast.clock, Built(old(log)) + |fast.pkts|, drained);
              && log == old(log) + VideoEvents(fast.pkts + slow.pkts) && clock == slow.clock
              && sets == SlowSetsAll(FastSetsAll(old(sets), queued), drained)
              && nalQueue.items == old(nalQueue.items)[|drained|..]
    {
      hide Slow, SlowSetsAll, Fast, FastSetsAll, Valid, Built, VideoEvents;
      ghost var queued, built, items := rtpQueue.items, Built(log), nalQueue.items;
      ForwardQueued();
      ghost var fast, counted := Fast(old(clock), built, queued), fallbackCount;
      BuiltAfter(old(log), fast.pkts);
      ghost var forwarded, caught, drained := log, sets, [];
      var i := 0;
      NothingDrained(clock, Built(log), sets);
      NoVideoEvents(log);
      while i < idle
        invariant i <= idle && Valid() && rtpQueue.items == [] && fallbackCount == counted + i
        invariant drained == if i == 0 then [] else Drained(fallbackCount, items)
        invariant nalQueue.items == items[|drained|..]
        invariant var slow := Slow(fast.clock, built + |fast.pkts|, drained);
                  log == forwarded + VideoEvents(slow.pkts) && clock == slow.clock
        invariant sets == SlowSetsAll(caught, drained)
      {
        ghost var before, now, kept := log, clock, sets;
        NothingDrained(now, Built(before), kept);
        NothingDrained(fast.clock, built + |fast.pkts|, caught);
        NoVideoEvents(before);
        NoVideoEvents(forwarded);
        FeedRound();
        i := i + 1;
        drained := Drained(fallbackCount, items);
      }
      VideoEventsAppend(fast.pkts, Slow(fast.clock, built + |fast.pkts|, drained).pkts);
    }

    /** The rounds that find a packet. */
    method ForwardQueued()
      requires Valid() && rtpQueue as object != nalQueue
      modifies this`videoSeq, this`clients, this`closing, this`log, this`sets, this`clock
      modifies this`videoPktCount, this`videoOctetCount, this`lastVideoRtpTs, this`fallbackCount, nalQueue, rtpQueue
      ensures Valid() && rtpQueue.items == [] && nalQueue.items == old(nalQueue.items)
      ensures fallbackCount == if old(rtpQueue.items) == [] then old(fallbackCount) else 0
      ensures var queued := old(rtpQueue.items);
              var fast := Fast(old(clock), Built(old(log)), queued);
              log == old(log) + VideoEvents(fast.pkts) && clock == fast.clock && sets == FastSetsAll(old(sets), queued)
    {
      hide Valid, Built, VideoEvents, FastStep, FastSets, Slow, SlowSetsAll, Drained;
      ghost var queued, built := rtpQueue.items, Built(log);
      ghost var i := 0;
      NoVideoEvents(log);
      while rtpQueue.items != []
        invariant i <= |queued| && rtpQueue.items == queued[i..] && Valid() && nalQueue.items == old(nalQueue.items)
        invariant fallbackCount == if i == 0 then old(fallbackCount) else 0
        invariant var fast := Fast(old(clock), built, queued[..i]);
                  log == old(log) + VideoEvents(fast.pkts) && clock == fast.clock
        invariant sets == FastSetsAll(old(sets), queued[..i])
        decreases |rtpQueue.items|
      {
        ghost var before := Fast(old(clock), built, queued[..i]);
        assert queued[..i + 1][..i] == queued[..i] && queued[i..][0] == queued[i] && queued[i..][1..] == queued[i + 1..];
        assert Fast(old(clock), built, queued[..i + 1]) == FastStep(before, built, queued[i]);
        BuiltAfter(old(log), before.pkts);
        FastStepShift(before, built, queued[i]);
        FeedRound();
        VideoEventsAppend(before.pkts, FastStep(Sent(before.clock, []), built + |before.pkts|, queued[i]).pkts);
        i := i + 1;
      }
      assert queued[..i] == queued;
    }

    // ---- Registration, priming and reports -------------------------------------------

    /** `writer.write(struct.pack(...) + pkt)` to one client; false if either raises. */
    method Write(k: nat, channel: nat, pkt: seq<byte>) returns (ok: bool)
      requires k < |clients|
      modifies this`clients
      ensures ok == (old(clients[k].setup.id) !in raising && Fits(Frame(channel, pkt)))
      ensures !ok ==> clients == old(clients)
      ensures ok ==> clients == old(clients)[k := old(clients[k]).(wire := old(clients[k]).wire + Encode(Frame(channel, pkt)))]
    {
      var c := clients[k];
      ok := c.setup.id !in raising && Fits(Frame(channel, pkt));
      if ok {
        clients := clients[k := c.(wire := c.wire + Encode(Frame(channel, pkt)))];
      }
    }

    function VideoReport(ntpSecs: nat, ntpFrac: nat): seq<byte>
      reads this
    {
      BuildSr(VIDEO_SSRC, ntpSecs, ntpFrac, lastVideoRtpTs, videoPktCount, videoOctetCount)
    }

    /** `_send_initial_sr_to_client` */
    method SendInitialSr(k: nat, ntpSecs: nat, ntpFrac: nat)
      requires Valid() && k < |clients|
      modifies this`clients, this`log
      ensures Valid() && Setups(clients) == Setups(old(clients)) && Built(log) == Built(old(log))
      ensures var c := old(clients[k].setup);
              log == old(log) + FirstReport(c, videoPktCount, VideoReport(ntpSecs, ntpFrac), c.id in raising)
    {
      hide AllInStep, DistinctIds, Encode, Tracking, BuildSr;
      hide Numbered, PrimesAreSets, GoodSets, Built, PacketsSinceCall, OctetsSinceCall, LastTimestamp;
      var c := clients[k].setup;
      if c.videoCh.Some? && videoPktCount > 0 {
        var sr := VideoReport(ntpSecs, ntpFrac);
        var ok := Write(k, c.videoCh.value + 1, sr);
        if ok {
          ghost var e := PrimeSr(c.id, sr);
          log := log + [e];
          CountQuiet(old(log), e);
          OneClientInStep(old(log), old(clients), k, e, Frame(c.videoCh.value + 1, sr));
          return;
        }
      }
      assert old(log) + [] == old(log);
    }

    /** `_prime_client_with_parameter_sets` */
    method Prime(k: nat, ntpSecs: nat, ntpFrac: nat)
      requires Valid() && k < |clients|
      modifies this`clients, this`log, this`videoSeq
      ensures Valid() && Setups(clients) == Setups(old(clients))
      ensures var c := old(clients[k].setup);
              log == old(log) + FirstReport(c, videoPktCount, VideoReport(ntpSecs, ntpFrac), c.id in raising)
                     + SetsFor(c, Built(old(log)), clock.out, sets, c.id in raising)
    {
      hide ClientsInStep, BuildSr, Tracking, PrimeEvents;
      hide Numbered, PrimesAreSets, GoodSets, Built, PacketsSinceCall, OctetsSinceCall, LastTimestamp;
      var c := clients[k].setup;
      if c.videoCh.None? {
        assert old(log) + [] + [] == old(log);
        return;
      }
      SendInitialSr(k, ntpSecs, ntpFrac);
      assert Setups(clients)[k] == c && clients[k].setup == c;
      PrimeSets(k);
    }

    /** The loop over SPS and PPS. */
    method PrimeSets(k: nat)
      requires Valid() && k < |clients| && clients[k].setup.videoCh.Some?
      modifies this`clients, this`log, this`videoSeq
      ensures Valid() && Setups(clients) == Setups(old(clients))
      ensures var c := old(clients[k].setup);
              log == old(log)
                     + PrimeEvents(c.id, c.videoCh.value, Built(old(log)), clock.out, [sets.sps, sets.pps], c.id in raising)
    {
      hide ClientsInStep, Tracking, PrimePacket, Fits;
      hide Numbered, PrimesAreSets, GoodSets, Built, PacketsSinceCall, OctetsSinceCall, LastTimestamp;
      var c := clients[k].setup;
      var nals := [sets.sps, sets.pps];
      var i := 0;
      ghost var all := PrimeEvents(c.id, c.videoCh.value, Built(log), clock.out, nals, c.id in raising);
      assert nals[0..] == nals;
      while i < |nals|
        invariant i <= |nals| && Valid() && clock == old(clock) && nals == [sets.sps, sets.pps]
        invariant Setups(clients) == Setups(old(clients))
        invariant old(log) + all
               == log + PrimeEvents(c.id, c.videoCh.value, Built(log), clock.out, nals[i..], c.id in raising)
      {
        assert nals[i..][1..] == nals[i + 1..];
        if nals[i] != [] {
          SetIsGood(sets, nals[i]);
          assert clients[k].setup == Setups(clients)[k] == Setups(old(clients))[k] == c;
          var ok := PrimeOne(k, nals[i]);
          if !ok {
            assert old(log) + all == log;
            return;
          }
        }
        i := i + 1;
      }
      assert nals[i..] == [];
      assert log + [] == log;
    }

    /** Build one parameter-set packet and try to write it. */
    method PrimeOne(k: nat, nal: seq<byte>) returns (ok: bool)
      requires Valid() && k < |clients| && clients[k].setup.videoCh.Some? && IsParameterSet(nal)
      modifies this`clients, this`log, this`videoSeq
      ensures Valid() && Setups(clients) == Setups(old(clients))
      ensures var c := old(clients[k].setup);
              var pkt := PrimePacket(Built(old(log)), clock.out, nal);
              ok == (c.id !in raising && Fits(Frame(c.videoCh.value, pkt)))
              && log == old(log) + [PrimeRtp(c.id, pkt, ok)] && Built(log) == Built(old(log)) + 1
    {
      hide AllInStep, DistinctIds, Encode, Tracking, Build, Fits;
      hide Numbered, PrimesAreSets, GoodSets, Built, PacketsSinceCall, OctetsSinceCall, LastTimestamp;
      var c := clients[k].setup;
      var pkt := Build(VIDEO_PT, videoSeq, clock.out, VIDEO_SSRC, nal, false);
      BuildFields(videoSeq, clock.out, nal, false);
      videoSeq := (videoSeq + 1) % MOD16;
      ok := Write(k, c.videoCh.value, pkt);
      ghost var e := PrimeRtp(c.id, pkt, ok);
      log := log + [e];
      CountPrime(old(log), e);
      if ok {
        OneClientInStep(old(log), old(clients), k, e, Frame(c.videoCh.value, pkt));
      } else {
        NoClientInStep(old(log), clients, e);
      }
    }

    /** PLAY answered: register, then prime. */
    method Play(setup: Setup, ntpSecs: nat, ntpFrac: nat)
      requires Valid() && forall i | 0 <= i < |clients| :: clients[i].setup.id != setup.id
      modifies this`clients, this`log, this`videoSeq
      ensures Valid() && Setups(clients) == Setups(old(clients)) + [setup]
      ensures log == old(log) + [LogEvent.Play(setup.id)]
                     + FirstReport(setup, videoPktCount, VideoReport(ntpSecs, ntpFrac), setup.id in raising)
                     + SetsFor(setup, Built(old(log)), clock.out, sets, setup.id in raising)
    {
      hide AllInStep, DistinctIds, Tracking, BuildSr, FirstReport, SetsFor;
      hide Numbered, PrimesAreSets, GoodSets, Built, PacketsSinceCall, OctetsSinceCall, LastTimestamp;
      ghost var e := LogEvent.Play(setup.id);
      clients := clients + [TcpClient(setup, [])];
      log := log + [e];
      CountQuiet(old(log), e);
      PlayInStep(old(log), old(clients), setup);
      Prime(|clients| - 1, ntpSecs, ntpFrac);
    }

    /** The connection's clean-up: `_active_clients.remove`, ignoring an absent client. */
    method Unregister(id: nat)
      requires Valid()
      modifies this`clients, this`closing
      ensures Valid() && clients == Without(old(clients), {id}) && id in closing
    {
      hide InStep, Tracking, AllInStep, DistinctIds, Numbered, PrimesAreSets, GoodSets, Built, PacketsSinceCall, OctetsSinceCall;
      WithoutMembers(clients, {id});
      WithoutInStep(log, clients, {id});
      RemoveIsWithout(clients, id);
      clients := RemoveFirst(clients, id);
      closing := closing + {id};
    }

    /** `disconnect_clients` */
    method DisconnectClients()
      requires Valid()
      modifies this`clients, this`closing
      ensures Valid() && clients == []
      ensures closing == old(closing) + set c | c in old(clients) :: c.setup.id
    {
      hide InStep, Tracking;
      closing := closing + set c | c in clients :: c.setup.id;
      clients := [];
    }

    /** One round of `_rtcp_sr_loop`: nothing before the first packet, then a video and an
        audio report to whoever is registered. */
    method SrTick(ntpSecs: nat, ntpFrac: nat)
      requires Valid()
      modifies this`clients, this`closing, this`log, this`srStarted
      ensures Valid() && srStarted == (old(srStarted) || videoPktCount > 0)
      ensures log == if !srStarted || old(clients) == [] then old(log)
                     else old(log) + [VideoSr(BuildSr(VIDEO_SSRC, ntpSecs, ntpFrac, lastVideoRtpTs, videoPktCount, videoOctetCount)),
                                      AudioSr(BuildSr(AUDIO_SSRC, ntpSecs, ntpFrac, 0, 0, 0))]
    {
      hide AllInStep, DistinctIds, Tracking, BuildSr, Survivors, Setups;
      hide Numbered, PrimesAreSets, GoodSets, Built, PacketsSinceCall, OctetsSinceCall, LastTimestamp;
      if !srStarted && videoPktCount == 0 {
        return;
      }
      srStarted := true;
      if clients != [] {
        var video := BuildSr(VIDEO_SSRC, ntpSecs, ntpFrac, lastVideoRtpTs, videoPktCount, videoOctetCount);
        CountQuiet(log, VideoSr(video));
        Broadcast(VideoRtcpKind, video);
        var audio := BuildSr(AUDIO_SSRC, ntpSecs, ntpFrac, 0, 0, 0);
        CountQuiet(log, AudioSr(audio));
        Broadcast(AudioRtcpKind, audio);
        assert [VideoSr(video)] + [AudioSr(audio)] == [VideoSr(video), AudioSr(audio)];
      }
    }

    /** `reset`: drain the queues, keep every sequence number and the timeline, zero the report
        totals, ask for a rebase and prime the clients that stayed connected. */
    method Reset(ntpSecs: nat, ntpFrac: nat)
      requires Valid()
      requires nalQueue as object != rtpQueue && nalQueue as object != audioQueue
      modifies this`clients, this`log, this`videoSeq, this`clock
      modifies this`videoPktCount, this`videoOctetCount, this`lastVideoRtpTs
      modifies nalQueue, rtpQueue, audioQueue
      ensures Valid() && Setups(clients) == Setups(old(clients))
      ensures nalQueue.items == [] && rtpQueue.items == [] && audioQueue.items == []
      ensures clock == VideoClock.Reset(old(clock), audioTs) && clock.out == old(clock.out)
      ensures videoPktCount == 0 && videoOctetCount == 0
      ensures log == old(log) + [NewCall]
                     + PrimeAllEvents(Setups(old(clients)), Built(old(log)), clock.out, sets, raising)
    {
      hide AllInStep, DistinctIds, Tracking, PrimeAllEvents;
      hide Numbered, PrimesAreSets, GoodSets, Built, PacketsSinceCall, OctetsSinceCall, LastTimestamp;
      var _ := nalQueue.Drain();
      var _ := rtpQueue.Drain();
      var _ := audioQueue.Drain();
      ResetHolds(clock);
      clock := VideoClock.Reset(clock, audioTs);
      videoPktCount, videoOctetCount := 0, 0;
      log := log + [NewCall];
      CountRestart(old(log));
      NoClientInStep(old(log), clients, NewCall);
      PrimeAll(ntpSecs, ntpFrac);
    }

    /** The loop over the registered clients. */
    method PrimeAll(ntpSecs: nat, ntpFrac: nat)
      requires Valid() && videoPktCount == 0
      modifies this`clients, this`log, this`videoSeq
      ensures Valid() && Setups(clients) == Setups(old(clients))
      ensures log == old(log) + PrimeAllEvents(Setups(old(clients)), Built(old(log)), clock.out, sets, raising)
    {
      hide ClientsInStep, Tracking, PrimeAllEvents, SetsFor, BuildSr;
      hide Numbered, PrimesAreSets, GoodSets, Built, PacketsSinceCall, OctetsSinceCall, LastTimestamp;
      ghost var ss := Setups(clients);
      ghost var all := PrimeAllEvents(ss, Built(log), clock.out, sets, raising);
      var k := 0;
      assert ss[0..] == ss;
      while k < |clients|
        invariant Valid() && k <= |clients| && Setups(clients) == ss
        invariant old(log) + all == log + PrimeAllEvents(ss[k..], Built(log), clock.out, sets, raising)
      {
        assert clients[k].setup == ss[k];
        PrimeAllStep(log, ss, k, clock.out, sets, raising);
        assert log + [] == log;
        Prime(k, ntpSecs, ntpFrac);
        k := k + 1;
      }
      assert ss[k..] == [];
      PrimeNobody(log, clock.out, sets, raising);
    }
  }

  /** What any registered client has read since PLAY, in any reachable server state: its bytes
      are whole interleaved frames; its RTCP channel holds its Sender Reports; its video channel
      holds its priming packets and the broadcasts since PLAY, in order, numbered by a strictly
      increasing count of all video packets built, modulo 2^16 - given channel pairs that do
      not collide. */
  lemma ClientReadsItsShare(server: LocalRtspServer, k: nat)
    requires server.Valid() && k < |server.clients|
    ensures var TcpClient(c, wire) := server.clients[k];
            && Parse(wire) == Some(Transcript(server.log, c))
            && (c.videoCh.Some? && !(c.audioCh.Some? && c.audioCh.value + 1 == c.videoCh.value) ==>
                  OnChannel(Parse(wire).value, c.videoCh.value) == VideoShare(server.log, c))
            && (c.videoCh.Some? && c.audioCh != c.videoCh ==>
                  OnChannel(Parse(wire).value, c.videoCh.value + 1) == ReportShare(server.log, c))
    ensures var c := server.clients[k].setup;
            var ns, pkts := Numbers(server.log, c), VideoShare(server.log, c);
            && |ns| == |pkts| && Increasing(ns)
            && (forall i | 0 <= i < |ns| :: |pkts[i]| >= 12 && SequenceOf(pkts[i]) == ns[i] % MOD16)
  {
    hide Transcript, VideoShare, ReportShare, Numbers, OnChannel, Parse, EncodeAll;
    var c := server.clients[k].setup;
    assert InStep(server.log, server.clients[k]);
    ParseEncoded(Transcript(server.log, c));
    if c.videoCh.Some? {
      VideoChannel(server.log, c);
      if c.audioCh != c.videoCh {
        ReportChannel(server.log, c);
      }
    }
    SequenceNumbersIncrease(server.log, c);
  }
}
