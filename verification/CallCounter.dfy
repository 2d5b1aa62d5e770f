/** The CTPP message counter of a video call: how each message's counter is chosen by the
    start sequence, the renewals, and the tasks that share one channel under a lock. */
module CallCounter {
  import opened Bytes

  const BYTE4: nat := 0x1_0000
  const BYTE5: nat := 0x100_0000
  const BOTH: nat := 0x101_0000

  /** The two bytes the device reads as the session id. */
  function SessionId(counter: nat): nat {
    counter % 0x1_0000
  }

  /** `(init_ts + 1) & 0xFFFFFFFF` */
  function CallTs(initTs: u32): u32 {
    (initTs + 1) % MOD32
  }

  /** Timestamp of the ACK pair after CTPP init. */
  function InitAckTs(initTs: u32): u32 {
    (initTs + 0x100_0000) % MOD32
  }

  /** Call and init phase never share a session id. */
  lemma CallIdDiffersFromInit(initTs: u32)
    ensures SessionId(CallTs(initTs)) == (SessionId(initTs) + 1) % 0x1_0000
    ensures SessionId(InitAckTs(initTs)) == SessionId(initTs)
    ensures SessionId(CallTs(initTs)) != SessionId(initTs)
  {
  }

  /** A renewal changes the session id exactly when the two init timestamps differ modulo 2^16. */
  lemma RenewalChangesIdIff(oldInit: u32, newInit: u32)
    ensures SessionId(CallTs(newInit)) != SessionId(CallTs(oldInit)) <==> SessionId(newInit) != SessionId(oldInit)
  {
    CallIdDiffersFromInit(oldInit);
    CallIdDiffersFromInit(newInit);
  }

  // ---- Device replies -----------------------------------------------------------

  /** None is a timeout. */
  type Reply = Option<seq<byte>>

  datatype Reaction = Stop | Ignore | Ack(step: nat, accepted: bool)

  function MessageType(resp: seq<byte>): u16
    requires |resp| >= 2
  {
    AtLe16(resp, 0)
  }

  function ActionOf(resp: seq<byte>): u16 {
    if |resp| >= 8 then AtBe16(resp, 6) else 0
  }

  /** `_run_codec_exchange`, one reply. */
  function CodecReaction(reply: Reply): Reaction {
    if reply.None? || |reply.value| < 2 then Stop
    else if MessageType(reply.value) != 0x1840 then Ignore
    else if ActionOf(reply.value) == 0x0008 then Ack(BOTH, false)
    else if ActionOf(reply.value) == 0x0002 then Ack(BYTE5, true)
    else Ack(BYTE4, false)
  }

  /** `_ack_device_rtpc_link`, one reply. */
  function LinkReaction(reply: Reply): Reaction {
    if reply.None? || |reply.value| < 2 then Stop
    else if (MessageType(reply.value) == 0x1840 || MessageType(reply.value) == 0x1860) && ActionOf(reply.value) == 0x000A
    then Ack(BYTE5, true)
    else Ignore
  }

  /** The i-th reply; nothing more comes after the list. */
  function ReplyAt(replies: seq<Reply>, i: nat): Reply {
    if i < |replies| then replies[i] else None
  }

  /** Counters of the ACKs a loop of at most `tries` rounds sends, from reply i on. */
  function Acks(react: Reply -> Reaction, counter: nat, replies: seq<Reply>, i: nat, tries: nat): seq<nat>
    decreases tries
  {
    if tries == 0 then []
    else
      match react(ReplyAt(replies, i))
      case Stop => []
      case Ignore => Acks(react, counter, replies, i + 1, tries - 1)
      case Ack(step, accepted) =>
        [counter + step] + (if accepted then [] else Acks(react, counter + step, replies, i + 1, tries - 1))
  }

  function LastOr(counters: seq<nat>, counter: nat): nat {
    if counters == [] then counter else counters[|counters| - 1]
  }

  predicate SameId(counters: seq<nat>, id: nat) {
    forall i | 0 <= i < |counters| :: SessionId(counters[i]) == id
  }

  predicate Between(counters: seq<nat>, lo: nat, hi: nat) {
    forall i | 0 <= i < |counters| :: lo <= counters[i] <= hi
  }

  ghost predicate StepsAre(react: Reply -> Reaction, bound: nat) {
    forall r :: react(r).Ack? ==> react(r).step % 0x1_0000 == 0 && 0 < react(r).step <= bound
  }

  predicate Increasing(counters: seq<nat>) {
    forall a, b | 0 <= a < b < |counters| :: counters[a] < counters[b]
  }

  /** The ACK counters a loop that starts from `counter` may send. */
  predicate Good(acks: seq<nat>, counter: nat, reach: nat) {
    Increasing(acks) && SameId(acks, SessionId(counter)) && Between(acks, counter + 1, counter + reach)
  }

  lemma GoodMonotone(acks: seq<nat>, counter: nat, reach: nat, further: nat)
    requires Good(acks, counter, reach) && reach <= further
    ensures Good(acks, counter, further)
  {
  }

  lemma GoodPrepend(acks: seq<nat>, counter: nat, step: nat, bound: nat, reach: nat)
    requires step % 0x1_0000 == 0 && 0 < step <= bound
    requires Good(acks, counter + step, reach)
    ensures Good([counter + step] + acks, counter, bound + reach)
  {
    assert SessionId(counter + step) == SessionId(counter);
    hide SessionId;
  }

  /** Whatever the device replies, the ACK counters keep the session id, increase, and move by
      at most `bound` a round. */
  lemma {:induction false} AcksBounded(react: Reply -> Reaction, counter: nat, replies: seq<Reply>, i: nat, tries: nat, bound: nat)
    requires StepsAre(react, bound)
    ensures |Acks(react, counter, replies, i, tries)| <= tries
    ensures Good(Acks(react, counter, replies, i, tries), counter, tries * bound)
    decreases tries
  {
    hide Good, StepsAre, Acks;
    if tries == 0 {
      AcksNone(react, counter, replies, i);
      NoneGood(counter, 0);
    } else {
      var r := react(ReplyAt(replies, i));
      var rest := (tries - 1) * bound;
      assert tries * bound == bound + rest;
      var next := if r.Ack? then counter + r.step else counter;
      AcksBounded(react, next, replies, i + 1, tries - 1, bound);
      AcksRound(react, counter, replies, i, tries, bound, rest);
    }
  }

  lemma AcksNone(react: Reply -> Reaction, counter: nat, replies: seq<Reply>, i: nat)
    ensures Acks(react, counter, replies, i, 0) == []
  {
  }

  /** One round in front of the others. */
  lemma AcksRound(react: Reply -> Reaction, counter: nat, replies: seq<Reply>, i: nat, tries: nat, bound: nat, rest: nat)
    requires StepsAre(react, bound) && tries > 0
    requires var r := react(ReplyAt(replies, i));
             var next := if r.Ack? then counter + r.step else counter;
             var tail := Acks(react, next, replies, i + 1, tries - 1);
             |tail| <= tries - 1 && Good(tail, next, rest)
    ensures |Acks(react, counter, replies, i, tries)| <= tries
    ensures Good(Acks(react, counter, replies, i, tries), counter, bound + rest)
  {
    hide Good;
    match react(ReplyAt(replies, i))
    case Stop => NoneGood(counter, bound + rest);
    case Ignore => GoodMonotone(Acks(react, counter, replies, i + 1, tries - 1), counter, rest, bound + rest);
    case Ack(step, accepted) =>
      NoneGood(counter + step, rest);
      GoodPrepend(if accepted then [] else Acks(react, counter + step, replies, i + 1, tries - 1), counter, step, bound, rest);
  }

  lemma NoneGood(counter: nat, reach: nat)
    ensures Good([], counter, reach)
  {
  }

  /** An accepting reaction ends the loop: at most one ACK. */
  lemma {:induction false} LinkAckedOnce(counter: nat, replies: seq<Reply>, i: nat, tries: nat)
    ensures var acks := Acks(LinkReaction, counter, replies, i, tries);
            acks == [] || acks == [counter + BYTE5]
    decreases tries
  {
    if tries > 0 && LinkReaction(ReplyAt(replies, i)).Ignore? {
      LinkAckedOnce(counter, replies, i + 1, tries - 1);
    }
  }

  // ---- The call sequence ------------------------------------------------------------

  datatype Kind =
    | CtppInit | InitAck | InitConfirm
    | CallInit | CodecAck | ExchangeAck | RtpcLink | VideoConfig | LinkAck | HangupZero
    | CallEndAck | RenewalPeer
    | KeepaliveAck | AnswerPeer | DoorOpen

  datatype Msg = Msg(kind: Kind, counter: nat)

  function Msgs(kind: Kind, counters: seq<nat>): seq<Msg> {
    seq(|counters|, i requires 0 <= i < |counters| => Msg(kind, counters[i]))
  }

  function ExchangeAcks(callTs: nat, codec: seq<Reply>): seq<nat> {
    Acks(CodecReaction, callTs + BYTE4, codec, 0, 10)
  }

  function AfterExchange(callTs: nat, codec: seq<Reply>): nat {
    LastOr(ExchangeAcks(callTs, codec), callTs + BYTE4)
  }

  function LinkAcks(callTs: nat, codec: seq<Reply>, link: seq<Reply>): seq<nat> {
    Acks(LinkReaction, AfterExchange(callTs, codec) + BYTE4, link, 0, 5)
  }

  /** Counter of the message that ends the sequence both `start` and renewals run. */
  function SetupEnd(callTs: nat, codec: seq<Reply>, link: seq<Reply>): nat {
    LastOr(LinkAcks(callTs, codec, link), AfterExchange(callTs, codec) + BYTE4) + BYTE4
  }

  /** Call init through video config. The RTPC link repeats the last counter. */
  function OfferMsgs(callTs: nat, codec: seq<Reply>): seq<Msg> {
    [Msg(CallInit, callTs), Msg(CodecAck, callTs + BYTE4)]
    + (Msgs(ExchangeAck, ExchangeAcks(callTs, codec))
       + [Msg(RtpcLink, AfterExchange(callTs, codec)), Msg(VideoConfig, AfterExchange(callTs, codec) + BYTE4)])
  }

  /** The ACKs of the device's RTPC link and HANGUP/ZERO. */
  function AcceptMsgs(callTs: nat, codec: seq<Reply>, link: seq<Reply>): seq<Msg> {
    Msgs(LinkAck, LinkAcks(callTs, codec, link)) + [Msg(HangupZero, SetupEnd(callTs, codec, link))]
  }

  /** The sequence both `start` and renewals send. */
  function SetupMsgs(callTs: nat, codec: seq<Reply>, link: seq<Reply>): seq<Msg> {
    OfferMsgs(callTs, codec) + AcceptMsgs(callTs, codec, link)
  }

  function InitMsgs(initTs: u32): seq<Msg> {
    [Msg(CtppInit, initTs), Msg(InitAck, InitAckTs(initTs)), Msg(InitConfirm, InitAckTs(initTs))]
  }

  lemma ReactionSteps()
    ensures StepsAre(CodecReaction, BOTH) && StepsAre(LinkReaction, BYTE5)
  {
  }

  /** The last counter of a good run is a good place to go on from. */
  lemma LastIsGood(acks: seq<nat>, counter: nat, reach: nat)
    requires Good(acks, counter, reach)
    ensures counter <= LastOr(acks, counter) <= counter + reach
    ensures SessionId(LastOr(acks, counter)) == SessionId(counter)
    ensures Between(acks, counter, LastOr(acks, counter))
  {
  }

  lemma ExchangeBounded(callTs: nat, codec: seq<Reply>)
    ensures Between(ExchangeAcks(callTs, codec), callTs, AfterExchange(callTs, codec))
    ensures SameId(ExchangeAcks(callTs, codec), SessionId(callTs))
    ensures callTs + BYTE4 <= AfterExchange(callTs, codec) <= callTs + BYTE4 + 10 * BOTH
    ensures SessionId(AfterExchange(callTs, codec)) == SessionId(callTs)
  {
    hide Acks, CodecReaction;
    assert StepsAre(CodecReaction, BOTH) by { ReactionSteps(); }
    AcksBounded(CodecReaction, callTs + BYTE4, codec, 0, 10, BOTH);
    LastIsGood(ExchangeAcks(callTs, codec), callTs + BYTE4, 10 * BOTH);
    assert SessionId(callTs + BYTE4) == SessionId(callTs);
  }

  lemma LinkBounded(callTs: nat, codec: seq<Reply>, link: seq<Reply>)
    ensures var c := AfterExchange(callTs, codec);
            && Between(LinkAcks(callTs, codec, link), c, SetupEnd(callTs, codec, link))
            && SameId(LinkAcks(callTs, codec, link), SessionId(c))
            && c + 2 * BYTE4 <= SetupEnd(callTs, codec, link) <= c + 2 * BYTE4 + BYTE5
            && SessionId(SetupEnd(callTs, codec, link)) == SessionId(c)
  {
    hide Acks, LinkReaction, AfterExchange;
    var c := AfterExchange(callTs, codec);
    LinkAckedOnce(c + BYTE4, link, 0, 5);
    assert SessionId(c + BYTE4) == SessionId(c);
    assert SessionId(c + 2 * BYTE4) == SessionId(c);
    assert SessionId(c + BYTE4 + BYTE5) == SessionId(c);
    assert SessionId(c + 2 * BYTE4 + BYTE5) == SessionId(c);
  }

  /** Every message carries the session id and a counter within the bounds. */
  predicate Within(msgs: seq<Msg>, id: nat, lo: nat, hi: nat) {
    forall i | 0 <= i < |msgs| :: SessionId(msgs[i].counter) == id && lo <= msgs[i].counter <= hi
  }

  lemma MsgsWithin(kind: Kind, counters: seq<nat>, id: nat, lo: nat, hi: nat)
    requires SameId(counters, id) && Between(counters, lo, hi)
    ensures Within(Msgs(kind, counters), id, lo, hi)
  {
  }

  lemma WithinConcat(a: seq<Msg>, b: seq<Msg>, id: nat, lo: nat, hi: nat)
    requires Within(a, id, lo, hi) && Within(b, id, lo, hi)
    ensures Within(a + b, id, lo, hi)
  {
  }

  /** Every setup message carries the call's session id and none is above the call timestamp
      plus 0x0B0D0000, for every sequence of device replies. */
  lemma SetupBounded(callTs: nat, codec: seq<Reply>, link: seq<Reply>)
    ensures Within(SetupMsgs(callTs, codec, link), SessionId(callTs), callTs, SetupEnd(callTs, codec, link))
    ensures callTs < SetupEnd(callTs, codec, link) <= callTs + 0x0B0D_0000
    ensures SessionId(SetupEnd(callTs, codec, link)) == SessionId(callTs)
  {
    hide AfterExchange, ExchangeAcks, LinkAcks, SetupEnd, Msgs;
    ExchangeBounded(callTs, codec);
    LinkBounded(callTs, codec, link);
    var id, c, e := SessionId(callTs), AfterExchange(callTs, codec), SetupEnd(callTs, codec, link);
    assert SessionId(callTs + BYTE4) == id && SessionId(c + BYTE4) == id;
    hide SessionId;
    var head := [Msg(CallInit, callTs), Msg(CodecAck, callTs + BYTE4)];
    var x := Msgs(ExchangeAck, ExchangeAcks(callTs, codec));
    var mid := [Msg(RtpcLink, c), Msg(VideoConfig, c + BYTE4)];
    var l := Msgs(LinkAck, LinkAcks(callTs, codec, link));
    MsgsWithin(ExchangeAck, ExchangeAcks(callTs, codec), id, callTs, e);
    MsgsWithin(LinkAck, LinkAcks(callTs, codec, link), id, callTs, e);
    WithinConcat(x, mid, id, callTs, e);
    WithinConcat(head, x + mid, id, callTs, e);
    WithinConcat(l, [Msg(HangupZero, e)], id, callTs, e);
    WithinConcat(head + (x + mid), l + [Msg(HangupZero, e)], id, callTs, e);
  }

  /** The bound is reached: ten codec negotiations and an RTPC link. */
  lemma SetupBoundReached(callTs: nat)
    ensures exists codec: seq<Reply>, link: seq<Reply> :: SetupEnd(callTs, codec, link) == callTs + 0x0B0D_0000
  {
    hide Acks, CodecReaction, LinkReaction;
    var negotiation: seq<byte> := [0x40, 0x18, 0, 0, 0, 0, 0x00, 0x08];
    var rtpcLink: seq<byte> := [0x40, 0x18, 0, 0, 0, 0, 0x00, 0x0A];
    var codec := seq(10, _ => Some(negotiation));
    var link := [Some(rtpcLink)];
    ExtremeReplies(negotiation, rtpcLink);
    AllNegotiations(callTs + BYTE4, codec, negotiation, 0, 10);
    var c := AfterExchange(callTs, codec);
    LinkAcked(c + BYTE4, rtpcLink);
    assert SetupEnd(callTs, codec, link) == callTs + 0x0B0D_0000;
  }

  lemma ExtremeReplies(negotiation: seq<byte>, rtpcLink: seq<byte>)
    requires negotiation == [0x40, 0x18, 0, 0, 0, 0, 0x00, 0x08] && rtpcLink == [0x40, 0x18, 0, 0, 0, 0, 0x00, 0x0A]
    ensures CodecReaction(Some(negotiation)) == Ack(BOTH, false) && LinkReaction(Some(rtpcLink)) == Ack(BYTE5, true)
  {
  }

  lemma LinkAcked(counter: nat, rtpcLink: seq<byte>)
    requires LinkReaction(Some(rtpcLink)) == Ack(BYTE5, true)
    ensures Acks(LinkReaction, counter, [Some(rtpcLink)], 0, 5) == [counter + BYTE5]
  {
    hide LinkReaction;
    assert ReplyAt([Some(rtpcLink)], 0) == Some(rtpcLink);
  }

  lemma {:induction false} AllNegotiations(counter: nat, codec: seq<Reply>, negotiation: seq<byte>, i: nat, tries: nat)
    requires CodecReaction(Some(negotiation)) == Ack(BOTH, false)
    requires |codec| == i + tries && forall k | i <= k < |codec| :: codec[k] == Some(negotiation)
    ensures LastOr(Acks(CodecReaction, counter, codec, i, tries), counter) == counter + tries * BOTH
    decreases tries
  {
    hide CodecReaction;
    if tries > 0 {
      assert ReplyAt(codec, i) == Some(negotiation);
      AllNegotiations(counter + BOTH, codec, negotiation, i + 1, tries - 1);
      var tail := Acks(CodecReaction, counter + BOTH, codec, i + 1, tries - 1);
      assert Acks(CodecReaction, counter, codec, i, tries) == [counter + BOTH] + tail;
      hide Acks;
      assert LastOr([counter + BOTH] + tail, counter) == LastOr(tail, counter + BOTH);
    }
  }

  // ---- The live call: one monitor, any number of door opens and answers ---------------

  /** `self._call_counter` and the monitor loop's own copy. */
  datatype Live = Live(monitor: nat, shared: nat)

  /** A critical section on the channel lock. */
  datatype Act = Keepalive | Bump(kind: Kind)

  function Do(s: Live, a: Act): Live {
    match a
    case Keepalive => Live(s.monitor + BYTE4, s.monitor + BYTE4)
    case Bump(_) => Live(s.monitor, s.shared + BYTE4)
  }

  /** The counter the section's message carries. */
  function CounterOf(s: Live, a: Act): nat {
    Do(s, a).shared
  }

  function RunLive(s: Live, acts: seq<Act>): Live {
    if acts == [] then s else Do(RunLive(s, acts[..|acts| - 1]), acts[|acts| - 1])
  }

  function KindOf(a: Act): Kind {
    if a.Keepalive? then KeepaliveAck else a.kind
  }

  function LiveMsgs(s: Live, acts: seq<Act>): seq<Msg> {
    if acts == [] then []
    else
      var before, last := acts[..|acts| - 1], acts[|acts| - 1];
      LiveMsgs(s, before) + [Msg(KindOf(last), CounterOf(RunLive(s, before), last))]
  }

  function Keepalives(acts: seq<Act>): nat {
    if acts == [] then 0 else Keepalives(acts[..|acts| - 1]) + (if acts[|acts| - 1].Keepalive? then 1 else 0)
  }

  lemma {:induction false} CountersAt(s: Live, acts: seq<Act>, k: nat)
    requires k < |acts|
    ensures |LiveMsgs(s, acts)| == |acts|
    ensures LiveMsgs(s, acts)[k] == Msg(KindOf(acts[k]), CounterOf(RunLive(s, acts[..k]), acts[k]))
    decreases |acts|
  {
    var n := |acts| - 1;
    if n > 0 {
      CountersAt(s, acts[..n], if k < n then k else 0);
    }
    if k < n {
      assert acts[..n][..k] == acts[..k];
    }
  }

  /** Whatever door opens and answers come between, the monitor's k-th ACK carries the base
      plus k steps, and the shared counter is ahead of it by whole steps. */
  lemma {:induction false} MonitorPacing(base: nat, acts: seq<Act>)
    ensures var s := RunLive(Live(base, base), acts);
            && s.monitor == base + Keepalives(acts) * BYTE4
            && s.monitor <= s.shared <= base + |acts| * BYTE4
            && SessionId(s.monitor) == SessionId(base) == SessionId(s.shared)
    decreases |acts|
  {
    if acts != [] {
      MonitorPacing(base, acts[..|acts| - 1]);
    }
  }

  /** All live messages carry the session id and stay within one step each of the base. */
  lemma LiveMessages(base: nat, acts: seq<Act>, k: nat)
    requires k < |acts|
    ensures |LiveMsgs(Live(base, base), acts)| == |acts|
    ensures var c := LiveMsgs(Live(base, base), acts)[k].counter;
            SessionId(c) == SessionId(base) && base < c <= base + (k + 1) * BYTE4
    ensures acts[k].Keepalive? ==>
              LiveMsgs(Live(base, base), acts)[k].counter == base + Keepalives(acts[..k + 1]) * BYTE4
  {
    CountersAt(Live(base, base), acts, k);
    MonitorPacing(base, acts[..k]);
    MonitorPacing(base, acts[..k + 1]);
    assert acts[..k + 1][..k] == acts[..k];
  }

  /** No keepalive ACK after a door open or answer. */
  predicate MonitorFirst(acts: seq<Act>) {
    forall i, j | 0 <= i < j < |acts| :: acts[i].Bump? ==> acts[j].Bump?
  }

  lemma {:induction false} OrderedCounters(base: nat, acts: seq<Act>)
    requires MonitorFirst(acts)
    ensures var s := RunLive(Live(base, base), acts);
            && s.shared == base + |acts| * BYTE4
            && ((forall i | 0 <= i < |acts| :: acts[i].Keepalive?) ==> s.monitor == s.shared)
    ensures |LiveMsgs(Live(base, base), acts)| == |acts|
    ensures forall k | 0 <= k < |acts| :: LiveMsgs(Live(base, base), acts)[k].counter == base + (k + 1) * BYTE4
    decreases |acts|
  {
    if acts != [] {
      var n := |acts| - 1;
      OrderedCounters(base, acts[..n]);
      if acts[n].Keepalive? {
        assert forall i | 0 <= i < n :: acts[..n][i].Keepalive?;
      }
    }
  }

  ghost predicate AllDistinct(msgs: seq<Msg>) {
    forall i, j | 0 <= i < j < |msgs| :: msgs[i].counter != msgs[j].counter
  }

  /** The first keepalive after a door open or answer repeats that message's counter. */
  lemma FirstCollision(base: nat, acts: seq<Act>, j: nat, a: nat)
    requires a < j < |acts| && acts[j].Keepalive? && MonitorFirst(acts[..j])
    requires acts[a].Bump? && forall i | 0 <= i < a :: acts[i].Keepalive?
    ensures |LiveMsgs(Live(base, base), acts)| == |acts|
    ensures LiveMsgs(Live(base, base), acts)[a].counter == LiveMsgs(Live(base, base), acts)[j].counter
  {
    var s := Live(base, base);
    CountersAt(s, acts, a);
    CountersAt(s, acts, j);
    assert MonitorFirst(acts[..a]);
    OrderedCounters(base, acts[..a]);
    MonitorPacing(base, acts[..j]);
    CountKeepalives(acts, a, j);
    MonitorPacing(base, acts[..a]);
  }

  lemma {:induction false} CountKeepalives(acts: seq<Act>, a: nat, j: nat)
    requires a < j <= |acts| && acts[a].Bump? && MonitorFirst(acts[..j])
    ensures Keepalives(acts[..j]) == Keepalives(acts[..a])
    decreases j
  {
    assert acts[..j][..j - 1] == acts[..j - 1];
    assert acts[..j][a].Bump? && acts[..j][j - 1].Bump?;
    if a < j - 1 {
      assert MonitorFirst(acts[..j - 1]);
      CountKeepalives(acts, a, j - 1);
    }
  }

  /** The counters of a live call are pairwise distinct if and only if no keepalive ACK follows
      a door open or an answer: the monitor's own copy does not see their steps. */
  lemma CountersDistinctIff(base: nat, acts: seq<Act>)
    ensures AllDistinct(LiveMsgs(Live(base, base), acts)) <==> MonitorFirst(acts)
  {
    if MonitorFirst(acts) {
      OrderedCounters(base, acts);
    } else {
      var j, a := FindCollision(acts);
      FirstCollision(base, acts, j, a);
    }
  }

  lemma {:induction false} FindCollision(acts: seq<Act>) returns (j: nat, a: nat)
    requires !MonitorFirst(acts)
    ensures a < j < |acts| && acts[j].Keepalive? && MonitorFirst(acts[..j])
    ensures acts[a].Bump? && forall i | 0 <= i < a :: acts[i].Keepalive?
    decreases |acts|
  {
    var n := |acts| - 1;
    if !MonitorFirst(acts[..n]) {
      j, a := FindCollision(acts[..n]);
      assert acts[..n][..j] == acts[..j];
      assert forall i | 0 <= i < a :: acts[..n][i].Keepalive?;
    } else {
      var x, y :| 0 <= x < y < |acts| && acts[x].Bump? && !acts[y].Bump?;
      if y < n {
        StillUnordered(acts[..n], x, y);
      }
      j := n;
      a := FirstBump(acts, x);
    }
  }

  lemma StillUnordered(acts: seq<Act>, x: nat, y: nat)
    requires x < y < |acts| && acts[x].Bump? && !acts[y].Bump?
    ensures !MonitorFirst(acts)
  {
  }

  lemma {:induction false} FirstBump(acts: seq<Act>, x: nat) returns (a: nat)
    requires x < |acts| && acts[x].Bump?
    ensures a <= x && acts[a].Bump? && forall i | 0 <= i < a :: acts[i].Keepalive?
    decreases x
  {
    if y :| 0 <= y < x && acts[y].Bump? {
      a := FirstBump(acts, y);
    } else {
      a := x;
    }
  }

  /** 32 bits: with a call timestamp below 2^31, 29939 steps after a start (29938 after a
      renewal) keep every counter packable, and the ACK that opens the next renewal fits too
      when 256 of those steps are left. */
  lemma CounterFits(callTs: nat, base: nat, peer: nat, acts: seq<Act>)
    requires callTs < 0x8000_0000 && peer <= 1 && base <= callTs + 0x0B0D_0000 + peer * BYTE4
    requires |acts| + peer <= 29939
    ensures RunLive(Live(base, base), acts).shared < MOD32
    ensures |acts| + peer + 256 <= 29939 ==> RunLive(Live(base, base), acts).monitor + BYTE5 < MOD32
  {
    MonitorPacing(base, acts);
  }

  /** 29939 is exact: one step more overflows for some call timestamp. */
  lemma StepsThatFit(n: nat)
    ensures (forall callTs: nat | callTs < 0x8000_0000 :: Top(callTs, n) < MOD32) <==> n <= 29939
  {
    assert Top(0x7FFF_FFFF, n) < MOD32 ==> n <= 29939;
  }

  function Top(callTs: nat, n: nat): nat {
    callTs + 0x0B0D_0000 + n * BYTE4
  }

  // ---- Whole sessions: a start and any number of renewals ------------------------------

  /** One lease: from its call init to the CALL_END that ends it. */
  datatype Call = Call(initTs: u32, renewal: bool, codec: seq<Reply>, link: seq<Reply>, acts: seq<Act>)

  /** The counter the live part starts from. */
  function Base(c: Call): nat {
    SetupEnd(CallTs(c.initTs), c.codec, c.link) + (if c.renewal then BYTE4 else 0)
  }

  function Opening(c: Call): seq<Msg> {
    SetupMsgs(CallTs(c.initTs), c.codec, c.link) + (if c.renewal then [Msg(RenewalPeer, Base(c))] else [])
  }

  function LiveOf(c: Call): Live {
    RunLive(Live(Base(c), Base(c)), c.acts)
  }

  function CallMsgs(c: Call): seq<Msg> {
    Opening(c) + LiveMsgs(Live(Base(c), Base(c)), c.acts)
  }

  /** What precedes the n-th call init. A renewal first ACKs CALL_END from the monitor's own
      copy of the counter. */
  function Lead(reuse: bool, calls: seq<Call>, n: nat): seq<Msg>
    requires n < |calls|
  {
    if n == 0 then (if reuse then [] else InitMsgs(calls[0].initTs))
    else [Msg(CallEndAck, LiveOf(calls[n - 1]).monitor + BYTE5)] + InitMsgs(calls[n].initTs)
  }

  /** Everything the session sends on CTPP. */
  function SessionMsgs(reuse: bool, calls: seq<Call>): seq<Msg> {
    if calls == [] then []
    else
      var n := |calls| - 1;
      SessionMsgs(reuse, calls[..n]) + Lead(reuse, calls, n) + CallMsgs(calls[n])
  }

  /** Every message of one call, renewal or not, carries the session id of its call timestamp,
      whatever the device replies and however the sections interleave. */
  lemma CallCarriesOneId(c: Call)
    ensures Within(CallMsgs(c), SessionId(CallTs(c.initTs)), CallTs(c.initTs), Base(c) + |c.acts| * BYTE4)
    ensures SessionId(Base(c)) == SessionId(CallTs(c.initTs)) == SessionId(LiveOf(c).monitor)
    ensures Base(c) <= CallTs(c.initTs) + 0x0B0D_0000 + (if c.renewal then BYTE4 else 0)
  {
    var callTs, base := CallTs(c.initTs), Base(c);
    hide CallTs, SetupEnd, SetupMsgs, LiveMsgs, RunLive;
    SetupBounded(callTs, c.codec, c.link);
    assert SessionId(base) == SessionId(callTs);
    hide SessionId;
    MonitorPacing(base, c.acts);
    var hi := base + |c.acts| * BYTE4;
    assert Within(SetupMsgs(callTs, c.codec, c.link), SessionId(callTs), callTs, hi);
    WithinConcat(SetupMsgs(callTs, c.codec, c.link), Opening(c)[|SetupMsgs(callTs, c.codec, c.link)|..], SessionId(callTs), callTs, hi);
    assert Opening(c) == SetupMsgs(callTs, c.codec, c.link) + Opening(c)[|SetupMsgs(callTs, c.codec, c.link)|..];
    LiveWithin(base, c.acts);
    LiveLength(Live(base, base), c.acts);
    assert Within(LiveMsgs(Live(base, base), c.acts), SessionId(callTs), callTs, hi);
    WithinConcat(Opening(c), LiveMsgs(Live(base, base), c.acts), SessionId(callTs), callTs, hi);
  }

  lemma LiveLength(s: Live, acts: seq<Act>)
    ensures |LiveMsgs(s, acts)| == |acts|
  {
    if acts != [] {
      CountersAt(s, acts, 0);
    }
  }

  lemma LiveWithin(base: nat, acts: seq<Act>)
    ensures Within(LiveMsgs(Live(base, base), acts), SessionId(base), base, base + |acts| * BYTE4)
  {
    LiveLength(Live(base, base), acts);
    hide LiveMsgs, SessionId;
    forall k | 0 <= k < |LiveMsgs(Live(base, base), acts)|
      ensures SessionId(LiveMsgs(Live(base, base), acts)[k].counter) == SessionId(base)
      ensures base <= LiveMsgs(Live(base, base), acts)[k].counter <= base + |acts| * BYTE4
    {
      LiveMessages(base, acts, k);
    }
  }

  // ---- 32 bits over whole sessions -----------------------------------------------------

  predicate Packable(msgs: seq<Msg>) {
    forall i | 0 <= i < |msgs| :: msgs[i].counter < MOD32
  }

  /** The call's timestamp and number of sections leave room for its counters, and for the ACK
      that opens a next renewal. */
  predicate InBudget(c: Call, renewed: bool) {
    && CallTs(c.initTs) < 0x8000_0000
    && |c.acts| + (if c.renewal then 1 else 0) + (if renewed then 256 else 0) <= 29939
  }

  lemma CallFits(c: Call, renewed: bool)
    requires InBudget(c, renewed)
    ensures Packable(CallMsgs(c))
    ensures renewed ==> LiveOf(c).monitor + BYTE5 < MOD32
  {
    hide SetupEnd, CallTs, RunLive, SessionId, CallMsgs;
    CallCarriesOneId(c);
    MonitorPacing(Base(c), c.acts);
  }

  lemma PackableConcat(a: seq<Msg>, b: seq<Msg>)
    requires Packable(a) && Packable(b)
    ensures Packable(a + b)
  {
  }

  /** Every message of a session can be packed when each of its calls stays in its budget. */
  lemma {:induction false} SessionFits(reuse: bool, calls: seq<Call>)
    requires forall k | 0 <= k < |calls| :: InBudget(calls[k], k < |calls| - 1)
    ensures Packable(SessionMsgs(reuse, calls))
  {
    hide InBudget, CallMsgs, Packable, LiveOf, InitMsgs;
    assert Packable([]) by {
      NoneFits();
    }
    if calls != [] {
      var n := |calls| - 1;
      forall k | 0 <= k < |calls[..n]| ensures InBudget(calls[..n][k], k < |calls[..n]| - 1) {
        LessBudget(calls[k]);
      }
      SessionFits(reuse, calls[..n]);
      assert InBudget(calls[n], n < |calls| - 1);
      CallFits(calls[n], false);
      InitFits(calls[n].initTs);
      if n > 0 {
        assert InBudget(calls[n - 1], n - 1 < |calls| - 1);
        CallFits(calls[n - 1], true);
        AckFits(LiveOf(calls[n - 1]).monitor + BYTE5);
        PackableConcat([Msg(CallEndAck, LiveOf(calls[n - 1]).monitor + BYTE5)], InitMsgs(calls[n].initTs));
      }
      PackableConcat(SessionMsgs(reuse, calls[..n]), Lead(reuse, calls, n));
      PackableConcat(SessionMsgs(reuse, calls[..n]) + Lead(reuse, calls, n), CallMsgs(calls[n]));
    }
  }

  lemma NoneFits()
    ensures Packable([])
  {
  }

  lemma LessBudget(c: Call)
    ensures InBudget(c, true) ==> InBudget(c, false)
  {
  }

  lemma InitFits(initTs: u32)
    ensures Packable(InitMsgs(initTs))
  {
  }

  lemma AckFits(counter: nat)
    requires counter < MOD32
    ensures Packable([Msg(CallEndAck, counter)])
  {
  }

  predicate Avoids(msgs: seq<Msg>, id: nat) {
    forall i | 0 <= i < |msgs| :: SessionId(msgs[i].counter) != id
  }

  /** Neither the init nor the call phase of the call uses the id. */
  predicate CallAvoids(c: Call, id: nat) {
    SessionId(c.initTs) != id && SessionId(CallTs(c.initTs)) != id
  }

  lemma CallMsgsAvoidIff(c: Call, id: nat)
    ensures Avoids(CallMsgs(c), id) <==> SessionId(CallTs(c.initTs)) != id
  {
    CallCarriesOneId(c);
    assert CallMsgs(c)[0] == Msg(CallInit, CallTs(c.initTs)) by {
      hide CallTs;
    }
    hide CallMsgs, CallTs, SessionId;
  }

  lemma AvoidsConcat(a: seq<Msg>, b: seq<Msg>, id: nat)
    ensures Avoids(a + b, id) <==> Avoids(a, id) && Avoids(b, id)
  {
    forall i | 0 <= i < |a| ensures a[i] == (a + b)[i] {
    }
    forall i | 0 <= i < |b| ensures b[i] == (a + b)[|a| + i] {
    }
  }

  lemma InitMsgsAvoidIff(initTs: u32, id: nat)
    ensures Avoids(InitMsgs(initTs), id) <==> SessionId(initTs) != id
  {
    CallIdDiffersFromInit(initTs);
    assert InitMsgs(initTs)[0].counter == initTs;
  }

  /** What is sent after the ACK of the m-th CALL_END. */
  function AfterRenewal(reuse: bool, calls: seq<Call>, m: nat): seq<Msg>
    requires 0 < m < |calls|
    decreases |calls|
  {
    var n := |calls| - 1;
    if m == n then Lead(reuse, calls, n)[1..] + CallMsgs(calls[n])
    else AfterRenewal(reuse, calls[..n], m) + Lead(reuse, calls, n) + CallMsgs(calls[n])
  }

  lemma {:induction false} AfterRenewalIsSuffix(reuse: bool, calls: seq<Call>, m: nat)
    requires 0 < m < |calls|
    ensures SessionMsgs(reuse, calls)
         == SessionMsgs(reuse, calls[..m]) + [Msg(CallEndAck, LiveOf(calls[m - 1]).monitor + BYTE5)] + AfterRenewal(reuse, calls, m)
    decreases |calls|
  {
    hide CallMsgs, LiveOf, Lead;
    var n := |calls| - 1;
    var ack := [Msg(CallEndAck, LiveOf(calls[m - 1]).monitor + BYTE5)];
    LeadStartsWithAck(reuse, calls, m);
    assert SessionMsgs(reuse, calls) == SessionMsgs(reuse, calls[..n]) + Lead(reuse, calls, n) + CallMsgs(calls[n]);
    if m == n {
      assert AfterRenewal(reuse, calls, m) == Lead(reuse, calls, n)[1..] + CallMsgs(calls[n]);
      hide SessionMsgs, AfterRenewal;
      Regroup(SessionMsgs(reuse, calls[..n]), ack, Lead(reuse, calls, n)[1..], CallMsgs(calls[n]));
    } else {
      assert AfterRenewal(reuse, calls, m) == AfterRenewal(reuse, calls[..n], m) + Lead(reuse, calls, n) + CallMsgs(calls[n]);
      hide SessionMsgs, AfterRenewal;
      AfterRenewalIsSuffix(reuse, calls[..n], m);
      assert calls[..n][..m] == calls[..m];
      Regroup(SessionMsgs(reuse, calls[..m]) + ack, AfterRenewal(reuse, calls[..n], m), Lead(reuse, calls, n), CallMsgs(calls[n]));
    }
  }

  lemma LeadStartsWithAck(reuse: bool, calls: seq<Call>, m: nat)
    requires 0 < m < |calls|
    ensures Lead(reuse, calls, m) != []
    ensures Lead(reuse, calls, m) == [Msg(CallEndAck, LiveOf(calls[m - 1]).monitor + BYTE5)] + Lead(reuse, calls, m)[1..]
  {
    hide LiveOf, InitMsgs;
  }

  lemma Regroup(a: seq<Msg>, b: seq<Msg>, c: seq<Msg>, d: seq<Msg>)
    ensures a + (b + c) + d == a + b + (c + d)
    ensures a + b + c + d == a + (b + c + d)
  {
  }

  /** After the m-th renewal's CALL_END ACK no message carries a given session id, for instance
      that of an earlier call, if and only if no later call's init or call timestamp does. */
  lemma {:induction false} OldIdNeverReturnsIff(reuse: bool, calls: seq<Call>, m: nat, id: nat)
    requires 0 < m < |calls|
    ensures Avoids(AfterRenewal(reuse, calls, m), id) <==> forall k | m <= k < |calls| :: CallAvoids(calls[k], id)
    decreases |calls|
  {
    hide CallMsgs, Lead, InitMsgs, SessionId, CallTs, Avoids;
    var n := |calls| - 1;
    CallMsgsAvoidIff(calls[n], id);
    InitMsgsAvoidIff(calls[n].initTs, id);
    LeadAvoidsIff(reuse, calls, n, id);
    if m == n {
      LeadEndsWithInit(reuse, calls, n);
      AvoidsConcat(Lead(reuse, calls, n)[1..], CallMsgs(calls[n]), id);
    } else {
      var before := calls[..n];
      OldIdNeverReturnsIff(reuse, before, m, id);
      AvoidsConcat(AfterRenewal(reuse, before, m), Lead(reuse, calls, n), id);
      AvoidsConcat(AfterRenewal(reuse, before, m) + Lead(reuse, calls, n), CallMsgs(calls[n]), id);
      SplitForall(calls, m, id);
    }
  }

  lemma LeadEndsWithInit(reuse: bool, calls: seq<Call>, n: nat)
    requires 0 < n < |calls|
    ensures Lead(reuse, calls, n) != [] && Lead(reuse, calls, n)[1..] == InitMsgs(calls[n].initTs)
  {
    hide LiveOf, InitMsgs;
  }

  lemma SplitForall(calls: seq<Call>, m: nat, id: nat)
    requires m < |calls| - 1
    ensures var n := |calls| - 1;
            (forall k | m <= k < |calls| :: CallAvoids(calls[k], id))
              <==> CallAvoids(calls[n], id) && CallAvoids(calls[n - 1], id) && (forall k | m <= k < n :: CallAvoids(calls[..n][k], id))
  {
    hide CallAvoids;
    var n := |calls| - 1;
    if forall k | m <= k < n :: CallAvoids(calls[..n][k], id) {
      forall k | m <= k < n ensures CallAvoids(calls[k], id) {
        assert calls[..n][k] == calls[k];
      }
    }
  }

  lemma LeadAvoidsIff(reuse: bool, calls: seq<Call>, n: nat, id: nat)
    requires 0 < n < |calls|
    ensures Avoids(Lead(reuse, calls, n), id)
       <==> SessionId(CallTs(calls[n - 1].initTs)) != id && SessionId(calls[n].initTs) != id
  {
    hide LiveOf, InitMsgs, SessionId, CallTs, Base;
    CallCarriesOneId(calls[n - 1]);
    InitMsgsAvoidIff(calls[n].initTs, id);
    var c := LiveOf(calls[n - 1]).monitor;
    StepKeepsId(c);
    var first := [Msg(CallEndAck, c + BYTE5)];
    OneAvoidsIff(first[0], id);
    LeadStartsWithAck(reuse, calls, n);
    LeadEndsWithInit(reuse, calls, n);
    hide Lead, Avoids;
    AvoidsConcat(first, InitMsgs(calls[n].initTs), id);
  }

  lemma OneAvoidsIff(m: Msg, id: nat)
    ensures Avoids([m], id) <==> SessionId(m.counter) != id
  {
    assert [m][0] == m;
  }

  lemma StepKeepsId(c: nat)
    ensures SessionId(c + BYTE5) == SessionId(c)
  {
  }
}
