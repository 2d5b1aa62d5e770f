/** The exact counters of a call's setup, told from the bytes of the device's replies. */
module SetupCounters {
  import opened Bytes
  import opened CallCounter

  // ---- Replies, by their bytes ---------------------------------------------------------

  /** A call message, 0x1840. */
  predicate IsCall(resp: seq<byte>) {
    |resp| >= 2 && resp[0] == 0x40 && resp[1] == 0x18
  }

  predicate HasAction(resp: seq<byte>, low: byte) {
    |resp| >= 8 && resp[6] == 0x00 && resp[7] == low
  }

  predicate IsAccept(resp: seq<byte>) {
    IsCall(resp) && HasAction(resp, 0x02)
  }

  predicate IsNegotiation(resp: seq<byte>) {
    IsCall(resp) && HasAction(resp, 0x08)
  }

  predicate IsOtherCall(resp: seq<byte>) {
    IsCall(resp) && !HasAction(resp, 0x02) && !HasAction(resp, 0x08)
  }

  /** A timeout, or too short a reply, ends the exchange. */
  predicate EndsIt(reply: Reply) {
    reply.None? || |reply.value| < 2
  }

  /** The replies the exchange takes: at most `tries`, up to the first accept, and none from the
      first timeout on. */
  function Taken(replies: seq<Reply>, tries: nat): seq<seq<byte>>
    decreases tries
  {
    if tries == 0 || replies == [] || EndsIt(replies[0]) then []
    else [replies[0].value] + (if IsAccept(replies[0].value) then [] else Taken(replies[1..], tries - 1))
  }

  function Negotiations(taken: seq<seq<byte>>): nat {
    if taken == [] then 0 else (if IsNegotiation(taken[0]) then 1 else 0) + Negotiations(taken[1..])
  }

  function Accepts(taken: seq<seq<byte>>): nat {
    if taken == [] then 0 else (if IsAccept(taken[0]) then 1 else 0) + Accepts(taken[1..])
  }

  function OtherCalls(taken: seq<seq<byte>>): nat {
    if taken == [] then 0 else (if IsOtherCall(taken[0]) then 1 else 0) + OtherCalls(taken[1..])
  }

  // ---- The codec exchange ---------------------------------------------------------------

  lemma CodecReactionByBytes(reply: Reply)
    ensures EndsIt(reply) ==> CodecReaction(reply) == Stop
    ensures !EndsIt(reply) && IsNegotiation(reply.value) ==> CodecReaction(reply) == Ack(0x101_0000, false)
    ensures !EndsIt(reply) && IsAccept(reply.value) ==> CodecReaction(reply) == Ack(0x100_0000, true)
    ensures !EndsIt(reply) && IsOtherCall(reply.value) ==> CodecReaction(reply) == Ack(0x1_0000, false)
    ensures !EndsIt(reply) && !IsCall(reply.value) ==> CodecReaction(reply) == Ignore
  {
  }

  lemma TakenFirst(first: seq<byte>, rest: seq<seq<byte>>)
    ensures var taken := [first] + rest;
            && Negotiations(taken) == (if IsNegotiation(first) then 1 else 0) + Negotiations(rest)
            && Accepts(taken) == (if IsAccept(first) then 1 else 0) + Accepts(rest)
            && OtherCalls(taken) == (if IsOtherCall(first) then 1 else 0) + OtherCalls(rest)
  {
    assert ([first] + rest)[1..] == rest;
  }

  /** Where the exchange's ACKs end: so far above the start as the replies it took say, one ACK
      for each call message among them. */
  predicate EndsAt(acks: seq<nat>, counter: nat, taken: seq<seq<byte>>) {
    && LastOr(acks, counter)
       == counter + 0x101_0000 * Negotiations(taken) + 0x100_0000 * Accepts(taken) + 0x1_0000 * OtherCalls(taken)
    && |acks| == Negotiations(taken) + Accepts(taken) + OtherCalls(taken)
    && Accepts(taken) <= 1
  }

  lemma EndsAtFirst(acks: seq<nat>, counter: nat, step: nat, first: seq<byte>, rest: seq<seq<byte>>)
    requires EndsAt(acks, counter + step, rest)
    requires if IsNegotiation(first) then step == 0x101_0000 else if IsAccept(first) then step == 0x100_0000 && rest == []
             else IsOtherCall(first) && step == 0x1_0000
    ensures EndsAt([counter + step] + acks, counter, [first] + rest)
  {
    TakenFirst(first, rest);
    assert LastOr([counter + step] + acks, counter) == LastOr(acks, counter + step);
    hide Negotiations, Accepts, OtherCalls, LastOr;
    if IsAccept(first) {
      NoneTaken();
    }
  }

  lemma NoneTaken()
    ensures Negotiations([]) == Accepts([]) == OtherCalls([]) == 0
  {
  }

  lemma {:induction false} ExchangeFrom(counter: nat, replies: seq<Reply>, i: nat, tries: nat)
    requires i <= |replies|
    ensures EndsAt(Acks(CodecReaction, counter, replies, i, tries), counter, Taken(replies[i..], tries))
    decreases tries
  {
    hide CodecReaction, IsAccept, IsNegotiation, IsOtherCall, EndsAt;
    assert EndsAt([], counter, []) by {
      NothingEnds(counter);
    }
    if tries > 0 && i < |replies| {
      var reply, rest := replies[i], replies[i..][1..];
      assert rest == replies[i + 1..] && replies[i..][0] == reply && ReplyAt(replies, i) == reply;
      CodecReactionByBytes(reply);
      if !EndsIt(reply) {
        ReplyKinds(reply.value);
        ExchangeRound(counter, replies, i, tries);
      }
    } else if tries > 0 {
      assert ReplyAt(replies, i) == None;
      CodecReactionByBytes(None);
      assert EndsIt(None);
    }
  }

  lemma NothingEnds(counter: nat)
    ensures EndsAt([], counter, [])
  {
  }

  lemma ReplyKinds(resp: seq<byte>)
    ensures IsCall(resp) <==> IsNegotiation(resp) || IsAccept(resp) || IsOtherCall(resp)
    ensures !(IsNegotiation(resp) && IsAccept(resp)) && !(IsNegotiation(resp) && IsOtherCall(resp)) && !(IsAccept(resp) && IsOtherCall(resp))
  {
  }

  /** One reply that does not end the exchange. */
  lemma {:induction false} ExchangeRound(counter: nat, replies: seq<Reply>, i: nat, tries: nat)
    requires i < |replies| && tries > 0 && !EndsIt(replies[i])
    ensures EndsAt(Acks(CodecReaction, counter, replies, i, tries), counter, Taken(replies[i..], tries))
    decreases tries, 0
  {
    hide CodecReaction, EndsAt, Negotiations, Accepts, OtherCalls;
    var resp, rest := replies[i].value, Taken(replies[i + 1..], tries - 1);
    assert replies[i..][1..] == replies[i + 1..] && ReplyAt(replies, i) == replies[i];
    CodecReactionByBytes(replies[i]);
    if IsAccept(resp) {
      NothingEnds(counter + 0x100_0000);
      EndsAtFirst([], counter, 0x100_0000, resp, []);
      assert Taken(replies[i..], tries) == [resp] + [];
    } else if IsCall(resp) {
      var step := if IsNegotiation(resp) then 0x101_0000 else 0x1_0000;
      ExchangeFrom(counter + step, replies, i + 1, tries - 1);
      EndsAtFirst(Acks(CodecReaction, counter + step, replies, i + 1, tries - 1), counter, step, resp, rest);
    } else {
      ExchangeFrom(counter, replies, i + 1, tries - 1);
      IgnoredFirst(Acks(CodecReaction, counter, replies, i + 1, tries - 1), counter, resp, rest);
    }
  }

  lemma IgnoredFirst(acks: seq<nat>, counter: nat, first: seq<byte>, rest: seq<seq<byte>>)
    requires EndsAt(acks, counter, rest) && !IsCall(first)
    ensures EndsAt(acks, counter, [first] + rest)
  {
    TakenFirst(first, rest);
    hide LastOr;
  }

  /** The codec exchange ends, for every list of replies, exactly so far above the codec ACK:
      0x01010000 for each negotiation, 0x01000000 for the accept, 0x00010000 for each other call
      message, among the at most ten replies up to the first accept or timeout. The accept's ACK
      is the last. */
  lemma ExchangeEnds(callTs: nat, codec: seq<Reply>)
    ensures var taken := Taken(codec, 10);
            && AfterExchange(callTs, codec)
               == callTs + 0x1_0000 + 0x101_0000 * Negotiations(taken) + 0x100_0000 * Accepts(taken) + 0x1_0000 * OtherCalls(taken)
            && |ExchangeAcks(callTs, codec)| == Negotiations(taken) + Accepts(taken) + OtherCalls(taken)
            && Accepts(taken) <= 1
  {
    hide Acks, Taken;
    assert codec[0..] == codec;
    ExchangeFrom(callTs + 0x1_0000, codec, 0, 10);
  }

  /** Nothing is sent after the accept: when one is taken it is the last reply, and its ACK is
      0x01000000 above whatever went before. */
  lemma {:induction false} AcceptIsLast(replies: seq<Reply>, tries: nat, k: nat)
    requires k < |Taken(replies, tries)| && IsAccept(Taken(replies, tries)[k])
    ensures k == |Taken(replies, tries)| - 1
    decreases tries
  {
    if k > 0 {
      AcceptIsLast(replies[1..], tries - 1, k - 1);
    }
  }

  // ---- The device's RTPC link ------------------------------------------------------------

  /** 0x1840 or 0x1860 with action 0x000A. */
  predicate IsRtpcLink(resp: seq<byte>) {
    |resp| >= 8 && (resp[0] == 0x40 || resp[0] == 0x60) && resp[1] == 0x18 && resp[6] == 0x00 && resp[7] == 0x0A
  }

  /** One comes among the first `tries` replies, before any timeout. */
  predicate LinkComes(replies: seq<Reply>, tries: nat)
    decreases tries
  {
    tries > 0 && replies != [] && !EndsIt(replies[0])
    && (IsRtpcLink(replies[0].value) || LinkComes(replies[1..], tries - 1))
  }

  lemma LinkReactionByBytes(reply: Reply)
    ensures EndsIt(reply) ==> LinkReaction(reply) == Stop
    ensures !EndsIt(reply) && IsRtpcLink(reply.value) ==> LinkReaction(reply) == Ack(0x100_0000, true)
    ensures !EndsIt(reply) && !IsRtpcLink(reply.value) ==> LinkReaction(reply) == Ignore
  {
  }

  lemma {:induction false} LinkFrom(counter: nat, replies: seq<Reply>, i: nat, tries: nat)
    requires i <= |replies|
    ensures Acks(LinkReaction, counter, replies, i, tries)
         == if LinkComes(replies[i..], tries) then [counter + 0x100_0000] else []
    decreases tries
  {
    hide LinkReaction, IsRtpcLink;
    LinkReactionByBytes(ReplyAt(replies, i));
    if tries > 0 && i < |replies| {
      assert replies[i..][1..] == replies[i + 1..] && replies[i..][0] == replies[i];
      LinkFrom(counter, replies, i + 1, tries - 1);
    }
  }

  /** HANGUP/ZERO's counter, for every device reply to either wait. */
  lemma SetupEnds(callTs: nat, codec: seq<Reply>, link: seq<Reply>)
    ensures var taken := Taken(codec, 10);
            SetupEnd(callTs, codec, link)
            == callTs + 0x3_0000 + 0x101_0000 * Negotiations(taken) + 0x100_0000 * Accepts(taken) + 0x1_0000 * OtherCalls(taken)
               + (if LinkComes(link, 5) then 0x100_0000 else 0)
  {
    hide Acks, Taken, LinkComes;
    ExchangeEnds(callTs, codec);
    assert link[0..] == link;
    LinkFrom(AfterExchange(callTs, codec) + 0x1_0000, link, 0, 5);
  }

  // ---- Message by message ---------------------------------------------------------------------

  /** What a setup message's counter adds to the one before it. */
  predicate Follows(before: Msg, m: Msg) {
    var step: int := m.counter - before.counter;
    match m.kind
    case CodecAck => before.kind.CallInit? && step == 0x1_0000
    case ExchangeAck => (before.kind.CodecAck? || before.kind.ExchangeAck?) && (step == 0x1_0000 || step == 0x100_0000 || step == 0x101_0000)
    case RtpcLink => (before.kind.CodecAck? || before.kind.ExchangeAck?) && step == 0
    case VideoConfig => before.kind.RtpcLink? && step == 0x1_0000
    case LinkAck => before.kind.VideoConfig? && step == 0x100_0000
    case HangupZero => (before.kind.VideoConfig? || before.kind.LinkAck?) && step == 0x1_0000
    case RenewalPeer => before.kind.HangupZero? && step == 0x1_0000
    case _ => false
  }

  predicate Chained(msgs: seq<Msg>) {
    forall i | 0 < i < |msgs| :: Follows(msgs[i - 1], msgs[i])
  }

  lemma ChainedConcat(a: seq<Msg>, b: seq<Msg>)
    requires a != [] && b != [] && Chained(a) && Chained(b) && Follows(a[|a| - 1], b[0])
    ensures Chained(a + b)
  {
    hide Follows;
    var all := a + b;
    forall i | 0 < i < |all| ensures Follows(all[i - 1], all[i]) {
      if i > |a| {
        assert all[i - 1] == b[i - 1 - |a|] && all[i] == b[i - |a|];
      }
    }
  }

  predicate Stepped(acks: seq<nat>, counter: nat) {
    && (acks != [] ==> GoodStep(acks[0] as int - counter))
    && (forall i | 0 < i < |acks| :: GoodStep(acks[i] as int - acks[i - 1]))
  }

  predicate GoodStep(step: int) {
    step == 0x1_0000 || step == 0x100_0000 || step == 0x101_0000
  }

  lemma {:induction false} AcksStepped(counter: nat, replies: seq<Reply>, i: nat, tries: nat)
    ensures Stepped(Acks(CodecReaction, counter, replies, i, tries), counter)
    decreases tries
  {
    if tries > 0 {
      var r := CodecReaction(ReplyAt(replies, i));
      if r.Ack? && !r.accepted {
        AcksStepped(counter + r.step, replies, i + 1, tries - 1);
        SteppedFirst(Acks(CodecReaction, counter + r.step, replies, i + 1, tries - 1), counter, r.step);
      } else if r.Ignore? {
        AcksStepped(counter, replies, i + 1, tries - 1);
      }
    }
  }

  lemma SteppedFirst(acks: seq<nat>, counter: nat, step: nat)
    requires Stepped(acks, counter + step) && GoodStep(step)
    ensures Stepped([counter + step] + acks, counter)
  {
    hide GoodStep;
    var all := [counter + step] + acks;
    forall i | 0 < i < |all| ensures GoodStep(all[i] as int - all[i - 1]) {
      if i > 1 {
        assert all[i] == acks[i - 1] && all[i - 1] == acks[i - 2];
      }
    }
  }

  /** Every setup message, in order: its kind follows the one before it and its counter steps
      from that one's, the RTPC link by nothing. */
  lemma SetupIsChained(callTs: nat, codec: seq<Reply>, link: seq<Reply>)
    ensures var msgs := SetupMsgs(callTs, codec, link);
            && msgs != [] && msgs[0] == Msg(CallInit, callTs) && Chained(msgs)
            && msgs[|msgs| - 1] == Msg(HangupZero, SetupEnd(callTs, codec, link))
  {
    hide Acks, AfterExchange, SetupEnd, Follows, Chained, Msgs;
    var x, c := ExchangeAcks(callTs, codec), AfterExchange(callTs, codec);
    ExchangeChained(callTs, codec);
    var head := [Msg(CallInit, callTs), Msg(CodecAck, callTs + BYTE4)] + Msgs(ExchangeAck, x);
    var mid := [Msg(RtpcLink, c), Msg(VideoConfig, c + BYTE4)];
    MidChained(c);
    ChainedConcat(head, mid);
    TailChained(callTs, codec, link);
    var tail := AcceptMsgs(callTs, codec, link);
    ChainedConcat(head + mid, tail);
    assert SetupMsgs(callTs, codec, link) == head + mid + tail;
  }

  lemma MidChained(c: nat)
    ensures Chained([Msg(RtpcLink, c), Msg(VideoConfig, c + BYTE4)])
  {
  }

  lemma ExchangeChained(callTs: nat, codec: seq<Reply>)
    ensures var head := [Msg(CallInit, callTs), Msg(CodecAck, callTs + BYTE4)] + Msgs(ExchangeAck, ExchangeAcks(callTs, codec));
            && Chained(head) && Follows(head[|head| - 1], Msg(RtpcLink, AfterExchange(callTs, codec)))
  {
    hide Acks;
    AcksStepped(callTs + BYTE4, codec, 0, 10);
  }

  lemma TailChained(callTs: nat, codec: seq<Reply>, link: seq<Reply>)
    ensures var tail := AcceptMsgs(callTs, codec, link);
            && tail != [] && Chained(tail) && tail[|tail| - 1] == Msg(HangupZero, SetupEnd(callTs, codec, link))
            && Follows(Msg(VideoConfig, AfterExchange(callTs, codec) + BYTE4), tail[0])
  {
    hide Acks, AfterExchange;
    LinkAckedOnce(AfterExchange(callTs, codec) + BYTE4, link, 0, 5);
  }

  /** CTPP init goes out under the init timestamp, and the ACK pair after it under the timestamp
      with only its highest byte stepped, modulo 2^32. */
  lemma InitPairStamp(initTs: u32)
    ensures var ms := InitMsgs(initTs);
            && |ms| == 3 && ms[0] == Msg(CtppInit, initTs) && ms[1] == Msg(InitAck, ms[2].counter) && ms[2].kind == InitConfirm
            && ms[1].counter % 0x100_0000 == initTs % 0x100_0000
            && ms[1].counter / 0x100_0000 == (initTs / 0x100_0000 + 1) % 0x100
  {
    var high: int, low: int := initTs / 0x100_0000, initTs % 0x100_0000;
    assert initTs == high * 0x100_0000 + low;
  }

  /** A call's live part: each section's counter steps by 0x10000 from the message before it, a
      keepalive ACK's from the keepalive ACK before it; the first from the setup's last. */
  lemma LiveSteps(base: nat, acts: seq<Act>, k: nat)
    requires k < |acts|
    ensures |LiveMsgs(Live(base, base), acts)| == |acts|
    ensures var ms := LiveMsgs(Live(base, base), acts);
            && (acts[k].Bump? ==> ms[k] == Msg(acts[k].kind, (if k == 0 then base else ms[k - 1].counter) + 0x1_0000))
            && (acts[k].Keepalive? ==> ms[k] == Msg(KeepaliveAck, base + Keepalives(acts[..k + 1]) * 0x1_0000))
  {
    LiveMessages(base, acts, k);
    CountersAt(Live(base, base), acts, k);
    if k > 0 {
      CountersAt(Live(base, base), acts, k - 1);
      assert acts[..k][..k - 1] == acts[..k - 1] && acts[..k][k - 1] == acts[k - 1];
    } else {
      assert acts[..0] == [];
    }
  }

  /** A renewal opens with an ACK 0x01000000 above the monitor's last counter, whatever door opens
      came since, and its live part starts 0x10000 above HANGUP/ZERO. */
  lemma RenewalStamps(reuse: bool, calls: seq<Call>, n: nat)
    requires 0 < n < |calls| && calls[n].renewal
    ensures Lead(reuse, calls, n)[..1]
         == [Msg(CallEndAck, Base(calls[n - 1]) + Keepalives(calls[n - 1].acts) * 0x1_0000 + 0x100_0000)]
    ensures Base(calls[n]) == SetupEnd(CallTs(calls[n].initTs), calls[n].codec, calls[n].link) + 0x1_0000
    ensures CallTs(calls[n].initTs) == if calls[n].initTs == 0xFFFF_FFFF then 0 else calls[n].initTs + 1
  {
    hide SetupEnd, RunLive, InitMsgs;
    MonitorPacing(Base(calls[n - 1]), calls[n - 1].acts);
  }
}
