/** The signalling half of a video call session: every section that draws a CTPP counter, as
    the channel lock serialises them, over a connection that may die at any message. */
module VideoCalls {
  import opened Bytes
  import opened CallCounter
  import opened CutRenewals

  /** A sending step either completes or raises. */
  datatype Result<T> = Success(value: T) | Raised

  /** Which of the channel opens inside `start` come through before their timeout: CTPP and
      CSPB, UDPM, the two RTPC channels, and the device's own RTPC channel. */
  datatype Opens = Opens(ctpp: bool, udpm: bool, rtpc: bool, device: bool) {
    predicate All() { ctpp && udpm && rtpc && device }
  }

  class VideoCallSession {
    /** `self._call_counter`. */
    var shared: nat
    /** The monitor task's local `call_counter`, and whether that task runs. */
    var monitor: nat
    var monitoring: bool
    var active: bool
    /** CTPP messages on the wire, and how many more the connection takes before it dies. */
    var sent: seq<Msg>
    var sendsLeft: nat
    /** The calls this session made: the start and its completed renewals, and whether a renewal
        was cut short. */
    ghost var reuse: bool
    ghost var calls: seq<Call>
    ghost var ending: Ending
    /** The start went through. */
    ghost var started: bool

    ghost predicate Valid()
      reads this
    {
      && StartThenRenewals(calls)
      && WellEnded(calls, ending)
      && sent <= WireMsgs(reuse, calls, ending)
      && (started && sendsLeft > 0 ==> sent == WireMsgs(reuse, calls, ending))
      && (started ==> calls != [] && Counting())
      && (!started ==> ending.Ongoing?)
      && (active || monitoring ==> started && ending.Ongoing?)
    }

    /** Both counters are where the calls, or the sections since the cut, left them. */
    ghost predicate Counting()
      reads this`calls, this`ending, this`monitor, this`shared
      requires calls != []
    {
      var last := LiveOf(calls[|calls| - 1]);
      && monitor == last.monitor
      && shared == last.shared + (if ending.Cut? then |ending.late| * BYTE4 else 0)
    }

    constructor (connectionTakes: nat)
      ensures Valid() && calls == [] && !started && !active && sent == [] && sendsLeft == connectionTakes
    {
      shared, monitor, monitoring, active := 0, 0, false, false;
      sent, sendsLeft := [], connectionTakes;
      reuse, calls, ending, started := false, [], Ongoing, false;
    }

    /** `send_binary`: `rest` is what the running section still has to send. */
    method Send(m: Msg, ghost rest: seq<Msg>) returns (r: Result<()>)
      requires rest != [] && rest[0] == m
      modifies this`sent, this`sendsLeft
      ensures r.Success? <==> old(sendsLeft) > 0
      ensures sent == old(sent) + (if r.Success? then [m] else [])
      ensures sent + (if r.Success? then rest[1..] else rest) == old(sent) + rest
      ensures |sent| + sendsLeft == old(|sent| + sendsLeft)
    {
      if sendsLeft == 0 {
        return Raised;
      }
      sent, sendsLeft := sent + [m], sendsLeft - 1;
      assert rest == [m] + rest[1..];
      return Success(());
    }

    /** Up to ten replies; each 0x1840 is ACKed with the step its action calls for. */
    method RunCodecExchange(callCounter: nat, replies: seq<Reply>, ghost rest: seq<Msg>) returns (r: Result<nat>)
      requires Msgs(ExchangeAck, Acks(CodecReaction, callCounter, replies, 0, 10)) <= rest
      modifies this`sent, this`sendsLeft
      ensures Partly(old(sent), rest) && |sent| + sendsLeft == old(|sent| + sendsLeft)
      ensures r.Raised? ==> sendsLeft == 0
      ensures r.Success? ==>
                && sent == old(sent) + Msgs(ExchangeAck, Acks(CodecReaction, callCounter, replies, 0, 10))
                && r.value == LastOr(Acks(CodecReaction, callCounter, replies, 0, 10), callCounter)
    {
      hide Acks, Msgs, AtLe16, AtBe16;
      var counter: nat, i: nat := callCounter, 0;
      ghost var all := Acks(CodecReaction, callCounter, replies, 0, 10);
      ghost var done: seq<nat> := [];
      assert Msgs(ExchangeAck, []) == [] by { MsgsOf(ExchangeAck, []); }
      while i < 10
        invariant 0 <= i <= 10
        invariant all == done + Acks(CodecReaction, counter, replies, i, 10 - i)
        invariant sent == old(sent) + Msgs(ExchangeAck, done) && |sent| + sendsLeft == old(|sent| + sendsLeft)
        invariant counter == LastOr(done, callCounter)
      {
        AcksStep(CodecReaction, all, done, counter, replies, i, 10 - i);
        var resp := ReplyAt(replies, i);
        i := i + 1;
        if resp.None? || |resp.value| < 2 {
          break;
        }
        var msgType := AtLe16(resp.value, 0);
        var action := if |resp.value| >= 8 then AtBe16(resp.value, 6) else 0;
        if msgType == 0x1860 || msgType == 0x1800 {
          continue;
        }
        if msgType == 0x1840 {
          if action == 0x0008 {
            counter := counter + BOTH;
          } else if action == 0x0002 {
            counter := counter + BYTE5;
          } else {
            counter := counter + BYTE4;
          }
          ghost var later := if action == 0x0002 then [] else Acks(CodecReaction, counter, replies, i, 10 - i);
          assert all == done + [counter] + later;
          MsgsNext(ExchangeAck, done, counter, later, rest);
          var ok := Send(Msg(ExchangeAck, counter), rest[|done|..]);
          if ok.Raised? {
            PartlyAt(old(sent), rest, |done|);
            return Raised;
          }
          done := done + [counter];
          if action == 0x0002 {
            assert all == done;
            PartlyAt(old(sent), rest, |done|);
            return Success(counter);
          }
        }
      }
      AcksUnfold(CodecReaction, counter, replies, i, 10 - i);
      assert all == done;
      MsgsOf(ExchangeAck, done);
      PartlyAt(old(sent), rest, |done|);
      return Success(counter);
    }

    /** Up to five replies; the first RTPC link (action 0x000A) is ACKed. */
    method AckDeviceRtpcLink(callCounter: nat, replies: seq<Reply>, ghost rest: seq<Msg>) returns (r: Result<nat>)
      requires Msgs(LinkAck, Acks(LinkReaction, callCounter, replies, 0, 5)) <= rest
      modifies this`sent, this`sendsLeft
      ensures Partly(old(sent), rest) && |sent| + sendsLeft == old(|sent| + sendsLeft)
      ensures r.Raised? ==> sendsLeft == 0
      ensures r.Success? ==>
                && sent == old(sent) + Msgs(LinkAck, Acks(LinkReaction, callCounter, replies, 0, 5))
                && r.value == LastOr(Acks(LinkReaction, callCounter, replies, 0, 5), callCounter)
    {
      hide Acks, Msgs;
      var i := 0;
      ghost var all := Acks(LinkReaction, callCounter, replies, 0, 5);
      while i < 5
        invariant 0 <= i <= 5
        invariant all == Acks(LinkReaction, callCounter, replies, i, 5 - i)
        invariant sent == old(sent) && sendsLeft == old(sendsLeft)
      {
        AcksUnfold(LinkReaction, callCounter, replies, i, 5 - i);
        var resp := ReplyAt(replies, i);
        i := i + 1;
        if resp.None? || |resp.value| < 2 {
          break;
        }
        var msgType := AtLe16(resp.value, 0);
        var action := if |resp.value| >= 8 then AtBe16(resp.value, 6) else 0;
        if (msgType == 0x1840 || msgType == 0x1860) && action == 0x000A {
          var counter := callCounter + BYTE5;
          MsgsOf(LinkAck, all);
          var ok := Send(Msg(LinkAck, counter), rest);
          PartlyAt(old(sent), rest, if ok.Raised? then 0 else 1);
          if ok.Raised? {
            return Raised;
          }
          assert sent == old(sent) + Msgs(LinkAck, all);
          return Success(counter);
        }
      }
      AcksUnfold(LinkReaction, callCounter, replies, i, 5 - i);
      MsgsOf(LinkAck, all);
      PartlyAt(old(sent), rest, 0);
      return Success(callCounter);
    }

    /** CTPP init on a fresh channel, or the middle of a renewal: init and the ACK pair. */
    method CtppInitSequence(initTs: u32, ghost rest: seq<Msg>) returns (r: Result<()>)
      requires InitMsgs(initTs) <= rest
      modifies this`sent, this`sendsLeft
      ensures Partly(old(sent), rest) && |sent| + sendsLeft == old(|sent| + sendsLeft)
      ensures r.Raised? ==> sendsLeft == 0
      ensures r.Success? ==> sent == old(sent) + InitMsgs(initTs)
    {
      PartlyAt(old(sent), rest, 0);
      var ok := Send(Msg(CtppInit, initTs), rest);
      PartlyAt(old(sent), rest, if ok.Raised? then 0 else 1);
      if ok.Raised? {
        return Raised;
      }
      var ackTs := (initTs + 0x100_0000) % MOD32;
      ok := Send(Msg(InitAck, ackTs), rest[1..]);
      PartlyAt(old(sent), rest, if ok.Raised? then 1 else 2);
      if ok.Raised? {
        return Raised;
      }
      ok := Send(Msg(InitConfirm, ackTs), rest[2..]);
      PartlyAt(old(sent), rest, if ok.Raised? then 2 else 3);
      return ok;
    }

    /** Call init, UDPM opened, codec ACK. */
    method BeginCall(callTs: nat, udpm: bool, ghost rest: seq<Msg>) returns (r: Result<()>)
      requires |rest| >= 2 && rest[0] == Msg(CallInit, callTs) && rest[1] == Msg(CodecAck, callTs + BYTE4)
      modifies this`sent, this`sendsLeft
      ensures Partly(old(sent), rest) && |sent| + sendsLeft == old(|sent| + sendsLeft)
      ensures !udpm ==> r.Raised?
      ensures r.Raised? && udpm ==> sendsLeft == 0
      ensures r.Success? ==> sent == old(sent) + rest[..2]
    {
      hide Partly;
      var ok := Send(Msg(CallInit, callTs), rest);
      PartlyAt(old(sent), rest, if ok.Raised? then 0 else 1);
      if ok.Raised? || !udpm {
        return Raised;
      }
      ok := Send(Msg(CodecAck, callTs + BYTE4), rest[1..]);
      PartlyAt(old(sent), rest, if ok.Raised? then 1 else 2);
      return ok;
    }

    /** Call init, codec exchange, RTPC link and video config: the same messages in `start`, which
        opens UDPM and RTPC in between, and in renewals, which open nothing. Returns the
        counter. */
    method OfferCall(initTs: u32, codec: seq<Reply>, udpm: bool, rtpc: bool, ghost rest: seq<Msg>) returns (r: Result<nat>)
      requires OfferMsgs(CallTs(initTs), codec) <= rest
      modifies this`sent, this`sendsLeft
      ensures Partly(old(sent), rest) && |sent| + sendsLeft == old(|sent| + sendsLeft)
      ensures !udpm || !rtpc ==> r.Raised?
      ensures r.Raised? && udpm && rtpc ==> sendsLeft == 0
      ensures r.Success? ==> sent == old(sent) + OfferMsgs(CallTs(initTs), codec)
      ensures r.Success? ==> r.value == AfterExchange(CallTs(initTs), codec) + BYTE4
    {
      hide Partly, Acks, Msgs, OfferMsgs, LastOr, CodecReaction;
      var callTs := (initTs + 1) % MOD32;
      ghost var acks := ExchangeAcks(callTs, codec);
      ghost var n := |Msgs(ExchangeAck, acks)|;
      OfferAt(callTs, codec, rest);
      var begun := BeginCall(callTs, udpm, rest);
      if begun.Raised? {
        return Raised;
      }
      var counter := callTs + BYTE4;
      ghost var now := sent;
      var exchanged := RunCodecExchange(counter, codec, rest[2..]);
      if exchanged.Raised? {
        PartlyAfter(old(sent), now, rest, 2);
        return Raised;
      }
      counter := exchanged.value;
      if !rtpc {
        PartlyAt(old(sent), rest, n + 2);
        return Raised;
      }
      now := sent;
      var linked := LinkMedia(counter, rest[n + 2..]);
      PartlyAfter(old(sent), now, rest, n + 2);
      assert rest[..n + 2] + rest[n + 2..][..2] == rest[..n + 4];
      return linked;
    }

    /** RTPC link on the last counter, video config on the next. */
    method LinkMedia(callCounter: nat, ghost rest: seq<Msg>) returns (r: Result<nat>)
      requires |rest| >= 2 && rest[0] == Msg(RtpcLink, callCounter) && rest[1] == Msg(VideoConfig, callCounter + BYTE4)
      modifies this`sent, this`sendsLeft
      ensures Partly(old(sent), rest) && |sent| + sendsLeft == old(|sent| + sendsLeft)
      ensures r.Raised? ==> sendsLeft == 0
      ensures r.Success? ==> sent == old(sent) + rest[..2] && r.value == callCounter + BYTE4
    {
      hide Partly;
      var ok := Send(Msg(RtpcLink, callCounter), rest);
      PartlyAt(old(sent), rest, if ok.Raised? then 0 else 1);
      if ok.Raised? {
        return Raised;
      }
      var counter := callCounter + BYTE4;
      ok := Send(Msg(VideoConfig, counter), rest[1..]);
      PartlyAt(old(sent), rest, if ok.Raised? then 1 else 2);
      return if ok.Raised? then Raised else Success(counter);
    }

    /** The device's RTPC link ACK and HANGUP/ZERO. */
    method AcceptCall(callCounter: nat, link: seq<Reply>, ghost initTs: u32, ghost codec: seq<Reply>, ghost rest: seq<Msg>)
      returns (r: Result<nat>)
      requires callCounter == AfterExchange(CallTs(initTs), codec) + BYTE4
      requires AcceptMsgs(CallTs(initTs), codec, link) <= rest
      modifies this`sent, this`sendsLeft
      ensures Partly(old(sent), rest) && |sent| + sendsLeft == old(|sent| + sendsLeft)
      ensures r.Raised? ==> sendsLeft == 0
      ensures r.Success? ==> sent == old(sent) + AcceptMsgs(CallTs(initTs), codec, link)
      ensures r.Success? ==> r.value == SetupEnd(CallTs(initTs), codec, link)
    {
      hide Acks, Msgs, AfterExchange;
      ghost var acks := LinkAcks(CallTs(initTs), codec, link);
      ghost var n := |Msgs(LinkAck, acks)|;
      AcceptAt(CallTs(initTs), codec, link, rest);
      ghost var now := sent;
      var acked := AckDeviceRtpcLink(callCounter, link, rest);
      if acked.Raised? {
        return Raised;
      }
      var counter := acked.value + BYTE4;
      var ok := Send(Msg(HangupZero, counter), rest[n..]);
      PartlyAt(old(sent), rest, if ok.Raised? then n else n + 1);
      if ok.Raised? {
        return Raised;
      }
      return Success(counter);
    }

    /** `start`: a fresh channel is initialised first, a reused one is not; a channel that does
        not open in time ends it like a failing send. */
    method Start(reuseChannel: bool, initTs: u32, codec: seq<Reply>, link: seq<Reply>, opens: Opens)
      returns (r: Result<()>)
      requires Valid() && calls == [] && !started
      modifies this
      ensures Valid() && ending.Ongoing?
      ensures reuse == reuseChannel && calls == [Call(initTs, false, codec, link, [])]
      ensures r.Success? <==> started
      ensures r.Success? ==> active && monitoring && sent == SessionMsgs(reuse, calls)
      ensures r.Success? ==> monitor == shared == Base(calls[0])
      ensures !opens.All() ==> r.Raised?
      ensures r.Raised? && opens.All() ==> sendsLeft == 0
      ensures |sent| + sendsLeft == old(|sent| + sendsLeft)
    {
      assert sent == [];
      hide SessionMsgs, LiveOf, Base, StartMsgs, SetupEnd, CallTs, WireMsgs;
      ghost var call := Call(initTs, false, codec, link, []);
      StartIsSession(reuseChannel, call);
      OngoingWire(reuseChannel, [call]);
      var r0 := SendStart(reuseChannel, initTs, codec, link, opens);
      PartlyFromNothing(StartMsgs(reuseChannel, initTs, codec, link));
      hide Partly;
      reuse, calls := reuseChannel, [call];
      if r0.Raised? {
        return Raised;
      }
      shared := r0.value;
      monitor := r0.value;
      monitoring, active, started := true, true, true;
      return Success(());
    }

    /** The messages of `start`, up to the one that fails. */
    method SendStart(reuseChannel: bool, initTs: u32, codec: seq<Reply>, link: seq<Reply>, opens: Opens)
      returns (r: Result<nat>)
      modifies this`sent, this`sendsLeft
      ensures Partly(old(sent), StartMsgs(reuseChannel, initTs, codec, link))
      ensures |sent| + sendsLeft == old(|sent| + sendsLeft)
      ensures !opens.All() ==> r.Raised?
      ensures r.Raised? && opens.All() ==> sendsLeft == 0
      ensures r.Success? ==> sent == old(sent) + StartMsgs(reuseChannel, initTs, codec, link)
      ensures r.Success? ==> r.value == SetupEnd(CallTs(initTs), codec, link)
    {
      hide Partly, SetupEnd, OfferMsgs, AcceptMsgs, AfterExchange, InitMsgs, CallTs;
      ghost var lead := if reuseChannel then [] else InitMsgs(initTs);
      ghost var offer, accept := OfferMsgs(CallTs(initTs), codec), AcceptMsgs(CallTs(initTs), codec, link);
      ghost var due := StartMsgs(reuseChannel, initTs, codec, link);
      StartAt(lead, offer, accept, due);
      hide StartMsgs;
      PartlyAt(old(sent), due, 0);
      if !opens.ctpp {
        return Raised;
      }
      if !reuseChannel {
        var ready := CtppInitSequence(initTs, due);
        if ready.Raised? {
          return Raised;
        }
      }
      ghost var now, n := sent, |lead|;
      assert now == old(sent) + due[..n];
      var offered := OfferCall(initTs, codec, opens.udpm, opens.rtpc, due[n..]);
      PartlyAfter(old(sent), now, due, n);
      if offered.Raised? || !opens.device {
        return Raised;
      }
      now, n := sent, n + |offer|;
      assert now == old(sent) + due[..n];
      var accepted := AcceptCall(offered.value, link, initTs, codec, due[n..]);
      PartlyAfter(old(sent), now, due, n);
      return accepted;
    }

    /** The monitor ACKs a keepalive, or any device message that is neither CALL_END nor an ACK.
        A failing send ends the monitor, with the counter already drawn. */
    method MonitorAck()
      requires Valid() && monitoring
      modifies this
      ensures Valid() && started && ending.Ongoing? && calls == Extended(old(calls), Keepalive)
      ensures monitor == shared == old(monitor) + BYTE4
      ensures sent == old(sent) + (if old(sendsLeft) > 0 then [Msg(KeepaliveAck, old(monitor) + BYTE4)] else [])
      ensures monitoring == (old(sendsLeft) > 0) && active == old(active)
      ensures |sent| + sendsLeft == old(|sent| + sendsLeft)
    {
      hide SessionMsgs, LiveOf;
      SessionExtended(reuse, calls, Keepalive);
      monitor := monitor + BYTE4;
      shared := monitor;
      var ok := Send(Msg(KeepaliveAck, monitor), [Msg(KeepaliveAck, monitor)]);
      OngoingWire(reuse, calls);
      calls := Extended(calls, Keepalive);
      OngoingWire(reuse, calls);
      if ok.Raised? {
        monitoring := false;
      }
    }

    /** The check a door open makes before it waits for the lock. */
    method MayOpenDoor(hasChannel: bool) returns (ok: bool)
      requires Valid()
      ensures ok <==> hasChannel && active
      ensures ok ==> started
    {
      ok := hasChannel && active;
    }

    /** The locked section of a door open (`kind` DoorOpen) or of the answer (`kind` AnswerPeer):
        only the shared counter moves. It runs whenever the lock comes free, also after the
        session was stopped or a renewal was cut short. */
    method SendBump(kind: Kind) returns (r: Result<()>)
      requires Valid() && started
      modifies this`shared, this`sent, this`sendsLeft, this`calls, this`ending
      ensures Valid()
      ensures old(ending).Ongoing? ==> ending.Ongoing? && calls == Extended(old(calls), Bump(kind))
      ensures old(ending).Cut? ==> calls == old(calls) && ending == old(ending).(late := old(ending).late + [kind])
      ensures shared == old(shared) + BYTE4
      ensures r.Success? <==> old(sendsLeft) > 0
      ensures sent == old(sent) + (if r.Success? then [Msg(kind, old(shared) + BYTE4)] else [])
      ensures |sent| + sendsLeft == old(|sent| + sendsLeft)
    {
      hide SessionMsgs, LiveOf, RenewalOf, WireMsgs;
      shared := shared + BYTE4;
      r := Send(Msg(kind, shared), [Msg(kind, shared)]);
      if ending.Ongoing? {
        SessionExtended(reuse, calls, Bump(kind));
        OngoingWire(reuse, calls);
        calls := Extended(calls, Bump(kind));
        OngoingWire(reuse, calls);
      } else {
        LateWire(reuse, calls, ending, kind);
        ending := ending.(late := ending.late + [kind]);
      }
    }

    /** CALL_END: the monitor renews the lease on the same channel, holding the lock. `cut` tells
        when the renewal is interrupted on a live connection, its task cancelled or something it
        awaits raising: right after so many messages. A renewal that does not complete leaves
        both counters alone, ends the monitor and releases the lock. */
    method MonitorCallEnd(initTs: u32, codec: seq<Reply>, link: seq<Reply>, cut: Option<nat>) returns (r: Result<()>)
      requires Valid() && monitoring
      modifies this
      ensures Valid() && started
      ensures |sent| + sendsLeft == old(|sent| + sendsLeft)
      ensures r.Success? ==> ending.Ongoing? && calls == old(calls) + [Call(initTs, true, codec, link, [])]
      ensures r.Success? ==> sent == SessionMsgs(reuse, calls) && active == old(active) && monitoring
      ensures r.Success? ==> monitor == shared == Base(calls[|calls| - 1])
      ensures r.Raised? ==> ending.Cut? && ending == Cut(Call(initTs, true, codec, link, []), ending.n, []) && |sent| == |old(sent)| + ending.n
      ensures r.Raised? ==> calls == old(calls) && monitor == old(monitor) && shared == old(shared) && !active && !monitoring
      ensures r.Raised? && cut.None? ==> sendsLeft == 0
      ensures cut.Some? && cut.value <= |RenewalMsgs(old(monitor), initTs, codec, link)| && cut.value <= old(sendsLeft) ==>
                r.Raised? && sent == old(sent) + RenewalMsgs(old(monitor), initTs, codec, link)[..cut.value]
    {
      hide SessionMsgs, Base, RenewalMsgs, LiveOf, WireMsgs, RenewalOf, Valid, Counting, StartThenRenewals;
      ghost var call := Call(initTs, true, codec, link, []);
      ghost var due, before := RenewalMsgs(monitor, initTs, codec, link), SessionMsgs(reuse, calls);
      WhileMonitoring(call);
      var renewed, n := Renew(initTs, codec, link, cut);
      if renewed.Raised? {
        PrefixOfCut(old(sent), due, n, before);
        EndCut(call, n);
        return Raised;
      }
      assert old(sent) == before && due[..n] == due;
      EndRenewed(call, renewed.value);
      return Success(());
    }

    /** What holds while the monitor runs, and what a renewal would send. */
    lemma WhileMonitoring(call: Call)
      requires Valid() && monitoring && call.renewal && call.acts == []
      ensures started && ending.Ongoing? && calls != [] && Counting()
      ensures StartThenRenewals(calls)
      ensures sent <= SessionMsgs(reuse, calls) && (sendsLeft > 0 ==> sent == SessionMsgs(reuse, calls))
      ensures RenewalOf(calls[|calls| - 1], call) == RenewalMsgs(monitor, call.initTs, call.codec, call.link)
      ensures SessionMsgs(reuse, calls + [call]) == SessionMsgs(reuse, calls) + RenewalOf(calls[|calls| - 1], call)
    {
      hide SessionMsgs, RenewalMsgs, LiveOf, WireMsgs;
      RenewedMsgs(reuse, calls, call);
      OngoingWire(reuse, calls);
    }

    /** The renewal did not complete: the monitor ends, the counters stay. */
    method EndCut(ghost call: Call, ghost n: nat)
      requires started && ending.Ongoing? && calls != [] && Counting()
      requires StartThenRenewals(calls)
      requires call.renewal && call.acts == [] && n <= |RenewalOf(calls[|calls| - 1], call)|
      requires sent <= SessionMsgs(reuse, calls) + RenewalOf(calls[|calls| - 1], call)[..n]
      requires sendsLeft > 0 ==> sent == SessionMsgs(reuse, calls) + RenewalOf(calls[|calls| - 1], call)[..n]
      modifies this`monitoring, this`active, this`ending
      ensures Valid() && ending == Cut(call, n, []) && !monitoring && !active
    {
      hide SessionMsgs, LiveOf, RenewalOf, WireMsgs;
      monitoring, active := false, false;
      ending := Cut(call, n, []);
      CutWire(reuse, calls, ending);
    }

    /** The renewal completed: both counters start from the new call's base. */
    method EndRenewed(ghost call: Call, counter: nat)
      requires started && ending.Ongoing? && calls != []
      requires StartThenRenewals(calls)
      requires call.renewal && call.acts == [] && counter == Base(call)
      requires sent == SessionMsgs(reuse, calls + [call])
      modifies this`monitor, this`shared, this`calls
      ensures Valid() && calls == old(calls) + [call] && monitor == shared == counter
    {
      hide SessionMsgs, WireMsgs, Base;
      assert LiveOf(call) == Live(Base(call), Base(call));
      hide LiveOf;
      calls := calls + [call];
      OngoingWire(reuse, calls);
      monitor := counter;
      shared := counter;
    }

    /** The renewal's n messages, up to the cut or the connection's end. */
    method Renew(initTs: u32, codec: seq<Reply>, link: seq<Reply>, cut: Option<nat>) returns (r: Result<nat>, n: nat)
      modifies this`sent, this`sendsLeft
      ensures var due := RenewalMsgs(monitor, initTs, codec, link);
              && n <= |due| && sent == old(sent) + due[..n]
              && (r.Success? ==> n == |due| > 0)
              && (cut.Some? && cut.value <= |due| && cut.value <= old(sendsLeft) ==> r.Raised? && n == cut.value)
      ensures n + sendsLeft == old(sendsLeft)
      ensures r.Raised? && cut.None? ==> sendsLeft == 0
      ensures r.Success? ==> r.value == Base(Call(initTs, true, codec, link, []))
    {
      hide Base, RenewalMsgs, Partly;
      ghost var due := RenewalMsgs(monitor, initTs, codec, link);
      var first := |sent|;
      var spare := if cut.Some? && cut.value < sendsLeft then sendsLeft - cut.value else 0;
      sendsLeft := sendsLeft - spare;
      r := InlineReestablish(monitor, initTs, codec, link);
      sendsLeft := sendsLeft + spare;
      PartlyIs(old(sent), due);
      RenewalAt(monitor, initTs, codec, link);
      n := |sent| - first;
      assert due[..|due|] == due;
      if cut.Some? && n == cut.value {
        r := Raised;
      }
    }

    /** ACK of CALL_END, CTPP init, the call sequence again, and the renewal accept. */
    method InlineReestablish(callCounter: nat, initTs: u32, codec: seq<Reply>, link: seq<Reply>) returns (r: Result<nat>)
      modifies this`sent, this`sendsLeft
      ensures Partly(old(sent), RenewalMsgs(callCounter, initTs, codec, link))
      ensures |sent| + sendsLeft == old(|sent| + sendsLeft)
      ensures r.Raised? ==> sendsLeft == 0
      ensures old(sendsLeft) == 0 ==> r.Raised? && sent == old(sent)
      ensures r.Success? ==> sent == old(sent) + RenewalMsgs(callCounter, initTs, codec, link)
      ensures r.Success? ==> r.value == Base(Call(initTs, true, codec, link, []))
    {
      hide Partly, RenewalMsgs, SetupEnd, OfferMsgs, AcceptMsgs, AfterExchange, InitMsgs, CallTs;
      ghost var due := RenewalMsgs(callCounter, initTs, codec, link);
      ghost var init, offer := InitMsgs(initTs), OfferMsgs(CallTs(initTs), codec);
      ghost var accept := AcceptMsgs(CallTs(initTs), codec, link);
      RenewalAt(callCounter, initTs, codec, link);
      var counter := callCounter + BYTE5;
      var ok := Send(Msg(CallEndAck, counter), due);
      PartlyAt(old(sent), due, if ok.Raised? then 0 else 1);
      if ok.Raised? {
        return Raised;
      }
      ghost var now, n := sent, 1;
      ok := CtppInitSequence(initTs, due[n..]);
      PartlyAfter(old(sent), now, due, n);
      if ok.Raised? {
        return Raised;
      }
      now, n := sent, n + |init|;
      assert now == old(sent) + due[..n];
      r := CallAgain(initTs, codec, link, due[n..]);
      PartlyAfter(old(sent), now, due, n);
      assert due == due[..n] + due[n..];
    }

    /** The renewal's call sequence and accept. */
    method CallAgain(initTs: u32, codec: seq<Reply>, link: seq<Reply>, ghost due: seq<Msg>) returns (r: Result<nat>)
      requires var offer, accept := OfferMsgs(CallTs(initTs), codec), AcceptMsgs(CallTs(initTs), codec, link);
               var a := |offer| + |accept|;
               && offer <= due && |due| == a + 1 && accept <= due[|offer|..] && due[..|offer|] + accept == due[..a]
               && due[a] == Msg(RenewalPeer, SetupEnd(CallTs(initTs), codec, link) + BYTE4)
      modifies this`sent, this`sendsLeft
      ensures Partly(old(sent), due) && |sent| + sendsLeft == old(|sent| + sendsLeft)
      ensures r.Raised? ==> sendsLeft == 0
      ensures r.Success? ==> sent == old(sent) + due
      ensures r.Success? ==> r.value == SetupEnd(CallTs(initTs), codec, link) + BYTE4
    {
      hide Partly, SetupEnd, OfferMsgs, AcceptMsgs, AfterExchange, CallTs;
      ghost var offer, accept := OfferMsgs(CallTs(initTs), codec), AcceptMsgs(CallTs(initTs), codec, link);
      ghost var now, n := sent, 0;
      assert due[0..] == due && now == old(sent) + due[..0];
      var offered := OfferCall(initTs, codec, true, true, due[n..]);
      PartlyAfter(old(sent), now, due, n);
      if offered.Raised? {
        return Raised;
      }
      now, n := sent, n + |offer|;
      assert now == old(sent) + due[..n];
      var accepted := AcceptCall(offered.value, link, initTs, codec, due[n..]);
      PartlyAfter(old(sent), now, due, n);
      if accepted.Raised? {
        return Raised;
      }
      n := n + |accept|;
      assert sent == old(sent) + due[..n] && due[..n + 1] == due;
      var counter := accepted.value + BYTE4;
      var ok := Send(Msg(RenewalPeer, counter), due[n..]);
      PartlyAt(old(sent), due, if ok.Raised? then n else n + 1);
      return if ok.Raised? then Raised else Success(counter);
    }

    /** `_cleanup`: the session stops and its tasks are cancelled. */
    method Cleanup()
      requires Valid()
      modifies this`active, this`monitoring
      ensures Valid() && !active && !monitoring
    {
      hide SessionMsgs, LiveOf;
      active, monitoring := false, false;
    }

    lemma PartlyAfter(before: seq<Msg>, now: seq<Msg>, rest: seq<Msg>, n: nat)
      requires n <= |rest| && now == before + rest[..n] && Partly(now, rest[n..])
      ensures Partly(before, rest)
    {
      assert rest == rest[..n] + rest[n..];
      assert before + rest == now + rest[n..];
    }

    lemma PartlyIs(before: seq<Msg>, rest: seq<Msg>)
      requires Partly(before, rest)
      ensures |before| <= |sent| <= |before| + |rest| && sent == before + rest[..|sent| - |before|]
    {
      var n := |sent| - |before|;
      assert sent == (before + rest)[..|sent|] == before + rest[..n];
    }

    lemma PartlyFromNothing(rest: seq<Msg>)
      requires Partly([], rest)
      ensures sent <= rest
    {
      assert [] + rest == rest;
    }

    /** What has been sent since is a prefix of what was due. */
    predicate Partly(before: seq<Msg>, rest: seq<Msg>)
      reads this`sent
    {
      before <= sent <= before + rest
    }

    lemma PartlyAt(before: seq<Msg>, rest: seq<Msg>, n: nat)
      requires n <= |rest| && sent == before + rest[..n]
      ensures Partly(before, rest)
    {
      assert rest == rest[..n] + rest[n..];
      assert before + rest == sent + rest[n..];
    }
  }

  predicate StartThenRenewals(calls: seq<Call>) {
    forall k | 0 <= k < |calls| :: calls[k].renewal <==> k > 0
  }

  /** The calls after one more section of the last one. */
  ghost function Extended(calls: seq<Call>, a: Act): seq<Call>
    requires calls != []
  {
    var n := |calls| - 1;
    calls[..n] + [calls[n].(acts := calls[n].acts + [a])]
  }

  lemma SessionExtended(reuse: bool, calls: seq<Call>, a: Act)
    requires calls != []
    ensures var last, after := calls[|calls| - 1], Extended(calls, a);
            && SessionMsgs(reuse, after) == SessionMsgs(reuse, calls) + [Msg(KindOf(a), CounterOf(LiveOf(last), a))]
            && LiveOf(after[|after| - 1]) == Do(LiveOf(last), a)
  {
    hide SetupEnd, SetupMsgs, InitMsgs;
    var n := |calls| - 1;
    var c := calls[n];
    var after := Extended(calls, a);
    assert after[..n] == calls[..n];
    assert after[n].acts[..|c.acts|] == c.acts;
    assert Base(after[n]) == Base(c);
    SameLead(reuse, calls, after, n);
    assert CallMsgs(after[n]) == CallMsgs(c) + [Msg(KindOf(a), CounterOf(LiveOf(c), a))];
    hide CallMsgs, Lead, LiveOf;
  }

  lemma SameLead(reuse: bool, calls: seq<Call>, after: seq<Call>, n: nat)
    requires n < |calls| && n < |after| && calls[..n] == after[..n] && calls[n].initTs == after[n].initTs
    ensures Lead(reuse, calls, n) == Lead(reuse, after, n)
  {
    hide LiveOf, InitMsgs;
    if n > 0 {
      assert calls[..n][n - 1] == after[..n][n - 1];
    }
  }

  /** Where each part of a renewal's messages begins. */
  lemma RenewalAt(counter: nat, initTs: u32, codec: seq<Reply>, link: seq<Reply>)
    ensures var due, init, offer, accept := RenewalMsgs(counter, initTs, codec, link), InitMsgs(initTs),
                                            OfferMsgs(CallTs(initTs), codec), AcceptMsgs(CallTs(initTs), codec, link);
            var n, o, a := 1 + |init|, 1 + |init| + |offer|, 1 + |init| + |offer| + |accept|;
            && |due| == a + 1 && due[0] == Msg(CallEndAck, counter + BYTE5)
            && due[a] == Msg(RenewalPeer, Base(Call(initTs, true, codec, link, [])))
            && init <= due[1..] && offer <= due[n..] && accept <= due[o..]
            && due[..1] + init == due[..n] && due[..n] + offer == due[..o] && due[..o] + accept == due[..a]
            && due[..a + 1] == due
  {
    hide SetupEnd, OfferMsgs, AcceptMsgs, InitMsgs, CallTs;
    var peer := Msg(RenewalPeer, Base(Call(initTs, true, codec, link, [])));
    FiveParts(Msg(CallEndAck, counter + BYTE5), InitMsgs(initTs), OfferMsgs(CallTs(initTs), codec),
              AcceptMsgs(CallTs(initTs), codec, link), peer);
  }

  lemma FiveParts(first: Msg, init: seq<Msg>, offer: seq<Msg>, accept: seq<Msg>, last: Msg)
    ensures var due := [first] + (init + (offer + (accept + [last])));
            var n, o, a := 1 + |init|, 1 + |init| + |offer|, 1 + |init| + |offer| + |accept|;
            && |due| == a + 1 && due[0] == first && due[a] == last
            && init <= due[1..] && offer <= due[n..] && accept <= due[o..]
            && due[..1] + init == due[..n] && due[..n] + offer == due[..o] && due[..o] + accept == due[..a]
            && due[..a + 1] == due
  {
    var due := [first] + (init + (offer + (accept + [last])));
    var n, o, a := 1 + |init|, 1 + |init| + |offer|, 1 + |init| + |offer| + |accept|;
    PartAt(due, [first], init, offer + (accept + [last]));
    assert [first] + init + (offer + (accept + [last])) == due;
    PartAt(due, [first] + init, offer, accept + [last]);
    assert [first] + init + offer + (accept + [last]) == due;
    PartAt(due, [first] + init + offer, accept, [last]);
  }

  lemma PartAt(due: seq<Msg>, before: seq<Msg>, part: seq<Msg>, after: seq<Msg>)
    requires due == before + (part + after)
    ensures |due| == |before| + |part| + |after|
    ensures part <= due[|before|..] && due[..|before|] + part == due[..|before| + |part|]
    ensures due[..|before|] == before && due[|before| + |part|..] == after
  {
  }

  lemma RenewedMsgs(reuse: bool, calls: seq<Call>, call: Call)
    requires calls != [] && call.renewal && call.acts == []
    ensures SessionMsgs(reuse, calls + [call])
         == SessionMsgs(reuse, calls) + RenewalMsgs(LiveOf(calls[|calls| - 1]).monitor, call.initTs, call.codec, call.link)
    ensures LiveOf(call) == Live(Base(call), Base(call))
  {
    hide SetupEnd, OfferMsgs, AcceptMsgs, InitMsgs, CallTs, Lead, RenewalMsgs;
    var all, monitor := calls + [call], LiveOf(calls[|calls| - 1]).monitor;
    assert all[..|calls|] == calls;
    assert CallMsgs(call) == Opening(call) && LiveOf(call) == Live(Base(call), Base(call));
    hide LiveOf, CallMsgs, Opening, Base;
    RenewalLead(reuse, calls, call);
    RenewalOpening(monitor, call);
    Regroup(SessionMsgs(reuse, calls), Lead(reuse, all, |calls|), CallMsgs(call), []);
    assert CallMsgs(call) + [] == CallMsgs(call);
  }

  lemma RenewalLead(reuse: bool, calls: seq<Call>, call: Call)
    requires calls != []
    ensures Lead(reuse, calls + [call], |calls|)
         == [Msg(CallEndAck, LiveOf(calls[|calls| - 1]).monitor + BYTE5)] + InitMsgs(call.initTs)
  {
    hide LiveOf, InitMsgs;
  }

  /** What `start` sends when nothing fails. */
  function StartMsgs(reuse: bool, initTs: u32, codec: seq<Reply>, link: seq<Reply>): seq<Msg> {
    (if reuse then [] else InitMsgs(initTs)) + (OfferMsgs(CallTs(initTs), codec) + AcceptMsgs(CallTs(initTs), codec, link))
  }

  lemma StartAt(lead: seq<Msg>, offer: seq<Msg>, accept: seq<Msg>, due: seq<Msg>)
    requires due == lead + (offer + accept)
    ensures var n, o := |lead|, |lead| + |offer|;
            && lead <= due && offer <= due[n..] && accept <= due[o..]
            && due[..n] == lead && due[..n] + offer == due[..o] && due[..o] + accept == due
  {
    assert due[|lead|..] == offer + accept;
    assert due[|lead| + |offer|..] == accept;
  }

  lemma StartIsSession(reuse: bool, call: Call)
    requires !call.renewal && call.acts == []
    ensures SessionMsgs(reuse, [call]) == StartMsgs(reuse, call.initTs, call.codec, call.link)
    ensures LiveOf(call) == Live(Base(call), Base(call))
    ensures Base(call) == SetupEnd(CallTs(call.initTs), call.codec, call.link)
  {
    hide SetupEnd, OfferMsgs, AcceptMsgs, InitMsgs, CallTs;
    assert [call][..0] == [];
  }

  lemma OngoingWire(reuse: bool, calls: seq<Call>)
    ensures WireMsgs(reuse, calls, Ongoing) == SessionMsgs(reuse, calls)
  {
  }

  lemma CutWire(reuse: bool, calls: seq<Call>, ending: Ending)
    requires WellEnded(calls, ending) && ending.Cut? && ending.late == []
    ensures WireMsgs(reuse, calls, ending)
         == SessionMsgs(reuse, calls) + RenewalOf(calls[|calls| - 1], ending.call)[..ending.n]
  {
    hide SessionMsgs, RenewalOf, LiveOf;
  }

  lemma LateWire(reuse: bool, calls: seq<Call>, ending: Ending, kind: Kind)
    requires WellEnded(calls, ending) && ending.Cut?
    ensures WellEnded(calls, ending.(late := ending.late + [kind]))
    ensures WireMsgs(reuse, calls, ending.(late := ending.late + [kind]))
         == WireMsgs(reuse, calls, ending)
            + [Msg(kind, LiveOf(calls[|calls| - 1]).shared + |ending.late| * BYTE4 + BYTE4)]
  {
    hide SessionMsgs, RenewalOf, LiveOf, LateMsgs;
    LateNext(LiveOf(calls[|calls| - 1]).shared, ending.late, kind);
  }

  lemma PrefixOfCut(before: seq<Msg>, due: seq<Msg>, n: nat, all: seq<Msg>)
    requires before <= all && n <= |due| && (before == all || n == 0)
    ensures before + due[..n] <= all + due[..n]
  {
  }

  // ---- Session ids on the wire ------------------------------------------------------------

  /** What is on the wire in any reachable session: after the ACK of the m-th CALL_END, whose
      renewal was completed, no message carries a session id that no later call uses; not even
      if a later renewal is cut short, or the connection dies. */
  lemma WireAvoidsOldId(session: VideoCallSession, m: nat, id: nat)
    requires session.Valid() && 0 < m < |session.calls|
    requires forall k | m <= k < |session.calls| :: CallAvoids(session.calls[k], id)
    requires session.ending.Cut? ==> CallAvoids(session.ending.call, id)
    ensures var start := |SessionMsgs(session.reuse, session.calls[..m])| + 1;
            forall i | start <= i < |session.sent| :: SessionId(session.sent[i].counter) != id
  {
    hide SessionMsgs, WireMsgs, SessionId, CallAvoids, LiveOf;
    var reuse, calls, ending, sent := session.reuse, session.calls, session.ending, session.sent;
    CompletedKeepAway(reuse, calls, ending, m, id);
    var all, start := WireMsgs(reuse, calls, ending), |SessionMsgs(reuse, calls[..m])| + 1;
    forall i | start <= i < |sent|
      ensures SessionId(sent[i].counter) != id
    {
      assert sent[i] == all[i] == all[start..][i - start];
    }
  }

  /** After a renewal that was cut short on a live connection, an id the new call does not use is
      on the wire again if and only if it is the old call's and a door open or answer that was
      waiting for the lock has run since. */
  lemma WireAfterCutIff(session: VideoCallSession, id: nat)
    requires session.Valid() && session.started && session.sendsLeft > 0
    requires session.ending.Cut? && session.ending.n >= 1 && CallAvoids(session.ending.call, id)
    ensures var start := |SessionMsgs(session.reuse, session.calls)| + 1;
            (exists i | start <= i < |session.sent| :: SessionId(session.sent[i].counter) == id)
              <==> id == IdOf(session.calls[|session.calls| - 1]) && session.ending.late != []
  {
    hide SessionMsgs, RenewalOf, SessionId, CallAvoids, LiveOf, LateMsgs, IdOf;
    var calls, ending, sent := session.calls, session.ending, session.sent;
    var last := calls[|calls| - 1];
    OldIdComesBackIff(last, ending, id);
    var start := |SessionMsgs(session.reuse, calls)| + 1;
    assert sent[start..] == AfterCut(last, ending);
    assert forall i | start <= i < |sent| :: sent[i] == sent[start..][i - start];
    assert forall j | 0 <= j < |sent[start..]| :: sent[start..][j] == sent[start + j];
  }

  /** Such a run: a door open passes its check, the monitor's renewal is cancelled after its
      second message, and the door open then sends the old call's id after the new init. */
  method CutShortRun() returns (wire: seq<Msg>)
    ensures |wire| == 8 && wire[0] == Msg(CallInit, 1001) && wire[6] == Msg(CtppInit, 1005)
    ensures wire[7].kind == DoorOpen && SessionId(wire[7].counter) == SessionId(1001)
    ensures SessionId(1001) != SessionId(1005) && SessionId(1001) != SessionId(CallTs(1005))
  {
    hide SessionMsgs, WireMsgs, StartMsgs, RenewalMsgs, RenewalOf, Base, LiveOf;
    var session := new VideoCallSession(100);
    ShortStart(1000);
    var r := session.Start(true, 1000, [], [], Opens(true, true, true, true));
    OngoingWire(true, session.calls);
    assert r.Success?;
    ghost var sofar := session.sent;
    assert |sofar| == 5 && session.shared == 1001 + 3 * BYTE4;
    var may := session.MayOpenDoor(true);
    assert may;
    ShortRenewal(session.monitor, 1005);
    r := session.MonitorCallEnd(1005, [], [], Some(2));
    assert session.sent == sofar + [Msg(CallEndAck, 1001 + 3 * BYTE4 + BYTE5), Msg(CtppInit, 1005)];
    session.Cleanup();
    r := session.SendBump(DoorOpen);
    wire := session.sent;
  }

  /** With no device replies the start is five messages. */
  lemma ShortStart(initTs: u32)
    ensures var c := CallTs(initTs);
            StartMsgs(true, initTs, [], []) ==
            [Msg(CallInit, c), Msg(CodecAck, c + BYTE4), Msg(RtpcLink, c + BYTE4), Msg(VideoConfig, c + 2 * BYTE4), Msg(HangupZero, c + 3 * BYTE4)]
    ensures SessionMsgs(true, [Call(initTs, false, [], [], [])]) == StartMsgs(true, initTs, [], [])
    ensures Base(Call(initTs, false, [], [], [])) == CallTs(initTs) + 3 * BYTE4
  {
    StartIsSession(true, Call(initTs, false, [], [], []));
  }

  lemma ShortRenewal(counter: nat, initTs: u32)
    ensures |RenewalMsgs(counter, initTs, [], [])| >= 2
    ensures RenewalMsgs(counter, initTs, [], [])[..2] == [Msg(CallEndAck, counter + BYTE5), Msg(CtppInit, initTs)]
  {
  }

  lemma AcksUnfold(react: Reply -> Reaction, counter: nat, replies: seq<Reply>, i: nat, tries: nat)
    ensures Acks(react, counter, replies, i, tries) ==
            if tries == 0 then []
            else
              match react(ReplyAt(replies, i))
              case Stop => []
              case Ignore => Acks(react, counter, replies, i + 1, tries - 1)
              case Ack(step, accepted) =>
                [counter + step] + (if accepted then [] else Acks(react, counter + step, replies, i + 1, tries - 1))
  {
  }

  lemma AcksStep(react: Reply -> Reaction, all: seq<nat>, done: seq<nat>, counter: nat, replies: seq<Reply>, i: nat, tries: nat)
    requires tries > 0 && all == done + Acks(react, counter, replies, i, tries)
    ensures match react(ReplyAt(replies, i))
            case Stop => all == done
            case Ignore => all == done + Acks(react, counter, replies, i + 1, tries - 1)
            case Ack(step, accepted) =>
              all == done + [counter + step] + (if accepted then [] else Acks(react, counter + step, replies, i + 1, tries - 1))
  {
  }

  lemma MsgsOf(kind: Kind, counters: seq<nat>)
    ensures |Msgs(kind, counters)| == |counters|
    ensures forall i | 0 <= i < |counters| :: Msgs(kind, counters)[i] == Msg(kind, counters[i])
  {
  }

  lemma OfferAt(callTs: nat, codec: seq<Reply>, rest: seq<Msg>)
    requires OfferMsgs(callTs, codec) <= rest
    ensures var x := Msgs(ExchangeAck, ExchangeAcks(callTs, codec));
            var n := |x|;
            var c := AfterExchange(callTs, codec);
            && n + 4 <= |rest| && x <= rest[2..] && rest[2..n + 2] == x
            && rest[0] == Msg(CallInit, callTs) && rest[1] == Msg(CodecAck, callTs + BYTE4)
            && rest[n + 2] == Msg(RtpcLink, c) && rest[n + 3] == Msg(VideoConfig, c + BYTE4)
            && OfferMsgs(callTs, codec) == rest[..n + 4]
            && rest[..2] + x == rest[..n + 2]
  {
    hide Acks, Msgs;
    var x := Msgs(ExchangeAck, ExchangeAcks(callTs, codec));
    var all := OfferMsgs(callTs, codec);
    var n, c := |x|, AfterExchange(callTs, codec);
    assert rest[..n + 4] == all;
    assert all[2..n + 2] == x;
    assert all[n + 2..] == [Msg(RtpcLink, c), Msg(VideoConfig, c + BYTE4)];
    assert rest[2..n + 2] == x;
  }

  lemma AcceptAt(callTs: nat, codec: seq<Reply>, link: seq<Reply>, rest: seq<Msg>)
    requires AcceptMsgs(callTs, codec, link) <= rest
    ensures var l := Msgs(LinkAck, LinkAcks(callTs, codec, link));
            && l <= rest && |l| < |rest| && rest[|l|] == Msg(HangupZero, SetupEnd(callTs, codec, link))
            && AcceptMsgs(callTs, codec, link) == rest[..|l| + 1] && rest[..|l|] == l
  {
    hide Acks, Msgs;
    var l := Msgs(LinkAck, LinkAcks(callTs, codec, link));
    assert rest[..|l| + 1] == AcceptMsgs(callTs, codec, link);
  }

  lemma MsgsNext(kind: Kind, done: seq<nat>, counter: nat, later: seq<nat>, rest: seq<Msg>)
    requires Msgs(kind, done + [counter] + later) <= rest
    ensures |done| < |rest| && rest[|done|] == Msg(kind, counter)
    ensures Msgs(kind, done) == rest[..|done|]
    ensures Msgs(kind, done + [counter]) == Msgs(kind, done) + [Msg(kind, counter)] == rest[..|done| + 1]
  {
    MsgsOf(kind, done + [counter] + later);
  }
}
