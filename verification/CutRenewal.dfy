/** What a session has on the wire when a renewal is cut short: the renewal holds the channel
    lock, so door opens and answers that were waiting for it go out afterwards, with the old
    call's counter. */
module CutRenewals {
  import opened Bytes
  import opened CallCounter

  /** What a renewal sends when CALL_END finds the monitor at `counter`. */
  function RenewalMsgs(counter: nat, initTs: u32, codec: seq<Reply>, link: seq<Reply>): seq<Msg> {
    var callTs := CallTs(initTs);
    [Msg(CallEndAck, counter + BYTE5)]
    + (InitMsgs(initTs)
       + (OfferMsgs(callTs, codec)
          + (AcceptMsgs(callTs, codec, link) + [Msg(RenewalPeer, SetupEnd(callTs, codec, link) + BYTE4)])))
  }

  /** How the session's calls go on: Cut when a renewal stopped after n messages, with the
      sections that have run since. */
  datatype Ending = Ongoing | Cut(call: Call, n: nat, late: seq<Kind>)

  function RenewalOf(last: Call, next: Call): seq<Msg> {
    RenewalMsgs(LiveOf(last).monitor, next.initTs, next.codec, next.link)
  }

  predicate WellEnded(calls: seq<Call>, ending: Ending) {
    ending.Cut? ==>
      && calls != [] && ending.call.renewal && ending.call.acts == []
      && ending.n <= |RenewalOf(calls[|calls| - 1], ending.call)|
  }

  /** Door opens and answers step the shared counter, wherever it was left. */
  function LateMsgs(shared: nat, late: seq<Kind>): seq<Msg> {
    seq(|late|, i requires 0 <= i < |late| => Msg(late[i], shared + (i + 1) * BYTE4))
  }

  /** Everything the session sends on CTPP. */
  function WireMsgs(reuse: bool, calls: seq<Call>, ending: Ending): seq<Msg>
    requires WellEnded(calls, ending)
  {
    SessionMsgs(reuse, calls)
    + match ending
      case Ongoing => []
      case Cut(call, n, late) =>
        RenewalOf(calls[|calls| - 1], call)[..n] + LateMsgs(LiveOf(calls[|calls| - 1]).shared, late)
  }

  /** The session id of a call. */
  function IdOf(c: Call): nat {
    SessionId(CallTs(c.initTs))
  }

  // ---- What a renewal sends, as init and call ------------------------------------------

  lemma RenewalOpening(monitor: nat, call: Call)
    requires call.renewal
    ensures [Msg(CallEndAck, monitor + BYTE5)] + InitMsgs(call.initTs) + Opening(call)
         == RenewalMsgs(monitor, call.initTs, call.codec, call.link)
  {
    hide SetupEnd, OfferMsgs, AcceptMsgs, InitMsgs, CallTs;
  }

  lemma RenewalParts(last: Call, next: Call)
    requires next.renewal && next.acts == []
    ensures |RenewalOf(last, next)| > 0
    ensures RenewalOf(last, next)[0] == Msg(CallEndAck, LiveOf(last).monitor + BYTE5)
    ensures RenewalOf(last, next)[1..] == InitMsgs(next.initTs) + CallMsgs(next)
  {
    hide LiveOf, InitMsgs, Opening, Base, RenewalMsgs;
    RenewalOpening(LiveOf(last).monitor, next);
    assert LiveMsgs(Live(Base(next), Base(next)), []) == [];
    assert CallMsgs(next) == Opening(next);
    var ack := [Msg(CallEndAck, LiveOf(last).monitor + BYTE5)];
    assert ack + InitMsgs(next.initTs) + Opening(next) == ack + (InitMsgs(next.initTs) + Opening(next));
  }

  /** The cut renewal's messages after its first use none but the new call's ids. */
  lemma CutPartAvoids(last: Call, next: Call, n: nat, id: nat)
    requires next.renewal && next.acts == [] && CallAvoids(next, id) && 1 <= n <= |RenewalOf(last, next)|
    ensures Avoids(RenewalOf(last, next)[1..n], id)
  {
    RenewalParts(last, next);
    InitMsgsAvoidIff(next.initTs, id);
    CallMsgsAvoidIff(next, id);
    hide RenewalOf, InitMsgs, CallMsgs, SessionId, CallTs;
    AvoidsConcat(InitMsgs(next.initTs), CallMsgs(next), id);
    var all := RenewalOf(last, next)[1..];
    assert all[..n - 1] == RenewalOf(last, next)[1..n];
    assert all == all[..n - 1] + all[n - 1..];
    AvoidsConcat(all[..n - 1], all[n - 1..], id);
  }

  lemma LateCarryId(shared: nat, late: seq<Kind>, i: nat)
    requires i < |late|
    ensures SessionId(LateMsgs(shared, late)[i].counter) == SessionId(shared)
  {
  }

  lemma SharedId(c: Call)
    ensures SessionId(LiveOf(c).shared) == IdOf(c) && SessionId(LiveOf(c).monitor + BYTE5) == IdOf(c)
  {
    hide SetupEnd, CallTs, RunLive;
    CallCarriesOneId(c);
    MonitorPacing(Base(c), c.acts);
    StepKeepsId(LiveOf(c).monitor);
    hide SessionId;
  }

  lemma LateAvoidIff(c: Call, late: seq<Kind>, id: nat)
    ensures Avoids(LateMsgs(LiveOf(c).shared, late), id) <==> late == [] || id != IdOf(c)
  {
    SharedId(c);
    var shared := LiveOf(c).shared;
    hide LiveOf, IdOf;
    forall i | 0 <= i < |late| ensures SessionId(LateMsgs(shared, late)[i].counter) == SessionId(shared) {
      LateCarryId(shared, late, i);
    }
    hide SessionId;
    if late != [] {
      assert SessionId(LateMsgs(shared, late)[0].counter) == SessionId(shared);
    }
  }

  lemma LateNext(shared: nat, late: seq<Kind>, kind: Kind)
    ensures LateMsgs(shared, late + [kind]) == LateMsgs(shared, late) + [Msg(kind, shared + (|late| + 1) * BYTE4)]
  {
  }

  // ---- When the old id comes back ------------------------------------------------------------

  /** What is sent after the cut renewal's ACK of CALL_END. */
  function AfterCut(last: Call, ending: Ending): seq<Msg>
    requires ending.Cut? && 1 <= ending.n <= |RenewalOf(last, ending.call)|
  {
    RenewalOf(last, ending.call)[1..ending.n] + LateMsgs(LiveOf(last).shared, ending.late)
  }

  /** After a renewal that was cut short, an id the new call does not use comes back if and only
      if it is the old call's and a door open or answer has run since. */
  lemma OldIdComesBackIff(last: Call, ending: Ending, id: nat)
    requires ending.Cut? && ending.call.renewal && ending.call.acts == []
    requires 1 <= ending.n <= |RenewalOf(last, ending.call)| && CallAvoids(ending.call, id)
    ensures !Avoids(AfterCut(last, ending), id) <==> id == IdOf(last) && ending.late != []
  {
    CutPartAvoids(last, ending.call, ending.n, id);
    LateAvoidIff(last, ending.late, id);
    hide Avoids, RenewalOf, LateMsgs, LiveOf, IdOf;
    AvoidsConcat(RenewalOf(last, ending.call)[1..ending.n], LateMsgs(LiveOf(last).shared, ending.late), id);
  }

  /** Completed renewals keep every earlier id away, even if a later renewal is cut short. */
  lemma CompletedKeepAway(reuse: bool, calls: seq<Call>, ending: Ending, m: nat, id: nat)
    requires WellEnded(calls, ending) && 0 < m < |calls|
    requires forall k | m <= k < |calls| :: CallAvoids(calls[k], id)
    requires ending.Cut? ==> CallAvoids(ending.call, id)
    ensures var start := |SessionMsgs(reuse, calls[..m])| + 1;
            start <= |WireMsgs(reuse, calls, ending)| && Avoids(WireMsgs(reuse, calls, ending)[start..], id)
  {
    hide SessionMsgs, AfterRenewal, LiveOf, SessionId, Avoids, RenewalOf, LateMsgs;
    var last := calls[|calls| - 1];
    AfterRenewalIsSuffix(reuse, calls, m);
    OldIdNeverReturnsIff(reuse, calls, m, id);
    var before, after, start := SessionMsgs(reuse, calls), AfterRenewal(reuse, calls, m), |SessionMsgs(reuse, calls[..m])| + 1;
    assert before[start..] == after;
    if ending.Ongoing? {
      assert WireMsgs(reuse, calls, ending) == before;
    } else {
      assert CallAvoids(last, id);
      var tail := RenewalOf(last, ending.call)[..ending.n] + LateMsgs(LiveOf(last).shared, ending.late);
      TailAvoids(last, ending, id);
      assert WireMsgs(reuse, calls, ending)[start..] == after + tail;
      AvoidsConcat(after, tail, id);
    }
  }

  lemma TailAvoids(last: Call, ending: Ending, id: nat)
    requires ending.Cut? && ending.call.renewal && ending.call.acts == [] && ending.n <= |RenewalOf(last, ending.call)|
    requires CallAvoids(ending.call, id) && id != IdOf(last)
    ensures Avoids(RenewalOf(last, ending.call)[..ending.n] + LateMsgs(LiveOf(last).shared, ending.late), id)
  {
    LateAvoidIff(last, ending.late, id);
    var due, n := RenewalOf(last, ending.call), ending.n;
    if n > 0 {
      CutPartAvoids(last, ending.call, n, id);
      RenewalParts(last, ending.call);
      SharedId(last);
      OneAvoidsIff(due[0], id);
      AvoidsConcat([due[0]], due[1..n], id);
      assert due[..n] == [due[0]] + due[1..n];
    }
    AvoidsConcat(due[..n], LateMsgs(LiveOf(last).shared, ending.late), id);
  }

  // ---- 32 bits, also after a cut ---------------------------------------------------------------

  lemma LateFit(c: Call, late: seq<Kind>)
    requires InBudget(c.(acts := c.acts + seq(|late|, _ => Keepalive)), false)
    ensures Packable(LateMsgs(LiveOf(c).shared, late))
  {
    hide SetupEnd, CallTs, RunLive, SessionId;
    CallCarriesOneId(c);
    MonitorPacing(Base(c), c.acts);
  }

  lemma PackablePart(msgs: seq<Msg>, n: nat)
    requires n <= |msgs| && Packable(msgs)
    ensures Packable(msgs[..n])
  {
  }

  lemma RenewalFits(last: Call, next: Call)
    requires InBudget(last, true) && InBudget(next, false) && next.renewal && next.acts == []
    ensures Packable(RenewalOf(last, next))
  {
    RenewalParts(last, next);
    CallFits(last, true);
    CallFits(next, false);
    InitFits(next.initTs);
    AckFits(LiveOf(last).monitor + BYTE5);
    hide InBudget, RenewalOf, InitMsgs, CallMsgs, LiveOf, Packable;
    var ack := Msg(CallEndAck, LiveOf(last).monitor + BYTE5);
    PackableConcat(InitMsgs(next.initTs), CallMsgs(next));
    PackableConcat([ack], InitMsgs(next.initTs) + CallMsgs(next));
    assert RenewalOf(last, next) == [ack] + RenewalOf(last, next)[1..];
  }

  /** Every message on the wire can be packed when each call stays in its budget, the last one
      together with the sections that run after a cut. */
  lemma WireFits(reuse: bool, calls: seq<Call>, ending: Ending)
    requires WellEnded(calls, ending)
    requires forall k | 0 <= k < |calls| :: InBudget(calls[k], k < |calls| - 1 || ending.Cut?)
    requires ending.Cut? ==>
               var last := calls[|calls| - 1];
               InBudget(ending.call, false) && InBudget(last.(acts := last.acts + seq(|ending.late|, _ => Keepalive)), false)
    ensures Packable(WireMsgs(reuse, calls, ending))
  {
    hide InBudget, RenewalOf, LateMsgs, LiveOf, Packable, SessionMsgs;
    forall k | 0 <= k < |calls| ensures InBudget(calls[k], k < |calls| - 1) {
      LessBudget(calls[k]);
      assert InBudget(calls[k], k < |calls| - 1 || ending.Cut?);
    }
    SessionFits(reuse, calls);
    if ending.Ongoing? {
      assert WireMsgs(reuse, calls, ending) == SessionMsgs(reuse, calls);
    } else {
      var last := calls[|calls| - 1];
      assert InBudget(last, |calls| - 1 < |calls| - 1 || ending.Cut?);
      RenewalFits(last, ending.call);
      PackablePart(RenewalOf(last, ending.call), ending.n);
      LateFit(last, ending.late);
      PackableConcat(RenewalOf(last, ending.call)[..ending.n], LateMsgs(LiveOf(last).shared, ending.late));
      PackableConcat(SessionMsgs(reuse, calls), RenewalOf(last, ending.call)[..ending.n] + LateMsgs(LiveOf(last).shared, ending.late));
    }
  }
}
