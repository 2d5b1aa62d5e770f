/** The server's two routes for the same device stream: header rewriting of each packet
    (fast), and reassembly followed by fragmentation (slow). */
module MediaPaths {
  import opened Bytes
  import opened Rtp
  import opened H264
  import opened VideoClock

  /** Packets a route put out and the clock it left behind. */
  datatype Sent = Sent(clock: Clock, pkts: seq<seq<byte>>)

  // ---- Fast: one round of `_video_rtp_passthrough_loop` per packet -----------

  function FastStep(s: Sent, built: nat, rtp: seq<byte>): Sent {
    if |rtp| <= 12 then s
    else
      var clock := Translate(s.clock, TimestampOf(rtp));
      Sent(clock, s.pkts + [Rewrite(rtp, (built + |s.pkts|) % MOD16, clock.out)])
  }

  function Fast(c: Clock, built: nat, rtps: seq<seq<byte>>): Sent {
    if rtps == [] then Sent(c, [])
    else FastStep(Fast(c, built, rtps[..|rtps| - 1]), built, rtps[|rtps| - 1])
  }

  // ---- Slow: `_drain_nal_queue_fallback` -------------------------------------

  function StripStartCode(nal: seq<byte>): seq<byte> {
    if |nal| >= 4 && nal[..4] == [0, 0, 0, 1] then nal[4..]
    else if |nal| >= 3 && nal[..3] == [0, 0, 1] then nal[3..]
    else nal
  }

  /** A start code of four or of three bytes is taken off, nothing else is. */
  lemma StartCodesStripped(nal: seq<byte>)
    ensures StripStartCode([0, 0, 0, 1] + nal) == nal && StripStartCode([0, 0, 1] + nal) == nal
    ensures (|nal| < 4 || nal[..4] != [0, 0, 0, 1]) && (|nal| < 3 || nal[..3] != [0, 0, 1]) ==> StripStartCode(nal) == nal
  {
    assert ([0, 0, 0, 1] + nal)[..4] == [0, 0, 0, 1] && ([0, 0, 0, 1] + nal)[4..] == nal;
    assert ([0, 0, 1] + nal)[..3] == [0, 0, 1] && ([0, 0, 1] + nal)[3..] == nal;
    if |nal| > 0 {
      assert ([0, 0, 1] + nal)[..4] == [0, 0, 1, nal[0]];
    }
  }

  function SlowStep(s: Sent, built: nat, item: Item): Sent {
    var nal := StripStartCode(item.nal);
    if nal == [] then s
    else
      var clock := Translate(s.clock, item.ts);
      Sent(clock, s.pkts + Packets(built + |s.pkts|, clock.out, Packetise(nal)))
  }

  function Slow(c: Clock, built: nat, items: seq<Item>): Sent {
    if items == [] then Sent(c, [])
    else SlowStep(Slow(c, built, items[..|items| - 1]), built, items[|items| - 1])
  }

  lemma {:induction false} FastAppend(c: Clock, built: nat, a: seq<seq<byte>>, b: seq<seq<byte>>)
    ensures var fa := Fast(c, built, a);
            var fb := Fast(fa.clock, built + |fa.pkts|, b);
            Fast(c, built, a + b) == Sent(fb.clock, fa.pkts + fb.pkts)
    decreases |b|
  {
    hide Translate, Rewrite;
    if b == [] {
      assert a + b == a;
    } else {
      var n := |b| - 1;
      assert (a + b)[..|a| + n] == a + b[..n] && (a + b)[|a| + n] == b[n];
      FastAppend(c, built, a, b[..n]);
    }
  }

  // ---- Device streams made of whole NALs --------------------------------------

  /** One NAL as the device sends it: a single packet, or an in-order FU-A group whose
      fragments share a timestamp. */
  datatype Unit = Unit(ts: u32, nal: seq<byte>, pkts: seq<seq<byte>>)

  predicate IsSingle(u: Unit) {
    |u.pkts| == 1 && Carries(u.pkts[0], u.ts, u.nal)
  }

  predicate IsGroup(u: Unit) {
    && u.pkts != []
    && (forall i | 0 <= i < |u.pkts| :: FuAt(u.pkts, i) && TimestampOf(u.pkts[i]) == u.ts)
    && (forall i | 0 <= i < |u.pkts| :: StartAt(u.pkts, i) <==> i == 0)
    && (forall i | 0 <= i < |u.pkts| :: EndAt(u.pkts, i) <==> i == |u.pkts| - 1)
    && u.nal == [RebuiltHeader(PayloadOf(u.pkts[0]))] + FuBytes(u.pkts, 0, |u.pkts|)
  }

  predicate Whole(u: Unit) {
    if IsSingle(u) then u.nal != [] && 1 <= NalType(u.nal[0]) <= 23 else IsGroup(u) && Packetisable(u.nal)
  }

  predicate AllWhole(us: seq<Unit>) {
    forall u | u in us :: Whole(u)
  }

  function Flat(us: seq<Unit>): seq<seq<byte>> {
    if us == [] then [] else Flat(us[..|us| - 1]) + us[|us| - 1].pkts
  }

  /** Fragment k of a group, on a buffer that holds the ones before it. */
  lemma GroupStep(g: Fua, u: Unit, k: nat)
    requires IsGroup(u) && 0 < k <= |u.pkts|
    requires k > 1 ==> g == Fua(Reassembled(u.pkts, 0, k - 1), u.ts)
    ensures Depacketise(g, u.ts, PayloadOf(u.pkts[k - 1]))
         == if k == |u.pkts| then Received(Fua([], u.ts), [Item(u.ts, Reassembled(u.pkts, 0, k))])
            else Received(Fua(Reassembled(u.pkts, 0, k), u.ts), [])
  {
    hide Depacketise, RebuiltHeader;
    var p := PayloadOf(u.pkts[k - 1]);
    assert FuAt(u.pkts, k - 1) && (StartAt(u.pkts, k - 1) <==> k == 1) && (EndAt(u.pkts, k - 1) <==> k == |u.pkts|);
    FuBytesNext(u.pkts, k);
    FuaStep(g, u.ts, p);
    if k == 1 {
      assert Reassembled(u.pkts, 0, 1) == START_CODE + [RebuiltHeader(p)] + p[2..];
    } else {
      assert Reassembled(u.pkts, 0, k) == Reassembled(u.pkts, 0, k - 1) + p[2..];
    }
    hide FuBytes, Reassembled, PayloadOf, IsGroup;
  }

  /** One fragment on a buffer that is ready for it. */
  lemma FuaStep(g: Fua, ts: u32, p: seq<byte>)
    requires IsFuA(p) && (Starts(p) || (g.buf != [] && g.ts == ts))
    ensures var buf := if Starts(p) then START_CODE + [RebuiltHeader(p)] + p[2..] else g.buf + p[2..];
            Depacketise(g, ts, p) == if Ends(p) then Received(Fua([], ts), [Item(ts, buf)]) else Received(Fua(buf, ts), [])
  {
  }

  lemma FuBytesNext(pkts: seq<seq<byte>>, k: nat)
    requires 0 < k <= |pkts| && FuAt(pkts, k - 1)
    ensures FuBytes(pkts, 0, k) == FuBytes(pkts, 0, k - 1) + PayloadOf(pkts[k - 1])[2..]
    ensures k == 1 ==> FuBytes(pkts, 0, k) == PayloadOf(pkts[0])[2..]
  {
  }

  lemma GroupPacket(u: Unit, k: nat)
    requires IsGroup(u) && 0 < k <= |u.pkts|
    ensures Carries(u.pkts[k - 1], u.ts, PayloadOf(u.pkts[k - 1])) && StartAt(u.pkts, 0)
  {
    assert FuAt(u.pkts, k - 1);
  }

  lemma {:induction false} GroupPrefix(f: Fua, u: Unit, k: nat)
    requires IsGroup(u) && StartAt(u.pkts, 0) && 0 < k < |u.pkts|
    ensures ReceiveAll(f, u.pkts[..k]) == Received(Fua(Reassembled(u.pkts, 0, k), u.ts), [])
  {
    var g := ReceiveAll(f, u.pkts[..k - 1]).fua;
    assert u.pkts[..0] == [];
    assert ReceiveAll(f, []) == Received(f, []);
    GroupPacket(u, k);
    hide IsGroup, Depacketise, Reassembled, ReceiveAll, StartAt, Carries, PayloadOf;
    ReceiveLast(f, u.pkts, k, u.ts, PayloadOf(u.pkts[k - 1]));
    if k > 1 {
      GroupPrefix(f, u, k - 1);
    }
    GroupStep(g, u, k);
  }

  /** A whole unit yields its NAL from any reassembly state. */
  lemma ReceiveUnit(f: Fua, u: Unit)
    requires Whole(u)
    ensures ReceiveAll(f, u.pkts).items == [Item(u.ts, START_CODE + u.nal)]
  {
    assert u.pkts[..0] == [] && u.pkts[..|u.pkts|] == u.pkts;
    assert ReceiveAll(f, []) == Received(f, []);
    if IsSingle(u) {
      hide ReceiveAll;
      ReceiveLast(f, u.pkts, 1, u.ts, u.nal);
    } else {
      ReceiveGroup(f, u);
    }
  }

  lemma ReceiveGroup(f: Fua, u: Unit)
    requires IsGroup(u)
    ensures ReceiveAll(f, u.pkts).items == [Item(u.ts, START_CODE + u.nal)]
  {
    var n := |u.pkts|;
    assert u.pkts[..0] == [] && u.pkts[..n] == u.pkts;
    assert ReceiveAll(f, []) == Received(f, []);
    GroupPacket(u, n);
    assert START_CODE + u.nal == Reassembled(u.pkts, 0, n);
    hide IsGroup, Depacketise, Reassembled, ReceiveAll, StartAt, Carries, PayloadOf;
    ReceiveLast(f, u.pkts, n, u.ts, PayloadOf(u.pkts[n - 1]));
    if n > 1 {
      GroupPrefix(f, u, n - 1);
    }
    GroupStep(ReceiveAll(f, u.pkts[..n - 1]).fua, u, n);
  }

  // ---- The fast path sends a unit on as a unit ---------------------------------

  /** Same length, and packet by packet the same payload under the translated timestamp. */
  predicate Mirrors(u: Unit, ts: u32, pkts: seq<seq<byte>>) {
    |pkts| <= |u.pkts|
    && forall i | 0 <= i < |pkts| :: |u.pkts[i]| >= 12 && Carries(pkts[i], ts, PayloadOf(u.pkts[i]))
  }

  lemma UnitPacket(u: Unit, k: nat)
    requires Whole(u) && 0 < k <= |u.pkts|
    ensures var rtp := u.pkts[k - 1]; IsVideo(rtp) && |rtp| > 12 && TimestampOf(rtp) == u.ts
  {
    assert IsGroup(u) ==> FuAt(u.pkts, k - 1);
  }

  lemma {:induction false} FastMirrors(c: Clock, built: nat, u: Unit, k: nat)
    requires Whole(u) && Tracking(c) && 0 < k <= |u.pkts|
    ensures var s := Fast(c, built, u.pkts[..k]);
            s.clock == Translate(c, u.ts) && |s.pkts| == k && Mirrors(u, s.clock.out, s.pkts)
  {
    hide Translate, Rewrite, Whole, TimestampOf, IsVideo, PayloadOf;
    var rtp := u.pkts[k - 1];
    UnitPacket(u, k);
    assert u.pkts[..k][..k - 1] == u.pkts[..k - 1];
    var clock := Translate(c, u.ts);
    RewriteFields(rtp, (built + k - 1) % MOD16, clock.out);
    if k == 1 {
      assert u.pkts[..0] == [];
    } else {
      FastMirrors(c, built, u, k - 1);
      TranslateAgain(c, u.ts);
    }
  }

  lemma {:induction false} FuBytesMirror(u: Unit, ts: u32, pkts: seq<seq<byte>>, k: nat)
    requires IsGroup(u) && Mirrors(u, ts, pkts) && k <= |pkts|
    ensures FuBytes(pkts, 0, k) == FuBytes(u.pkts, 0, k)
  {
    if k > 0 {
      FuBytesMirror(u, ts, pkts, k - 1);
      assert FuAt(u.pkts, k - 1);
    }
  }

  lemma MirrorIsWhole(u: Unit, ts: u32, pkts: seq<seq<byte>>)
    requires Whole(u) && Mirrors(u, ts, pkts) && |pkts| == |u.pkts|
    ensures Whole(Unit(ts, u.nal, pkts))
  {
    if IsGroup(u) {
      forall i | 0 <= i < |pkts|
        ensures FuAt(pkts, i) && TimestampOf(pkts[i]) == ts
        ensures StartAt(pkts, i) <==> i == 0
        ensures EndAt(pkts, i) <==> i == |pkts| - 1
      {
        assert FuAt(u.pkts, i) && (StartAt(u.pkts, i) <==> i == 0) && (EndAt(u.pkts, i) <==> i == |pkts| - 1);
      }
      FuBytesMirror(u, ts, pkts, |pkts|);
    }
  }

  // ---- Main results --------------------------------------------------------------

  /** The clock after translating each item's timestamp once. */
  function ClockAfter(c: Clock, items: seq<Item>): Clock {
    if items == [] then c else Translate(ClockAfter(c, items[..|items| - 1]), items[|items| - 1].ts)
  }

  /** The items at their translated times. */
  function Translated(c: Clock, items: seq<Item>): seq<Item> {
    if items == [] then []
    else
      var n := |items| - 1;
      Translated(c, items[..n]) + [Item(ClockAfter(c, items).out, items[n].nal)]
  }

  /** The device's NALs at the device's times, start code in front. */
  function NalItems(us: seq<Unit>): seq<Item> {
    if us == [] then [] else NalItems(us[..|us| - 1]) + [Item(us[|us| - 1].ts, START_CODE + us[|us| - 1].nal)]
  }

  lemma NalItemsLast(us: seq<Unit>)
    requires us != []
    ensures var items := NalItems(us);
            var u := us[|us| - 1];
            items != [] && items[..|items| - 1] == NalItems(us[..|us| - 1])
            && items[|items| - 1] == Item(u.ts, START_CODE + u.nal)
  {
  }

  lemma {:induction false} TrackingAfter(c: Clock, items: seq<Item>)
    requires Tracking(c)
    ensures Tracking(ClockAfter(c, items))
  {
    if items != [] {
      TrackingAfter(c, items[..|items| - 1]);
      TranslateAdvances(ClockAfter(c, items[..|items| - 1]), items[|items| - 1].ts);
    }
  }

  lemma {:induction false} ReceiverSeesUnits(f: Fua, us: seq<Unit>)
    requires AllWhole(us)
    ensures ReceiveAll(f, Flat(us)).items == NalItems(us)
  {
    if us == [] {
      ReceiveNone(f);
    } else {
      var n := |us| - 1;
      ReceiverSeesUnits(f, us[..n]);
      ReceiveAppend(f, Flat(us[..n]), us[n].pkts);
      ReceiveUnit(ReceiveAll(f, Flat(us[..n])).fua, us[n]);
    }
  }

  lemma FastUnit(clock: Clock, built: nat, f: Fua, before: seq<seq<byte>>, u: Unit)
    requires Whole(u) && Tracking(clock)
    ensures Fast(clock, built, u.pkts).clock == Translate(clock, u.ts)
    ensures ReceiveAll(f, before + Fast(clock, built, u.pkts).pkts).items
         == ReceiveAll(f, before).items + [Item(Translate(clock, u.ts).out, START_CODE + u.nal)]
  {
    hide Translate, Rewrite, ReceiveAll, FastStep, Fast;
    var s := Fast(clock, built, u.pkts);
    assert u.pkts[..|u.pkts|] == u.pkts;
    FastMirrors(clock, built, u, |u.pkts|);
    MirrorIsWhole(u, s.clock.out, s.pkts);
    ReceiveAppend(f, before, s.pkts);
    ReceiveUnit(ReceiveAll(f, before).fua, Unit(s.clock.out, u.nal, s.pkts));
  }

  lemma {:induction false} FastDelivers(c: Clock, built: nat, f: Fua, us: seq<Unit>)
    requires AllWhole(us) && Tracking(c)
    ensures Fast(c, built, Flat(us)).clock == ClockAfter(c, NalItems(us))
    ensures ReceiveAll(f, Fast(c, built, Flat(us)).pkts).items == Translated(c, NalItems(us))
  {
    hide Translate, Rewrite, ReceiveAll, FastStep, Whole;
    if us == [] {
      ReceiveNone(f);
    } else {
      var n := |us| - 1;
      FastDelivers(c, built, f, us[..n]);
      TrackingAfter(c, NalItems(us[..n]));
      NalItemsLast(us);
      hide Fast, NalItems;
      var before := Fast(c, built, Flat(us[..n]));
      assert Flat(us) == Flat(us[..n]) + us[n].pkts;
      FastAppend(c, built, Flat(us[..n]), us[n].pkts);
      FastUnit(before.clock, built + |before.pkts|, f, before.pkts, us[n]);
    }
  }

  lemma SlowOne(s: Sent, built: nat, ts: u32, nal: seq<byte>)
    requires nal != []
    ensures SlowStep(s, built, Item(ts, START_CODE + nal)).clock == Translate(s.clock, ts)
    ensures SlowStep(s, built, Item(ts, START_CODE + nal)).pkts
         == s.pkts + Packets(built + |s.pkts|, Translate(s.clock, ts).out, Packetise(nal))
  {
    hide Translate, Packets, Packetise;
    assert (START_CODE + nal)[..4] == [0, 0, 0, 1] && (START_CODE + nal)[4..] == nal;
  }

  /** Items as the receiver queues them, with NALs the server can packetise. */
  predicate Relayable(items: seq<Item>) {
    forall it | it in items ::
      |it.nal| >= 4 && it.nal[..4] == START_CODE && Packetisable(it.nal[4..])
  }

  lemma {:induction false} SlowDelivers(c: Clock, built: nat, f: Fua, items: seq<Item>)
    requires Relayable(items)
    ensures Slow(c, built, items).clock == ClockAfter(c, items)
    ensures ReceiveAll(f, Slow(c, built, items).pkts).items == Translated(c, items)
    ensures f.buf == [] ==> ReceiveAll(f, Slow(c, built, items).pkts).fua.buf == []
  {
    hide Translate, ReceiveAll, SlowStep, Packets, Packetise;
    if items == [] {
      ReceiveNone(f);
    } else {
      var n := |items| - 1;
      assert items[n] in items;
      SlowDelivers(c, built, f, items[..n]);
      var before := Slow(c, built, items[..n]);
      var ts, nal := items[n].ts, items[n].nal[4..];
      assert items[n].nal == START_CODE + nal;
      SlowOne(before, built, ts, nal);
      var out := Translate(before.clock, ts).out;
      PacketsCarry(built + |before.pkts|, out, Packetise(nal));
      RoundTripOneMore(f, before.pkts, Packets(built + |before.pkts|, out, Packetise(nal)), out, nal);
    }
  }

  lemma {:induction false} UnitsAreRelayable(us: seq<Unit>)
    requires AllWhole(us)
    ensures Relayable(NalItems(us))
  {
    if us != [] {
      UnitsAreRelayable(us[..|us| - 1]);
      NalItemsLast(us);
      assert Whole(us[|us| - 1]);
      assert (START_CODE + us[|us| - 1].nal)[4..] == us[|us| - 1].nal;
    }
  }

  /** The fast path refines the slow path. For every device stream of whole NALs, whatever
      was in the two clients' and the receiver's reassembly buffers and however many packets
      were built before, both routes hand a client the same NALs at the same times, the ones
      the device sent at their translated times, and leave the same clock. */
  lemma FastRefinesSlow(c: Clock, built: nat, f: Fua, clientFast: Fua, clientSlow: Fua, us: seq<Unit>)
    requires AllWhole(us) && Tracking(c)
    ensures var fast := Fast(c, built, Flat(us));
            var slow := Slow(c, built, ReceiveAll(f, Flat(us)).items);
            && fast.clock == slow.clock == ClockAfter(c, NalItems(us))
            && ReceiveAll(clientFast, fast.pkts).items == ReceiveAll(clientSlow, slow.pkts).items
            && ReceiveAll(clientSlow, slow.pkts).items == Translated(c, NalItems(us))
  {
    hide *;
    ReceiverSeesUnits(f, us);
    FastDelivers(c, built, clientFast, us);
    UnitsAreRelayable(us);
    SlowDelivers(c, built, clientSlow, NalItems(us));
  }

  // ---- Any loss: the bytes of the NALs still agree --------------------------------

  function Nals(items: seq<Item>): seq<seq<byte>> {
    seq(|items|, i requires 0 <= i < |items| => items[i].nal)
  }

  lemma NalsAppend(a: seq<Item>, b: seq<Item>)
    ensures Nals(a + b) == Nals(a) + Nals(b)
  {
  }

  lemma SamePayloadSameNals(f: Fua, g: Fua, ts1: u32, ts2: u32, payload: seq<byte>)
    requires f.buf == g.buf
    ensures var r := Depacketise(f, ts1, payload);
            var s := Depacketise(g, ts2, payload);
            r.fua.buf == s.fua.buf && Nals(r.items) == Nals(s.items)
  {
  }

  predicate AllVideo(rtps: seq<seq<byte>>) {
    forall p | p in rtps :: IsVideo(p)
  }

  predicate SameNals(r: Received, s: Received) {
    r.fua.buf == s.fua.buf && Nals(r.items) == Nals(s.items)
  }

  lemma SameNalsNone(f: Fua, g: Fua)
    requires f.buf == g.buf
    ensures SameNals(Received(f, []), Received(g, []))
  {
  }

  /** One more packet on both sides. */
  lemma FastStepKeepsNals(g: Fua, r: Received, s: Sent, built: nat, rtp: seq<byte>)
    requires IsVideo(rtp) && SameNals(r, ReceiveAll(g, s.pkts))
    ensures var step := Receive(r.fua, rtp);
            SameNals(Received(step.fua, r.items + step.items), ReceiveAll(g, FastStep(s, built, rtp).pkts))
  {
    hide Translate, Rewrite, Depacketise, Nals, ReceiveAll;
    if |rtp| == 12 {
      DepacketiseNothing(r.fua, TimestampOf(rtp), PayloadOf(rtp));
      assert r.items + [] == r.items;
    } else {
      var out := Translate(s.clock, TimestampOf(rtp)).out;
      var sent := Rewrite(rtp, (built + |s.pkts|) % MOD16, out);
      RewriteFields(rtp, (built + |s.pkts|) % MOD16, out);
      var after := s.pkts + [sent];
      var t := ReceiveAll(g, s.pkts);
      assert after[..|s.pkts|] == s.pkts && after[..|after|] == after;
      ReceiveLast(g, after, |after|, out, PayloadOf(rtp));
      SamePayloadSameNals(r.fua, t.fua, TimestampOf(rtp), out, PayloadOf(rtp));
      NalsAppend(r.items, Depacketise(r.fua, TimestampOf(rtp), PayloadOf(rtp)).items);
      NalsAppend(t.items, Depacketise(t.fua, out, PayloadOf(rtp)).items);
    }
  }

  /** On any packet stream whatever, losses and malformed fragments included, a client of the
      fast path rebuilds exactly the NAL bytes the receiver does. */
  lemma {:induction false} FastKeepsNals(c: Clock, built: nat, f: Fua, g: Fua, rtps: seq<seq<byte>>)
    requires AllVideo(rtps) && f.buf == g.buf
    ensures SameNals(ReceiveAll(f, rtps), ReceiveAll(g, Fast(c, built, rtps).pkts))
  {
    hide Translate, Rewrite, SameNals, FastStep;
    if rtps == [] {
      ReceiveNone(f);
      ReceiveNone(g);
      assert SameNals(Received(f, []), Received(g, [])) by { SameNalsNone(f, g); }
    } else {
      var n := |rtps| - 1;
      assert rtps[n] in rtps && AllVideo(rtps[..n]);
      FastKeepsNals(c, built, f, g, rtps[..n]);
      var before := Fast(c, built, rtps[..n]);
      FastStepKeepsNals(g, ReceiveAll(f, rtps[..n]), before, built, rtps[n]);
    }
  }

  lemma DepacketiseNothing(f: Fua, ts: u32, payload: seq<byte>)
    requires payload == []
    ensures Depacketise(f, ts, payload) == Received(f, [])
  {
  }

  lemma {:induction false} TranslationKeepsNals(c: Clock, items: seq<Item>)
    ensures Nals(Translated(c, items)) == Nals(items)
  {
    if items != [] {
      var n := |items| - 1;
      TranslationKeepsNals(c, items[..n]);
      NalsAppend(items[..n], [items[n]]);
      NalsAppend(Translated(c, items[..n]), [Item(ClockAfter(c, items).out, items[n].nal)]);
      assert items[..n] + [items[n]] == items;
      assert Nals([items[n]]) == Nals([Item(ClockAfter(c, items).out, items[n].nal)]);
    }
  }

  // ---- What the slow route loses ---------------------------------------------------

  /** Items as a receiver queues them: a start code and a NAL that is not empty. */
  predicate IsQueued(it: Item) {
    |it.nal| >= 5 && it.nal[..4] == START_CODE
  }

  predicate AllQueued(items: seq<Item>) {
    forall i | 0 <= i < |items| :: IsQueued(items[i])
  }

  predicate FuaStarted(f: Fua) {
    f.buf == [] || (|f.buf| >= 5 && f.buf[..4] == START_CODE)
  }

  lemma DepacketiseQueues(f: Fua, ts: u32, payload: seq<byte>)
    requires FuaStarted(f)
    ensures var r := Depacketise(f, ts, payload); FuaStarted(r.fua) && AllQueued(r.items)
  {
  }

  lemma {:induction false} ReceiverQueues(f: Fua, rtps: seq<seq<byte>>)
    requires FuaStarted(f)
    ensures var r := ReceiveAll(f, rtps); FuaStarted(r.fua) && AllQueued(r.items)
  {
    hide Depacketise;
    if rtps != [] {
      var n := |rtps| - 1;
      ReceiverQueues(f, rtps[..n]);
      DepacketiseQueues(ReceiveAll(f, rtps[..n]).fua, if IsVideo(rtps[n]) then TimestampOf(rtps[n]) else 0,
                        if IsVideo(rtps[n]) then PayloadOf(rtps[n]) else []);
    }
  }

  /** Whatever a client holds, one short NAL brings it at most one item; one that is not
      packetisable brings an idle client none, or a shorter one. */
  lemma ShortNal(f: Fua, ts: u32, nal: seq<byte>)
    requires nal != []
    ensures |Depacketise(f, ts, nal).items| <= 1
    ensures f.buf == [] && !Packetisable(nal) ==> Shorter(Depacketise(f, ts, nal).items, |nal| + 4)
  {
  }

  lemma NalAtMostOnce(f: Fua, pkts: seq<seq<byte>>, ts: u32, nal: seq<byte>)
    requires nal != [] && CarryAll(pkts, ts, Packetise(nal))
    ensures |ReceiveAll(f, pkts).items| <= 1
    ensures f.buf == [] && !Packetisable(nal) ==> Shorter(ReceiveAll(f, pkts).items, |nal| + 4)
  {
    if Packetisable(nal) {
      RoundTripOne(f, pkts, ts, nal);
    } else {
      assert |pkts| == 1 && pkts[..1] == pkts && pkts[..0] == [];
      ReceiveNone(f);
      ShortNal(f, ts, nal);
      hide Depacketise;
      ReceiveLast(f, pkts, 1, ts, nal);
      assert [] + Depacketise(f, ts, nal).items == Depacketise(f, ts, nal).items;
    }
  }

  /** What one more item adds to what a client of the slow route has got. */
  lemma SlowStepAdds(f: Fua, before: Sent, built: nat, ts: u32, nal: seq<byte>) returns (y: seq<Item>)
    requires nal != []
    ensures var g := ReceiveAll(f, before.pkts);
            && ReceiveAll(f, SlowStep(before, built, Item(ts, START_CODE + nal)).pkts).items == g.items + y
            && |y| <= 1
            && (g.fua.buf == [] && !Packetisable(nal) ==> Shorter(y, |nal| + 4))
  {
    hide Translate, ReceiveAll, SlowStep, Packets, Packetise, Packetisable, CarryAll, Shorter;
    SlowOne(before, built, ts, nal);
    var out := Translate(before.clock, ts).out;
    var more := Packets(built + |before.pkts|, out, Packetise(nal));
    PacketsCarry(built + |before.pkts|, out, Packetise(nal));
    ReceiveAppend(f, before.pkts, more);
    var g := ReceiveAll(f, before.pkts).fua;
    NalAtMostOnce(g, more, out, nal);
    y := ReceiveAll(g, more).items;
  }

  lemma SlowUnfold(c: Clock, built: nat, items: seq<Item>)
    requires items != [] && IsQueued(items[|items| - 1])
    ensures var n := |items| - 1;
            && |items[n].nal| > 4 && items[n] == Item(items[n].ts, START_CODE + items[n].nal[4..])
            && Slow(c, built, items) == SlowStep(Slow(c, built, items[..n]), built, items[n])
  {
    hide SlowStep;
  }

  predicate Shorter(items: seq<Item>, n: nat) {
    forall i | 0 <= i < |items| :: |items[i].nal| < n
  }

  lemma NalsLength(items: seq<Item>)
    ensures |Nals(items)| == |items| && forall i | 0 <= i < |items| :: Nals(items)[i] == items[i].nal
  {
  }

  /** Equal NALs split at the last one. */
  lemma EqualNalsSplit(got: seq<Item>, y: seq<Item>, before: seq<Item>, last: Item)
    requires |got| <= |before| && |y| <= 1
    ensures Nals(got + y) == Nals(before + [last]) ==> |y| == 1 && Nals(got) == Nals(before) && y[0].nal == last.nal
  {
    hide Nals;
    var all, items := got + y, before + [last];
    NalsLength(got);
    NalsLength(before);
    NalsLength(all);
    NalsLength(items);
    if Nals(all) == Nals(items) {
      forall i | 0 <= i < |got| ensures Nals(got)[i] == Nals(before)[i] {
        assert all[i] == got[i] && items[i] == before[i];
        assert Nals(all)[i] == Nals(items)[i];
      }
      assert Nals(all)[|before|] == Nals(items)[|before|];
    }
  }

  /** A client of the slow route gets no more items than were queued, and not the same NALs when
      one of them cannot be relayed. */
  lemma {:induction false} SlowLoses(c: Clock, built: nat, f: Fua, items: seq<Item>)
    requires f.buf == [] && AllQueued(items)
    ensures |ReceiveAll(f, Slow(c, built, items).pkts).items| <= |items|
    ensures !Relayable(items) ==> Nals(ReceiveAll(f, Slow(c, built, items).pkts).items) != Nals(items)
  {
    hide ReceiveAll, Nals, Slow, SlowStep, Packetisable, Relayable;
    if items == [] {
      SlowNone(c, built);
      ReceiveNone(f);
      assert Relayable([]) by {
        NothingToRelay();
      }
    } else {
      var n := |items| - 1;
      var before := items[..n];
      SlowLoses(c, built, f, before);
      SlowUnfold(c, built, items);
      var y := SlowStepAdds(f, Slow(c, built, before), built, items[n].ts, items[n].nal[4..]);
      EqualNalsSplit(ReceiveAll(f, Slow(c, built, before).pkts).items, y, before, items[n]);
      assert items == before + [items[n]];
      SplitRelayable(items);
      if Relayable(before) {
        SlowDelivers(c, built, f, before);
      }
    }
  }

  lemma NothingToRelay()
    ensures Relayable([])
  {
  }

  lemma SplitRelayable(items: seq<Item>)
    requires items != [] && AllQueued(items)
    ensures var n := |items| - 1;
            Relayable(items) <==> Relayable(items[..n]) && Packetisable(items[n].nal[4..])
  {
    var n := |items| - 1;
    hide Packetisable;
    assert items == items[..n] + [items[n]];
    assert items[n] in items && IsQueued(items[n]);
  }

  lemma SlowNone(c: Clock, built: nat)
    ensures Slow(c, built, []) == Sent(c, [])
  {
  }

  /** Under any loss a client of the fast route gets the NAL bytes the receiver does, in order.
      An idle client of the slow route gets them too if and only if no short reassembled NAL
      has a type the server cannot put into a single packet. */
  lemma RoutesAgreeIff(c: Clock, built: nat, ts: u32, clientSlow: Fua, rtps: seq<seq<byte>>)
    requires AllVideo(rtps) && clientSlow.buf == []
    ensures var items := ReceiveAll(Fua([], ts), rtps).items;
            && Nals(ReceiveAll(Fua([], ts), Fast(c, built, rtps).pkts).items) == Nals(items)
            && (Nals(ReceiveAll(clientSlow, Slow(c, built, items).pkts).items) == Nals(items) <==> Relayable(items))
  {
    hide ReceiveAll, Nals, Fast, Slow, Translated, Relayable;
    var items := ReceiveAll(Fua([], ts), rtps).items;
    FastKeepsNals(c, built, Fua([], ts), Fua([], ts), rtps);
    if Relayable(items) {
      SlowDelivers(c, built, clientSlow, items);
      TranslationKeepsNals(c, items);
    } else {
      ReceiverQueues(Fua([], ts), rtps);
      SlowLoses(c, built, clientSlow, items);
    }
  }

  /** The two routes then also agree whatever the slow client held before. */
  lemma RoutesAgreeUnderLoss(c: Clock, built: nat, ts: u32, clientSlow: Fua, rtps: seq<seq<byte>>)
    requires AllVideo(rtps) && Relayable(ReceiveAll(Fua([], ts), rtps).items)
    ensures var items := ReceiveAll(Fua([], ts), rtps).items;
            && Nals(ReceiveAll(Fua([], ts), Fast(c, built, rtps).pkts).items) == Nals(items)
            && Nals(ReceiveAll(clientSlow, Slow(c, built, items).pkts).items) == Nals(items)
  {
    hide ReceiveAll, Nals, Fast, Slow, Translated, Relayable;
    var items := ReceiveAll(Fua([], ts), rtps).items;
    FastKeepsNals(c, built, Fua([], ts), Fua([], ts), rtps);
    SlowDelivers(c, built, clientSlow, items);
    TranslationKeepsNals(c, items);
  }

  // ---- The parameter-set cache --------------------------------------------------

  /** `_latest_sps`, `_latest_pps` */
  datatype ParameterSets = ParameterSets(sps: seq<byte>, pps: seq<byte>)

  /** The fast loop looks at the first payload byte of each packet. */
  function FastSets(s: ParameterSets, rtp: seq<byte>): ParameterSets {
    if |rtp| <= 13 then s
    else if NalType(rtp[12]) == 7 then s.(sps := rtp[12..])
    else if NalType(rtp[12]) == 8 then s.(pps := rtp[12..])
    else s
  }

  /** The fallback looks at each reassembled NAL. */
  function SlowSets(s: ParameterSets, nal: seq<byte>): ParameterSets {
    if nal == [] then s
    else if NalType(nal[0]) == 7 then s.(sps := nal)
    else if NalType(nal[0]) == 8 then s.(pps := nal)
    else s
  }

  function FastSetsAll(s: ParameterSets, rtps: seq<seq<byte>>): ParameterSets {
    if rtps == [] then s else FastSets(FastSetsAll(s, rtps[..|rtps| - 1]), rtps[|rtps| - 1])
  }

  function SlowSetsAll(s: ParameterSets, items: seq<Item>): ParameterSets {
    if items == [] then s else SlowSets(SlowSetsAll(s, items[..|items| - 1]), StripStartCode(items[|items| - 1].nal))
  }

  lemma {:induction false} FragmentsCacheNothing(s: ParameterSets, pkts: seq<seq<byte>>)
    requires forall i | 0 <= i < |pkts| :: FuAt(pkts, i)
    ensures FastSetsAll(s, pkts) == s
  {
    if pkts != [] {
      var n := |pkts| - 1;
      assert FuAt(pkts, n);
      forall i | 0 <= i < n
        ensures FuAt(pkts[..n], i)
      {
        assert FuAt(pkts, i);
      }
      FragmentsCacheNothing(s, pkts[..n]);
    }
  }

  /** What a cache may hold: nothing, or an SPS (type 7), and nothing, or a PPS (type 8). */
  predicate GoodSets(s: ParameterSets) {
    (s.sps == [] || s.sps[0] as int % 32 == 7) && (s.pps == [] || s.pps[0] as int % 32 == 8)
  }

  /** The fast route caches the payload of an SPS or PPS packet of more than one byte, the slow one
      an SPS or PPS of any size; neither touches the other set. */
  lemma SetsByBytes(s: ParameterSets, rtp: seq<byte>, nal: seq<byte>)
    ensures |rtp| >= 14 && rtp[12] as int % 32 == 7 ==> FastSets(s, rtp) == ParameterSets(rtp[12..], s.pps)
    ensures |rtp| >= 14 && rtp[12] as int % 32 == 8 ==> FastSets(s, rtp) == ParameterSets(s.sps, rtp[12..])
    ensures (|rtp| < 14 || (rtp[12] as int % 32 != 7 && rtp[12] as int % 32 != 8)) ==> FastSets(s, rtp) == s
    ensures nal != [] && nal[0] as int % 32 == 7 ==> SlowSets(s, nal) == ParameterSets(nal, s.pps)
    ensures nal != [] && nal[0] as int % 32 == 8 ==> SlowSets(s, nal) == ParameterSets(s.sps, nal)
    ensures (nal == [] || (nal[0] as int % 32 != 7 && nal[0] as int % 32 != 8)) ==> SlowSets(s, nal) == s
  {
  }

  lemma SetsStayGood(s: ParameterSets, rtp: seq<byte>, nal: seq<byte>)
    requires GoodSets(s)
    ensures GoodSets(FastSets(s, rtp)) && GoodSets(SlowSets(s, nal))
  {
  }

  /** The two routes cache the same parameter sets from a NAL exactly when it is not one, is
      cached already, or comes as a single packet of more than one byte: the fast route
      never caches a fragmented SPS or PPS. */
  lemma CachesAgreeIff(s: ParameterSets, u: Unit)
    requires Whole(u)
    ensures FastSetsAll(s, u.pkts) == SlowSets(s, u.nal)
        <==> !IsParameterSet(u.nal) || SlowSets(s, u.nal) == s || (IsSingle(u) && |u.nal| > 1)
  {
    if IsSingle(u) {
      assert u.pkts[..0] == [];
      assert FastSetsAll(s, u.pkts) == FastSets(s, u.pkts[0]);
    } else {
      FragmentsCacheNothing(s, u.pkts);
    }
  }
}
