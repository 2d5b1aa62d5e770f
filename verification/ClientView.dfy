/** What a registered client rebuilds from its bytes: the broadcast NALs, with the parameter
    sets it was primed with in between, even in the middle of a fragmented NAL. */
module ClientViews {
  import opened Bytes
  import opened Rtp
  import opened H264
  import opened VideoClock
  import opened MediaPaths
  import opened Interleaving
  import opened ServerLog
  import opened RtspServer

  /** A NAL a client rebuilds: from a packet that primed it, or from the broadcast stream. */
  datatype Seen = Primed(item: Item) | Streamed(item: Item)

  datatype View = View(fua: Fua, seen: seq<Seen>)

  /** The NAL of a priming packet. */
  function SetItem(pkt: seq<byte>): Item
    requires |pkt| >= 12
  {
    Item(TimestampOf(pkt), START_CODE + PayloadOf(pkt))
  }

  function Tagged(items: seq<Item>): seq<Seen> {
    seq(|items|, i requires 0 <= i < |items| => Streamed(items[i]))
  }

  /** What the client sees, event by event since its PLAY; only broadcasts move its buffer. */
  function Watch(f: Fua, log: seq<LogEvent>, c: Setup): View {
    if log == [] || log[|log| - 1] == Play(c.id) then View(f, [])
    else
      var before, e := Watch(f, log[..|log| - 1], c), log[|log| - 1];
      if e.VideoRtp? then
        var r := Receive(before.fua, e.pkt);
        View(r.fua, before.seen + Tagged(r.items))
      else if e.PrimeRtp? && e.id == c.id && e.written && |e.pkt| >= 12 then
        View(before.fua, before.seen + [Primed(SetItem(e.pkt))])
      else before
  }

  function Items(seen: seq<Seen>): seq<Item> {
    seq(|seen|, i requires 0 <= i < |seen| => seen[i].item)
  }

  function StreamedOnly(seen: seq<Seen>): seq<Item> {
    if seen == [] then []
    else
      var n := |seen| - 1;
      StreamedOnly(seen[..n]) + (if seen[n].Streamed? then [seen[n].item] else [])
  }

  function PrimedOnly(seen: seq<Seen>): seq<Item> {
    if seen == [] then []
    else
      var n := |seen| - 1;
      PrimedOnly(seen[..n]) + (if seen[n].Primed? then [seen[n].item] else [])
  }

  /** The packets broadcast since the client's PLAY. */
  function Broadcasts(log: seq<LogEvent>, c: Setup): seq<seq<byte>> {
    if log == [] || log[|log| - 1] == Play(c.id) then []
    else
      var e := log[|log| - 1];
      Broadcasts(log[..|log| - 1], c) + (if e.VideoRtp? then [e.pkt] else [])
  }

  /** The parameter sets written to the client since its PLAY. */
  function Primings(log: seq<LogEvent>, c: Setup): seq<Item> {
    if log == [] || log[|log| - 1] == Play(c.id) then []
    else
      var e := log[|log| - 1];
      Primings(log[..|log| - 1], c)
      + (if e.PrimeRtp? && e.id == c.id && e.written && |e.pkt| >= 12 then [SetItem(e.pkt)] else [])
  }

  // ---- The parts of a view -------------------------------------------------------------

  lemma {:induction false} OnlyAppend(a: seq<Seen>, b: seq<Seen>)
    ensures StreamedOnly(a + b) == StreamedOnly(a) + StreamedOnly(b)
    ensures PrimedOnly(a + b) == PrimedOnly(a) + PrimedOnly(b)
    decreases |b|
  {
    if b == [] {
      assert a + b == a;
    } else {
      var n := |b| - 1;
      assert (a + b)[..|a| + n] == a + b[..n];
      OnlyAppend(a, b[..n]);
    }
  }

  lemma {:induction false} OnlyTagged(items: seq<Item>)
    ensures StreamedOnly(Tagged(items)) == items && PrimedOnly(Tagged(items)) == []
  {
    if items != [] {
      var n := |items| - 1;
      OnlyTagged(items[..n]);
      assert Tagged(items)[..n] == Tagged(items[..n]);
    }
  }

  lemma OnlyOne(item: Item)
    ensures StreamedOnly([Primed(item)]) == [] && PrimedOnly([Primed(item)]) == [item]
  {
    assert [Primed(item)][..0] == [];
  }

  lemma ItemsAppend(a: seq<Seen>, b: seq<Seen>)
    ensures Items(a + b) == Items(a) + Items(b)
  {
  }

  lemma ItemsTagged(items: seq<Item>)
    ensures Items(Tagged(items)) == items
  {
  }

  /** A priming packet brings its set and leaves the reassembly buffer as it was. */
  lemma PrimingIsInert(f: Fua, pkt: seq<byte>)
    requires IsSetPacket(pkt)
    ensures Receive(f, pkt) == Received(f, [SetItem(pkt)])
  {
  }

  lemma ReceiveNext(f: Fua, pkts: seq<seq<byte>>, pkt: seq<byte>)
    ensures var before := ReceiveAll(f, pkts);
            var step := Receive(before.fua, pkt);
            ReceiveAll(f, pkts + [pkt]) == Received(step.fua, before.items + step.items)
  {
    hide Receive;
    assert (pkts + [pkt])[..|pkts|] == pkts;
  }

  // ---- The view is what the client rebuilds -----------------------------------------------

  /** Reassembling everything on its video channel gives the client exactly its view. */
  lemma {:induction false} ViewIsRebuilt(f: Fua, log: seq<LogEvent>, c: Setup)
    requires PrimesAreSets(log)
    ensures var v := Watch(f, log, c); ReceiveAll(f, VideoShare(log, c)) == Received(v.fua, Items(v.seen))
  {
    hide Receive, ReceiveAll, SetItem, IsSetPacket;
    ReceiveNone(f);
    if log != [] && log[|log| - 1] != Play(c.id) {
      var before, e := log[..|log| - 1], log[|log| - 1];
      assert PrimesAreSets(before);
      ViewIsRebuilt(f, before, c);
      var v := Watch(f, before, c);
      if e.VideoRtp? {
        ReceiveNext(f, VideoShare(before, c), e.pkt);
        ItemsTagged(Receive(v.fua, e.pkt).items);
        ItemsAppend(v.seen, Tagged(Receive(v.fua, e.pkt).items));
      } else if e.PrimeRtp? && e.id == c.id && e.written {
        assert IsSetPacket(e.pkt);
        SetIsLong(e.pkt);
        PrimingIsInert(v.fua, e.pkt);
        ReceiveNext(f, VideoShare(before, c), e.pkt);
        ItemsAppend(v.seen, [Primed(SetItem(e.pkt))]);
        assert Items([Primed(SetItem(e.pkt))]) == [SetItem(e.pkt)];
      } else {
        assert VideoShare(before, c) + [] == VideoShare(before, c);
      }
    }
  }

  lemma SetIsLong(pkt: seq<byte>)
    requires IsSetPacket(pkt)
    ensures |pkt| >= 12
  {
  }

  /** Taken apart, the view is the broadcasts alone, reassembled, and the client's own primings. */
  lemma {:induction false} ViewParts(f: Fua, log: seq<LogEvent>, c: Setup)
    ensures var v, cast := Watch(f, log, c), ReceiveAll(f, Broadcasts(log, c));
            && v.fua == cast.fua && StreamedOnly(v.seen) == cast.items && PrimedOnly(v.seen) == Primings(log, c)
  {
    hide Receive, ReceiveAll, SetItem;
    ReceiveNone(f);
    if log != [] && log[|log| - 1] != Play(c.id) {
      var before, e := log[..|log| - 1], log[|log| - 1];
      ViewParts(f, before, c);
      var v := Watch(f, before, c);
      if e.VideoRtp? {
        var items := Receive(v.fua, e.pkt).items;
        ReceiveNext(f, Broadcasts(before, c), e.pkt);
        OnlyTagged(items);
        OnlyAppend(v.seen, Tagged(items));
        assert PrimedOnly(v.seen) + [] == PrimedOnly(v.seen);
        assert Primings(before, c) + [] == Primings(before, c);
      } else if e.PrimeRtp? && e.id == c.id && e.written && |e.pkt| >= 12 {
        OnlyOne(SetItem(e.pkt));
        OnlyAppend(v.seen, [Primed(SetItem(e.pkt))]);
        assert StreamedOnly(v.seen) + [] == StreamedOnly(v.seen);
        assert Broadcasts(before, c) + [] == Broadcasts(before, c);
      } else {
        assert Broadcasts(before, c) + [] == Broadcasts(before, c);
        assert Primings(before, c) + [] == Primings(before, c);
      }
    }
  }

  // ---- Whole NALs, end to end ------------------------------------------------------------------

  /** The same content under other sequence numbers: packets built to prime clients shift them. */
  predicate SameContent(a: seq<byte>, b: seq<byte>) {
    && (IsVideo(a) <==> IsVideo(b))
    && (IsVideo(a) ==> TimestampOf(a) == TimestampOf(b) && PayloadOf(a) == PayloadOf(b))
  }

  predicate SameContents(a: seq<seq<byte>>, b: seq<seq<byte>>) {
    |a| == |b| && forall i | 0 <= i < |a| :: SameContent(a[i], b[i])
  }

  lemma {:induction false} SameContentsSameItems(f: Fua, a: seq<seq<byte>>, b: seq<seq<byte>>)
    requires SameContents(a, b)
    ensures ReceiveAll(f, a) == ReceiveAll(f, b)
  {
    hide Depacketise;
    if a != [] {
      var n := |a| - 1;
      assert SameContent(a[n], b[n]);
      assert SameContents(a[..n], b[..n]);
      SameContentsSameItems(f, a[..n], b[..n]);
    }
  }

  /** What any registered client rebuilds from its bytes in any reachable server state, audio
      reports not sharing its video channel: when the server has forwarded whole NALs since the
      client's PLAY, wherever primings fell between their packets, it is the parameter sets
      written to it and the device's NALs at translated times, each in order. */
  lemma ClientRebuilds(server: LocalRtspServer, k: nat, f: Fua, clock: Clock, us: seq<Unit>)
    requires server.Valid() && k < |server.clients|
    requires var c := server.clients[k].setup;
             && c.videoCh.Some? && !(c.audioCh.Some? && c.audioCh.value + 1 == c.videoCh.value)
             && AllWhole(us) && Tracking(clock)
             && SameContents(Broadcasts(server.log, c), Fast(clock, 0, Flat(us)).pkts)
    ensures var TcpClient(c, wire) := server.clients[k];
            var seen := Watch(f, server.log, c).seen;
            && Parse(wire).Some?
            && ReceiveAll(f, OnChannel(Parse(wire).value, c.videoCh.value)).items == Items(seen)
            && PrimedOnly(seen) == Primings(server.log, c)
            && StreamedOnly(seen) == Translated(clock, NalItems(us))
  {
    hide Watch, Items, PrimedOnly, StreamedOnly, Translated, NalItems, ReceiveAll, Broadcasts, Primings, SameContents, Fast, AllWhole;
    hide VideoShare, ReportShare, Numbers, OnChannel, Parse, Transcript;
    var c := server.clients[k].setup;
    var log := server.log;
    assert PrimesAreSets(log);
    ClientReadsItsShare(server, k);
    ViewIsRebuilt(f, log, c);
    ViewParts(f, log, c);
    SameContentsSameItems(f, Broadcasts(log, c), Fast(clock, 0, Flat(us)).pkts);
    FastDelivers(clock, 0, f, us);
  }
}
