/** H.264 over RTP: FU-A fragmentation (section 5.8 of RFC 6184), single NAL unit packets
    (section 5.6), and the receiver's reassembly buffer as a state machine over packets. */
module H264 {
  import opened Bytes
  import opened Rtp

  const START_CODE: seq<byte> := [0, 0, 0, 1]
  const MAX_PAYLOAD: nat := 1400
  const CHUNK: nat := MAX_PAYLOAD - 2
  const FU_A: byte := 28

  /** A NAL unit (with or without start code, as the context says) and its RTP timestamp. */
  datatype Item = Item(ts: u32, nal: seq<byte>)

  // ---- Receiving ----------------------------------------------------------

  /** `_current_fua_nal` and `_current_fua_ts` */
  datatype Fua = Fua(buf: seq<byte>, ts: u32)

  datatype Received = Received(fua: Fua, items: seq<Item>)

  function NalType(header: byte): byte {
    header % 32
  }

  /** SPS or PPS. */
  predicate IsParameterSet(nal: seq<byte>) {
    nal != [] && (NalType(nal[0]) == 7 || NalType(nal[0]) == 8)
  }

  predicate IsFuA(payload: seq<byte>) {
    |payload| >= 2 && NalType(payload[0]) == FU_A
  }

  predicate Starts(payload: seq<byte>)
    requires IsFuA(payload)
  {
    payload[1] / 128 == 1
  }

  predicate Ends(payload: seq<byte>)
    requires IsFuA(payload)
  {
    payload[1] / 64 % 2 == 1
  }

  /** Forbidden bit and NRI of the FU indicator, type of the FU header. */
  function RebuiltHeader(payload: seq<byte>): byte
    requires IsFuA(payload)
  {
    payload[0] / 32 * 32 + NalType(payload[1])
  }

  /** The payload half of `_process_rtp`: new reassembly buffer and NAL units queued. */
  function Depacketise(f: Fua, ts: u32, payload: seq<byte>): Received {
    if payload == [] then Received(f, [])
    else if NalType(payload[0]) == FU_A then
      if |payload| < 2 then Received(f, [])
      else
        var g := if Starts(payload) then Fua(START_CODE + [RebuiltHeader(payload)] + payload[2..], ts)
                 else if f.buf != [] then Fua(f.buf + payload[2..], f.ts)
                 else f;
        if Ends(payload) && g.buf != [] then Received(Fua([], g.ts), [Item(g.ts, g.buf)])
        else Received(g, [])
    else if 1 <= NalType(payload[0]) <= 23 then Received(f, [Item(ts, START_CODE + payload)])
    else Received(f, [])
  }

  /** One packet: anything but video leaves the H.264 state alone. */
  function Receive(f: Fua, rtp: seq<byte>): Received {
    if IsVideo(rtp) then Depacketise(f, TimestampOf(rtp), PayloadOf(rtp)) else Received(f, [])
  }

  function ReceiveAll(f: Fua, pkts: seq<seq<byte>>): Received {
    if pkts == [] then Received(f, [])
    else
      var before := ReceiveAll(f, pkts[..|pkts| - 1]);
      var step := Receive(before.fua, pkts[|pkts| - 1]);
      Received(step.fua, before.items + step.items)
  }

  lemma {:induction false} ReceiveAppend(f: Fua, a: seq<seq<byte>>, b: seq<seq<byte>>)
    ensures var ra := ReceiveAll(f, a);
            var rb := ReceiveAll(ra.fua, b);
            ReceiveAll(f, a + b) == Received(rb.fua, ra.items + rb.items)
    decreases |b|
  {
    if b == [] {
      assert a + b == a;
    } else {
      hide Receive;
      var n := |b| - 1;
      ReceiveAppend(f, a, b[..n]);
      assert (a + b)[..|a| + n] == a + b[..n] && (a + b)[|a| + n] == b[n];
      var ra := ReceiveAll(f, a);
      var rb := ReceiveAll(ra.fua, b[..n]);
      var last := Receive(rb.fua, b[n]);
      assert ra.items + rb.items + last.items == ra.items + (rb.items + last.items);
    }
  }

  // ---- Sending ------------------------------------------------------------

  datatype Payload = Payload(data: seq<byte>, marker: bool)

  /** Number of fragments of a NAL of n bytes: ceil((n - 1) / 1398). */
  function FragmentCount(n: nat): nat
    requires n > 0
  {
    (n - 1 + CHUNK - 1) / CHUNK
  }

  /** Where fragment i of a body starts; past the last fragment, the body's length. */
  function Cut(len: nat, i: nat): nat {
    Min(i * CHUNK, len)
  }

  function FuIndicator(header: byte): byte {
    header / 32 * 32 + FU_A
  }

  function FuHeader(header: byte, first: bool, last: bool): byte {
    (if first then 0x80 else 0) + (if last then 0x40 else 0) + NalType(header)
  }

  function Fragment(nal: seq<byte>, i: nat): Payload
    requires nal != [] && i < FragmentCount(|nal|)
  {
    var body := nal[1..];
    var last := i == FragmentCount(|nal|) - 1;
    Payload([FuIndicator(nal[0]), FuHeader(nal[0], i == 0, last)] + body[Cut(|body|, i)..Cut(|body|, i + 1)], last)
  }

  /** What `_send_h264` puts into packets, in order. */
  function Packetise(nal: seq<byte>): seq<Payload> {
    if |nal| <= MAX_PAYLOAD then [Payload(nal, true)]
    else seq(FragmentCount(|nal|), i requires 0 <= i < FragmentCount(|nal|) => Fragment(nal, i))
  }

  function VideoPacket(built: nat, ts: u32, p: Payload): seq<byte> {
    Build(VIDEO_PT, built % MOD16, ts, VIDEO_SSRC, p.data, p.marker)
  }

  /** Packets for one NAL when `built` video packets were built before. */
  function Packets(built: nat, ts: u32, payloads: seq<Payload>): seq<seq<byte>> {
    seq(|payloads|, i requires 0 <= i < |payloads| => VideoPacket(built + i, ts, payloads[i]))
  }

  function PacketiseAll(built: nat, items: seq<Item>): seq<seq<byte>> {
    if items == [] then []
    else
      var before := PacketiseAll(built, items[..|items| - 1]);
      var last := items[|items| - 1];
      before + Packets(built + |before|, last.ts, Packetise(last.nal))
  }

  function Sizes(payloads: seq<Payload>): nat {
    if payloads == [] then 0 else Sizes(payloads[..|payloads| - 1]) + |payloads[|payloads| - 1].data|
  }

  // ---- Fragment and reassemble are inverse --------------------------------

  /** A single NAL unit type, or long enough to be fragmented (the FU header carries any type). */
  predicate Packetisable(nal: seq<byte>) {
    nal != [] && (|nal| > MAX_PAYLOAD || 1 <= NalType(nal[0]) <= 23)
  }

  lemma FragmentBytes(nal: seq<byte>, i: nat)
    requires |nal| > MAX_PAYLOAD && i < FragmentCount(|nal|)
    ensures var p := Fragment(nal, i).data;
            && 3 <= |p| <= MAX_PAYLOAD && IsFuA(p) && (Starts(p) <==> i == 0)
            && (Ends(p) <==> i == FragmentCount(|nal|) - 1)
            && NalType(p[1]) == NalType(nal[0]) && RebuiltHeader(p) == nal[0]
            && p[2..] == nal[1..][Cut(|nal| - 1, i)..Cut(|nal| - 1, i + 1)]
  {
    var last := i == FragmentCount(|nal|) - 1;
    FuHeaderBits(nal[0], i == 0, last);
    hide FuHeader, FuIndicator, NalType;
    assert Fragment(nal, i).data[2..] == nal[1..][Cut(|nal| - 1, i)..Cut(|nal| - 1, i + 1)];
  }

  lemma FuHeaderBits(header: byte, first: bool, last: bool)
    ensures var h := FuHeader(header, first, last);
            && 0 <= h < 0x100 && (h / 128 == 1 <==> first) && (h / 64 % 2 == 1 <==> last) && NalType(h) == NalType(header)
    ensures NalType(FuIndicator(header)) == FU_A && FuIndicator(header) / 32 * 32 + NalType(header) == header
  {
    var low: int := header % 32;
    assert FuHeader(header, first, last) == (if first then 128 else 0) + (if last then 64 else 0) + low;
  }

  /** The packet is video with this timestamp and payload. */
  predicate Carries(rtp: seq<byte>, ts: u32, data: seq<byte>) {
    IsVideo(rtp) && TimestampOf(rtp) == ts && PayloadOf(rtp) == data
  }

  predicate CarryAll(pkts: seq<seq<byte>>, ts: u32, payloads: seq<Payload>) {
    |pkts| == |payloads| && forall i | 0 <= i < |pkts| :: Carries(pkts[i], ts, payloads[i].data)
  }

  lemma PacketsCarry(built: nat, ts: u32, payloads: seq<Payload>)
    ensures CarryAll(Packets(built, ts, payloads), ts, payloads)
  {
    forall i | 0 <= i < |payloads|
      ensures Carries(Packets(built, ts, payloads)[i], ts, payloads[i].data)
    {
      BuildFields((built + i) % MOD16, ts, payloads[i].data, payloads[i].marker);
    }
  }

  /** The buffer after the chunks up to body offset n. */
  function Prefix(nal: seq<byte>, n: nat): seq<byte>
    requires n < |nal|
  {
    START_CODE + nal[..1 + n]
  }

  lemma PrefixGrows(nal: seq<byte>, lo: nat, hi: nat)
    requires lo <= hi < |nal|
    ensures Prefix(nal, lo) + nal[1..][lo..hi] == Prefix(nal, hi)
  {
  }

  /** What fragment i does to a buffer that is ready for it. */
  lemma ReceiveFragment(f: Fua, ts: u32, nal: seq<byte>, i: nat)
    requires |nal| > MAX_PAYLOAD && i < FragmentCount(|nal|)
    requires i > 0 ==> f == Fua(Prefix(nal, Cut(|nal| - 1, i)), ts)
    ensures Depacketise(f, ts, Fragment(nal, i).data)
         == if i == FragmentCount(|nal|) - 1 then Received(Fua([], ts), [Item(ts, START_CODE + nal)])
            else Received(Fua(Prefix(nal, Cut(|nal| - 1, i + 1)), ts), [])
  {
    FragmentBytes(nal, i);
    var lo, hi := Cut(|nal| - 1, i), Cut(|nal| - 1, i + 1);
    assert START_CODE + [nal[0]] == Prefix(nal, 0);
    PrefixGrows(nal, lo, hi);
    if i == FragmentCount(|nal|) - 1 {
      assert hi == |nal| - 1 && nal[..1 + hi] == nal;
    }
  }

  lemma {:induction false} ReceiveLast(f: Fua, pkts: seq<seq<byte>>, k: nat, ts: u32, data: seq<byte>)
    requires 0 < k <= |pkts| && Carries(pkts[k - 1], ts, data)
    ensures ReceiveAll(f, pkts[..k]).fua == Depacketise(ReceiveAll(f, pkts[..k - 1]).fua, ts, data).fua
    ensures ReceiveAll(f, pkts[..k]).items
         == ReceiveAll(f, pkts[..k - 1]).items + Depacketise(ReceiveAll(f, pkts[..k - 1]).fua, ts, data).items
  {
    assert pkts[..k][..k - 1] == pkts[..k - 1];
  }

  /** After the first k < n fragments the buffer holds the start code, the original header
      and the first k chunks; nothing has been queued. */
  lemma {:induction false} PartialReassembly(f: Fua, pkts: seq<seq<byte>>, ts: u32, nal: seq<byte>, k: nat)
    requires |nal| > MAX_PAYLOAD && CarryAll(pkts, ts, Packetise(nal)) && 0 < k < FragmentCount(|nal|)
    ensures ReceiveAll(f, pkts[..k]) == Received(Fua(Prefix(nal, Cut(|nal| - 1, k)), ts), [])
  {
    var g := ReceiveAll(f, pkts[..k - 1]).fua;
    if k == 1 {
      assert pkts[..0] == [];
    } else {
      PartialReassembly(f, pkts, ts, nal, k - 1);
    }
    assert Packetise(nal)[k - 1] == Fragment(nal, k - 1);
    ReceiveLast(f, pkts, k, ts, Fragment(nal, k - 1).data);
    ReceiveFragment(g, ts, nal, k - 1);
  }

  /** One NAL there and back: header bits, body and timestamp intact, whatever the buffer
      held before; a fragmented NAL leaves it empty, a single packet leaves it alone. */
  lemma RoundTripOne(f: Fua, pkts: seq<seq<byte>>, ts: u32, nal: seq<byte>)
    requires Packetisable(nal) && CarryAll(pkts, ts, Packetise(nal))
    ensures ReceiveAll(f, pkts)
         == Received(if |nal| <= MAX_PAYLOAD then f else Fua([], ts), [Item(ts, START_CODE + nal)])
  {
    var n := |pkts|;
    assert pkts[..n] == pkts;
    var g := ReceiveAll(f, pkts[..n - 1]).fua;
    if |nal| <= MAX_PAYLOAD {
      assert pkts[..0] == [] && n == 1;
      ReceiveLast(f, pkts, n, ts, nal);
    } else {
      assert n == FragmentCount(|nal|) >= 2;
      PartialReassembly(f, pkts, ts, nal, n - 1);
      assert Packetise(nal)[n - 1] == Fragment(nal, n - 1);
      ReceiveLast(f, pkts, n, ts, Fragment(nal, n - 1).data);
      ReceiveFragment(g, ts, nal, n - 1);
    }
  }

  /** From an idle receiver a NAL comes back exactly when it is packetisable: an empty NAL and
      a short one of type 0 or above 23 are dropped or taken for something else. */
  lemma RoundTripIff(f: Fua, pkts: seq<seq<byte>>, ts: u32, nal: seq<byte>)
    requires f.buf == [] && CarryAll(pkts, ts, Packetise(nal))
    ensures ReceiveAll(f, pkts).items == [Item(ts, START_CODE + nal)] <==> Packetisable(nal)
  {
    if Packetisable(nal) {
      RoundTripOne(f, pkts, ts, nal);
    } else {
      assert |pkts| == 1 && pkts[..1] == pkts && pkts[..0] == [];
      ReceiveLast(f, pkts, 1, ts, nal);
      assert forall it | it in Depacketise(f, ts, nal).items :: |it.nal| < |START_CODE + nal|;
      assert Item(ts, START_CODE + nal) in [Item(ts, START_CODE + nal)];
    }
  }

  function WithStartCodes(items: seq<Item>): seq<Item> {
    if items == [] then []
    else
      var last := items[|items| - 1];
      WithStartCodes(items[..|items| - 1]) + [Item(last.ts, START_CODE + last.nal)]
  }

  lemma ReceiveNone(f: Fua)
    ensures ReceiveAll(f, []) == Received(f, [])
  {
  }

  lemma RoundTripOneMore(f: Fua, before: seq<seq<byte>>, last: seq<seq<byte>>, ts: u32, nal: seq<byte>)
    requires Packetisable(nal) && CarryAll(last, ts, Packetise(nal))
    ensures ReceiveAll(f, before + last).items == ReceiveAll(f, before).items + [Item(ts, START_CODE + nal)]
    ensures ReceiveAll(f, before).fua.buf == [] ==> ReceiveAll(f, before + last).fua.buf == []
  {
    ReceiveAppend(f, before, last);
    RoundTripOne(ReceiveAll(f, before).fua, last, ts, nal);
  }

  /** Any list of NALs, of any length and type 1..23, is read back exactly, in order, with timestamps. */
  lemma {:induction false} RoundTrip(f: Fua, built: nat, items: seq<Item>)
    requires forall it | it in items :: Packetisable(it.nal)
    ensures ReceiveAll(f, PacketiseAll(built, items)).items == WithStartCodes(items)
    ensures f.buf == [] ==> ReceiveAll(f, PacketiseAll(built, items)).fua.buf == []
    decreases |items|
  {
    hide ReceiveAll, Receive, Packetise, Packets;
    if items == [] {
      assert ReceiveAll(f, []) == Received(f, []) by { ReceiveNone(f); }
    } else {
      var n := |items| - 1;
      var before := PacketiseAll(built, items[..n]);
      var Item(ts, nal) := items[n];
      assert items[n] in items;
      RoundTrip(f, built, items[..n]);
      PacketsCarry(built + |before|, ts, Packetise(nal));
      RoundTripOneMore(f, before, Packets(built + |before|, ts, Packetise(nal)), ts, nal);
    }
  }

  // ---- Shape of a fragmented NAL ------------------------------------------

  lemma {:induction false} ChunkTotal(nal: seq<byte>, k: nat)
    requires |nal| > MAX_PAYLOAD && k <= FragmentCount(|nal|)
    ensures Sizes(Packetise(nal)[..k]) == Cut(|nal| - 1, k) + 2 * k
  {
    if k > 0 {
      var ps := Packetise(nal);
      assert ps[..k][..k - 1] == ps[..k - 1];
      ChunkTotal(nal, k - 1);
      FragmentBytes(nal, k - 1);
      assert |ps[k - 1].data[2..]| == Cut(|nal| - 1, k) - Cut(|nal| - 1, k - 1);
    }
  }

  /** Section 5.8 of RFC 6184 for a NAL over 1400 bytes: at least two packets, none over
      1400 bytes, S on the first only, E and the marker on the last only, so never S and E
      together; two octets of overhead a packet, one header byte saved. */
  lemma FragmentationShape(nal: seq<byte>)
    requires |nal| > MAX_PAYLOAD
    ensures var ps := Packetise(nal);
            var k := |ps|;
            && k >= 2 && (k - 1) * CHUNK < |nal| - 1 <= k * CHUNK
            && Sizes(ps) == |nal| - 1 + 2 * k
            && (forall i | 0 <= i < k ::
                  && |ps[i].data| <= MAX_PAYLOAD && IsFuA(ps[i].data)
                  && (Starts(ps[i].data) <==> i == 0) && (Ends(ps[i].data) <==> i == k - 1)
                  && (ps[i].marker <==> i == k - 1) && !(Starts(ps[i].data) && Ends(ps[i].data)))
  {
    var ps := Packetise(nal);
    hide FuHeader, FuIndicator, NalType, Sizes;
    forall i | 0 <= i < |ps|
      ensures |ps[i].data| <= MAX_PAYLOAD && IsFuA(ps[i].data)
      ensures (Starts(ps[i].data) <==> i == 0) && (Ends(ps[i].data) <==> i == |ps| - 1)
    {
      FragmentBytes(nal, i);
    }
    ChunkTotal(nal, |ps|);
    assert ps[..|ps|] == ps;
  }

  /** Cutting the next chunk at `offset` gives the i-th packet. */
  lemma NextFragment(built: nat, ts: u32, nal: seq<byte>, i: nat, chunk: seq<byte>)
    requires |nal| > MAX_PAYLOAD && Cut(|nal| - 1, i) < |nal| - 1
    requires chunk == nal[1..][Cut(|nal| - 1, i)..Min(Cut(|nal| - 1, i) + CHUNK, |nal| - 1)]
    ensures i < FragmentCount(|nal|) == |Packets(built, ts, Packetise(nal))|
    ensures 0 < |chunk| && Cut(|nal| - 1, i) + |chunk| == Cut(|nal| - 1, i + 1)
    ensures var last := Cut(|nal| - 1, i + 1) >= |nal| - 1;
            Packets(built, ts, Packetise(nal))[i]
            == Build(VIDEO_PT, (built + i) % MOD16, ts, VIDEO_SSRC,
                     [FuIndicator(nal[0]), FuHeader(nal[0], i == 0, last)] + chunk, last)
  {
    hide Build, FuHeader;
    var last := Cut(|nal| - 1, i + 1) >= |nal| - 1;
    assert last == (i == FragmentCount(|nal|) - 1);
    assert Fragment(nal, i) == Payload([FuIndicator(nal[0]), FuHeader(nal[0], i == 0, last)] + chunk, last);
  }

  lemma FragmentsDone(built: nat, ts: u32, nal: seq<byte>, i: nat)
    requires |nal| > MAX_PAYLOAD && Cut(|nal| - 1, i) >= |nal| - 1
    requires i <= |Packets(built, ts, Packetise(nal))|
    ensures Packets(built, ts, Packetise(nal))[..i] == Packets(built, ts, Packetise(nal))
  {
    assert i == FragmentCount(|nal|);
  }

  /** The first two bytes of every fragment, section 5.8 of RFC 6184: type 28 under the NAL's own
      upper bits, then the NAL's type with 0x80 on the first fragment and 0x40 on the last. */
  lemma FragmentHead(nal: seq<byte>, i: nat)
    requires |nal| > 1400 && i < |Packetise(nal)|
    ensures var p, k := Packetise(nal)[i].data, |Packetise(nal)|;
            && |p| >= 3 && p[0] as int == nal[0] as int / 32 * 32 + 28
            && p[1] as int == nal[0] as int % 32 + (if i == 0 then 0x80 else 0) + (if i == k - 1 then 0x40 else 0)
            && (k - 1) * 1398 < |nal| - 1 <= k * 1398 && |p| <= 1400
            && p[2..] == nal[1..][i * 1398..Min((i + 1) * 1398, |nal| - 1)]
  {
    FragmentBytes(nal, i);
    FragmentationShape(nal);
    hide FuHeader, NalType;
    FuHeaderSum(nal[0], i == 0, i == FragmentCount(|nal|) - 1);
  }

  lemma FuHeaderSum(header: byte, first: bool, last: bool)
    ensures FuHeader(header, first, last) as int == header as int % 32 + (if first then 0x80 else 0) + (if last then 0x40 else 0)
  {
  }

  /** A short NAL goes out whole, with the marker. */
  lemma ShortNalWhole(nal: seq<byte>)
    requires |nal| <= 1400
    ensures Packetise(nal) == [Payload(nal, true)]
  {
  }

  /** What one payload does to the receiver, told by its bytes: types 1 to 23 are queued whole, type
      28 starts, continues or ends a fragmented NAL, anything else is ignored. */
  lemma DepacketiseByBytes(f: Fua, ts: u32, payload: seq<byte>)
    ensures payload != [] && 1 <= payload[0] as int % 32 <= 23 ==>
              Depacketise(f, ts, payload) == Received(f, [Item(ts, [0, 0, 0, 1] + payload)])
    ensures |payload| >= 2 && payload[0] as int % 32 == 28 ==>
              var first, last := payload[1] >= 0x80, payload[1] as int % 0x80 >= 0x40;
              var buf := if first then [0, 0, 0, 1] + [payload[0] as int / 32 * 32 + payload[1] as int % 32] + payload[2..]
                         else if f.buf != [] then f.buf + payload[2..] else [];
              var from := if first then ts else f.ts;
              Depacketise(f, ts, payload) == if last && buf != [] then Received(Fua([], from), [Item(from, buf)]) else Received(Fua(buf, from), [])
    ensures (payload == [] || payload[0] as int % 32 == 0 || payload[0] as int % 32 > 28 || 24 <= payload[0] as int % 32 <= 27
             || (payload[0] as int % 32 == 28 && |payload| < 2)) ==> Depacketise(f, ts, payload) == Received(f, [])
  {
  }

  // ---- Lossy streams: which NALs come out, read off the packet history ----

  predicate FuAt(pkts: seq<seq<byte>>, i: nat)
    requires i < |pkts|
  {
    IsVideo(pkts[i]) && IsFuA(PayloadOf(pkts[i]))
  }

  predicate StartAt(pkts: seq<seq<byte>>, i: nat)
    requires i < |pkts|
  {
    FuAt(pkts, i) && Starts(PayloadOf(pkts[i]))
  }

  predicate EndAt(pkts: seq<seq<byte>>, i: nat)
    requires i < |pkts|
  {
    FuAt(pkts, i) && Ends(PayloadOf(pkts[i]))
  }

  /** j is the latest start before n and no end lies between them. */
  ghost predicate OpenSince(pkts: seq<seq<byte>>, j: nat, n: nat)
    requires n <= |pkts|
  {
    && j < n && StartAt(pkts, j)
    && (forall m | j < m < n :: !StartAt(pkts, m))
    && (forall m | j <= m < n :: !EndAt(pkts, m))
  }

  /** Packet i is an end fragment, j is the latest start up to i, and no end lies in [j, i). */
  ghost predicate Completes(pkts: seq<seq<byte>>, j: nat, i: nat)
    requires i < |pkts|
  {
    EndAt(pkts, i) && (if StartAt(pkts, i) then j == i else OpenSince(pkts, j, i))
  }

  /** All FU-A fragment payloads of packets lo .. hi-1, in order. */
  function FuBytes(pkts: seq<seq<byte>>, lo: nat, hi: nat): seq<byte>
    requires lo <= hi <= |pkts|
    decreases hi
  {
    if lo == hi then []
    else FuBytes(pkts, lo, hi - 1) + (if FuAt(pkts, hi - 1) then PayloadOf(pkts[hi - 1])[2..] else [])
  }

  function Reassembled(pkts: seq<seq<byte>>, j: nat, hi: nat): seq<byte>
    requires j < hi <= |pkts| && StartAt(pkts, j)
  {
    START_CODE + [RebuiltHeader(PayloadOf(pkts[j]))] + FuBytes(pkts, j, hi)
  }

  /** The NAL units packet i brings out, from the packets up to i alone. */
  ghost function ItemsAt(pkts: seq<seq<byte>>, i: nat): seq<Item>
    requires i < |pkts|
  {
    if !IsVideo(pkts[i]) then []
    else if FuAt(pkts, i) then
      if exists j: nat :: Completes(pkts, j, i) then
        var j: nat :| Completes(pkts, j, i);
        [Item(TimestampOf(pkts[j]), Reassembled(pkts, j, i + 1))]
      else []
    else
      var p := PayloadOf(pkts[i]);
      if p != [] && 1 <= NalType(p[0]) <= 23 then [Item(TimestampOf(pkts[i]), START_CODE + p)] else []
  }

  ghost function ItemsOf(pkts: seq<seq<byte>>, n: nat): seq<Item>
    requires n <= |pkts|
  {
    if n == 0 then [] else ItemsOf(pkts, n - 1) + ItemsAt(pkts, n - 1)
  }

  ghost predicate NoneOpen(pkts: seq<seq<byte>>, n: nat)
    requires n <= |pkts|
  {
    forall j: nat :: !OpenSince(pkts, j, n)
  }

  ghost predicate BufferMatches(f: Fua, pkts: seq<seq<byte>>, n: nat)
    requires n <= |pkts|
  {
    && (f.buf == [] ==> NoneOpen(pkts, n))
    && (f.buf != [] ==> exists j: nat :: OpenSince(pkts, j, n) && f == Fua(Reassembled(pkts, j, n), TimestampOf(pkts[j])))
  }

  lemma OpenStep(pkts: seq<seq<byte>>, j: nat, n: nat)
    requires n < |pkts| && OpenSince(pkts, j, n) && !StartAt(pkts, n) && !EndAt(pkts, n)
    ensures OpenSince(pkts, j, n + 1)
  {
  }

  lemma OpenBefore(pkts: seq<seq<byte>>, j: nat, n: nat)
    requires n < |pkts| && OpenSince(pkts, j, n + 1)
    ensures !EndAt(pkts, n) && (StartAt(pkts, n) || OpenSince(pkts, j, n))
  {
  }

  lemma NoneOpenStep(pkts: seq<seq<byte>>, n: nat)
    requires n < |pkts|
    requires EndAt(pkts, n) || (NoneOpen(pkts, n) && !StartAt(pkts, n))
    ensures NoneOpen(pkts, n + 1)
  {
    var next := n + 1;
    if j: nat :| OpenSince(pkts, j, next) {
      OpenBefore(pkts, j, n);
    }
  }

  lemma OpenUnique(pkts: seq<seq<byte>>, j: nat, k: nat, n: nat)
    requires n <= |pkts| && OpenSince(pkts, j, n) && OpenSince(pkts, k, n)
    ensures j == k
  {
  }

  lemma BufferOnStart(f: Fua, pkts: seq<seq<byte>>, n: nat)
    requires n < |pkts| && StartAt(pkts, n)
    ensures var r := Receive(f, pkts[n]);
            r.items == ItemsAt(pkts, n) && BufferMatches(r.fua, pkts, n + 1)
  {
    var body := PayloadOf(pkts[n]);
    assert FuBytes(pkts, n, n) == [] && FuBytes(pkts, n, n + 1) == body[2..];
    var whole := Reassembled(pkts, n, n + 1);
    assert whole == START_CODE + [RebuiltHeader(body)] + body[2..];
    if EndAt(pkts, n) {
      NoneOpenStep(pkts, n);
      assert Completes(pkts, n, n);
      assert ItemsAt(pkts, n) == [Item(TimestampOf(pkts[n]), whole)];
    } else {
      assert OpenSince(pkts, n, n + 1);
    }
  }

  lemma BufferOnOther(f: Fua, pkts: seq<seq<byte>>, n: nat, j: nat)
    requires n < |pkts| && !StartAt(pkts, n)
    requires OpenSince(pkts, j, n) && f == Fua(Reassembled(pkts, j, n), TimestampOf(pkts[j]))
    ensures var r := Receive(f, pkts[n]);
            r.items == ItemsAt(pkts, n) && BufferMatches(r.fua, pkts, n + 1)
  {
    var more := if FuAt(pkts, n) then PayloadOf(pkts[n])[2..] else [];
    assert FuBytes(pkts, j, n + 1) == FuBytes(pkts, j, n) + more;
    assert Reassembled(pkts, j, n + 1) == f.buf + more;
    if EndAt(pkts, n) {
      NoneOpenStep(pkts, n);
      assert Completes(pkts, j, n);
      forall k: nat | Completes(pkts, k, n)
        ensures k == j
      {
        OpenUnique(pkts, j, k, n);
      }
      assert ItemsAt(pkts, n) == [Item(TimestampOf(pkts[j]), Reassembled(pkts, j, n + 1))];
    } else {
      OpenStep(pkts, j, n);
    }
  }

  lemma BufferStep(f: Fua, pkts: seq<seq<byte>>, n: nat)
    requires n < |pkts| && BufferMatches(f, pkts, n)
    ensures var r := Receive(f, pkts[n]);
            r.items == ItemsAt(pkts, n) && BufferMatches(r.fua, pkts, n + 1)
  {
    if StartAt(pkts, n) {
      BufferOnStart(f, pkts, n);
    } else if f.buf == [] {
      NoneOpenStep(pkts, n);
    } else {
      var j: nat :| OpenSince(pkts, j, n) && f == Fua(Reassembled(pkts, j, n), TimestampOf(pkts[j]));
      BufferOnOther(f, pkts, n, j);
    }
  }

  /** On any packet stream, with losses anywhere, the receiver queues exactly one NAL for
      each end fragment that has a start since the previous end, made of the latest start's
      header and every FU-A payload since, plus the single NALs, all in arrival order. */
  lemma {:induction false} LossyReassembly(ts: u32, pkts: seq<seq<byte>>, n: nat)
    requires n <= |pkts|
    ensures var r := ReceiveAll(Fua([], ts), pkts[..n]);
            r.items == ItemsOf(pkts, n) && BufferMatches(r.fua, pkts, n)
  {
    if n == 0 {
      assert pkts[..0] == [];
    } else {
      LossyReassembly(ts, pkts, n - 1);
      assert pkts[..n][..n - 1] == pkts[..n - 1];
      BufferStep(ReceiveAll(Fua([], ts), pkts[..n - 1]).fua, pkts, n - 1);
    }
  }
}
