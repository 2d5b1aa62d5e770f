/** RTP packets (section 5.1 of RFC 3550) as the server builds and rewrites them,
    and RTCP Sender Reports (section 6.4.1). */
module Rtp {
  import opened Bytes

  const VIDEO_PT: byte := 96
  const VIDEO_SSRC: u32 := 0xC0DE1234
  const AUDIO_SSRC: u32 := 0xA0D10001

  function Header(byte0: byte, byte1: byte, sequence: u16, ts: u32, ssrc: u32): (h: seq<byte>)
    ensures |h| == 12
  {
    [byte0, byte1] + Be16(sequence) + Be32(ts) + Be32(ssrc)
  }

  /** `_build_rtp` */
  function Build(pt: byte, sequence: u16, ts: u32, ssrc: u32, payload: seq<byte>, marker: bool): seq<byte> {
    Header(0x80, (if marker then 0x80 else 0) + pt % 128, sequence, ts, ssrc) + payload
  }

  /** The pass-through loop's packet: first byte, marker and payload are the device's,
      payload type, sequence number, timestamp and SSRC are the server's. */
  function Rewrite(rtp: seq<byte>, sequence: u16, ts: u32): seq<byte>
    requires |rtp| >= 12
  {
    Header(rtp[0], rtp[1] / 128 * 128 + VIDEO_PT, sequence, ts, VIDEO_SSRC) + rtp[12..]
  }

  function SequenceOf(p: seq<byte>): u16
    requires |p| >= 12
  {
    AtBe16(p, 2)
  }

  function TimestampOf(p: seq<byte>): u32
    requires |p| >= 12
  {
    AtBe32(p, 4)
  }

  function PayloadOf(p: seq<byte>): seq<byte>
    requires |p| >= 12
  {
    p[12..]
  }

  function MarkerOf(p: seq<byte>): bool
    requires |p| >= 12
  {
    p[1] >= 128
  }

  /** What `_process_rtp` lets through to the H.264 path: RTP version 2 and a payload
      type other than G.711 (0 and 8). */
  predicate IsVideo(p: seq<byte>) {
    |p| >= 12 && p[0] / 64 == 2 && p[1] % 128 != 0 && p[1] % 128 != 8
  }

  lemma HeaderFields(byte0: byte, byte1: byte, sequence: u16, ts: u32, ssrc: u32, payload: seq<byte>)
    ensures var p := Header(byte0, byte1, sequence, ts, ssrc) + payload;
            && |p| == 12 + |payload| && p[0] == byte0 && p[1] == byte1
            && SequenceOf(p) == sequence && TimestampOf(p) == ts && AtBe32(p, 8) == ssrc
            && PayloadOf(p) == payload
  {
    var p := Header(byte0, byte1, sequence, ts, ssrc) + payload;
    assert p[2..4] == Be16(sequence) && p[4..8] == Be32(ts) && p[8..12] == Be32(ssrc);
    ReadBe16(p, 2, sequence);
    ReadBe32(p, 4, ts);
    ReadBe32(p, 8, ssrc);
    assert p[12..] == payload;
  }

  lemma BuildFields(sequence: u16, ts: u32, payload: seq<byte>, marker: bool)
    ensures var p := Build(VIDEO_PT, sequence, ts, VIDEO_SSRC, payload, marker);
            && IsVideo(p) && |p| == 12 + |payload| && SequenceOf(p) == sequence && TimestampOf(p) == ts
            && PayloadOf(p) == payload && MarkerOf(p) == marker
  {
    HeaderFields(0x80, (if marker then 0x80 else 0) + VIDEO_PT, sequence, ts, VIDEO_SSRC, payload);
  }

  /** The rewritten packet differs from the device's exactly in payload type, sequence
      number, timestamp and SSRC, and is video whenever the device's was. */
  lemma RewriteFields(rtp: seq<byte>, sequence: u16, ts: u32)
    requires |rtp| >= 12
    ensures var p := Rewrite(rtp, sequence, ts);
            && |p| == |rtp| && p[0] == rtp[0] && p[1] % 128 == VIDEO_PT && AtBe32(p, 8) == VIDEO_SSRC
            && SequenceOf(p) == sequence && TimestampOf(p) == ts
            && PayloadOf(p) == PayloadOf(rtp) && MarkerOf(p) == MarkerOf(rtp)
            && (IsVideo(rtp) ==> IsVideo(p))
  {
    HeaderFields(rtp[0], rtp[1] / 128 * 128 + VIDEO_PT, sequence, ts, VIDEO_SSRC, rtp[12..]);
  }

  /** A big-endian word of the header. */
  function Word(p: seq<byte>, off: nat): int
    requires off + 4 <= |p|
  {
    ((p[off] as int * 256 + p[off + 1] as int) * 256 + p[off + 2] as int) * 256 + p[off + 3] as int
  }

  lemma WordIs(p: seq<byte>, off: nat)
    requires off + 4 <= |p|
    ensures Word(p, off) == AtBe32(p, off)
  {
  }

  /** The header a client reads, section 5.1 of RFC 3550: version 2 and nothing else, payload type
      96 under the marker, sequence number, timestamp and the server's SSRC; then the payload. */
  lemma BuildRead(sequence: u16, ts: u32, payload: seq<byte>, marker: bool)
    ensures var p := Build(VIDEO_PT, sequence, ts, VIDEO_SSRC, payload, marker);
            && |p| == 12 + |payload| && p[0] == 0x80 && p[1] as int == 96 + (if marker then 0x80 else 0)
            && p[2] as int * 256 + p[3] as int == sequence && Word(p, 4) == ts && Word(p, 8) == 0xC0DE1234
            && p[12..] == payload
  {
    var p := Build(VIDEO_PT, sequence, ts, VIDEO_SSRC, payload, marker);
    HeaderFields(0x80, (if marker then 0x80 else 0) + VIDEO_PT, sequence, ts, VIDEO_SSRC, payload);
    WordIs(p, 4);
    WordIs(p, 8);
  }

  /** The rewritten header: first byte and marker are the device's, the rest the server's. */
  lemma RewriteRead(rtp: seq<byte>, sequence: u16, ts: u32)
    requires |rtp| >= 12
    ensures var p := Rewrite(rtp, sequence, ts);
            && p[0] == rtp[0] && p[1] as int == 96 + (if rtp[1] >= 0x80 then 0x80 else 0)
            && p[2] as int * 256 + p[3] as int == sequence && Word(p, 4) == ts && Word(p, 8) == 0xC0DE1234
            && p[12..] == rtp[12..]
  {
    var p := Rewrite(rtp, sequence, ts);
    HeaderFields(rtp[0], rtp[1] / 128 * 128 + VIDEO_PT, sequence, ts, VIDEO_SSRC, rtp[12..]);
    WordIs(p, 4);
    WordIs(p, 8);
  }

  /** What is read from a device packet. */
  lemma DeviceFields(rtp: seq<byte>)
    requires |rtp| >= 12
    ensures TimestampOf(rtp) == Word(rtp, 4) && SequenceOf(rtp) as int == rtp[2] as int * 256 + rtp[3] as int
    ensures PayloadOf(rtp) == rtp[12..] && (MarkerOf(rtp) <==> rtp[1] >= 0x80)
    ensures IsVideo(rtp) <==> 0x80 <= rtp[0] < 0xC0 && rtp[1] as int % 0x80 != 0 && rtp[1] as int % 0x80 != 8
  {
    WordIs(rtp, 4);
  }

  // ---- RTCP -------------------------------------------------------------

  const CNAME: seq<byte> := [0x63, 0x6F, 0x6D, 0x65, 0x6C, 0x69, 0x74, 0x40, 0x6C, 0x6F, 0x63, 0x61, 0x6C]

  /** A Sender Report: 28 bytes, announced as 6 words after the first. */
  function SenderReport(ssrc: u32, ntpSecs: u32, ntpFrac: u32, rtpTs: u32, packets: u32, octets: u32): (b: seq<byte>)
    ensures |b| == 28
  {
    [0x80, 200, 0, 6] + Be32(ssrc) + Be32(ntpSecs) + Be32(ntpFrac) + Be32(rtpTs) + Be32(packets) + Be32(octets)
  }

  /** One SDES chunk: SSRC, CNAME item and terminator. */
  function SdesChunk(ssrc: u32): (c: seq<byte>)
    ensures |c| == 7 + |CNAME|
  {
    Be32(ssrc) + [1, |CNAME|] + CNAME + [0]
  }

  /** Zero-padding to a 32-bit boundary. */
  function Padded(c: seq<byte>): (p: seq<byte>)
    ensures |p| % 4 == 0 && c <= p && |p| < |c| + 4
  {
    c + seq((4 - |c| % 4) % 4, _ => 0)
  }

  function Sdes(ssrc: u32): seq<byte> {
    var chunk := Padded(SdesChunk(ssrc));
    [0x81, 202] + Be16(|chunk| / 4) + chunk
  }

  /** `_build_rtcp_sr`; the totals are cut to 32 bits. */
  function BuildSr(ssrc: u32, ntpSecs: nat, ntpFrac: nat, rtpTs: nat, packets: nat, octets: nat): seq<byte> {
    SenderReport(ssrc, ntpSecs % MOD32, ntpFrac % MOD32, rtpTs % MOD32, packets % MOD32, octets % MOD32) + Sdes(ssrc)
  }

  /** RTCP packets of a compound datagram, cut at the length each one announces in
      32-bit words minus one. */
  function SplitCompound(b: seq<byte>): Option<seq<seq<byte>>> {
    if b == [] then Some([])
    else if |b| < 4 || 4 * (AtBe16(b, 2) + 1) > |b| then None
    else
      var n := 4 * (AtBe16(b, 2) + 1);
      match SplitCompound(b[n..])
      case None => None
      case Some(rest) => Some([b[..n]] + rest)
  }

  lemma {:induction false} SplitOne(p: seq<byte>, rest: seq<byte>)
    requires |p| >= 4 && |p| == 4 * (AtBe16(p, 2) + 1) && SplitCompound(rest).Some?
    ensures SplitCompound(p + rest) == Some([p] + SplitCompound(rest).value)
  {
    var b := p + rest;
    assert b[2] == p[2] && b[3] == p[3];
    assert b[|p|..] == rest && b[..|p|] == p;
  }

  lemma SdesShape(ssrc: u32)
    ensures var d := Sdes(ssrc);
            |d| == 24 && d[1] == 202 && AtBe16(d, 2) == 5 && AtBe32(d, 4) == ssrc
            && d[8] == 1 && d[9] == |CNAME| && d[10..10 + |CNAME|] == CNAME && d[23] == 0
  {
    var chunk := SdesChunk(ssrc);
    assert |chunk| == 20 && Padded(chunk) == chunk;
    var d := Sdes(ssrc);
    assert d == [0x81, 202] + Be16(5) + chunk;
    assert d[2..4] == Be16(5) && d[4..8] == chunk[..4] == Be32(ssrc);
    ReadBe16(d, 2, 5);
    ReadBe32(d, 4, ssrc);
    assert d[10..23] == chunk[6..19] == CNAME;
  }

  lemma SrFields(ssrc: u32, ntpSecs: u32, ntpFrac: u32, rtpTs: u32, packets: u32, octets: u32)
    ensures var b := SenderReport(ssrc, ntpSecs, ntpFrac, rtpTs, packets, octets);
            b[1] == 200 && AtBe16(b, 2) == 6 && AtBe32(b, 4) == ssrc && AtBe32(b, 8) == ntpSecs
            && AtBe32(b, 12) == ntpFrac && AtBe32(b, 16) == rtpTs && AtBe32(b, 20) == packets
            && AtBe32(b, 24) == octets
  {
    var b := SenderReport(ssrc, ntpSecs, ntpFrac, rtpTs, packets, octets);
    assert b[4..8] == Be32(ssrc) && b[8..12] == Be32(ntpSecs) && b[12..16] == Be32(ntpFrac);
    assert b[16..20] == Be32(rtpTs) && b[20..24] == Be32(packets);
    assert |b| == 28 && b[24..28] == b[24..] == Be32(octets);
    ReadBe32(b, 4, ssrc);
    ReadBe32(b, 8, ntpSecs);
    ReadBe32(b, 12, ntpFrac);
    ReadBe32(b, 16, rtpTs);
    ReadBe32(b, 20, packets);
    ReadBe32(b, 24, octets);
  }

  /** Section 6.1 of RFC 3550: the datagram splits into exactly one SR and one SDES
      packet, and the SR carries the timestamp and the totals modulo 2^32. */
  lemma SrIsCompound(ssrc: u32, ntpSecs: nat, ntpFrac: nat, rtpTs: nat, packets: nat, octets: nat)
    ensures var b := BuildSr(ssrc, ntpSecs, ntpFrac, rtpTs, packets, octets);
            |b| == 52 && SplitCompound(b) == Some([b[..28], b[28..]])
            && AtBe32(b[..28], 16) == rtpTs % MOD32 && AtBe32(b[..28], 20) == packets % MOD32
            && AtBe32(b[..28], 24) == octets % MOD32
            && AtBe32(b[28..], 4) == ssrc && b[28..][10..10 + |CNAME|] == CNAME
  {
    var p := SenderReport(ssrc, ntpSecs % MOD32, ntpFrac % MOD32, rtpTs % MOD32, packets % MOD32, octets % MOD32);
    var d := Sdes(ssrc);
    SdesShape(ssrc);
    SrFields(ssrc, ntpSecs % MOD32, ntpFrac % MOD32, rtpTs % MOD32, packets % MOD32, octets % MOD32);
    SplitOne(d, []);
    assert d + [] == d && [d] + [] == [d];
    assert SplitCompound(d) == Some([d]);
    SplitOne(p, d);
    assert [p] + [d] == [p, d];
    assert (p + d)[..28] == p && (p + d)[28..] == d;
  }

  /** Every field of the report, section 6.4.1 of RFC 3550: SR, 6 words, then SSRC, both halves of
      the NTP time, RTP timestamp, packet and octet counts, each modulo 2^32; and an SDES packet
      with the same SSRC and the CNAME, section 6.5. */
  lemma SrRead(ssrc: u32, ntpSecs: nat, ntpFrac: nat, rtpTs: nat, packets: nat, octets: nat)
    ensures var b := BuildSr(ssrc, ntpSecs, ntpFrac, rtpTs, packets, octets);
            && |b| == 52 && b[..4] == [0x80, 200, 0, 6]
            && Word(b, 4) == ssrc && Word(b, 8) == ntpSecs % 0x1_0000_0000 && Word(b, 12) == ntpFrac % 0x1_0000_0000
            && Word(b, 16) == rtpTs % 0x1_0000_0000 && Word(b, 20) == packets % 0x1_0000_0000
            && Word(b, 24) == octets % 0x1_0000_0000
            && b[28..32] == [0x81, 202, 0, 5] && Word(b, 32) == ssrc && b[36..38] == [1, 13]
            && b[38..51] == [0x63, 0x6F, 0x6D, 0x65, 0x6C, 0x69, 0x74, 0x40, 0x6C, 0x6F, 0x63, 0x61, 0x6C] && b[51] == 0
  {
    var sr := SenderReport(ssrc, ntpSecs % MOD32, ntpFrac % MOD32, rtpTs % MOD32, packets % MOD32, octets % MOD32);
    SrWords(ssrc, ntpSecs % MOD32, ntpFrac % MOD32, rtpTs % MOD32, packets % MOD32, octets % MOD32);
    SdesRead(ssrc);
    var b, sdes := BuildSr(ssrc, ntpSecs, ntpFrac, rtpTs, packets, octets), Sdes(ssrc);
    hide SenderReport, Sdes;
    assert b == sr + sdes && b[..28] == sr && b[28..] == sdes;
    WordIn(b, sr, sdes);
    assert b[..4] == sr[..4] && b[28..32] == sdes[..4] && b[36..38] == sdes[8..10] && b[38..51] == sdes[10..23] && b[51] == sdes[23];
  }

  lemma WordIn(b: seq<byte>, sr: seq<byte>, sdes: seq<byte>)
    requires b == sr + sdes && |sr| == 28 && |sdes| == 24
    ensures forall off | 0 <= off <= 24 :: Word(b, off) == Word(sr, off)
    ensures Word(b, 32) == Word(sdes, 4)
  {
    assert b[32] == sdes[4] && b[33] == sdes[5] && b[34] == sdes[6] && b[35] == sdes[7];
  }

  lemma SrWords(ssrc: u32, ntpSecs: u32, ntpFrac: u32, rtpTs: u32, packets: u32, octets: u32)
    ensures var b := SenderReport(ssrc, ntpSecs, ntpFrac, rtpTs, packets, octets);
            && |b| == 28 && b[..4] == [0x80, 200, 0, 6]
            && Word(b, 4) == ssrc && Word(b, 8) == ntpSecs && Word(b, 12) == ntpFrac
            && Word(b, 16) == rtpTs && Word(b, 20) == packets && Word(b, 24) == octets
  {
    var b := SenderReport(ssrc, ntpSecs, ntpFrac, rtpTs, packets, octets);
    assert |Be32(ssrc)| == |Be32(ntpSecs)| == |Be32(ntpFrac)| == |Be32(rtpTs)| == |Be32(packets)| == |Be32(octets)| == 4;
    hide Be32;
    assert b[4..8] == Be32(ssrc) && b[8..12] == Be32(ntpSecs) && b[12..16] == Be32(ntpFrac);
    assert b[16..20] == Be32(rtpTs) && b[20..24] == Be32(packets) && b[24..28] == Be32(octets);
    ReadBe32(b, 4, ssrc);
    ReadBe32(b, 8, ntpSecs);
    ReadBe32(b, 12, ntpFrac);
    ReadBe32(b, 16, rtpTs);
    ReadBe32(b, 20, packets);
    ReadBe32(b, 24, octets);
    hide SenderReport, AtBe32;
    WordsAre(b);
  }

  lemma WordsAre(b: seq<byte>)
    requires |b| == 28
    ensures Word(b, 4) == AtBe32(b, 4) && Word(b, 8) == AtBe32(b, 8) && Word(b, 12) == AtBe32(b, 12)
    ensures Word(b, 16) == AtBe32(b, 16) && Word(b, 20) == AtBe32(b, 20) && Word(b, 24) == AtBe32(b, 24)
  {
    WordIs(b, 4);
    WordIs(b, 8);
    WordIs(b, 12);
    WordIs(b, 16);
    WordIs(b, 20);
    WordIs(b, 24);
  }

  lemma SdesRead(ssrc: u32)
    ensures var b := Sdes(ssrc);
            && |b| == 24 && b[..4] == [0x81, 202, 0, 5] && Word(b, 4) == ssrc && b[8..10] == [1, 13]
            && b[10..23] == [0x63, 0x6F, 0x6D, 0x65, 0x6C, 0x69, 0x74, 0x40, 0x6C, 0x6F, 0x63, 0x61, 0x6C] && b[23] == 0
  {
    SdesShape(ssrc);
    var b := Sdes(ssrc);
    assert b[4..8] == Be32(ssrc);
    ReadBe32(b, 4, ssrc);
    WordIs(b, 4);
  }
}
