/** ICONA packets on TCP: an 8-byte header with body length and request id, then the body. */
module IconaFraming {
  import opened Bytes

  const HEADER_SIZE: nat := 8

  datatype Packet = Packet(requestId: u16, body: seq<byte>)

  datatype Result<+T> = Success(value: T) | IncompleteRead

  /** `encode_header` */
  function EncodeHeader(bodyLength: u16, requestId: u16): (h: seq<byte>)
    ensures |h| == HEADER_SIZE
  {
    [0x00, 0x06] + Le16(bodyLength) + Le16(requestId) + [0, 0]
  }

  /** What the device reads in a header: magic, length, request id, padding. */
  lemma HeaderRead(bodyLength: u16, requestId: u16)
    ensures var h := EncodeHeader(bodyLength, requestId);
            && h[0] == 0x00 && h[1] == 0x06 && h[2] as int + 0x100 * h[3] as int == bodyLength
            && h[4] as int + 0x100 * h[5] as int == requestId && h[6] == 0 && h[7] == 0
  {
  }

  /** `struct.pack("<H", len(body))` needs a body below 65536 bytes. */
  predicate Encodable(p: Packet) {
    |p.body| < MOD16
  }

  function Encode(p: Packet): seq<byte>
    requires Encodable(p)
  {
    EncodeHeader(|p.body|, p.requestId) + p.body
  }

  function EncodeAll(ps: seq<Packet>): seq<byte>
    requires forall p | p in ps :: Encodable(p)
  {
    if ps == [] then [] else Encode(ps[0]) + EncodeAll(ps[1..])
  }

  /** The packet at the front of a byte stream, if all of it is there. */
  predicate HasPacket(b: seq<byte>) {
    |b| >= HEADER_SIZE && |b| >= HEADER_SIZE + AtLe16(b, 2)
  }

  function FirstPacket(b: seq<byte>): Packet
    requires HasPacket(b)
  {
    Packet(AtLe16(b, 4), b[HEADER_SIZE..HEADER_SIZE + AtLe16(b, 2)])
  }

  function AfterPacket(b: seq<byte>): seq<byte>
    requires HasPacket(b)
  {
    b[HEADER_SIZE + AtLe16(b, 2)..]
  }

  /** Every whole packet of a stream. */
  function PacketsOf(b: seq<byte>): seq<Packet>
    decreases |b|
  {
    if HasPacket(b) then [FirstPacket(b)] + PacketsOf(AfterPacket(b)) else []
  }

  lemma FirstOfEncoded(p: Packet, rest: seq<byte>)
    requires Encodable(p)
    ensures var b := Encode(p) + rest;
            HasPacket(b) && FirstPacket(b) == p && AfterPacket(b) == rest
  {
    var b := Encode(p) + rest;
    assert b[2..4] == Le16(|p.body|) && b[4..6] == Le16(p.requestId);
    ReadLe16(b, 2, |p.body|);
    ReadLe16(b, 4, p.requestId);
    assert b[HEADER_SIZE..HEADER_SIZE + |p.body|] == p.body;
    assert b[HEADER_SIZE + |p.body|..] == rest;
  }

  /** Encoded packets read back exactly, and a cut-off last packet yields nothing. */
  lemma {:induction false} PacketsOfEncoded(ps: seq<Packet>, tail: seq<byte>)
    requires (forall p | p in ps :: Encodable(p)) && !HasPacket(tail)
    ensures PacketsOf(EncodeAll(ps) + tail) == ps
  {
    hide Encode, HasPacket, FirstPacket, AfterPacket;
    if ps == [] {
      assert [] + tail == tail;
    } else {
      var rest := EncodeAll(ps[1..]) + tail;
      assert EncodeAll(ps) + tail == Encode(ps[0]) + rest;
      FirstOfEncoded(ps[0], rest);
      PacketsOfEncoded(ps[1..], tail);
      assert [ps[0]] + ps[1..] == ps;
    }
  }

  lemma CutPacketIsNone(p: Packet, n: nat)
    requires Encodable(p) && n < |Encode(p)|
    ensures !HasPacket(Encode(p)[..n])
  {
    var b := Encode(p)[..n];
    if n >= HEADER_SIZE {
      assert b[2..4] == Le16(|p.body|);
      ReadLe16(b, 2, |p.body|);
    }
  }

  // ---- Reading from the socket -----------------------------------------------

  /** `asyncio.StreamReader`: bytes that arrived, and the TCP segments still to come before
      the end of the stream. */
  class StreamReader {
    var buffer: seq<byte>
    var segments: seq<seq<byte>>

    constructor (segments: seq<seq<byte>>)
      ensures buffer == [] && this.segments == segments && Remaining() == Concat(segments)
    {
      buffer, this.segments := [], segments;
      new;
      assert [] + Concat(segments) == Concat(segments);
    }

    /** Everything not yet read. */
    function Remaining(): seq<byte>
      reads this
    {
      buffer + Concat(segments)
    }

    /** `readexactly`: waits for segments until n bytes are there; at the end of the stream
        with fewer it fails. */
    method ReadExactly(n: nat) returns (r: Result<seq<byte>>)
      modifies this
      ensures |old(Remaining())| >= n ==>
                r == Success(old(Remaining())[..n]) && Remaining() == old(Remaining())[n..]
      ensures |old(Remaining())| < n ==> r == IncompleteRead && Remaining() == []
    {
      ghost var all := Remaining();
      while |buffer| < n && segments != []
        invariant Remaining() == all
        decreases |segments|
      {
        assert buffer + Concat(segments) == buffer + segments[0] + Concat(segments[1..]);
        buffer := buffer + segments[0];
        segments := segments[1..];
      }
      if |buffer| < n {
        buffer := [];
        return IncompleteRead;
      }
      assert all[..n] == buffer[..n];
      assert all[n..] == buffer[n..] + Concat(segments);
      r := Success(buffer[..n]);
      buffer := buffer[n..];
    }
  }

  /** `_read_packet` */
  method ReadPacket(reader: StreamReader) returns (r: Result<Packet>)
    modifies reader
    ensures HasPacket(old(reader.Remaining())) ==>
              && r == Success(FirstPacket(old(reader.Remaining())))
              && reader.Remaining() == AfterPacket(old(reader.Remaining()))
    ensures !HasPacket(old(reader.Remaining())) ==> r == IncompleteRead
  {
    ghost var all := reader.Remaining();
    var header := reader.ReadExactly(HEADER_SIZE);
    if header.IncompleteRead? {
      return IncompleteRead;
    }
    var bodyLength, requestId := AtLe16(header.value, 2), AtLe16(header.value, 4);
    assert AtLe16(all, 2) == bodyLength && AtLe16(all, 4) == requestId;
    var body: seq<byte> := [];
    if bodyLength > 0 {
      var read := reader.ReadExactly(bodyLength);
      if read.IncompleteRead? {
        return IncompleteRead;
      }
      body := read.value;
    }
    assert body == all[HEADER_SIZE..HEADER_SIZE + bodyLength];
    assert reader.Remaining() == all[HEADER_SIZE + bodyLength..];
    r := Success(Packet(requestId, body));
  }

  /** The receive loop up to the end of the stream: what it hands to dispatch is exactly the
      whole packets of the byte stream, however TCP cut it. */
  method ReceiveLoop(reader: StreamReader) returns (got: seq<Packet>)
    modifies reader
    ensures got == PacketsOf(old(reader.Remaining()))
  {
    hide HasPacket, FirstPacket, AfterPacket;
    got := [];
    ghost var all := reader.Remaining();
    assert [] + PacketsOf(all) == PacketsOf(all);
    while true
      invariant got + PacketsOf(reader.Remaining()) == PacketsOf(all)
      decreases |reader.Remaining()|
    {
      ghost var before := reader.Remaining();
      var r := ReadPacket(reader);
      if r.IncompleteRead? {
        assert PacketsOf(before) == [];
        return;
      }
      assert HasPacket(before);
      ReadShrinks(before);
      assert got + ([r.value] + PacketsOf(reader.Remaining())) == got + [r.value] + PacketsOf(reader.Remaining());
      got := got + [r.value];
    }
  }

  lemma ReadShrinks(b: seq<byte>)
    requires HasPacket(b)
    ensures |AfterPacket(b)| < |b|
  {
  }

  /** Any packets, encoded, concatenated, possibly cut off in the last one, and delivered in
      any segments: repeated reads return exactly the whole packets. */
  lemma SegmentsDoNotMatter(ps: seq<Packet>, tail: seq<byte>, segments: seq<seq<byte>>)
    requires (forall p | p in ps :: Encodable(p)) && !HasPacket(tail)
    requires Concat(segments) == EncodeAll(ps) + tail
    ensures PacketsOf(Concat(segments)) == ps
  {
    PacketsOfEncoded(ps, tail);
  }

  /** Reading and re-encoding gives the stream back exactly when every header carries the magic
      and the zero padding, which the reader does not look at. */
  predicate CanonicalHeaders(b: seq<byte>)
    decreases |b|
  {
    HasPacket(b) ==> b[0] == 0x00 && b[1] == 0x06 && b[6] == 0 && b[7] == 0 && CanonicalHeaders(AfterPacket(b))
  }

  function LeftOver(b: seq<byte>): seq<byte>
    decreases |b|
  {
    if HasPacket(b) then LeftOver(AfterPacket(b)) else b
  }

  lemma {:induction false} AllEncodable(b: seq<byte>)
    ensures forall p | p in PacketsOf(b) :: Encodable(p)
    decreases |b|
  {
    if HasPacket(b) {
      AllEncodable(AfterPacket(b));
    }
  }

  lemma ReencodeFirst(b: seq<byte>)
    requires HasPacket(b)
    ensures Encode(FirstPacket(b)) + AfterPacket(b) == b <==> b[0] == 0x00 && b[1] == 0x06 && b[6] == 0 && b[7] == 0
    ensures |Encode(FirstPacket(b))| <= |b| && AfterPacket(b) == b[|Encode(FirstPacket(b))|..]
  {
    var p := FirstPacket(b);
    var e := Encode(p) + AfterPacket(b);
    assert |e| == |b|;
    assert Le16(|p.body|) == b[2..4] && Le16(p.requestId) == b[4..6];
    assert e[0] == 0x00 && e[1] == 0x06 && e[6] == 0 && e[7] == 0;
    assert e[2..4] == b[2..4] && e[4..6] == b[4..6];
    assert e[2] == b[2] && e[3] == b[3] && e[4] == b[4] && e[5] == b[5];
    assert forall i | 8 <= i < |b| :: e[i] == b[i];
    if b[0] == 0x00 && b[1] == 0x06 && b[6] == 0 && b[7] == 0 {
      assert forall i | 0 <= i < |b| :: e[i] == b[i];
    }
  }

  lemma {:induction false} ReencodeIff(b: seq<byte>)
    ensures forall p | p in PacketsOf(b) :: Encodable(p)
    ensures EncodeAll(PacketsOf(b)) + LeftOver(b) == b <==> CanonicalHeaders(b)
    decreases |b|
  {
    hide Encode, FirstPacket, AfterPacket, Encodable;
    AllEncodable(b);
    if HasPacket(b) {
      ReadShrinks(b);
      var first, rest := Encode(FirstPacket(b)), AfterPacket(b);
      ReencodeIff(rest);
      ReencodeFirst(b);
      var more := EncodeAll(PacketsOf(rest)) + LeftOver(rest);
      assert PacketsOf(b)[1..] == PacketsOf(rest);
      assert EncodeAll(PacketsOf(b)) + LeftOver(b) == first + more;
      if first + more == b {
        assert more == (first + more)[|first|..] == b[|first|..] == rest;
      }
    } else {
      assert [] + b == b;
    }
  }
}
