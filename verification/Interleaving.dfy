/** Interleaved frames on the RTSP connection (section 10.12 of RFC 2326). */
module Interleaving {
  import opened Bytes

  const DOLLAR: byte := 0x24

  datatype Frame = Frame(channel: nat, pkt: seq<byte>)

  /** `struct.pack("!BBH", 0x24, channel, len(pkt))` raises outside these ranges. */
  predicate Fits(f: Frame) {
    f.channel < 0x100 && |f.pkt| < 0x1_0000
  }

  predicate AllFit(fs: seq<Frame>) {
    forall i | 0 <= i < |fs| :: Fits(fs[i])
  }

  function Encode(f: Frame): seq<byte>
    requires Fits(f)
  {
    [DOLLAR, f.channel] + Be16(|f.pkt|) + f.pkt
  }

  function EncodeAll(fs: seq<Frame>): seq<byte>
    requires AllFit(fs)
  {
    if fs == [] then [] else EncodeAll(fs[..|fs| - 1]) + Encode(fs[|fs| - 1])
  }

  /** A frame as a client reads it, section 10.12 of RFC 2326: "$", the channel, the length, the
      packet. */
  lemma FrameRead(f: Frame)
    requires Fits(f)
    ensures var b := Encode(f);
            && |b| == 4 + |f.pkt| && b[0] == 0x24 && b[1] as int == f.channel
            && b[2] as int * 256 + b[3] as int == |f.pkt| && b[4..] == f.pkt
    ensures f.channel < 0x100 && |f.pkt| < 0x1_0000
  {
  }

  /** What a client reads: whole frames until the bytes run out. */
  function Parse(b: seq<byte>): Option<seq<Frame>> {
    if b == [] then Some([])
    else if |b| < 4 || b[0] != DOLLAR || 4 + AtBe16(b, 2) > |b| then None
    else
      var n := 4 + AtBe16(b, 2);
      match Parse(b[n..])
      case None => None
      case Some(rest) => Some([Frame(b[1], b[4..n])] + rest)
  }

  lemma {:induction false} EncodeFront(fs: seq<Frame>)
    requires fs != [] && AllFit(fs)
    ensures EncodeAll(fs) == Encode(fs[0]) + EncodeAll(fs[1..])
  {
    hide Encode;
    var n := |fs| - 1;
    if n == 0 {
      assert fs[..0] == [] && fs[1..] == [];
      assert EncodeAll(fs) == [] + Encode(fs[0]);
    } else {
      EncodeFront(fs[..n]);
      EncodeSplit(fs);
      EncodeSplit(fs[1..]);
      assert fs[..n][1..] == fs[1..][..n - 1];
      hide EncodeAll;
      var first, middle, last := Encode(fs[0]), EncodeAll(fs[..n][1..]), Encode(fs[n]);
      assert first + middle + last == first + (middle + last);
    }
  }

  lemma EncodeSplit(fs: seq<Frame>)
    requires fs != [] && AllFit(fs)
    ensures EncodeAll(fs) == EncodeAll(fs[..|fs| - 1]) + Encode(fs[|fs| - 1])
  {
    hide Encode;
  }

  lemma EncodeLast(fs: seq<Frame>, f: Frame)
    requires AllFit(fs) && Fits(f)
    ensures AllFit(fs + [f]) && EncodeAll(fs + [f]) == EncodeAll(fs) + Encode(f)
  {
    hide Encode;
    assert (fs + [f])[..|fs|] == fs;
  }

  lemma ParseFront(f: Frame, rest: seq<byte>)
    requires Fits(f) && Parse(rest).Some?
    ensures Parse(Encode(f) + rest) == Some([f] + Parse(rest).value)
  {
    var b := Encode(f) + rest;
    var n := 4 + |f.pkt|;
    assert b[2..4] == Be16(|f.pkt|);
    ReadBe16(b, 2, |f.pkt|);
    assert b[n..] == rest && b[4..n] == f.pkt;
  }

  /** A stream of frames parses as exactly those frames. */
  lemma {:induction false} ParseEncoded(fs: seq<Frame>)
    requires AllFit(fs)
    ensures Parse(EncodeAll(fs)) == Some(fs)
  {
    hide Encode;
    if fs != [] {
      EncodeFront(fs);
      ParseEncoded(fs[1..]);
      ParseFront(fs[0], EncodeAll(fs[1..]));
      assert [fs[0]] + fs[1..] == fs;
    }
  }

  /** The packets of one channel, in order. */
  function OnChannel(fs: seq<Frame>, channel: nat): seq<seq<byte>> {
    if fs == [] then []
    else
      var last := fs[|fs| - 1];
      OnChannel(fs[..|fs| - 1], channel) + (if last.channel == channel then [last.pkt] else [])
  }
}
