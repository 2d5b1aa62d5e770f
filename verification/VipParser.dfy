/** CTPP messages as the VIP listener reads them: a fixed head, then every NUL-terminated
    string that starts with "SB", wherever it lies; and the ACK messages it sends. */
module VipParser {
  import opened Bytes

  /** A parsed message. */
  datatype Message = Message(prefix: u16, timestamp: u32, action: u16, flags: Option<u16>, addresses: seq<string>)

  /** A found address: where it starts and where it ends. */
  datatype Span = Span(start: nat, end: nat)

  predicate SbAt(data: seq<byte>, i: nat) {
    i + 1 < |data| && data[i] == 0x53 && data[i + 1] == 0x42
  }

  /** Index of the first NUL from i on, or the length. */
  function NulFrom(data: seq<byte>, i: nat): (e: nat)
    requires i <= |data|
    ensures i <= e <= |data| && (e < |data| ==> data[e] == 0)
    ensures forall k | i <= k < e :: data[k] != 0
    decreases |data| - i
  {
    if i == |data| || data[i] == 0 then i else NulFrom(data, i + 1)
  }

  /** The scan, from index i. */
  function Spans(data: seq<byte>, i: nat): seq<Span>
    decreases |data| - i
  {
    if i + 1 >= |data| then []
    else if SbAt(data, i) then
      var e := NulFrom(data, i);
      [Span(i, e)] + (if e < |data| then Spans(data, e + 1) else [])
    else Spans(data, i + 1)
  }

  /** Decoding ASCII with replacement. */
  function Text(b: seq<byte>): string {
    seq(|b|, i requires 0 <= i < |b| => if b[i] < 0x80 then b[i] as char else '\U{FFFD}')
  }

  /** Bytes up to 0x7F are themselves, every other one becomes the replacement character. */
  lemma TextRead(b: seq<byte>, i: nat)
    requires i < |b|
    ensures |Text(b)| == |b|
    ensures b[i] <= 0x7F ==> Text(b)[i] as int == b[i] as int
    ensures b[i] >= 0x80 ==> Text(b)[i] == '\U{FFFD}'
  {
  }

  predicate InBounds(data: seq<byte>, spans: seq<Span>) {
    forall n | 0 <= n < |spans| :: spans[n].start <= spans[n].end <= |data|
  }

  function Addresses(data: seq<byte>, spans: seq<Span>): seq<string>
    requires InBounds(data, spans)
  {
    seq(|spans|, n requires 0 <= n < |spans| => Text(data[spans[n].start..spans[n].end]))
  }

  // ---- What the scan finds --------------------------------------------------------

  /** The span is an "SB" string that runs to the first NUL or to the end. */
  predicate IsString(data: seq<byte>, s: Span) {
    SbAt(data, s.start) && s.end == NulFrom(data, s.start)
  }

  /** Strings from i on, apart and in order. */
  predicate Sound(data: seq<byte>, spans: seq<Span>, i: nat) {
    && (forall n | 0 <= n < |spans| :: i <= spans[n].start && IsString(data, spans[n]))
    && (forall m, n | 0 <= m < n < |spans| :: spans[m].end < spans[n].start)
  }

  predicate Holds(s: Span, k: nat) {
    s.start <= k < s.end
  }

  ghost predicate Covered(spans: seq<Span>, k: nat) {
    exists n | 0 <= n < |spans| :: Holds(spans[n], k)
  }

  /** Every "SB" from i on lies in some span. */
  ghost predicate Complete(data: seq<byte>, spans: seq<Span>, i: nat) {
    forall k: nat | i <= k && SbAt(data, k) :: Covered(spans, k)
  }

  /** The scan reports exactly the NUL-delimited strings that begin at an "SB" outside every
      earlier one: what it reports is sound, and no "SB" is missed. */
  lemma {:induction false} SpansExact(data: seq<byte>, i: nat)
    ensures Sound(data, Spans(data, i), i) && Complete(data, Spans(data, i), i)
    decreases |data| - i
  {
    hide Sound, Complete, IsString;
    if i + 1 >= |data| {
      NothingLeft(data, i);
    } else if SbAt(data, i) {
      var e := NulFrom(data, i);
      if e < |data| {
        SpansExact(data, e + 1);
        FirstSpanExact(data, i, Spans(data, e + 1));
      } else {
        NothingLeft(data, e + 1);
        FirstSpanExact(data, i, []);
      }
    } else {
      SpansExact(data, i + 1);
      NoStringHere(data, Spans(data, i + 1), i);
    }
  }

  lemma NothingLeft(data: seq<byte>, i: nat)
    requires i + 1 >= |data|
    ensures Sound(data, [], i) && Complete(data, [], i)
  {
  }

  lemma NoStringHere(data: seq<byte>, spans: seq<Span>, i: nat)
    requires !SbAt(data, i) && Sound(data, spans, i + 1) && Complete(data, spans, i + 1)
    ensures Sound(data, spans, i) && Complete(data, spans, i)
  {
    hide IsString, SbAt, Covered;
  }

  lemma FirstSpanExact(data: seq<byte>, i: nat, rest: seq<Span>)
    requires SbAt(data, i)
    requires var e := NulFrom(data, i); Sound(data, rest, e + 1) && Complete(data, rest, e + 1)
    ensures Sound(data, [Span(i, NulFrom(data, i))] + rest, i)
    ensures Complete(data, [Span(i, NulFrom(data, i))] + rest, i)
  {
    var first := Span(i, NulFrom(data, i));
    StringEnds(data, first);
    FirstSpanSound(data, first, rest);
    FirstSpanComplete(data, first, rest);
  }

  lemma FirstSpanSound(data: seq<byte>, first: Span, rest: seq<Span>)
    requires IsString(data, first) && first.start < first.end && Sound(data, rest, first.end + 1)
    ensures Sound(data, [first] + rest, first.start)
  {
    hide IsString;
    var all := [first] + rest;
    assert forall n | 0 < n < |all| :: all[n] == rest[n - 1];
  }

  lemma FirstSpanComplete(data: seq<byte>, first: Span, rest: seq<Span>)
    requires first.end >= |data| || data[first.end] == 0
    requires Complete(data, rest, first.end + 1)
    ensures Complete(data, [first] + rest, first.start)
  {
    var all := [first] + rest;
    forall k: nat | first.start <= k && SbAt(data, k)
      ensures Covered(all, k)
    {
      if k < first.end {
        assert Holds(all[0], k);
      } else {
        assert Covered(rest, k);
        var n :| 0 <= n < |rest| && Holds(rest[n], k);
        assert all[n + 1] == rest[n];
      }
    }
  }

  /** Sound and complete spans are unique, so the two conditions say all there is. */
  lemma {:induction false} SpansUnique(data: seq<byte>, a: seq<Span>, b: seq<Span>, i: nat)
    requires Sound(data, a, i) && Complete(data, a, i) && Sound(data, b, i) && Complete(data, b, i)
    ensures a == b
    decreases |a|
  {
    hide Sound, Complete;
    if a != [] {
      FirstNoLater(data, a, b, i);
    }
    if b != [] {
      FirstNoLater(data, b, a, i);
    }
    if a != [] {
      SameStart(data, a, b, i);
      TailExact(data, a, i);
      TailExact(data, b, i);
      SpansUnique(data, a[1..], b[1..], a[0].end + 1);
      assert a == [a[0]] + a[1..] && b == [b[0]] + b[1..];
    }
  }

  lemma SameStart(data: seq<byte>, a: seq<Span>, b: seq<Span>, i: nat)
    requires a != [] && b != [] && a[0].start == b[0].start && Sound(data, a, i) && Sound(data, b, i)
    ensures a[0] == b[0]
  {
    hide NulFrom;
    assert IsString(data, a[0]) && IsString(data, b[0]);
  }

  lemma FirstNoLater(data: seq<byte>, a: seq<Span>, b: seq<Span>, i: nat)
    requires a != [] && Sound(data, a, i) && Complete(data, b, i) && Sound(data, b, i)
    ensures b != [] && b[0].start <= a[0].start
  {
    hide NulFrom;
    assert IsString(data, a[0]);
    assert Covered(b, a[0].start);
    var n :| 0 <= n < |b| && Holds(b[n], a[0].start);
    assert IsString(data, b[0]);
    assert n > 0 ==> b[0].end < b[n].start;
    assert b[0].start <= b[0].end by {
      StringEnds(data, b[0]);
    }
  }

  lemma StringEnds(data: seq<byte>, s: Span)
    requires IsString(data, s)
    ensures s.start < s.end <= |data|
  {
  }

  lemma TailExact(data: seq<byte>, a: seq<Span>, i: nat)
    requires a != [] && Sound(data, a, i) && Complete(data, a, i)
    ensures Sound(data, a[1..], a[0].end + 1) && Complete(data, a[1..], a[0].end + 1)
  {
    hide IsString, SbAt;
    forall n | 0 <= n < |a[1..]|
      ensures a[0].end + 1 <= a[1..][n].start && IsString(data, a[1..][n])
    {
      assert a[1..][n] == a[n + 1];
    }
    assert i <= a[0].end + 1 by {
      StringEnds(data, a[0]);
    }
    forall k: nat | a[0].end + 1 <= k && SbAt(data, k)
      ensures Covered(a[1..], k)
    {
      assert Covered(a, k);
      var n :| 0 <= n < |a| && Holds(a[n], k);
      assert a[1..][n - 1] == a[n];
    }
  }

  // ---- The parser ------------------------------------------------------------------

  lemma SpansInBounds(data: seq<byte>, i: nat)
    ensures InBounds(data, Spans(data, i))
  {
    SpansExact(data, i);
    hide Spans;
    forall n | 0 <= n < |Spans(data, i)|
      ensures Spans(data, i)[n].start <= Spans(data, i)[n].end <= |data|
    {
      assert IsString(data, Spans(data, i)[n]);
      StringEnds(data, Spans(data, i)[n]);
    }
  }

  /** What parsing a message yields. */
  function Parsed(data: seq<byte>): Option<Message> {
    if |data| < 8 then None
    else
      SpansInBounds(data, 0);
      Some(Message(AtLe16(data, 0), AtLe32(data, 2), AtBe16(data, 6),
                   if |data| >= 10 then Some(AtBe16(data, 8)) else None,
                   Addresses(data, Spans(data, 0))))
  }

  /** `parse_ctpp_message` */
  method ParseCtppMessage(data: seq<byte>) returns (r: Option<Message>)
    ensures r == Parsed(data)
  {
    if |data| < 8 {
      return None;
    }
    var flags := if |data| >= 10 then Some(AtBe16(data, 8)) else None;
    var addresses: seq<string> := [];
    var i := 0;
    ghost var found: seq<Span> := [];
    SpansInBounds(data, 0);
    while i < |data| - 1
      invariant 0 <= i <= |data| + 1
      invariant Spans(data, 0) == found + Spans(data, i)
      invariant InBounds(data, found) && addresses == Addresses(data, found)
    {
      if data[i..i + 2] == [0x53, 0x42] {
        assert SbAt(data, i) by {
          assert data[i..i + 2][0] == data[i] && data[i..i + 2][1] == data[i + 1];
        }
        var end := NulFrom(data, i);
        addresses := addresses + [Text(data[i..end])];
        found := found + [Span(i, end)];
        i := end + 1;
      } else {
        assert !SbAt(data, i) by {
          assert data[i..i + 2] == [data[i], data[i + 1]];
        }
        i := i + 1;
      }
    }
    assert Spans(data, 0) == found;
    return Some(Message(AtLe16(data, 0), AtLe32(data, 2), AtBe16(data, 6), flags, addresses));
  }

  // ---- ACK messages --------------------------------------------------------------------

  predicate Ascii(s: string) {
    forall i | 0 <= i < |s| :: s[i] as int < 0x80
  }

  function AsciiBytes(s: string): seq<byte>
    requires Ascii(s)
  {
    seq(|s|, i requires 0 <= i < |s| => s[i] as int as byte)
  }

  /** An apartment or entrance address. */
  predicate IsAddress(s: string) {
    Ascii(s) && |s| >= 2 && s[0] == 'S' && s[1] == 'B' && forall i | 0 <= i < |s| :: s[i] as int != 0
  }

  /** `encode_call_response_ack` */
  function EncodeAck(caller: string, callee: string, timestamp: u32, prefix: u16): seq<byte>
    requires Ascii(caller) && Ascii(callee)
  {
    Le16(prefix) + Le32(timestamp) + [0, 0] + [0xFF, 0xFF, 0xFF, 0xFF]
    + AsciiBytes(caller) + [0] + AsciiBytes(callee) + [0, 0]
  }

  predicate HasSb(b: seq<byte>) {
    exists i: nat | i < |b| :: SbAt(b, i)
  }

  /** No string starts in [i, j). */
  lemma {:induction false} SkipNoise(data: seq<byte>, i: nat, j: nat)
    requires i <= j <= |data| && forall k | i <= k < j :: !SbAt(data, k)
    ensures Spans(data, i) == Spans(data, j)
    decreases j - i
  {
    if i < j {
      SkipNoise(data, i + 1, j);
    }
  }

  lemma {:induction false} NulFromIs(data: seq<byte>, i: nat, e: nat)
    requires i <= e < |data| && data[e] == 0 && forall k | i <= k < e :: data[k] != 0
    ensures NulFrom(data, i) == e
  {
  }

  /** The bytes are a head of 8, four 0xFF and two NUL-terminated addresses and a NUL. */
  lemma AckBytes(caller: string, callee: string, timestamp: u32, prefix: u16)
    requires Ascii(caller) && Ascii(callee)
    ensures var d := EncodeAck(caller, callee, timestamp, prefix);
            var n := 13 + |caller|;
            && |d| == n + |callee| + 2
            && d[0..2] == Le16(prefix) && d[2..6] == Le32(timestamp) && d[6] == 0 && d[7] == 0
            && d[8] == d[9] == d[10] == d[11] == 0xFF
            && d[12..n - 1] == AsciiBytes(caller) && d[n - 1] == 0
            && d[n..n + |callee|] == AsciiBytes(callee) && d[n + |callee|] == 0 && d[n + |callee| + 1] == 0
  {
    AsciiLength(caller);
    AsciiLength(callee);
    var head := Le16(prefix) + Le32(timestamp) + [0, 0] + [0xFF, 0xFF, 0xFF, 0xFF];
    var d := EncodeAck(caller, callee, timestamp, prefix);
    assert d == head + AsciiBytes(caller) + [0] + AsciiBytes(callee) + [0, 0];
    AckHead(prefix, timestamp, head);
    hide EncodeAck, AsciiBytes, Le16, Le32;
    TwoStrings(head, AsciiBytes(caller), AsciiBytes(callee));
    TakeOfTake(d, head);
  }

  lemma AckHead(prefix: u16, timestamp: u32, head: seq<byte>)
    requires head == Le16(prefix) + Le32(timestamp) + [0, 0] + [0xFF, 0xFF, 0xFF, 0xFF]
    ensures |head| == 12 && head[0..2] == Le16(prefix) && head[2..6] == Le32(timestamp)
    ensures head[6] == head[7] == 0 && head[8] == head[9] == head[10] == head[11] == 0xFF
  {
  }

  /** Where two NUL-terminated strings and a NUL after a head stand. */
  lemma TwoStrings(head: seq<byte>, a: seq<byte>, b: seq<byte>)
    ensures var d := head + a + [0] + b + [0, 0];
            var n := |head| + |a| + 1;
            && |d| == n + |b| + 2 && d[..|head|] == head
            && d[|head|..n - 1] == a && d[n - 1] == 0
            && d[n..n + |b|] == b && d[n + |b|] == 0 && d[n + |b| + 1] == 0
  {
  }

  lemma TakeOfTake(d: seq<byte>, head: seq<byte>)
    requires |head| == 12 <= |d| && d[..12] == head
    ensures d[0..2] == head[0..2] && d[2..6] == head[2..6]
    ensures forall i | 0 <= i < 12 :: d[i] == head[i]
  {
    assert forall i | 0 <= i < 12 :: d[i] == d[..12][i];
  }

  lemma AsciiLength(s: string)
    requires Ascii(s)
    ensures |AsciiBytes(s)| == |s|
  {
  }

  /** An address written at i and closed by a NUL is found there, whole. */
  lemma FindAddress(data: seq<byte>, i: nat, s: string)
    requires IsAddress(s) && i + |s| < |data| && data[i..i + |s|] == AsciiBytes(s) && data[i + |s|] == 0
    ensures Spans(data, i) == [Span(i, i + |s|)] + Spans(data, i + |s| + 1)
    ensures Text(data[i..i + |s|]) == s
  {
    hide Spans, NulFrom;
    forall k | 0 <= k < |s|
      ensures data[i + k] as int == s[k] as int
    {
      assert data[i + k] == data[i..i + |s|][k];
    }
    assert SbAt(data, i) by {
      assert data[i + 0] as int == s[0] as int && data[i + 1] as int == s[1] as int;
    }
    assert NulFrom(data, i) == i + |s| by {
      assert forall k | i <= k < i + |s| :: data[k] as int == s[k - i] as int;
      NulFromIs(data, i, i + |s|);
    }
    assert Text(AsciiBytes(s)) == s;
    SpansUnfold(data, i);
  }

  lemma SpansUnfold(data: seq<byte>, i: nat)
    requires SbAt(data, i) && NulFrom(data, i) < |data|
    ensures Spans(data, i) == [Span(i, NulFrom(data, i))] + Spans(data, NulFrom(data, i) + 1)
  {
  }

  lemma NothingAtEnd(data: seq<byte>, i: nat)
    requires i + 1 == |data|
    ensures Spans(data, i) == []
  {
  }

  /** The two addresses are always the last two found. */
  lemma AckSpans(caller: string, callee: string, timestamp: u32, prefix: u16)
    requires IsAddress(caller) && IsAddress(callee)
    ensures var d := EncodeAck(caller, callee, timestamp, prefix);
            var n := 13 + |caller|;
            && n + |callee| + 1 < |d|
            && Spans(d, 12) == [Span(12, n - 1), Span(n, n + |callee|)]
            && Text(d[12..n - 1]) == caller && Text(d[n..n + |callee|]) == callee
  {
    hide EncodeAck, AsciiBytes, Text, Spans, IsAddress;
    AddressIsAscii(caller);
    AddressIsAscii(callee);
    var d := EncodeAck(caller, callee, timestamp, prefix);
    var n := 13 + |caller|;
    AckBytes(caller, callee, timestamp, prefix);
    FindAddress(d, 12, caller);
    FindAddress(d, n, callee);
    NothingAtEnd(d, n + |callee| + 1);
  }

  lemma AddressIsAscii(s: string)
    requires IsAddress(s)
    ensures Ascii(s)
  {
  }

  /** Where the head of an ACK holds an "SB", it lies in the timestamp. */
  lemma HeadStrings(caller: string, callee: string, timestamp: u32, prefix: u16, k: nat)
    requires Ascii(caller) && Ascii(callee) && prefix / 256 == 0x18 && k < 12
    ensures var d := EncodeAck(caller, callee, timestamp, prefix);
            SbAt(d, k) <==> 2 <= k && SbAt(Le32(timestamp), k - 2)
  {
    var d := EncodeAck(caller, callee, timestamp, prefix);
    AckBytes(caller, callee, timestamp, prefix);
    hide EncodeAck, AsciiBytes;
    var t := d[2..6];
    assert d[2] == t[0] && d[3] == t[1] && d[4] == t[2] && d[5] == t[3];
    var p := d[0..2];
    assert d[0] == p[0] && d[1] == p[1];
  }

  /** Parsing an encoded ACK returns its prefix, timestamp, action 0 and, for every 0x18xx
      prefix, exactly the two addresses if and only if the timestamp's bytes hold no "SB";
      otherwise one more string precedes them. */
  lemma AckRoundTrip(caller: string, callee: string, timestamp: u32, prefix: u16)
    requires IsAddress(caller) && IsAddress(callee) && prefix / 256 == 0x18
    ensures var r := Parsed(EncodeAck(caller, callee, timestamp, prefix));
            && r.Some?
            && r.value.prefix == prefix && r.value.timestamp == timestamp && r.value.action == 0
            && (r.value.addresses == [caller, callee] <==> !HasSb(Le32(timestamp)))
            && (HasSb(Le32(timestamp)) ==> |r.value.addresses| == 3 && r.value.addresses[1..] == [caller, callee])
  {
    var d := EncodeAck(caller, callee, timestamp, prefix);
    AckBytes(caller, callee, timestamp, prefix);
    ReadLe16(d, 0, prefix);
    ReadLe32(d, 2, timestamp);
    AckSpans(caller, callee, timestamp, prefix);
    HeadSpans(caller, callee, timestamp, prefix);
    SpansInBounds(d, 0);
    hide EncodeAck, Spans, AsciiBytes, Le32, Le16, Text, AtLe32, AtLe16;
    var n := 13 + |caller|;
    var spans := Spans(d, 0);
    if !HasSb(Le32(timestamp)) {
      assert Addresses(d, spans) == [caller, callee];
    } else {
      assert Addresses(d, spans)[1..] == [caller, callee];
    }
  }

  /** What the scan finds in the first twelve bytes: nothing, or one string. */
  lemma HeadSpans(caller: string, callee: string, timestamp: u32, prefix: u16)
    requires IsAddress(caller) && IsAddress(callee) && prefix / 256 == 0x18
    ensures var d := EncodeAck(caller, callee, timestamp, prefix);
            if HasSb(Le32(timestamp)) then exists s :: Spans(d, 0) == [s] + Spans(d, 12)
            else Spans(d, 0) == Spans(d, 12)
  {
    var d := EncodeAck(caller, callee, timestamp, prefix);
    var t := Le32(timestamp);
    AckBytes(caller, callee, timestamp, prefix);
    forall k: nat | k < 12 ensures SbAt(d, k) <==> 2 <= k && SbAt(t, k - 2) {
      HeadStrings(caller, callee, timestamp, prefix, k);
    }
    assert |t| == 4 && d[2..6] == t;
    hide EncodeAck, Le32, AsciiBytes, Spans, NulFrom;
    if !HasSb(t) {
      SkipNoise(d, 0, 12);
    } else {
      var p: nat := if SbAt(t, 0) then 0 else if SbAt(t, 1) then 1 else 2;
      SkipNoise(d, 0, p + 2);
      var e := NulFrom(d, p + 2);
      assert e <= 6;
      SpansUnfold(d, p + 2);
      assert forall k | e + 1 <= k < 12 :: !SbAt(d, k);
      SkipNoise(d, e + 1, 12);
      assert Spans(d, 0) == [Span(p + 2, e)] + Spans(d, 12);
    }
  }
}
