/** The VIP event listener: what each CTPP message makes it send, fire and count, and the
    supervisor that restarts its loop. */
module VipListener {
  import opened Bytes
  import opened VipParser
  import opened EventDedup
  import opened CrashWindow

  const PREFIX_ACK: u16 := 0x1800
  const PREFIX_CONFIRM: u16 := 0x1820
  const PREFIX_VIDEO_EVENT: u16 := 0x1840
  const PREFIX_VIP_EVENT: u16 := 0x1860
  const PREFIX_CALL_INIT: u16 := 0x18C0

  // ---- ACK timestamps ---------------------------------------------------------------

  function Turn(b: seq<byte>): (r: seq<byte>)
    requires |b| == 4
    ensures |r| == 4
  {
    [(b[0] as int + 0x80) % 0x100, b[1], b[3], (b[2] as int + 1) % 0x100]
  }

  function TurnBack(b: seq<byte>): (r: seq<byte>)
    requires |b| == 4
    ensures |r| == 4
  {
    [(b[0] as int + 0x80) % 0x100, b[1], (b[3] as int + 0xFF) % 0x100, b[2]]
  }

  /** `_derive_event_ack_ts`: flip the direction bit, swap the two sequence bytes, and step the
      device's. */
  function DeriveEventAckTs(devTs: u32): u32 {
    AtLe32(Turn(Le32(devTs)), 0)
  }

  /** The device timestamp an ACK timestamp answers. */
  function Answered(ackTs: u32): u32 {
    AtLe32(TurnBack(Le32(ackTs)), 0)
  }

  lemma BytesOfWord(b: seq<byte>)
    requires |b| == 4
    ensures Le32(AtLe32(b, 0)) == b
  {
    var b0: int, b1: int, b2: int, b3: int := b[0], b[1], b[2], b[3];
    var q2 := b2 + 0x100 * b3;
    var q1 := b1 + 0x100 * q2;
    Digit(b0, q1);
    Digit(b1, q2);
    Digit(b2, b3);
    assert AtLe32(b, 0) == b0 + 0x100 * q1;
  }

  lemma Digit(low: int, high: int)
    requires 0 <= low < 0x100
    ensures (low + 0x100 * high) % 256 == low && (low + 0x100 * high) / 256 == high
  {
  }

  lemma WordOfBytes(v: u32)
    ensures AtLe32(Le32(v), 0) == v
  {
    ReadLe32(Le32(v), 0, v);
  }

  lemma TurnTurnsBack(b: seq<byte>)
    requires |b| == 4
    ensures TurnBack(Turn(b)) == b && Turn(TurnBack(b)) == b
  {
    Wraps(b[0], 0x80, 0x80);
    Wraps(b[2], 1, 0xFF);
    Wraps(b[3], 0xFF, 1);
  }

  lemma Wraps(v: int, up: nat, down: nat)
    requires 0 <= v < 0x100 && up + down == 0x100
    ensures ((v + up) % 0x100 + down) % 0x100 == v
  {
  }

  /** Each ACK timestamp answers exactly one device timestamp. */
  lemma DeriveIsBijection(ts: u32)
    ensures Answered(DeriveEventAckTs(ts)) == ts && DeriveEventAckTs(Answered(ts)) == ts
  {
    var b := Le32(ts);
    assert |b| == 4;
    WordOfBytes(ts);
    BytesOfWord(Turn(b));
    BytesOfWord(TurnBack(b));
    TurnTurnsBack(b);
    hide Le32, AtLe32, Turn, TurnBack;
  }

  // ---- What a message leads to ---------------------------------------------------------

  datatype Handling = Fires(kind: EventType) | Ignores | Misses

  function FirstAddress(addresses: seq<string>): string {
    if addresses == [] then "" else addresses[0]
  }

  predicate IsRenewal(m: Message) {
    m.prefix == PREFIX_VIP_EVENT && m.action == 0x0010
  }

  predicate IsEvent(m: Message) {
    m.prefix == PREFIX_CALL_INIT || m.prefix == PREFIX_VIP_EVENT || m.prefix == PREFIX_VIDEO_EVENT
  }

  /** The event a message stands for. */
  function HandlingOf(m: Message, aptAddress: string): Handling {
    if m.prefix == PREFIX_CALL_INIT then Fires(Ring)
    else if m.prefix == PREFIX_VIP_EVENT && m.action == 1 then Fires(Ring)
    else if m.prefix == PREFIX_VIP_EVENT && m.action == 3 then
      if FirstAddress(m.addresses) != "" && FirstAddress(m.addresses) == aptAddress then Ignores else Fires(DoorOpened)
    else if m.prefix == PREFIX_VIP_EVENT && m.action in {2, 4, 5} then Ignores
    else if m.prefix == PREFIX_VIDEO_EVENT && m.action == 0 then Fires(MissedCall)
    else Misses
  }

  /** The ACKs a message asks for. */
  function AcksFor(m: Message, caller: string, callee: string, ackTs: u32): seq<seq<byte>>
    requires Ascii(caller) && Ascii(callee)
  {
    if IsRenewal(m) then [EncodeAck(caller, callee, ackTs, PREFIX_ACK), EncodeAck(caller, callee, ackTs, PREFIX_CONFIRM)]
    else if IsEvent(m) && !(m.prefix == PREFIX_VIP_EVENT && m.action == 3) then
      [EncodeAck(caller, callee, DeriveEventAckTs(m.timestamp), PREFIX_ACK)]
    else []
  }

  /** Every message that fires an event other than door_opened is ACKed, once; a door_opened is
      not; and renewals fire nothing. */
  lemma FiredAreAcked(m: Message, caller: string, callee: string, ackTs: u32)
    requires Ascii(caller) && Ascii(callee)
    ensures HandlingOf(m, callee).Fires? ==>
              (|AcksFor(m, caller, callee, ackTs)| == 0 <==> HandlingOf(m, callee).kind == DoorOpened)
    ensures HandlingOf(m, callee).Fires? ==> |AcksFor(m, caller, callee, ackTs)| <= 1
    ensures |AcksFor(m, caller, callee, ackTs)| == 2 <==> IsRenewal(m)
    ensures IsRenewal(m) ==> HandlingOf(m, callee) == Misses
  {
    hide EncodeAck;
  }

  /** An ACK parses back to the two addresses and the derived timestamp, from which the
      event's own can be recovered, unless that timestamp spells "SB". */
  lemma EventAckRoundTrip(m: Message, caller: string, callee: string, ackTs: u32)
    requires IsAddress(caller) && IsAddress(callee) && IsEvent(m) && !IsRenewal(m)
    requires !(m.prefix == PREFIX_VIP_EVENT && m.action == 3)
    ensures var acks := AcksFor(m, caller, callee, ackTs);
            && |acks| == 1
            && Parsed(acks[0]).Some?
            && Answered(Parsed(acks[0]).value.timestamp) == m.timestamp
            && (Parsed(acks[0]).value.addresses == [caller, callee] <==> !HasSb(Le32(DeriveEventAckTs(m.timestamp))))
            && !IsEvent(Parsed(acks[0]).value)
  {
    hide EncodeAck, Parsed, DeriveEventAckTs, Le32;
    var ts := DeriveEventAckTs(m.timestamp);
    DeriveIsBijection(m.timestamp);
    AckRoundTrip(caller, callee, ts, PREFIX_ACK);
  }

  type Key = (u16, u16)

  /** Occurrences of each key. */
  function Tally(missed: seq<Key>): map<Key, nat> {
    if missed == [] then map[]
    else
      var n := |missed| - 1;
      var t := Tally(missed[..n]);
      t[missed[n] := (if missed[n] in t then t[missed[n]] else 0) + 1]
  }

  /** The counters are exactly the multiplicities of the missed keys. */
  lemma {:induction false} TallyCounts(missed: seq<Key>, key: Key)
    ensures key in Tally(missed) <==> key in missed
    ensures (if key in Tally(missed) then Tally(missed)[key] else 0) == multiset(missed)[key]
  {
    if missed != [] {
      var n := |missed| - 1;
      TallyCounts(missed[..n], key);
      TallyCounts(missed[..n], missed[n]);
      assert missed == missed[..n] + [missed[n]];
    }
  }

  // ---- Whole runs, by the bytes of the messages ------------------------------------------------

  /** A message, and when an event it stands for was or would have been fired. */
  datatype Heard = Heard(data: seq<byte>, at: real)

  /** How the listener handles it: a renewal is answered and nothing more. */
  function HandledAs(data: seq<byte>, aptAddress: string): Handling {
    match Parsed(data)
    case None => Ignores
    case Some(m) => if IsEvent(m) && !IsRenewal(m) then HandlingOf(m, aptAddress) else Ignores
  }

  /** The `_fire_event` calls and the decode misses of a run. */
  function AttemptsOf(heard: seq<Heard>, aptAddress: string): seq<Attempt> {
    if heard == [] then []
    else
      var n := |heard| - 1;
      var h := HandledAs(heard[n].data, aptAddress);
      AttemptsOf(heard[..n], aptAddress)
      + (if h.Fires? then [Attempt(h.kind, heard[n].at, SbStrings(heard[n].data))] else [])
  }

  function MissesOf(heard: seq<Heard>, aptAddress: string): seq<Key> {
    if heard == [] then []
    else
      var n := |heard| - 1;
      MissesOf(heard[..n], aptAddress)
      + (if HandledAs(heard[n].data, aptAddress).Misses? then [KeyOf(heard[n].data)] else [])
  }

  /** The addresses in a message: its "SB" strings. */
  function SbStrings(data: seq<byte>): seq<string> {
    SpansInBounds(data, 0);
    Addresses(data, Spans(data, 0))
  }

  function KeyOf(data: seq<byte>): Key {
    if |data| >= 8 then (data[0] as int + 0x100 * data[1] as int, 0x100 * data[6] as int + data[7] as int) else (0, 0)
  }

  /** A message of a kind: 0xC0, 0x60 or 0x40 and 0x18, with enough bytes for an action. */
  predicate Begins(data: seq<byte>, low: byte) {
    |data| >= 8 && data[0] == low && data[1] == 0x18
  }

  predicate ActionIs(data: seq<byte>, action: byte)
    requires |data| >= 8
  {
    data[6] == 0 && data[7] == action
  }

  /** The doorbell: a call init, or an FSM event with action 1. */
  predicate IsDoorbell(data: seq<byte>) {
    Begins(data, 0xC0) || (Begins(data, 0x60) && ActionIs(data, 0x01))
  }

  /** A call that ended unanswered. */
  predicate IsMissedCall(data: seq<byte>) {
    Begins(data, 0x40) && ActionIs(data, 0x00)
  }

  /** An entrance that opened: action 3, unless the apartment itself is named first. */
  predicate IsDoorOpening(data: seq<byte>, aptAddress: string) {
    Begins(data, 0x60) && ActionIs(data, 0x03) && !(SbStrings(data) != [] && SbStrings(data)[0] == aptAddress)
  }

  predicate Means(data: seq<byte>, kind: EventType, aptAddress: string) {
    match kind
    case Ring => IsDoorbell(data)
    case MissedCall => IsMissedCall(data)
    case DoorOpened => IsDoorOpening(data, aptAddress)
  }

  /** What no handler takes: other call messages, and FSM events outside 1 .. 5 and the renewal. */
  predicate IsUnknown(data: seq<byte>) {
    || (Begins(data, 0x40) && !ActionIs(data, 0x00))
    || (Begins(data, 0x60) && !(data[6] == 0 && (1 <= data[7] <= 5 || data[7] == 0x10)))
  }

  /** The messages of a run that mean an event of the kind. */
  function Meaning(heard: seq<Heard>, kind: EventType, aptAddress: string): seq<Attempt> {
    if heard == [] then []
    else
      var n := |heard| - 1;
      Meaning(heard[..n], kind, aptAddress)
      + (if Means(heard[n].data, kind, aptAddress) then [Attempt(kind, heard[n].at, SbStrings(heard[n].data))] else [])
  }

  function Unknown(heard: seq<Heard>): seq<Key> {
    if heard == [] then []
    else
      var n := |heard| - 1;
      Unknown(heard[..n]) + (if IsUnknown(heard[n].data) then [KeyOf(heard[n].data)] else [])
  }

  lemma HeadBytes(data: seq<byte>)
    requires |data| >= 8
    ensures Parsed(data).Some?
    ensures var m := Parsed(data).value;
            && m.prefix == data[0] as int + 0x100 * data[1] as int && m.action == 0x100 * data[6] as int + data[7] as int
            && m.timestamp == data[2] as int + 0x100 * data[3] as int + 0x1_0000 * data[4] as int + 0x100_0000 * data[5] as int
            && m.addresses == SbStrings(data)
            && (m.flags == if |data| >= 10 then Some(0x100 * data[8] as int + data[9] as int) else None)
  {
    hide Spans, Addresses;
  }

  lemma AddressesNotEmpty(data: seq<byte>)
    ensures SbStrings(data) != [] ==> SbStrings(data)[0] != ""
  {
    SpansExact(data, 0);
    hide Spans;
    if SbStrings(data) != [] {
      assert IsString(data, Spans(data, 0)[0]);
      StringEnds(data, Spans(data, 0)[0]);
    }
  }

  /** One message, by its bytes. */
  lemma HandledByBytes(data: seq<byte>, aptAddress: string, kind: EventType)
    ensures HandledAs(data, aptAddress) == Fires(kind) <==> Means(data, kind, aptAddress)
    ensures HandledAs(data, aptAddress).Misses? <==> IsUnknown(data)
  {
    AddressesNotEmpty(data);
    hide SbStrings;
    if |data| >= 8 {
      HeadBytes(data);
      hide Parsed;
      HandlingByBytes(Parsed(data).value, data, aptAddress, kind);
    }
  }

  lemma HandlingByBytes(m: Message, data: seq<byte>, aptAddress: string, kind: EventType)
    requires |data| >= 8 && m.addresses == SbStrings(data) && (m.addresses != [] ==> m.addresses[0] != "")
    requires m.prefix == data[0] as int + 0x100 * data[1] as int && m.action == 0x100 * data[6] as int + data[7] as int
    ensures var h := if IsEvent(m) && !IsRenewal(m) then HandlingOf(m, aptAddress) else Ignores;
            && (h == Fires(kind) <==> Means(data, kind, aptAddress))
            && (h.Misses? <==> IsUnknown(data))
  {
    hide SbStrings;
  }

  /** Over any run the attempts of each type are exactly the messages that mean it, in order, with
      their "SB" strings, and the decode misses exactly the messages no handler takes. */
  lemma {:induction false} RunByBytes(heard: seq<Heard>, aptAddress: string, kind: EventType)
    ensures OfKind(AttemptsOf(heard, aptAddress), kind) == Meaning(heard, kind, aptAddress)
    ensures MissesOf(heard, aptAddress) == Unknown(heard)
  {
    hide HandledAs, Means, IsUnknown, SbStrings, KeyOf;
    if heard != [] {
      var n := |heard| - 1;
      var data := heard[n].data;
      RunByBytes(heard[..n], aptAddress, kind);
      HandledByBytes(data, aptAddress, kind);
      var before, h := AttemptsOf(heard[..n], aptAddress), HandledAs(data, aptAddress);
      if h.Fires? {
        OfKindLast(before, Attempt(h.kind, heard[n].at, SbStrings(data)), kind);
      } else {
        assert before + [] == before;
      }
      assert OfKind(before, kind) + [] == OfKind(before, kind);
    }
  }

  // ---- ACKs, byte by byte ----------------------------------------------------------------------

  /** The body of an ACK as the device reads it: prefix, timestamp, action 0, four 0xFF and the two
      addresses, NUL-terminated, with one NUL more. */
  lemma AckRead(caller: string, callee: string, timestamp: u32, prefix: u16)
    requires Ascii(caller) && Ascii(callee)
    ensures var d := EncodeAck(caller, callee, timestamp, prefix);
            && |d| == 15 + |caller| + |callee| && d[0] as int + 0x100 * d[1] as int == prefix
            && d[2] as int + 0x100 * d[3] as int + 0x1_0000 * d[4] as int + 0x100_0000 * d[5] as int == timestamp
            && d[6..12] == [0, 0, 0xFF, 0xFF, 0xFF, 0xFF]
            && d[12..12 + |caller|] == AsciiBytes(caller) && d[12 + |caller|] == 0
            && d[13 + |caller|..13 + |caller| + |callee|] == AsciiBytes(callee)
            && d[13 + |caller| + |callee|..] == [0, 0]
  {
    var d := EncodeAck(caller, callee, timestamp, prefix);
    AckBytes(caller, callee, timestamp, prefix);
    ReadLe16(d, 0, prefix);
    ReadLe32(d, 2, timestamp);
    hide EncodeAck, AsciiBytes;
  }

  /** What each message makes the listener send: the pair for a renewal, with the listener's own
      timestamp; one ACK for every other call init, call message or FSM event but action 3, whose
      timestamp flips the direction bit, swaps the sequence bytes and steps the device's. */
  lemma AcksByBytes(data: seq<byte>, caller: string, callee: string, ackTs: u32)
    requires |data| >= 8 && Ascii(caller) && Ascii(callee)
    ensures var acks := AcksFor(Parsed(data).value, caller, callee, ackTs);
            if Begins(data, 0x60) && ActionIs(data, 0x10) then
              acks == [EncodeAck(caller, callee, ackTs, 0x1800), EncodeAck(caller, callee, ackTs, 0x1820)]
            else if Begins(data, 0xC0) || Begins(data, 0x40) || (Begins(data, 0x60) && !ActionIs(data, 0x03)) then
              exists ts: u32 :: acks == [EncodeAck(caller, callee, ts, 0x1800)] && AnswersStamp(data, ts)
            else acks == []
  {
    HeadBytes(data);
    var m := Parsed(data).value;
    hide Parsed, EncodeAck, SbStrings;
    DerivedStamp(data, m.timestamp);
    hide DeriveEventAckTs, AnswersStamp;
  }

  /** The ACK timestamp's bytes against the event's, bytes 2 to 5 of the message. */
  predicate AnswersStamp(data: seq<byte>, ts: u32)
    requires |data| >= 8
  {
    var b := Le32(ts);
    && b[0] as int == (if data[2] >= 0x80 then data[2] as int - 0x80 else data[2] as int + 0x80)
    && b[1] == data[3] && b[2] == data[5]
    && b[3] as int == (if data[4] == 0xFF then 0 else data[4] as int + 1)
  }

  lemma DerivedStamp(data: seq<byte>, ts: u32)
    requires |data| >= 8
    requires ts == data[2] as int + 0x100 * data[3] as int + 0x1_0000 * data[4] as int + 0x100_0000 * data[5] as int
    ensures AnswersStamp(data, DeriveEventAckTs(ts))
  {
    var b := [data[2], data[3], data[4], data[5]];
    assert AtLe32(b, 0) == ts;
    BytesOfWord(b);
    BytesOfWord(Turn(b));
    hide Le32, AtLe32;
  }

  /** What the parsed message says about how it is handled. */
  lemma HandledCases(data: seq<byte>, aptAddress: string)
    ensures Parsed(data).None? <==> |data| < 8
    ensures Parsed(data).None? ==> HandledAs(data, aptAddress) == Ignores
    ensures Parsed(data).Some? ==>
              var m := Parsed(data).value;
              && HandledAs(data, aptAddress) == (if IsEvent(m) && !IsRenewal(m) then HandlingOf(m, aptAddress) else Ignores)
              && KeyOf(data) == (m.prefix, m.action) && m.addresses == SbStrings(data)
  {
    if |data| >= 8 {
      HeadBytes(data);
    }
    hide HandlingOf, SbStrings, Spans, Addresses;
  }

  lemma HeardNext(heard: seq<Heard>, h: Heard, aptAddress: string)
    ensures var handled := HandledAs(h.data, aptAddress);
            && AttemptsOf(heard + [h], aptAddress)
               == AttemptsOf(heard, aptAddress)
                  + (if handled.Fires? then [Attempt(handled.kind, h.at, SbStrings(h.data))] else [])
            && MissesOf(heard + [h], aptAddress)
               == MissesOf(heard, aptAddress) + (if handled.Misses? then [KeyOf(h.data)] else [])
  {
    hide HandledAs, SbStrings, KeyOf;
    assert (heard + [h])[..|heard|] == heard;
  }

  // ---- The listener ------------------------------------------------------------------------

  class VipEventListener {
    const aptAddress: string
    const vipAddress: string
    /** `init_ts + 0x01000000`, for renewals. */
    const ackTs: u32
    var lastFired: map<EventType, real>
    var lastSeenTs: map<Key, (u32, real)>
    var decodeMisses: map<Key, nat>
    var restartCount: nat
    /** Bytes sent on the CTPP channel, and events handed to the callback. */
    var acks: seq<seq<byte>>
    var fired: seq<Attempt>
    /** Every `_fire_event` call and every decode miss so far. */
    ghost var attempts: seq<Attempt>
    ghost var missed: seq<Key>
    /** Every message processed so far. */
    ghost var heard: seq<Heard>

    /** Between messages: what was attempted and missed is what the messages call for. */
    ghost predicate InStep()
      reads this
    {
      Valid() && attempts == AttemptsOf(heard, aptAddress) && missed == MissesOf(heard, aptAddress)
    }

    ghost predicate Valid()
      reads this
    {
      && Ascii(aptAddress) && Ascii(vipAddress)
      && Dedup(lastFired, fired) == FireAll(attempts)
      && decodeMisses == Tally(missed)
    }

    constructor (apt: string, sub: string, initTs: u32)
      requires Ascii(apt) && Ascii(sub)
      ensures InStep() && heard == [] && acks == []
      ensures aptAddress == apt && vipAddress == apt + sub && ackTs == (initTs + 0x100_0000) % MOD32
    {
      aptAddress, vipAddress, ackTs := apt, apt + sub, (initTs + 0x100_0000) % MOD32;
      lastFired, lastSeenTs, decodeMisses, restartCount := map[], map[], map[], 0;
      acks, fired, attempts, missed, heard := [], [], [], [], [];
    }

    /** `_fire_event`, called at time `now`. */
    method FireEvent(kind: EventType, addresses: seq<string>, now: real)
      requires Valid()
      modifies this`lastFired, this`fired, this`attempts
      ensures Valid() && attempts == old(attempts) + [Attempt(kind, now, addresses)]
    {
      ghost var a := Attempt(kind, now, addresses);
      assert (attempts + [a])[..|attempts|] == attempts;
      attempts := attempts + [a];
      if now - (if kind in lastFired then lastFired[kind] else 0.0) < 10.0 {
        return;
      }
      lastFired := lastFired[kind := now];
      fired := fired + [Attempt(kind, now, addresses)];
    }

    /** `self.decode_misses[key] = self.decode_misses.get(key, 0) + 1` */
    method CountMiss(key: Key)
      requires Valid()
      modifies this`decodeMisses, this`missed
      ensures Valid() && missed == old(missed) + [key]
    {
      assert (missed + [key])[..|missed|] == missed;
      missed := missed + [key];
      decodeMisses := decodeMisses[key := (if key in decodeMisses then decodeMisses[key] else 0) + 1];
    }

    /** `_handle_vip_event` */
    method HandleVipEvent(m: Message, now: real)
      requires Valid() && IsEvent(m)
      modifies this`lastFired, this`fired, this`attempts, this`decodeMisses, this`missed
      ensures Valid()
      ensures attempts == old(attempts)
                          + (if HandlingOf(m, aptAddress).Fires? then [Attempt(HandlingOf(m, aptAddress).kind, now, m.addresses)] else [])
      ensures missed == old(missed) + (if HandlingOf(m, aptAddress).Misses? then [(m.prefix, m.action)] else [])
      ensures !HandlingOf(m, aptAddress).Fires? ==> fired == old(fired)
    {
      hide FireAll, Tally;
      if m.prefix == PREFIX_CALL_INIT {
        FireEvent(Ring, m.addresses, now);
        return;
      }
      if m.prefix == PREFIX_VIP_EVENT && m.action != 0 {
        if m.action == 0x0001 {
          FireEvent(Ring, m.addresses, now);
        } else if m.action == 0x0002 {
        } else if m.action == 0x0003 {
          var caller := if m.addresses != [] then m.addresses[0] else "";
          if caller != "" && caller == aptAddress {
          } else {
            FireEvent(DoorOpened, m.addresses, now);
          }
        } else if m.action == 0x0004 || m.action == 0x0005 {
        } else {
          CountMiss((m.prefix, m.action));
        }
        return;
      }
      if m.prefix == PREFIX_VIDEO_EVENT && m.action == 0 {
        FireEvent(MissedCall, m.addresses, now);
        return;
      }
      CountMiss((m.prefix, m.action));
    }

    /** Send the bytes if the connection still takes a message; a failure is only logged. */
    method SendBinary(bytes: seq<byte>, takes: bool)
      modifies this`acks
      ensures acks == old(acks) + (if takes then [bytes] else [])
    {
      if takes {
        acks := acks + [bytes];
      }
    }

    /** `_process_message`: `deliver` sends succeed before one fails. Tells whether the message
        repeats the last timestamp seen for its kind within 10 s. */
    method ProcessMessage(data: seq<byte>, seenAt: real, firedAt: real, deliver: nat) returns (retransmit: bool)
      requires InStep()
      modifies this`lastFired, this`fired, this`attempts, this`decodeMisses, this`missed, this`acks, this`lastSeenTs, this`heard
      ensures InStep() && heard == old(heard) + [Heard(data, firedAt)]
      ensures |data| < 8 ==>
                && !retransmit && attempts == old(attempts) && missed == old(missed)
                && acks == old(acks) && lastSeenTs == old(lastSeenTs) && fired == old(fired)
      ensures |data| >= 8 ==>
                var m := Parsed(data).value;
                var key := (m.prefix, m.action);
                var due := AcksFor(m, vipAddress, aptAddress, ackTs);
                && lastSeenTs == old(lastSeenTs)[key := (m.timestamp, seenAt)]
                && (retransmit <==> key in old(lastSeenTs) && old(lastSeenTs)[key].0 == m.timestamp && seenAt - old(lastSeenTs)[key].1 < 10.0)
                && acks == old(acks) + due[..Min(|due|, deliver)]
                && (!HandledAs(data, aptAddress).Fires? ==> fired == old(fired))
    {
      hide FireAll, Tally, HandlingOf, EncodeAck, DeriveEventAckTs, Parsed, AcksFor, SbStrings, KeyOf;
      hide HandledAs, AttemptsOf, MissesOf;
      var msg := ParseCtppMessage(data);
      HandledCases(data, aptAddress);
      HeardNext(heard, Heard(data, firedAt), aptAddress);
      heard := heard + [Heard(data, firedAt)];
      if msg.None? {
        return false;
      }
      var m := msg.value;
      var key := (m.prefix, m.action);
      retransmit := key in lastSeenTs && lastSeenTs[key].0 == m.timestamp && seenAt - lastSeenTs[key].1 < 10.0;
      lastSeenTs := lastSeenTs[key := (m.timestamp, seenAt)];
      var renewal := SendAcks(m, deliver);
      if renewal {
        return;
      }
      if IsEvent(m) {
        HandleVipEvent(m, firedAt);
      }
    }

    /** The ACKs `_process_message` sends; a renewal gets the pair and nothing more. */
    method SendAcks(m: Message, deliver: nat) returns (renewal: bool)
      requires Valid()
      modifies this`acks
      ensures var due := AcksFor(m, vipAddress, aptAddress, ackTs);
              acks == old(acks) + due[..Min(|due|, deliver)]
      ensures renewal == IsRenewal(m)
    {
      hide EncodeAck, DeriveEventAckTs;
      if m.prefix == PREFIX_VIP_EVENT && m.action == 0x0010 {
        SendBinary(EncodeAck(vipAddress, aptAddress, ackTs, 0x1800), deliver > 0);
        SendBinary(EncodeAck(vipAddress, aptAddress, ackTs, 0x1820), deliver > 1);
        return true;
      }
      if m.prefix == PREFIX_CALL_INIT {
        SendBinary(EncodeAck(vipAddress, aptAddress, DeriveEventAckTs(m.timestamp), 0x1800), deliver > 0);
      }
      if (m.prefix == PREFIX_VIDEO_EVENT || m.prefix == PREFIX_VIP_EVENT) && !(m.prefix == PREFIX_VIP_EVENT && m.action == 3) {
        SendBinary(EncodeAck(vipAddress, aptAddress, DeriveEventAckTs(m.timestamp), 0x1800), deliver > 0);
      }
      return false;
    }

    /** `_listen_loop`: the times at which the inner loop raises, until one is re-raised or the
        task is stopped. Returns how many crashes it survived. */
    method ListenLoop(crashes: seq<real>) returns (survived: nat, escalated: bool)
      modifies this`restartCount
      ensures survived <= |crashes| && (escalated <==> survived < |crashes|)
      ensures forall k | 0 <= k < survived :: !Escalates(crashes, k)
      ensures escalated ==> Escalates(crashes, survived)
      ensures restartCount == old(restartCount) + survived + (if escalated then 1 else 0)
    {
      var restartTimes: seq<real> := [];
      survived := 0;
      while survived < |crashes|
        invariant survived <= |crashes|
        invariant restartTimes == Pruned(crashes, survived)
        invariant forall k | 0 <= k < survived :: !Escalates(crashes, k)
        invariant restartCount == old(restartCount) + survived
      {
        var now := crashes[survived];
        restartTimes := Prune(restartTimes, now);
        restartTimes := restartTimes + [now];
        restartCount := restartCount + 1;
        if |restartTimes| > 5 {
          return survived, true;
        }
        survived := survived + 1;
      }
      return survived, false;
    }
  }

  /** What any listener has fired, in any reachable state: of each type the messages that mean it,
      less those within 10 s of the last one kept; and it has counted exactly the unknown ones. */
  lemma ListenerFires(listener: VipEventListener, kind: EventType)
    requires listener.InStep()
    ensures OfKind(listener.fired, kind) == Thin(Meaning(listener.heard, kind, listener.aptAddress))
    ensures listener.decodeMisses == Tally(Unknown(listener.heard))
  {
    hide OfKind, Thin, Meaning, Unknown, FireAll, AttemptsOf, MissesOf, Tally;
    TypesIndependent(listener.attempts, kind);
    RunByBytes(listener.heard, listener.aptAddress, kind);
  }
}
