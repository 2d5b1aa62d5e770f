/** `IconaBridgeClient`: the registry of channel objects, response futures, dispatch, and the
    per-channel response queues. */
module IconaClients {
  import opened Bytes
  import opened ChannelRegistry
  import IconaFraming

  /** What became of a request sent with `send_json`. */
  datatype Outcome = SendRaised | Waiting | Answered(body: seq<byte>) | NotOpen

  class Future {
    var result: Option<seq<byte>>
    var cancelled: bool

    constructor ()
      ensures result == None && !cancelled
    {
      result, cancelled := None, false;
    }

    predicate Done()
      reads this
    {
      result.Some? || cancelled
    }
  }

  class Channel {
    var name: string
    const requestId: nat
    var serverId: u16
    var sequence: nat
    var isOpen: bool
    var openBody: seq<byte>
    var queue: seq<seq<byte>>            // response_queue
    ghost var delivered: seq<seq<byte>>  // what read_response has returned

    constructor (name: string, requestId: nat)
      ensures this.name == name && this.requestId == requestId && serverId == 0 && !isOpen
      ensures queue == [] && delivered == []
    {
      this.name, this.requestId := name, requestId;
      serverId, sequence, isOpen, openBody := 0, 1, false, [];
      queue, delivered := [], [];
    }

    function AsEntry(): Entry
      reads this
    {
      Entry(name, requestId, serverId, isOpen)
    }

    /** `read_response`; None stands for a timeout with nothing queued. */
    method ReadResponse() returns (r: Option<seq<byte>>)
      modifies this`queue, this`delivered
      ensures old(queue) == [] ==> r == None && queue == [] && delivered == old(delivered)
      ensures old(queue) != [] ==> r == Some(old(queue)[0]) && queue == old(queue)[1..]
      ensures r.Some? ==> delivered == old(delivered) + [r.value]
      ensures delivered + queue == old(delivered + queue)
    {
      if queue == [] {
        return None;
      }
      r := Some(queue[0]);
      delivered := delivered + [queue[0]];
      queue := queue[1..];
    }
  }

  ghost function Entries(chs: seq<Channel>): (reg: Registry)
    reads chs
    ensures |reg| == |chs|
    ensures forall i | 0 <= i < |chs| :: reg[i] == chs[i].AsEntry()
  {
    seq(|chs|, i requires 0 <= i < |chs| reads chs => chs[i].AsEntry())
  }

  /** A nonzero-id frame that arrived and the channel it was queued on, if any. */
  datatype Arrival = Arrival(channel: Channel?, body: seq<byte>)

  /** The frames routed to a channel, in arrival order. */
  ghost function RoutedTo(arrivals: seq<Arrival>, ch: Channel): seq<seq<byte>> {
    if arrivals == [] then []
    else
      var last := arrivals[|arrivals| - 1];
      RoutedTo(arrivals[..|arrivals| - 1], ch) + (if last.channel == ch then [last.body] else [])
  }

  lemma RoutedAppend(arrivals: seq<Arrival>, a: Arrival, ch: Channel)
    ensures RoutedTo(arrivals + [a], ch) == RoutedTo(arrivals, ch) + (if a.channel == ch then [a.body] else [])
  {
    assert (arrivals + [a])[..|arrivals|] == arrivals;
  }

  /** `encode_channel_open_response` with its header */
  function OpenResponse(id: u16): seq<byte> {
    IconaFraming.EncodeHeader(12, 0) + OpenResponseBody(id)
  }

  /** The close acknowledgement written in dispatch. */
  function CloseAck(id: u16): seq<byte> {
    [0x00, 0x06] + Le16(12) + [0, 0, 0, 0] + Le16(END) + Le16(4) + Le32(4) + Le16(id) + [0, 0]
  }

  predicate IsDeviceClose(body: seq<byte>) {
    |body| >= 10 && AtLe16(body, 0) == END && AtLe32(body, 4) == 2
  }

  /** What a request-id-0 frame makes the client write. */
  function Reaction(body: seq<byte>): seq<byte> {
    if IsDeviceOpen(body) then OpenResponse(DeviceOpenId(body))
    else if IsDeviceClose(body) then CloseAck(ReplyId(body))
    else []
  }

  class IconaBridgeClient {
    var channels: seq<Channel>           // _channels in insertion order; the key is the name
    var callbacks: map<nat, Future>
    var nextRequestId: nat
    var hasWriter: bool
    var written: seq<byte>
    var pushed: seq<seq<byte>>           // unsolicited JSON bodies
    ghost var arrivals: seq<Arrival>
    ghost var known: set<Channel>        // every channel object ever registered

    ghost function Reg(): (reg: Registry)
      reads this`channels, channels
    {
      Entries(channels)
    }

    /** Distinct objects under distinct names; for every channel, even one no longer
        registered, what was returned plus what is queued is what was routed to it. */
    ghost predicate Valid()
      reads this`channels, this`arrivals, this`known, channels, known
    {
      && (forall i | 0 <= i < |channels| :: channels[i] in known)
      && (forall i, j | 0 <= i < j < |channels| :: channels[i] != channels[j])
      && DistinctNames(Reg())
      && (forall ch | ch in known :: ch.delivered + ch.queue == RoutedTo(arrivals, ch))
      && (forall a | a in arrivals && a.channel != null :: a.channel in known)
    }

    constructor (firstRequestId: nat)
      ensures Valid() && channels == [] && callbacks == map[] && arrivals == [] && known == {}
    {
      channels, callbacks, nextRequestId := [], map[], firstRequestId;
      hasWriter, written, pushed := true, [], [];
      arrivals, known := [], {};
    }

    /** The `for ch in self._channels.values()` searches of dispatch. */
    method Find(w: Want) returns (i: nat)
      ensures i == First(Reg(), w) && (i < |channels| ==> Matches(channels[i].AsEntry(), w))
    {
      i := 0;
      while i < |channels|
        invariant i <= |channels|
        invariant forall j | 0 <= j < i :: !Matches(Reg()[j], w)
      {
        if Matches(channels[i].AsEntry(), w) {
          return;
        }
        i := i + 1;
      }
    }

    /** Mark channel i open under an id. */
    method OpenChannelAt(i: nat, id: u16, sequence: nat, body: seq<byte>)
      requires Valid() && (i < |channels| ==> !channels[i].isOpen)
      modifies channels
      ensures Valid() && Reg() == OpenAt(old(Reg()), i, id)
      ensures forall ch | ch in known && old(ch.isOpen) :: ch.isOpen && ch.serverId == old(ch.serverId)
      ensures forall ch | ch in known :: ch.queue == old(ch.queue) && ch.delivered == old(ch.delivered)
      ensures i < |channels| ==> channels[i].sequence == sequence && channels[i].openBody == body
    {
      hide RoutedTo;
      if i < |channels| {
        var ch := channels[i];
        ch.serverId := id;
        ch.isOpen := true;
        ch.sequence := sequence;
        ch.openBody := body;
      }
    }

    /** `_dispatch`, request id 0: what it opens, what it writes; queues are untouched and an
        open channel's id never changes. */
    method DispatchCommand(body: seq<byte>)
      requires Valid()
      modifies this`written, channels
      ensures Valid() && Reg() == Command(old(Reg()), body)
      ensures written == old(written) + if hasWriter then Reaction(body) else []
      ensures forall ch | ch in known :: ch.queue == old(ch.queue) && ch.delivered == old(ch.delivered)
      ensures forall ch | ch in known && old(ch.isOpen) :: ch.isOpen && ch.serverId == old(ch.serverId)
    {
      hide RoutedTo, DeviceOpenId, OpenResponse, CloseAck, DistinctNames, AtLe16, AtLe32, OpenAt, First;
      if |body| < 4 {
        return;
      }
      var msgType := AtLe16(body, 0);
      var sequence: nat := AtLe16(body, 2);
      var id: u16 := if |body| >= 10 then AtLe16(body, 8) else 0;
      if msgType == COMMAND && sequence == 1 && |body| >= 10 {
        var deviceId := DeviceOpenId(body);
        if hasWriter {
          written := written + OpenResponse(deviceId);
        }
        var i := Find(FreePlaceholder);
        OpenChannelAt(i, deviceId, 3, body);
        return;
      }
      if msgType == COMMAND {
        var i := Find(PendingOpen);
        OpenChannelAt(i, id, sequence + 1, body);
      } else if msgType == END && |body| >= 10 {
        AnswerClose(body);
      }
    }

    /** The END branch: acknowledge a device-initiated close. */
    method AnswerClose(body: seq<byte>)
      requires |body| >= 10 && AtLe16(body, 0) == END
      modifies this`written
      ensures written == old(written) + if hasWriter then Reaction(body) else []
    {
      hide CloseAck, OpenResponse, DeviceOpenId;
      var subType := AtLe32(body, 4);
      if subType == 2 && hasWriter {
        written := written + CloseAck(AtLe16(body, 8));
      }
    }

    /** `_dispatch`, any other request id: exactly one of four things happens. */
    method DispatchData(requestId: nat, body: seq<byte>) returns (fate: Fate)
      requires Valid() && requestId != 0
      modifies this`callbacks, this`pushed, this`arrivals, channels
      modifies if requestId in callbacks then {callbacks[requestId]} else {}
      ensures Valid() && Reg() == old(Reg())
      ensures fate == FateOf(old(callbacks.Keys), old(Reg()), requestId, body)
      ensures callbacks == old(callbacks) - (if fate.ToFuture? then {requestId} else {})
      ensures fate.ToFuture? ==>
                var f := old(callbacks[requestId]);
                f.result == if old(f.Done()) then old(f.result) else Some(body)
      ensures pushed == old(pushed) + if fate.ToPush? then [body] else []
      ensures fate.ToChannel? ==> arrivals == old(arrivals) + [Arrival(channels[fate.index], body)]
      ensures !fate.ToChannel? ==> arrivals == old(arrivals) + [Arrival(null, body)]
      ensures forall ch | ch in known ::
                ch.delivered == old(ch.delivered)
                && ch.queue == old(ch.queue)
                               + if fate.ToChannel? && ch == channels[fate.index] then [body] else []
    {
      hide RoutedTo, DistinctNames, FateOf, IsJson;
      var target: Channel?;
      fate, target := Route(requestId, body);
      Record(target, body);
    }

    /** The four-way choice; the target channel is returned for queuing. */
    method Route(requestId: nat, body: seq<byte>) returns (fate: Fate, target: Channel?)
      modifies this`callbacks, this`pushed
      modifies if requestId in callbacks then {callbacks[requestId]} else {}
      ensures fate == FateOf(old(callbacks.Keys), Reg(), requestId, body)
      ensures callbacks == old(callbacks) - (if fate.ToFuture? then {requestId} else {})
      ensures fate.ToFuture? ==> requestId in old(callbacks)
      ensures fate.ToFuture? ==>
                var f := old(callbacks[requestId]);
                f.result == if old(f.Done()) then old(f.result) else Some(body)
      ensures pushed == old(pushed) + if fate.ToPush? then [body] else []
      ensures fate.ToChannel? ==> fate.index < |channels| && target == channels[fate.index]
      ensures !fate.ToChannel? ==> target == null
    {
      hide First;
      var i := Find(Serving(requestId));
      target := null;
      if requestId in callbacks {
        var future := callbacks[requestId];
        callbacks := callbacks - {requestId};
        if !future.Done() {
          future.result := Some(body);
        }
        fate := ToFuture;
      } else if i < |channels| {
        target := channels[i];
        fate := ToChannel(i);
      } else if IsJson(body) {
        pushed := pushed + [body];
        fate := ToPush;
      } else {
        fate := Discarded;
      }
    }

    /** `response_queue.put_nowait` on the target, if there is one. */
    method Record(target: Channel?, body: seq<byte>)
      requires Valid() && (target != null ==> target in known)
      modifies this`arrivals
      modifies if target != null then {target} else {}
      ensures Valid() && Reg() == old(Reg())
      ensures arrivals == old(arrivals) + [Arrival(target, body)]
      ensures forall ch | ch in known ::
                && ch.delivered == old(ch.delivered)
                && ch.queue == old(ch.queue) + if ch == target then [body] else []
    {
      hide DistinctNames, RoutedTo;
      if target != null {
        target.queue := target.queue + [body];
      }
      arrivals := arrivals + [Arrival(target, body)];
      forall ch | ch in known
        ensures ch.delivered + ch.queue == RoutedTo(arrivals, ch)
      {
        RoutedAppend(old(arrivals), Arrival(target, body), ch);
      }
      assert Reg() == old(Reg());
    }

    // ---- Registering and removing -----------------------------------------------------

    /** Index of a name in the registry, or the length. */
    method IndexOf(name: string) returns (i: nat)
      ensures if i < |channels| then FirstNamed(Reg(), name, i)
              else i == |channels| && Absent(Reg(), name)
    {
      i := 0;
      while i < |channels|
        invariant i <= |channels|
        invariant forall j | 0 <= j < i :: Reg()[j].name != name
      {
        if channels[i].name == name {
          return;
        }
        i := i + 1;
      }
    }

    /** `self._channels[ch.name] = ch` */
    method Put(ch: Channel)
      requires Valid() && ch !in channels && ch.delivered + ch.queue == RoutedTo(arrivals, ch)
      modifies this`channels, this`known
      ensures Valid() && Reg() == Assign(old(Reg()), ch.AsEntry()) && known == old(known) + {ch}
    {
      hide RoutedTo, Assign, DistinctNames;
      var i := IndexOf(ch.name);
      if i < |channels| {
        OpsAtIndex(Reg(), ch.AsEntry(), i);
        PutAt(i, ch);
      } else {
        OpsAbsent(Reg(), ch.AsEntry());
        PutLast(ch);
      }
    }

    method PutAt(i: nat, ch: Channel)
      requires Valid() && ch !in channels && ch.delivered + ch.queue == RoutedTo(arrivals, ch)
      requires FirstNamed(Reg(), ch.name, i)
      modifies this`channels, this`known
      ensures Valid() && Reg() == old(Reg())[i := ch.AsEntry()] && known == old(known) + {ch}
      ensures channels == old(channels)[i := ch] && ch in channels
    {
      hide RoutedTo, DistinctNames;
      ghost var before := Reg();
      AssignDistinct(before, ch.AsEntry(), i);
      channels := channels[i := ch];
      assert channels[i] == ch;
      assert Reg() == before[i := ch.AsEntry()];
      known := known + {ch};
    }

    method PutLast(ch: Channel)
      requires Valid() && ch !in channels && ch.delivered + ch.queue == RoutedTo(arrivals, ch)
      requires Absent(Reg(), ch.name)
      modifies this`channels, this`known
      ensures Valid() && Reg() == old(Reg()) + [ch.AsEntry()] && known == old(known) + {ch}
      ensures channels == old(channels) + [ch] && ch in channels
    {
      hide RoutedTo, DistinctNames;
      ghost var before := Reg();
      AppendDistinct(before, ch.AsEntry());
      channels := channels + [ch];
      assert channels[|channels| - 1] == ch;
      assert Reg() == before + [ch.AsEntry()];
      known := known + {ch};
    }

    /** `remove_channel`, `release_placeholder_channel` and the registry half of
        `close_channel`: `pop(name, None)`. */
    method Remove(name: string) returns (popped: Channel?)
      requires Valid()
      modifies this`channels
      ensures Valid() && Reg() == ChannelRegistry.Remove(old(Reg()), name)
      ensures popped != null <==> !Absent(old(Reg()), name)
      ensures popped != null ==> popped in old(channels) && popped !in channels && popped.name == name
      ensures popped != null ==> Lookup(old(Reg()), name) == Some(popped.AsEntry())
      ensures popped == null ==> Lookup(old(Reg()), name) == None && channels == old(channels)
    {
      hide RoutedTo, ChannelRegistry.Remove, Lookup, DistinctNames, Assign;
      var i := IndexOf(name);
      ghost var before := Reg();
      popped := null;
      if i < |channels| {
        popped := channels[i];
        OpsAtIndex(before, popped.AsEntry(), i);
        RemoveDistinct(before, i);
        channels := channels[..i] + channels[i + 1..];
        assert Reg() == before[..i] + before[i + 1..];
        assert before[i].name == name;
      } else {
        OpsAbsent(before, Entry(name, 0, 0, false));
      }
    }

    /** `register_placeholder_channel` */
    method RegisterPlaceholder(name: string) returns (ch: Channel)
      requires Valid()
      modifies this`channels, this`known
      ensures Valid() && fresh(ch) && Reg() == Assign(old(Reg()), Entry(name, 0, 0, false))
    {
      ch := new Channel(name, 0);
      NeverRouted(arrivals, known, ch);
      Put(ch);
    }

    /** `open_channel` up to its wait: register the channel, then send. The registration stays
        when the send raises. */
    method OpenChannel(name: string, channelType: u32, wireName: seq<byte>, extra: seq<byte>, trailing: byte)
      returns (ch: Channel, sent: bool)
      requires Valid() && nextRequestId + 1 < MOD16 && |wireName| + |extra| < 0x8000
      modifies this`channels, this`known, this`nextRequestId, this`written
      ensures Valid() && fresh(ch) && nextRequestId == old(nextRequestId) + 1 && sent == hasWriter
      ensures Reg() == Assign(old(Reg()), Entry(name, nextRequestId, 0, false))
      ensures var body := OpenBody(wireName, channelType, 1, nextRequestId, trailing) + ExtraData(extra);
              written == old(written) + if sent then IconaFraming.Encode(IconaFraming.Packet(0, body)) else []
    {
      hide IconaFraming.Encode, OpenBody, RoutedTo, Assign, DistinctNames;
      nextRequestId := nextRequestId + 1;
      ch := new Channel(name, nextRequestId);
      NeverRouted(arrivals, known, ch);
      Put(ch);
      sent := hasWriter;
      if sent {
        var body := OpenBody(wireName, channelType, 1, nextRequestId, trailing) + ExtraData(extra);
        OpenBodyLength(wireName, channelType, nextRequestId, trailing);
        written := written + IconaFraming.Encode(IconaFraming.Packet(0, body));
      }
    }

    /** `rename_channel`: the same object under a new key, moved to the end or onto the
        position of the key it takes over. */
    method RenameChannel(oldName: string, newName: string)
      requires Valid()
      modifies this`channels, this`known, channels
      ensures Valid() && Reg() == Rename(old(Reg()), oldName, newName) && known == old(known)
      ensures forall ch | ch in known :: ch.isOpen == old(ch.isOpen) && ch.serverId == old(ch.serverId)
      ensures forall ch | ch in known :: ch.queue == old(ch.queue) && ch.delivered == old(ch.delivered)
    {
      hide RoutedTo, Assign, DistinctNames, Lookup, ChannelRegistry.Remove, Absent;
      var ch := Remove(oldName);
      if ch != null {
        Relabel(ch, newName);
        Put(ch);
      }
    }

    /** A channel object between two registry keys. */
    method Relabel(ch: Channel, newName: string)
      requires Valid() && ch in known && ch !in channels
      modifies ch`name
      ensures Valid() && Reg() == old(Reg()) && ch.AsEntry() == old(ch.AsEntry()).(name := newName)
    {
      hide RoutedTo, DistinctNames;
      ch.name := newName;
      assert Reg() == old(Reg());
    }

    // ---- Requests ------------------------------------------------------------------------

    /** `send_json` up to its wait. `drained` is false when the socket fails under the write.
        The future is registered before the send: when the send raises, the entry stays. */
    method SendJsonBegin(ch: Channel, packet: seq<byte>, drained: bool) returns (outcome: Outcome, future: Future?)
      requires Valid()
      modifies this`callbacks, this`written
      ensures Valid()
      ensures (outcome == NotOpen) == (!ch.isOpen || ch.serverId == 0)
      ensures outcome == NotOpen ==> future == null && callbacks == old(callbacks) && written == old(written)
      ensures outcome != NotOpen ==>
                && (outcome == if hasWriter && drained then Waiting else SendRaised)
                && future != null && fresh(future) && !future.Done()
                && callbacks == old(callbacks)[ch.serverId as nat := future]
                && written == old(written) + if hasWriter then packet else []
    {
      if !ch.isOpen || ch.serverId == 0 {
        return NotOpen, null;
      }
      future := new Future();
      callbacks := callbacks[ch.serverId as nat := future];
      if !hasWriter {
        return SendRaised, future;
      }
      written := written + packet;
      outcome := if drained then Waiting else SendRaised;
    }

    /** `send_json` after its wait: the answer, or the entry removed on timeout. */
    method SendJsonEnd(ch: Channel, future: Future) returns (outcome: Outcome)
      requires Valid()
      modifies this`callbacks, future`cancelled
      ensures Valid()
      ensures old(future.result).Some? ==> outcome == Answered(old(future.result.value)) && callbacks == old(callbacks)
      ensures old(future.result).None? ==>
                future.cancelled && outcome == Waiting && callbacks == old(callbacks) - {ch.serverId as nat}
    {
      if future.result.Some? {
        return Answered(future.result.value);
      }
      future.cancelled := true;
      callbacks := callbacks - {ch.serverId as nat};
      outcome := Waiting;
    }
  }

  lemma {:induction false} NeverRouted(arrivals: seq<Arrival>, known: set<Channel>, ch: Channel)
    requires ch !in known && forall a | a in arrivals && a.channel != null :: a.channel in known
    ensures RoutedTo(arrivals, ch) == []
  {
    if arrivals != [] {
      assert arrivals[|arrivals| - 1] in arrivals;
      NeverRouted(arrivals[..|arrivals| - 1], known, ch);
    }
  }

  lemma OpenBodyLength(name: seq<byte>, channelType: u32, requestId: u16, trailing: byte)
    ensures |OpenBody(name, channelType, 1, requestId, trailing)| == 11 + |name|
  {
  }

  /** The reply to a device open is one packet under request id 0: COMMAND, sequence 2, with the
      device's id. */
  lemma OpenResponseRead(id: u16)
    ensures IconaFraming.PacketsOf(OpenResponse(id)) == [IconaFraming.Packet(0, OpenResponseBody(id))]
  {
    hide OpenResponseBody;
    assert |OpenResponseBody(id)| == 12 by {
      ResponseRead(id);
    }
    var p := IconaFraming.Packet(0, OpenResponseBody(id));
    OnePacket(p);
    assert OpenResponse(id) == IconaFraming.Encode(p);
  }

  /** The answer to a device's close is one packet under request id 0: END, 4, type 4 and the
      channel's id. */
  lemma CloseAckRead(id: u16)
    ensures var ps := IconaFraming.PacketsOf(CloseAck(id));
            && |ps| == 1 && ps[0].requestId == 0
            && ps[0].body == [0xEF, 0x01, 0x04, 0x00, 0x04, 0x00, 0x00, 0x00, id % 256, id / 256, 0, 0]
  {
    var p := IconaFraming.Packet(0, [0xEF, 0x01, 0x04, 0x00, 0x04, 0x00, 0x00, 0x00, id % 256, id / 256, 0, 0]);
    OnePacket(p);
    assert CloseAck(id) == IconaFraming.Encode(p);
  }

  lemma OnePacket(p: IconaFraming.Packet)
    requires IconaFraming.Encodable(p)
    ensures IconaFraming.PacketsOf(IconaFraming.Encode(p)) == [p]
  {
    hide IconaFraming.Encode;
    IconaFraming.PacketsOfEncoded([p], []);
    assert IconaFraming.EncodeAll([p]) + [] == IconaFraming.Encode(p);
  }

  /** What the client writes for a frame with request id 0: the reply to a device open, the
      answer to a device's close, and otherwise nothing. */
  lemma ReactionRead(body: seq<byte>)
    ensures |body| >= 10 && body[..4] == [0xCD, 0xAB, 0x01, 0x00] ==> Reaction(body) == OpenResponse(DeviceOpenId(body))
    ensures |body| >= 10 && body[..2] == [0xEF, 0x01] && body[4..8] == [0x02, 0x00, 0x00, 0x00] ==>
              Reaction(body) == CloseAck(body[8] as int + 0x100 * body[9] as int)
    ensures |body| < 10 || (body[..4] != [0xCD, 0xAB, 0x01, 0x00] && (body[..2] != [0xEF, 0x01] || body[4..8] != [0x02, 0x00, 0x00, 0x00])) ==>
              Reaction(body) == []
  {
    if |body| >= 10 {
      BodyWords(body);
      CloseWords(body);
      assert body[..4] == body[..2] + body[2..4];
      assert [0xCD, 0xAB, 0x01, 0x00] == [0xCD, 0xAB] + [0x01, 0x00];
      hide OpenResponse, CloseAck, AtLe16, AtLe32, DeviceOpenId;
    }
  }

  lemma CloseWords(body: seq<byte>)
    requires |body| >= 10
    ensures AtLe16(body, 0) == 0x01EF <==> body[..2] == [0xEF, 0x01]
    ensures AtLe32(body, 4) == 2 <==> body[4..8] == [0x02, 0x00, 0x00, 0x00]
    ensures ReplyId(body) == body[8] as int + 0x100 * body[9] as int
  {
    assert body[..2] == [body[0], body[1]] && body[4..8] == [body[4], body[5], body[6], body[7]];
  }
}
