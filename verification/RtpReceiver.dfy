/** `RtpReceiver`: packets from UDP or TCP into the reassembly buffer and the fan-out queues. */
module RtpReceivers {
  import opened Bytes
  import opened Rtp
  import opened H264
  import opened MediaQueues

  const HEADER_SIZE: nat := 8

  /** The RTP packet inside an ICONA datagram: `body_len` bytes after the header, or as many as
      there are; the trailer is cut off. */
  function Unwrapped(data: seq<byte>): seq<byte>
    requires |data| >= HEADER_SIZE
  {
    data[HEADER_SIZE..Min(HEADER_SIZE + AtLe16(data, 2), |data|)]
  }

  /** What a datagram hands to the RTP path; empty when it is ignored. */
  function UdpRtp(data: seq<byte>, mediaReqId: u16): seq<byte> {
    if |data| >= HEADER_SIZE + 12 && AtLe16(data, 4) == mediaReqId && |Unwrapped(data)| >= 13 then Unwrapped(data) else []
  }

  /** A datagram of the media id hands over exactly the RTP packet in its body, its trailer cut
      off; any other datagram, and one whose packet has no payload, hands over nothing. */
  lemma UdpRtpRead(header: seq<byte>, rtp: seq<byte>, trailer: seq<byte>, mediaReqId: u16)
    requires |header| == 8 && header[2] as int + 0x100 * header[3] as int == |rtp| && |rtp| + |trailer| >= 12
    ensures var id := header[4] as int + 0x100 * header[5] as int;
            UdpRtp(header + rtp + trailer, mediaReqId) == if id == mediaReqId && |rtp| >= 13 then rtp else []
  {
    var data := header + rtp + trailer;
    assert data[2] == header[2] && data[3] == header[3] && data[4] == header[4] && data[5] == header[5];
    assert data[8..8 + |rtp|] == rtp;
  }

  lemma AudioRead(p: seq<byte>)
    requires |p| >= 12
    ensures IsAudio(p) <==> 0x80 <= p[0] < 0xC0 && (p[1] as int % 0x80 == 0 || p[1] as int % 0x80 == 8)
  {
  }

  predicate IsAudio(p: seq<byte>) {
    |p| >= 12 && p[0] / 64 == 2 && (p[1] % 128 == 0 || p[1] % 128 == 8)
  }

  class RtpReceiver {
    const nalQueue: MediaQueue<Item>                       // local decoder, 500 items
    var rtspNalQueue: Option<MediaQueue<Item>>             // attached by attach_rtsp_queues
    var rtspAudioQueue: Option<MediaQueue<seq<byte>>>
    var rtspRtpQueue: Option<MediaQueue<seq<byte>>>
    var mediaReqId: u16
    var fua: Fua
    var mediaPackets: nat
    var audioPackets: nat
    var nalDrops: nat          // _pyav_nal_drops
    var rtspNalDrops: nat
    var rtspAudioDrops: nat
    var firstVideo: bool

    /** The queues are different objects. */
    ghost predicate Valid()
      reads this
    {
      && nalQueue.maxsize == 500
      && (rtspNalQueue.Some? ==> rtspNalQueue.value != nalQueue)
      && (rtspAudioQueue.Some? && rtspRtpQueue.Some? ==> rtspAudioQueue.value != rtspRtpQueue.value)
    }

    constructor (mediaReqId: u16)
      ensures Valid() && fua.buf == [] && nalQueue.items == [] && fresh(nalQueue)
      ensures rtspNalQueue.None? && rtspAudioQueue.None? && rtspRtpQueue.None?
      ensures nalDrops == rtspNalDrops == rtspAudioDrops == mediaPackets == audioPackets == 0 && !firstVideo
    {
      nalQueue := new MediaQueue<Item>(500);
      rtspNalQueue, rtspAudioQueue, rtspRtpQueue := None, None, None;
      this.mediaReqId := mediaReqId;
      fua := Fua([], 0);
      mediaPackets, audioPackets, nalDrops, rtspNalDrops, rtspAudioDrops, firstVideo := 0, 0, 0, 0, 0, false;
    }

    /** `attach_rtsp_queues`, the server's queues being its own objects. */
    method AttachRtspQueues(nals: MediaQueue<Item>, audio: MediaQueue<seq<byte>>, rtp: Option<MediaQueue<seq<byte>>>)
      requires Valid() && nals != nalQueue && (rtp.Some? ==> rtp.value != audio)
      modifies this`rtspNalQueue, this`rtspAudioQueue, this`rtspRtpQueue
      ensures Valid() && rtspNalQueue == Some(nals) && rtspAudioQueue == Some(audio) && rtspRtpQueue == rtp
    {
      rtspNalQueue, rtspAudioQueue, rtspRtpQueue := Some(nals), Some(audio), rtp;
    }

    /** `_queue_nal`: always to the local decoder; to the RTSP server only when packets are not
        passed through. */
    method QueueNal(item: Item)
      requires Valid()
      modifies this`nalDrops, this`rtspNalDrops, this`firstVideo, nalQueue
      modifies if rtspNalQueue.Some? then {rtspNalQueue.value} else {}
      ensures nalQueue.items == PutAll(old(nalQueue.items), [item], 500)
      ensures |nalQueue.items| + nalDrops == |old(nalQueue.items)| + old(nalDrops) + 1
      ensures rtspNalQueue.Some? && rtspRtpQueue.None? ==>
                && rtspNalQueue.value.items == PutAll(old(rtspNalQueue.value.items), [item], rtspNalQueue.value.maxsize)
                && |rtspNalQueue.value.items| + rtspNalDrops
                   == |old(rtspNalQueue.value.items)| + old(rtspNalDrops) + 1
      ensures rtspNalQueue.Some? && rtspRtpQueue.Some? ==> rtspNalQueue.value.items == old(rtspNalQueue.value.items)
      ensures rtspNalQueue.None? || rtspRtpQueue.Some? ==> rtspNalDrops == old(rtspNalDrops)
      ensures firstVideo
    {
      var ok := nalQueue.PutNowait(item);
      if !ok {
        nalDrops := nalDrops + 1;
      }
      if rtspNalQueue.Some? && rtspRtpQueue.None? {
        var q := rtspNalQueue.value;
        var put := q.PutNowait(item);
        if !put {
          rtspNalDrops := rtspNalDrops + 1;
        }
      }
      firstVideo := true;
    }

    /** What one packet's NALs do to the queues: nothing is lost but counted drops. */
    twostate predicate Queued(items: seq<Item>)
      reads this, nalQueue
      reads if rtspNalQueue.Some? then {rtspNalQueue.value} else {}
    {
      && rtspNalQueue == old(rtspNalQueue)
      && nalQueue.items == PutAll(old(nalQueue.items), items, 500)
      && |nalQueue.items| + nalDrops == |old(nalQueue.items)| + old(nalDrops) + |items|
      && (rtspNalQueue.Some? && rtspRtpQueue.None? ==>
            && rtspNalQueue.value.items == PutAll(old(rtspNalQueue.value.items), items, rtspNalQueue.value.maxsize)
            && |rtspNalQueue.value.items| + rtspNalDrops
               == |old(rtspNalQueue.value.items)| + old(rtspNalDrops) + |items|)
      && (rtspNalQueue.Some? && rtspRtpQueue.Some? ==> rtspNalQueue.value.items == old(rtspNalQueue.value.items))
    }

    /** The passed-through copy of a video packet. */
    twostate predicate Forwarded(rtp: seq<byte>)
      reads this
      reads if rtspRtpQueue.Some? then {rtspRtpQueue.value} else {}
    {
      && rtspRtpQueue == old(rtspRtpQueue)
      && (rtspRtpQueue.Some? ==>
            && rtspRtpQueue.value.items
               == (if IsVideo(rtp) then PutAll(old(rtspRtpQueue.value.items), [rtp], rtspRtpQueue.value.maxsize)
                   else old(rtspRtpQueue.value.items))
            && |rtspRtpQueue.value.items| + rtspNalDrops
               == |old(rtspRtpQueue.value.items)| + old(rtspNalDrops) + (if IsVideo(rtp) then 1 else 0))
    }

    /** `_process_rtp` */
    method ProcessRtp(rtp: seq<byte>)
      requires Valid() && |rtp| >= 12
      modifies this`fua, this`nalDrops, this`rtspNalDrops, this`firstVideo, this`audioPackets, this`rtspAudioDrops, nalQueue
      modifies if rtspNalQueue.Some? then {rtspNalQueue.value} else {}
      modifies if rtspRtpQueue.Some? then {rtspRtpQueue.value} else {}
      modifies if rtspAudioQueue.Some? then {rtspAudioQueue.value} else {}
      ensures fua == Receive(old(fua), rtp).fua && Queued(Receive(old(fua), rtp).items) && Forwarded(rtp)
      ensures rtspAudioQueue.Some? ==>
                rtspAudioQueue.value.items
                == if IsAudio(rtp) && |rtp| > 12
                   then PutAll(old(rtspAudioQueue.value.items), [rtp[12..]], rtspAudioQueue.value.maxsize)
                   else old(rtspAudioQueue.value.items)
      ensures audioPackets == old(audioPackets) + if IsAudio(rtp) && |rtp| > 12 then 1 else 0
      ensures firstVideo == (old(firstVideo) || (IsVideo(rtp) && (rtspRtpQueue.Some? || Receive(old(fua), rtp).items != [])))
    {
      hide TimestampOf, PutAll, Depacketise;
      if rtp[0] / 64 != 2 {
        NothingQueued();
        return;
      }
      var payloadType := rtp[1] % 128;
      if payloadType == 0 || payloadType == 8 {
        ProcessAudio(rtp);
        NothingQueued();
        return;
      }
      if rtspRtpQueue.Some? {
        var q := rtspRtpQueue.value;
        var ok := q.PutNowait(rtp);
        if !ok {
          rtspNalDrops := rtspNalDrops + 1;
        }
        firstVideo := true;
      }
      ProcessPayload(TimestampOf(rtp), rtp[12..]);
    }

    /** The H.264 half of `_process_rtp` */
    method ProcessPayload(ts: u32, nal: seq<byte>)
      requires Valid()
      modifies this`fua, this`nalDrops, this`rtspNalDrops, this`firstVideo, nalQueue
      modifies if rtspNalQueue.Some? then {rtspNalQueue.value} else {}
      ensures fua == Depacketise(old(fua), ts, nal).fua && Queued(Depacketise(old(fua), ts, nal).items)
      ensures rtspRtpQueue.Some? ==> rtspNalDrops == old(rtspNalDrops)
      ensures firstVideo == (old(firstVideo) || Depacketise(old(fua), ts, nal).items != [])
    {
      hide PutAll;
      if nal == [] {
        NothingQueued();
        return;
      }
      var nalType := NalType(nal[0]);
      if nalType == 7 || nalType == 8 {
        QueueNal(Item(ts, START_CODE + nal));
      } else if nalType == FU_A {
        if |nal| < 2 {
          NothingQueued();
          return;
        }
        var startBit, endBit := nal[1] / 128, nal[1] / 64 % 2;
        if startBit == 1 {
          fua := Fua(START_CODE + [nal[0] / 32 * 32 + nal[1] % 32] + nal[2..], ts);
        } else if fua.buf != [] {
          fua := fua.(buf := fua.buf + nal[2..]);
        }
        if endBit == 1 && fua.buf != [] {
          QueueNal(Item(fua.ts, fua.buf));
          fua := fua.(buf := []);
        } else {
          NothingQueued();
        }
      } else if 1 <= nalType <= 23 {
        QueueNal(Item(ts, START_CODE + nal));
      } else {
        NothingQueued();
      }
    }

    twostate lemma NothingQueued()
      requires rtspNalQueue == old(rtspNalQueue) && nalQueue.items == old(nalQueue.items) && nalDrops == old(nalDrops)
      requires rtspNalQueue.Some? ==> rtspNalQueue.value.items == old(rtspNalQueue.value.items)
      requires rtspRtpQueue.None? ==> rtspNalDrops == old(rtspNalDrops)
      ensures Queued([])
    {
    }

    /** `_process_audio_rtp` */
    method ProcessAudio(rtp: seq<byte>)
      requires |rtp| >= 12
      modifies this`audioPackets, this`rtspAudioDrops
      modifies if rtspAudioQueue.Some? then {rtspAudioQueue.value} else {}
      ensures audioPackets == old(audioPackets) + if |rtp| > 12 then 1 else 0
      ensures rtspAudioQueue.Some? ==>
                rtspAudioQueue.value.items
                == if |rtp| > 12 then PutAll(old(rtspAudioQueue.value.items), [rtp[12..]], rtspAudioQueue.value.maxsize)
                   else old(rtspAudioQueue.value.items)
    {
      var payload := rtp[12..];
      if payload == [] {
        return;
      }
      audioPackets := audioPackets + 1;
      if rtspAudioQueue.Some? {
        var q := rtspAudioQueue.value;
        var ok := q.PutNowait(payload);
        if !ok {
          rtspAudioDrops := rtspAudioDrops + 1;
        }
      }
    }

    /** `receive_tcp_rtp` */
    method ReceiveTcp(data: seq<byte>)
      requires Valid()
      modifies this`fua, this`nalDrops, this`rtspNalDrops, this`firstVideo, this`audioPackets, this`rtspAudioDrops, nalQueue
      modifies this`mediaPackets
      modifies if rtspNalQueue.Some? then {rtspNalQueue.value} else {}
      modifies if rtspRtpQueue.Some? then {rtspRtpQueue.value} else {}
      modifies if rtspAudioQueue.Some? then {rtspAudioQueue.value} else {}
      ensures fua == Receive(old(fua), data).fua && Queued(Receive(old(fua), data).items) && Forwarded(data)
      ensures rtspAudioQueue.Some? ==>
                rtspAudioQueue.value.items
                == if IsAudio(data) && |data| > 12
                   then PutAll(old(rtspAudioQueue.value.items), [data[12..]], rtspAudioQueue.value.maxsize)
                   else old(rtspAudioQueue.value.items)
      ensures mediaPackets == old(mediaPackets) + if |data| < 12 then 0 else 1
    {
      if |data| < 12 {
        NothingQueued();
        return;
      }
      mediaPackets := mediaPackets + 1;
      ProcessRtp(data);
    }

    /** `_on_udp_packet`: only datagrams of the media request id count, and an RTP packet
        needs at least one payload byte. */
    method OnUdpPacket(data: seq<byte>)
      requires Valid()
      modifies this`fua, this`nalDrops, this`rtspNalDrops, this`firstVideo, this`audioPackets, this`rtspAudioDrops, nalQueue
      modifies this`mediaPackets
      modifies if rtspNalQueue.Some? then {rtspNalQueue.value} else {}
      modifies if rtspRtpQueue.Some? then {rtspRtpQueue.value} else {}
      modifies if rtspAudioQueue.Some? then {rtspAudioQueue.value} else {}
      ensures var rtp := UdpRtp(data, mediaReqId);
              fua == Receive(old(fua), rtp).fua && Queued(Receive(old(fua), rtp).items) && Forwarded(rtp)
      ensures mediaPackets == old(mediaPackets)
                              + if |data| >= HEADER_SIZE + 12 && AtLe16(data, 4) == mediaReqId then 1 else 0
    {
      if |data| < HEADER_SIZE + 12 {
        NothingQueued();
        return;
      }
      var reqId := AtLe16(data, 4);
      if reqId == mediaReqId {
        var bodyLen := AtLe16(data, 2);
        var raw := data[HEADER_SIZE..Min(HEADER_SIZE + bodyLen, |data|)];
        mediaPackets := mediaPackets + 1;
        if |raw| >= 13 {
          ProcessRtp(raw);
          return;
        }
      }
      NothingQueued();
    }
  }

  /** The packets a session passes through, and the audio payloads it queues. */
  function VideosOf(pkts: seq<seq<byte>>): seq<seq<byte>> {
    if pkts == [] then []
    else
      var n := |pkts| - 1;
      VideosOf(pkts[..n]) + (if IsVideo(pkts[n]) then [pkts[n]] else [])
  }

  function AudioOf(pkts: seq<seq<byte>>): seq<seq<byte>> {
    if pkts == [] then []
    else
      var n := |pkts| - 1;
      AudioOf(pkts[..n]) + (if IsAudio(pkts[n]) && |pkts[n]| > 12 then [pkts[n][12..]] else [])
  }

  lemma PutOneMore<T>(queued: seq<T>, more: seq<T>, x: seq<T>, room: nat)
    requires |x| <= 1
    ensures PutAll(queued, more + x, room) == PutAll(PutAll(queued, more, room), x, room)
    ensures x == [] ==> PutAll(queued, more + x, room) == PutAll(queued, more, room)
  {
    PutInTwo(queued, more, x, room);
    PutNothing(PutAll(queued, more, room), room);
  }

  lemma NothingYet(f: Fua)
    ensures ReceiveAll(f, []) == Received(f, []) && VideosOf([]) == [] && AudioOf([]) == []
  {
  }

  lemma OneMorePacket(f: Fua, pkts: seq<seq<byte>>, i: nat)
    requires i < |pkts|
    ensures var before := ReceiveAll(f, pkts[..i]);
            var step := Receive(before.fua, pkts[i]);
            ReceiveAll(f, pkts[..i + 1]) == Received(step.fua, before.items + step.items)
    ensures VideosOf(pkts[..i + 1]) == VideosOf(pkts[..i]) + (if IsVideo(pkts[i]) then [pkts[i]] else [])
    ensures AudioOf(pkts[..i + 1]) == AudioOf(pkts[..i]) + (if IsAudio(pkts[i]) && |pkts[i]| > 12 then [pkts[i][12..]] else [])
  {
    hide Receive, IsVideo, IsAudio;
    assert pkts[..i + 1][..i] == pkts[..i] && pkts[..i + 1][i] == pkts[i];
  }

  /** A session of any TCP packets, with whatever queues are attached (a call attaches all
      three): the decoder's queue holds what the reassembly yields, the server's packet queue
      the video packets themselves and its audio queue the audio payloads, each up to its room;
      the server's NAL queue is fed only when no packet queue is attached. Every packet passed
      through is queued or counted as dropped. */
  method ReceiveSession(r: RtpReceiver, pkts: seq<seq<byte>>)
    requires r.Valid()
    modifies r, r.nalQueue
    modifies if r.rtspNalQueue.Some? then {r.rtspNalQueue.value} else {}
    modifies if r.rtspRtpQueue.Some? then {r.rtspRtpQueue.value} else {}
    modifies if r.rtspAudioQueue.Some? then {r.rtspAudioQueue.value} else {}
    ensures r.rtspNalQueue == old(r.rtspNalQueue) && r.rtspRtpQueue == old(r.rtspRtpQueue) && r.rtspAudioQueue == old(r.rtspAudioQueue)
    ensures r.fua == ReceiveAll(old(r.fua), pkts).fua
    ensures r.nalQueue.items == PutAll(old(r.nalQueue.items), ReceiveAll(old(r.fua), pkts).items, 500)
    ensures |r.nalQueue.items| + r.nalDrops
         == |old(r.nalQueue.items)| + old(r.nalDrops) + |ReceiveAll(old(r.fua), pkts).items|
    ensures r.rtspRtpQueue.Some? ==>
              var q := r.rtspRtpQueue.value;
              && q.items == PutAll(old(q.items), VideosOf(pkts), q.maxsize)
              && |q.items| + r.rtspNalDrops == |old(q.items)| + old(r.rtspNalDrops) + |VideosOf(pkts)|
    ensures r.rtspAudioQueue.Some? ==>
              var q := r.rtspAudioQueue.value; q.items == PutAll(old(q.items), AudioOf(pkts), q.maxsize)
    ensures r.rtspNalQueue.Some? ==>
              var q := r.rtspNalQueue.value;
              q.items == PutAll(old(q.items), if r.rtspRtpQueue.Some? then [] else ReceiveAll(old(r.fua), pkts).items, q.maxsize)
  {
    hide Receive, ReceiveAll, PutAll, IsVideo, IsAudio, VideosOf, AudioOf;
    var i := 0;
    NothingYet(r.fua);
    assert pkts[..0] == [];
    PutNothing(r.nalQueue.items, 500);
    NothingPut(r);
    while i < |pkts|
      invariant i <= |pkts| && r.Valid()
      invariant r.rtspNalQueue == old(r.rtspNalQueue) && r.rtspRtpQueue == old(r.rtspRtpQueue) && r.rtspAudioQueue == old(r.rtspAudioQueue)
      invariant r.fua == ReceiveAll(old(r.fua), pkts[..i]).fua
      invariant r.nalQueue.items == PutAll(old(r.nalQueue.items), ReceiveAll(old(r.fua), pkts[..i]).items, 500)
      invariant |r.nalQueue.items| + r.nalDrops
             == |old(r.nalQueue.items)| + old(r.nalDrops) + |ReceiveAll(old(r.fua), pkts[..i]).items|
      invariant r.rtspRtpQueue.Some? ==>
                  var q := r.rtspRtpQueue.value;
                  && q.items == PutAll(old(q.items), VideosOf(pkts[..i]), q.maxsize)
                  && |q.items| + r.rtspNalDrops == |old(q.items)| + old(r.rtspNalDrops) + |VideosOf(pkts[..i])|
      invariant r.rtspAudioQueue.Some? ==>
                  var q := r.rtspAudioQueue.value; q.items == PutAll(old(q.items), AudioOf(pkts[..i]), q.maxsize)
      invariant r.rtspNalQueue.Some? ==>
                  var q := r.rtspNalQueue.value;
                  q.items == PutAll(old(q.items), if r.rtspRtpQueue.Some? then [] else ReceiveAll(old(r.fua), pkts[..i]).items, q.maxsize)
    {
      ghost var before := ReceiveAll(old(r.fua), pkts[..i]);
      ghost var step := Receive(before.fua, pkts[i]);
      OneMorePacket(old(r.fua), pkts, i);
      PutInTwo(old(r.nalQueue.items), before.items, step.items, 500);
      if r.rtspNalQueue.Some? {
        PutInTwo(old(r.rtspNalQueue.value.items), before.items, step.items, r.rtspNalQueue.value.maxsize);
      }
      if r.rtspRtpQueue.Some? {
        PutOneMore(old(r.rtspRtpQueue.value.items), VideosOf(pkts[..i]), if IsVideo(pkts[i]) then [pkts[i]] else [],
                   r.rtspRtpQueue.value.maxsize);
      }
      if r.rtspAudioQueue.Some? {
        PutOneMore(old(r.rtspAudioQueue.value.items), AudioOf(pkts[..i]),
                   if IsAudio(pkts[i]) && |pkts[i]| > 12 then [pkts[i][12..]] else [], r.rtspAudioQueue.value.maxsize);
      }
      r.ReceiveTcp(pkts[i]);
      i := i + 1;
    }
    assert pkts[..i] == pkts;
  }

  lemma NothingPut(r: RtpReceiver)
    ensures r.rtspNalQueue.Some? ==> PutAll(r.rtspNalQueue.value.items, [], r.rtspNalQueue.value.maxsize) == r.rtspNalQueue.value.items
    ensures r.rtspRtpQueue.Some? ==> PutAll(r.rtspRtpQueue.value.items, [], r.rtspRtpQueue.value.maxsize) == r.rtspRtpQueue.value.items
    ensures r.rtspAudioQueue.Some? ==> PutAll(r.rtspAudioQueue.value.items, [], r.rtspAudioQueue.value.maxsize) == r.rtspAudioQueue.value.items
  {
  }
}
