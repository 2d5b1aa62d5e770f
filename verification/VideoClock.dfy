/** Timestamp translation: the device restarts its 90 kHz clock on every call, the server's
    output timeline must never go back. */
module VideoClock {
  import opened Bytes

  /** A forward distance above this is read as a backward jump. */
  const HALF: int := 0x8000_0000

  /** `_video_ts_out`, `_video_ts_offset`, `_last_device_ts`, `_video_ts_rebase_pending` */
  datatype Clock = Clock(out: u32, offset: u32, last: Option<u32>, pending: bool)

  const START := Clock(0, 0, None, false)

  /** `_translate_video_ts` */
  function Translate(c: Clock, device: u32): Clock {
    var rebased := (c.out + 1 - device) % MOD32;
    var offset := if c.last.None? || c.pending then rebased
                  else if (device - c.last.value) % MOD32 > HALF then rebased
                  else c.offset;
    Clock((device + offset) % MOD32, offset, Some(device), false)
  }

  /** The clock's part of `reset`, given the audio clock. */
  function Reset(c: Clock, audioTs: u32): Clock {
    var audio90k := audioTs * 90000 / 8000 % MOD32;
    c.(out := if c.out >= audio90k then c.out else audio90k, pending := true)
  }

  /** Out of rebases the output is the device timestamp plus the offset. */
  predicate Tracking(c: Clock) {
    c.last.Some? && !c.pending ==> c.out == (c.last.value + c.offset) % MOD32
  }

  predicate Rebases(c: Clock, device: u32) {
    c.last.None? || c.pending || (device - c.last.value) % MOD32 > HALF
  }

  /** How far one frame moves the output timeline. */
  function Advance(c: Clock, device: u32): nat {
    if Rebases(c, device) then 1 else (device - c.last.value) % MOD32
  }

  lemma ModShift(a: int, b: int)
    ensures (a + b % MOD32) % MOD32 == (a + b) % MOD32
  {
    var q := b / MOD32;
    assert a + b % MOD32 == (a + b) - q * MOD32;
  }

  /** One frame moves the output by the device's own forward distance, or by 1 on a rebase;
      never by more than half the timestamp range. */
  lemma TranslateAdvances(c: Clock, device: u32)
    requires Tracking(c)
    ensures var d := Translate(c, device);
            && Tracking(d) && d.last == Some(device) && !d.pending
            && d.out == (c.out + Advance(c, device)) % MOD32
            && Advance(c, device) <= 0x8000_0000
  {
    if Rebases(c, device) {
      ModShift(device, c.out + 1 - device);
    } else {
      ModShift(device - c.last.value, c.last.value + c.offset);
      ModShift(c.out, device - c.last.value);
    }
  }

  /** Between two frames of one call the output moves by the device's own distance up to 2^31,
      and by exactly 1 beyond, which is taken for a restarted device clock. */
  lemma FrameDistance(c: Clock, device: u32)
    requires c.last.Some? && !c.pending && c.out == (c.last.value + c.offset) % 0x1_0000_0000
    ensures var distance, out := (device - c.last.value) % 0x1_0000_0000, Translate(c, device).out;
            && (distance <= 0x8000_0000 ==> out == (c.out + distance) % 0x1_0000_0000)
            && (distance > 0x8000_0000 ==> out == (c.out + 1) % 0x1_0000_0000)
    ensures var d := Translate(c, device);
            d.last == Some(device) && !d.pending && d.out == (device + d.offset) % 0x1_0000_0000
  {
    TranslateAdvances(c, device);
  }

  /** The first frame after a restart of the server or of the call goes 1 past the last output,
      wherever the device's clock starts. */
  lemma FirstFrame(c: Clock, device: u32)
    requires c.last.None? || c.pending
    ensures Translate(c, device).out == (c.out + 1) % 0x1_0000_0000
    ensures var d := Translate(c, device);
            d.last == Some(device) && !d.pending && d.out == (device + d.offset) % 0x1_0000_0000
  {
    TranslateAdvances(c, device);
  }

  /** Sending the fragments of one frame translates the same timestamp again: nothing moves. */
  lemma TranslateAgain(c: Clock, device: u32)
    requires Tracking(c)
    ensures Translate(Translate(c, device), device) == Translate(c, device)
  {
  }

  // ---- Whole runs ----------------------------------------------------------

  datatype ClockEvent = Tick(device: u32) | Restart

  /** Runs with the audio clock at 0, where it stays: the audio loop is never started. */
  function Run(c: Clock, events: seq<ClockEvent>): Clock {
    if events == [] then c
    else
      var before := Run(c, events[..|events| - 1]);
      match events[|events| - 1]
      case Tick(device) => Translate(before, device)
      case Restart => Reset(before, 0)
  }

  /** The output timeline unwrapped: total advance of all frames so far. */
  function Timeline(c: Clock, events: seq<ClockEvent>): nat {
    if events == [] then 0
    else
      var before := events[..|events| - 1];
      Timeline(c, before)
      + match events[|events| - 1]
        case Tick(device) => Advance(Run(c, before), device)
        case Restart => 0
  }

  lemma ResetHolds(c: Clock)
    ensures Reset(c, 0).out == c.out && Tracking(Reset(c, 0))
  {
  }

  /** The 32-bit output is the unwrapped timeline, over every run of frames and calls. */
  lemma {:induction false} OutputIsTimeline(c: Clock, events: seq<ClockEvent>)
    requires Tracking(c)
    ensures Tracking(Run(c, events))
    ensures Run(c, events).out == (c.out + Timeline(c, events)) % MOD32
    decreases |events|
  {
    hide Translate, Advance, Reset, Tracking;
    if events != [] {
      var before := events[..|events| - 1];
      OutputIsTimeline(c, before);
      ResetHolds(Run(c, before));
      match events[|events| - 1] {
        case Tick(device) =>
          TranslateAdvances(Run(c, before), device);
          ModShift(Advance(Run(c, before), device), c.out + Timeline(c, before));
        case Restart =>
      }
    }
  }

  /** The unwrapped timeline never goes back, and every frame moves it at most half the
      range; it stands still only for a frame that repeats the last device timestamp. */
  lemma {:induction false} TimelineNeverGoesBack(c: Clock, events: seq<ClockEvent>, i: nat, j: nat)
    requires Tracking(c) && i <= j <= |events|
    ensures Timeline(c, events[..i]) <= Timeline(c, events[..j]) <= Timeline(c, events[..i]) + (j - i) * 0x8000_0000
    decreases j
  {
    if i < j {
      TimelineNeverGoesBack(c, events, i, j - 1);
      assert events[..j][..j - 1] == events[..j - 1];
      OutputIsTimeline(c, events[..j - 1]);
      if events[j - 1].Tick? {
        TranslateAdvances(Run(c, events[..j - 1]), events[j - 1].device);
      }
    }
  }

  /** Every frame of every run, told from the event before it: after a frame the device's own
      distance or 1, after a restart or at the beginning 1. A restart itself moves nothing. */
  lemma EveryFrame(events: seq<ClockEvent>, device: u32)
    ensures var before, after := Run(START, events).out, Run(START, events + [Tick(device)]).out;
            after == (before + (if events == [] then 1 else Moved(events[|events| - 1], device))) % 0x1_0000_0000
    ensures Run(START, events + [Restart]).out == Run(START, events).out
  {
    hide Run, Translate, Reset, Moved, Tracking;
    var before := Run(START, events);
    assert Tracking(before) by {
      RunTracks(events);
    }
    LastEvent(events);
    OneMoreEvent(events, Tick(device));
    OneMoreEvent(events, Restart);
    ResetHolds(before);
    if events == [] {
      FirstFrame(before, device);
    } else {
      FrameAfter(before, events[|events| - 1], device);
    }
  }

  lemma RunTracks(events: seq<ClockEvent>)
    ensures Tracking(Run(START, events))
  {
    OutputIsTimeline(START, events);
  }

  lemma OneMoreEvent(events: seq<ClockEvent>, e: ClockEvent)
    ensures Run(START, events + [e])
         == match e case Tick(device) => Translate(Run(START, events), device) case Restart => Reset(Run(START, events), 0)
  {
    hide Translate, Reset;
    assert (events + [e])[..|events|] == events;
  }

  lemma FrameAfter(c: Clock, last: ClockEvent, device: u32)
    requires Tracking(c)
    requires if last.Restart? then c.pending else c.last == Some(last.device) && !c.pending
    ensures Translate(c, device).out == (c.out + Moved(last, device)) % 0x1_0000_0000
  {
    if last.Restart? {
      FirstFrame(c, device);
    } else {
      FrameDistance(c, device);
    }
  }

  /** How far a frame is from the event before it. */
  function Moved(last: ClockEvent, device: u32): nat {
    match last
    case Restart => 1
    case Tick(was) =>
      var distance := (device as int - was) % 0x1_0000_0000;
      if distance <= 0x8000_0000 then distance else 1
  }

  lemma LastEvent(events: seq<ClockEvent>)
    ensures var c := Run(START, events);
            if events == [] then c == START
            else if events[|events| - 1].Restart? then c.pending
            else c.last == Some(events[|events| - 1].device) && !c.pending
  {
  }

  function Frames(devices: seq<u32>): seq<ClockEvent> {
    seq(|devices|, i requires 0 <= i < |devices| => Tick(devices[i]))
  }

  predicate Forward(devices: seq<u32>) {
    forall k | 0 <= k < |devices| - 1 :: (devices[k + 1] as int - devices[k]) % 0x1_0000_0000 <= 0x8000_0000
  }

  lemma FrameStep(c: Clock, devices: seq<u32>, j: nat)
    requires Tracking(c) && j < |devices|
    ensures Tracking(Run(c, Frames(devices)[..j]))
    ensures Run(c, Frames(devices)[..j + 1]) == Translate(Run(c, Frames(devices)[..j]), devices[j])
  {
    var fs := Frames(devices);
    assert fs[..j + 1][..j] == fs[..j] && fs[..j + 1][j] == Tick(devices[j]);
    OutputIsTimeline(c, fs[..j]);
  }

  /** The clock right after frame j of a call. */
  function After(c: Clock, devices: seq<u32>, j: nat): Clock
    requires j < |devices|
  {
    Run(c, Frames(devices)[..j + 1])
  }

  lemma PacingStep(c: Clock, devices: seq<u32>, j: nat)
    requires Tracking(c) && Forward(devices) && j < |devices|
    ensures After(c, devices, j).last == Some(devices[j]) && !After(c, devices, j).pending
    ensures j > 0 ==>
              After(c, devices, j).out
              == (After(c, devices, j - 1).out + (devices[j] - devices[j - 1]) % MOD32) % MOD32
  {
    hide Run, Translate;
    FrameStep(c, devices, j);
    TranslateAdvances(Run(c, Frames(devices)[..j]), devices[j]);
    if j > 0 {
      FrameStep(c, devices, j - 1);
      TranslateAdvances(Run(c, Frames(devices)[..j - 1]), devices[j - 1]);
    }
  }

  /** Within a call that never steps back by more than half the range, the distance between
      any two output timestamps is the distance between the device's. */
  lemma {:induction false} DevicePacingExact(c: Clock, devices: seq<u32>, i: nat, j: nat)
    requires Tracking(c) && Forward(devices) && i <= j < |devices|
    ensures (After(c, devices, j).out - After(c, devices, i).out) % MOD32 == (devices[j] - devices[i]) % MOD32
    decreases j
  {
    hide After;
    if i < j {
      DevicePacingExact(c, devices, i, j - 1);
      PacingStep(c, devices, j);
      ModDifference(After(c, devices, i).out, After(c, devices, j - 1).out, After(c, devices, j).out,
                    devices[i], devices[j - 1], devices[j]);
    }
  }

  lemma ModDifference(o0: int, o1: int, o2: int, d0: int, d1: int, d2: int)
    requires (o1 - o0) % MOD32 == (d1 - d0) % MOD32
    requires o2 % MOD32 == (o1 + (d2 - d1) % MOD32) % MOD32
    ensures (o2 - o0) % MOD32 == (d2 - d0) % MOD32
  {
    ModShift(o1, d2 - d1);
    ModShift(-o0, o2);
    ModShift(-o0, o1 + (d2 - d1));
    ModShift(d2 - d1, o1 - o0);
    ModShift(d2 - d1, d1 - d0);
  }

  // ---- The plain maximum in reset ------------------------------------------

  /** `reset` keeps the timeline from going back exactly when the audio clock, read at
      90 kHz, is not more than half the range above the last output. The comparison is not
      wrap-aware: beyond that distance it moves the output backwards. */
  lemma ResetForwardIff(c: Clock, audioTs: u32)
    ensures (Reset(c, audioTs).out - c.out) % MOD32 <= 0x8000_0000
         <==> audioTs * 90000 / 8000 % MOD32 - c.out <= 0x8000_0000
  {
  }

  /** With the output just past a wrap and the audio clock just short of one, a reset sends
      the timeline back by 272 ticks. */
  lemma ResetCanGoBack()
    ensures (0x10 - Reset(Clock(0x10, 0, None, false), 0x16C1_6C00).out) % MOD32 == 272
  {
    assert 0x16C1_6C00 * 90000 / 8000 % MOD32 == 0xFFFF_FF00;
  }
}
