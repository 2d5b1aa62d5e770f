/** The coordinator's video lifecycle as interleaved tasks: every step runs one task from one
    await to the next, and any suspended task may be resumed at any time. */
module VideoLifecycle {
  import opened Bytes

  datatype Client = NoClient | Client(connected: bool)

  /** Who called `async_stop_video` or `_reconnect`. */
  datatype Caller = Alone | InStart | InShutdown

  /** The await a task is suspended at. */
  datatype Await =
    | Restart                               // an auto-restart, scheduled but not begun
    | StopWait(caller: Caller, was: nat)    // stop callbacks and session.stop
    | StopNotify(caller: Caller, raised: bool)
    | ReStop(caller: Caller, was: nat)      // _reconnect: session.stop
    | ReVip(caller: Caller)
    | ReVipNotify(caller: Caller)
    | ReDisconnect(caller: Caller)
    | ReConnect(caller: Caller)             // connect, authenticate, config, push
    | ReOpen(caller: Caller)                // CTPP channels
    | ReNotify(caller: Caller)
    | PauseVip
    | PauseNotify
    | Starting(id: nat, hasClient: bool)    // session.start(), with the client there was
    | StartNotify(id: nat)
    | ShutVip
    | ShutRtsp
    | ShutClient

  datatype State = State(
    session: Option<nat>, ready: bool, lock: bool, stoppedByUser: bool,
    client: Client, notifications: bool, vip: bool, rtsp: bool, rtspReady: bool,
    tasks: map<nat, Await>, next: nat)

  datatype Event =
    | CallStart(t: nat, byUser: bool)
    | CallStop(t: nat)
    | CallShutdown(t: nat)
    | HealthCheck(t: nat)
    | CallEnd(t: nat)
    | UserStop
    | ConnectionLost
    /** The awaited operation returns, or raises; `hasChannel`: CTPP is open. */
    | Resume(t: nat, ok: bool, hasChannel: bool)

  // ---- Segments ---------------------------------------------------------------------

  function Park(s: State, t: nat, a: Await): State {
    s.(tasks := s.tasks[t := a])
  }

  function Finish(s: State, t: nat): State {
    s.(tasks := s.tasks - {t})
  }

  /** The start returns or raises: the lock is released. */
  function EndStart(s: State, t: nat): State {
    Finish(s, t).(lock := false)
  }

  /** `_ensure_vip_listener` */
  function EnsureVip(s: State, hasChannel: bool): State {
    if s.vip || s.client.NoClient? || !s.notifications || !hasChannel then s else s.(vip := true)
  }

  /** The session takes the client there is, or None. */
  function Launch(s: State, t: nat): State {
    Park(s, t, Starting(s.next, s.client.Client?)).(next := s.next + 1)
  }

  function PauseListener(s: State, t: nat): State {
    if s.vip then Park(s, t, PauseVip) else Launch(s, t)
  }

  function ShutdownClient(s: State, t: nat): State {
    if s.client.Client? then Park(s, t, ShutClient) else Finish(s, t)
  }

  function ShutdownRtsp(s: State, t: nat): State {
    if s.rtsp then Park(s, t, ShutRtsp) else ShutdownClient(s, t)
  }

  function ShutdownVip(s: State, t: nat): State {
    if s.vip then Park(s, t, ShutVip) else ShutdownRtsp(s, t)
  }

  function AfterStop(s: State, t: nat, caller: Caller, raised: bool): State {
    match caller
    case Alone => Finish(s, t)
    case InStart => if raised then EndStart(s, t) else PauseListener(s, t)
    case InShutdown => if raised then Finish(s, t) else ShutdownVip(s, t)
  }

  /** `async_stop_video` up to its first await. */
  function BeginStop(s: State, t: nat, caller: Caller): State {
    if s.session.None? then AfterStop(s, t, caller, false)
    else Park(s.(session := None, ready := false), t, StopWait(caller, s.session.value))
  }

  function MarkNotReady(s: State): State {
    s.(rtspReady := false)
  }

  /** The `finally` part of `async_stop_video`. */
  function StopTail(s: State, t: nat, caller: Caller, raised: bool, hasChannel: bool): State {
    var m := MarkNotReady(s);
    Park(if m.lock then m else EnsureVip(m, hasChannel), t, StopNotify(caller, raised))
  }

  function StartConnected(s: State, t: nat): State {
    BeginStop(s.(stoppedByUser := false), t, InStart)
  }

  function DropClient(s: State, t: nat, caller: Caller): State {
    Park(s.(client := NoClient), t, if s.client.Client? then ReDisconnect(caller) else ReConnect(caller))
  }

  function DropVip(s: State, t: nat, caller: Caller): State {
    if s.vip then Park(s, t, ReVip(caller)) else DropClient(s, t, caller)
  }

  /** `_reconnect` up to its first await. */
  function BeginReconnect(s: State, t: nat, caller: Caller): State {
    if s.session.Some? then Park(s, t, ReStop(caller, s.session.value)) else DropVip(s, t, caller)
  }

  function EndReconnect(s: State, t: nat, caller: Caller, ok: bool): State {
    if caller != InStart then Finish(s, t)
    else if ok then StartConnected(s, t)
    else EndStart(s, t)
  }

  /** `async_start_video` up to its first await. A start that finds the lock taken answers or
      raises at once; one that gets it may still raise before any await. */
  function BeginStart(s: State, t: nat, byUser: bool): State {
    if s.lock || s.client.NoClient? || (s.stoppedByUser && !byUser) then Finish(s, t)
    else if !s.client.connected then BeginReconnect(s.(lock := true), t, InStart)
    else StartConnected(s.(lock := true), t)
  }

  function Publish(s: State, t: nat, id: nat): State {
    Park(s.(session := Some(id), ready := true, rtspReady := s.rtsp), t, StartNotify(id))
  }

  /** Task t runs from the await it is suspended at to its next one. */
  function Continue(s: State, t: nat, ok: bool, hasChannel: bool): State
    requires t in s.tasks
  {
    match s.tasks[t]
    case Restart => BeginStart(s, t, false)
    case StopWait(c, _) => StopTail(s, t, c, !ok, hasChannel)
    case StopNotify(c, raised) => AfterStop(s, t, c, raised)
    case ReStop(c, _) => DropVip(MarkNotReady(s.(session := None, ready := false)), t, c)
    case ReVip(c) => Park(s.(vip := false), t, ReVipNotify(c))
    case ReVipNotify(c) => DropClient(s, t, c)
    case ReDisconnect(c) => Park(s, t, ReConnect(c))
    case ReConnect(c) =>
      if !ok then EndReconnect(s, t, c, false)
      else if s.notifications then Park(s.(client := Client(true)), t, ReOpen(c))
      else EndReconnect(s.(client := Client(true)), t, c, true)
    case ReOpen(c) => if ok then Park(s.(vip := true), t, ReNotify(c)) else EndReconnect(s, t, c, true)
    case ReNotify(c) => EndReconnect(s, t, c, true)
    case PauseVip => Park(s.(vip := false), t, PauseNotify)
    case PauseNotify => Launch(s, t)
    case Starting(id, hasClient) => if ok && hasClient then Publish(s, t, id) else EndStart(s, t)
    case StartNotify(_) => EndStart(s, t)
    case ShutVip => ShutdownRtsp(s.(vip := false), t)
    case ShutRtsp => ShutdownClient(s.(rtsp := false, rtspReady := false), t)
    case ShutClient => Finish(s.(client := NoClient), t)
  }

  /** An event whose task cannot take it changes nothing. */
  function Step(s: State, e: Event): State {
    match e
    case CallStart(t, byUser) => if t in s.tasks then s else BeginStart(s, t, byUser)
    case CallStop(t) => if t in s.tasks then s else BeginStop(s, t, Alone)
    case CallShutdown(t) => if t in s.tasks then s else BeginStop(s, t, InShutdown)
    case HealthCheck(t) => if t in s.tasks || (s.client.Client? && s.client.connected) then s else BeginReconnect(s, t, Alone)
    case CallEnd(t) => if t in s.tasks || s.stoppedByUser then s else Park(s, t, Restart)
    case UserStop => s.(stoppedByUser := true)
    case ConnectionLost => if s.client.Client? then s.(client := Client(false)) else s
    case Resume(t, ok, hasChannel) => if t in s.tasks then Continue(s, t, ok, hasChannel) else s
  }

  function Steps(s: State, events: seq<Event>): State {
    if events == [] then s
    else
      var n := |events| - 1;
      Step(Steps(s, events[..n]), events[n])
  }

  /** After a setup that connected and started the RTSP server. */
  function Initial(notifications: bool, vip: bool): State {
    State(None, false, false, false, Client(true), notifications, vip, true, false, map[], 0)
  }

  // ---- The invariant --------------------------------------------------------------------

  /** The task is inside the body of `async with self._video_start_lock`. */
  predicate Holds(a: Await) {
    match a
    case StopWait(c, _) => c == InStart
    case StopNotify(c, _) => c == InStart
    case ReStop(c, _) => c == InStart
    case ReVip(c) => c == InStart
    case ReVipNotify(c) => c == InStart
    case ReDisconnect(c) => c == InStart
    case ReConnect(c) => c == InStart
    case ReOpen(c) => c == InStart
    case ReNotify(c) => c == InStart
    case PauseVip => true
    case PauseNotify => true
    case Starting(_, _) => true
    case StartNotify(_) => true
    case _ => false
  }

  predicate HoldsAt(s: State, t: nat) {
    t in s.tasks && Holds(s.tasks[t])
  }

  /** The published session is set exactly when the ready event is. */
  predicate SessionIsReady(s: State) {
    s.session.Some? <==> s.ready
  }

  /** The lock is held exactly when one task is inside the start; never by two. */
  ghost predicate OneHolder(s: State) {
    && (s.lock <==> exists t: nat :: HoldsAt(s, t))
    && (forall t: nat, u: nat | HoldsAt(s, t) && HoldsAt(s, u) :: t == u)
  }

  /** A session is published only after its start has returned, and ids are fresh. */
  predicate Fresh(s: State) {
    && (s.session.Some? ==> s.session.value < s.next)
    && (forall t | t in s.tasks && s.tasks[t].Starting? :: s.tasks[t].id < s.next && s.session != Some(s.tasks[t].id))
  }

  /** Without a session the RTSP server is ready only while a stop has its tail still to run. */
  ghost predicate RtspTracks(s: State) {
    && (s.session.None? && s.rtspReady ==> exists t | t in s.tasks :: s.tasks[t].StopWait?)
    && (s.rtspReady ==> s.rtsp)
  }

  ghost predicate Inv(s: State) {
    Sound(s) && OneHolder(s)
  }

  ghost predicate Sound(s: State) {
    SessionIsReady(s) && Fresh(s) && RtspTracks(s)
  }

  /** What running one segment of task t from s may do to the lock: nothing when t is not inside
      the start, and otherwise release it exactly when t leaves the start. */
  predicate Moves(s: State, r: State, t: nat, holding: bool) {
    && r.tasks - {t} == s.tasks - {t}
    && (if holding then r.lock <==> HoldsAt(r, t) else r.lock == s.lock && !HoldsAt(r, t))
  }

  lemma ParkMoves(s: State, t: nat, a: Await, holding: bool)
    requires (holding ==> s.lock) && Holds(a) == holding
    ensures Moves(s, Park(s, t, a), t, holding)
  {
  }

  lemma FinishMoves(s: State, t: nat)
    ensures Moves(s, Finish(s, t), t, false) && Moves(s, EndStart(s, t), t, true)
  {
  }

  /** Only the tasks and the lock matter. */
  lemma MovesFrom(s: State, b: State, r: State, t: nat, holding: bool)
    requires b.tasks == s.tasks && (b.lock == s.lock || holding) && Moves(b, r, t, holding)
    ensures Moves(s, r, t, holding)
  {
  }

  lemma AfterStopMoves(s: State, t: nat, caller: Caller, raised: bool)
    requires caller == InStart ==> s.lock
    ensures Moves(s, AfterStop(s, t, caller, raised), t, caller == InStart)
  {
    FinishMoves(s, t);
    var holding := caller == InStart;
    if holding {
      ParkMoves(s, t, PauseVip, true);
      ParkMoves(s, t, Starting(s.next, s.client.Client?), true);
      hide Park, Finish, EndStart;
      assert Moves(s, Launch(s, t), t, true);
    } else {
      ParkMoves(s, t, ShutVip, false);
      ParkMoves(s, t, ShutRtsp, false);
      ParkMoves(s, t, ShutClient, false);
      hide Moves, Park, Finish;
    }
  }

  lemma BeginStopMoves(s: State, t: nat, caller: Caller)
    requires caller == InStart ==> s.lock
    ensures Moves(s, BeginStop(s, t, caller), t, caller == InStart)
  {
    hide AfterStop, Moves, Park;
    if s.session.None? {
      AfterStopMoves(s, t, caller, false);
    } else {
      var b := s.(session := None, ready := false);
      ParkMoves(b, t, StopWait(caller, s.session.value), caller == InStart);
      MovesFrom(s, b, BeginStop(s, t, caller), t, caller == InStart);
    }
  }

  lemma DropClientMoves(s: State, t: nat, caller: Caller)
    requires caller == InStart ==> s.lock
    ensures Moves(s, DropClient(s, t, caller), t, caller == InStart)
  {
    hide Moves, Park;
    var b := s.(client := NoClient);
    ParkMoves(b, t, ReDisconnect(caller), caller == InStart);
    ParkMoves(b, t, ReConnect(caller), caller == InStart);
    MovesFrom(s, b, DropClient(s, t, caller), t, caller == InStart);
  }

  lemma DropVipMoves(s: State, t: nat, caller: Caller)
    requires caller == InStart ==> s.lock
    ensures Moves(s, DropVip(s, t, caller), t, caller == InStart)
  {
    hide Moves, Park, DropClient;
    ParkMoves(s, t, ReVip(caller), caller == InStart);
    DropClientMoves(s, t, caller);
  }

  lemma BeginReconnectMoves(s: State, t: nat, caller: Caller)
    requires caller == InStart ==> s.lock
    ensures Moves(s, BeginReconnect(s, t, caller), t, caller == InStart)
  {
    hide Moves, Park, DropVip;
    DropVipMoves(s, t, caller);
    if s.session.Some? {
      ParkMoves(s, t, ReStop(caller, s.session.value), caller == InStart);
    }
  }

  lemma StartConnectedMoves(s: State, t: nat)
    requires s.lock
    ensures Moves(s, StartConnected(s, t), t, true)
  {
    hide Moves, BeginStop;
    var b := s.(stoppedByUser := false);
    BeginStopMoves(b, t, InStart);
    MovesFrom(s, b, StartConnected(s, t), t, true);
  }

  lemma EndReconnectMoves(s: State, t: nat, caller: Caller, ok: bool)
    requires caller == InStart ==> s.lock
    ensures Moves(s, EndReconnect(s, t, caller, ok), t, caller == InStart)
  {
    hide Moves, StartConnected, Finish, EndStart;
    FinishMoves(s, t);
    if caller == InStart {
      StartConnectedMoves(s, t);
    }
  }

  lemma BeginStartMoves(s: State, t: nat, byUser: bool)
    requires !HoldsAt(s, t)
    ensures Moves(s, BeginStart(s, t, byUser), t, !s.lock)
  {
    hide Moves, BeginReconnect, StartConnected, Finish;
    var b, r := s.(lock := true), BeginStart(s, t, byUser);
    if s.lock {
      FinishMoves(s, t);
    } else if s.client.NoClient? || (s.stoppedByUser && !byUser) {
      FinishUnlocked(s, t);
    } else {
      BeginReconnectMoves(b, t, InStart);
      StartConnectedMoves(b, t);
      MovesFrom(s, b, r, t, true);
    }
  }

  lemma FinishUnlocked(s: State, t: nat)
    requires !s.lock
    ensures Moves(s, Finish(s, t), t, true)
  {
  }

  lemma ContinueMoves(s: State, t: nat, ok: bool, hasChannel: bool)
    requires t in s.tasks && !s.tasks[t].Restart? && (Holds(s.tasks[t]) ==> s.lock)
    ensures Moves(s, Continue(s, t, ok, hasChannel), t, Holds(s.tasks[t]))
  {
    if s.tasks[t].StopWait? || s.tasks[t].StopNotify? {
      hide Moves, AfterStop, StopTail;
      StopTailMoves(s, t, s.tasks[t].caller, !ok, hasChannel);
      AfterStopMoves(s, t, s.tasks[t].caller, if s.tasks[t].StopNotify? then s.tasks[t].raised else false);
    } else if Reconnects(s.tasks[t]) {
      ReconnectMoves(s, t, ok, hasChannel);
    } else {
      OtherMoves(s, t, ok, hasChannel);
    }
  }

  predicate Reconnects(a: Await) {
    a.ReStop? || a.ReVip? || a.ReVipNotify? || a.ReDisconnect? || a.ReConnect? || a.ReOpen? || a.ReNotify?
  }

  lemma ReconnectMoves(s: State, t: nat, ok: bool, hasChannel: bool)
    requires t in s.tasks && Reconnects(s.tasks[t]) && (Holds(s.tasks[t]) ==> s.lock)
    ensures Moves(s, Continue(s, t, ok, hasChannel), t, Holds(s.tasks[t]))
  {
    hide Moves, Continue;
    if s.tasks[t].ReConnect? || s.tasks[t].ReOpen? || s.tasks[t].ReNotify? {
      ConnectMoves(s, t, ok, hasChannel);
    } else {
      DropMoves(s, t, ok, hasChannel);
    }
  }

  lemma DropMoves(s: State, t: nat, ok: bool, hasChannel: bool)
    requires t in s.tasks && (Holds(s.tasks[t]) ==> s.lock)
    requires var a := s.tasks[t]; a.ReStop? || a.ReVip? || a.ReVipNotify? || a.ReDisconnect?
    ensures Moves(s, Continue(s, t, ok, hasChannel), t, Holds(s.tasks[t]))
  {
    hide Moves, DropVip, DropClient, Park, MarkNotReady;
    var r, h, c := Continue(s, t, ok, hasChannel), Holds(s.tasks[t]), s.tasks[t].caller;
    match s.tasks[t]
    case ReStop(_, _) => ReStopMoves(s, t, c, h, r);
    case ReVip(_) => ParkAfter(s, s.(vip := false), t, ReVipNotify(c), h);
    case ReVipNotify(_) => DropClientMoves(s, t, c);
    case ReDisconnect(_) => ParkMoves(s, t, ReConnect(c), h);
  }

  lemma ConnectMoves(s: State, t: nat, ok: bool, hasChannel: bool)
    requires t in s.tasks && (Holds(s.tasks[t]) ==> s.lock)
    requires s.tasks[t].ReConnect? || s.tasks[t].ReOpen? || s.tasks[t].ReNotify?
    ensures Moves(s, Continue(s, t, ok, hasChannel), t, Holds(s.tasks[t]))
  {
    hide Moves, EndReconnect, Park;
    var h, c := Holds(s.tasks[t]), s.tasks[t].caller;
    match s.tasks[t]
    case ReConnect(_) =>
      if !ok {
        EndReconnectMoves(s, t, c, false);
      } else {
        ConnectedMoves(s, t, c, h);
      }
    case ReOpen(_) =>
      EndReconnectMoves(s, t, c, true);
      ParkAfter(s, s.(vip := true), t, ReNotify(c), h);
    case ReNotify(_) => EndReconnectMoves(s, t, c, true);
  }

  lemma ParkAfter(s: State, b: State, t: nat, a: Await, holding: bool)
    requires b.tasks == s.tasks && b.lock == s.lock && (holding ==> s.lock) && Holds(a) == holding
    ensures Moves(s, Park(b, t, a), t, holding)
  {
  }

  lemma ConnectedMoves(s: State, t: nat, caller: Caller, holding: bool)
    requires holding == (caller == InStart) && (holding ==> s.lock)
    ensures Moves(s, Park(s.(client := Client(true)), t, ReOpen(caller)), t, holding)
    ensures Moves(s, EndReconnect(s.(client := Client(true)), t, caller, true), t, holding)
  {
    hide Moves, Park, EndReconnect;
    var b := s.(client := Client(true));
    ParkAfter(s, b, t, ReOpen(caller), holding);
    EndReconnectMoves(b, t, caller, true);
    MovesFrom(s, b, EndReconnect(b, t, caller, true), t, holding);
  }

  lemma ReStopMoves(s: State, t: nat, caller: Caller, holding: bool, r: State)
    requires holding == (caller == InStart) && (holding ==> s.lock)
    requires r == DropVip(MarkNotReady(s.(session := None, ready := false)), t, caller)
    ensures Moves(s, r, t, holding)
  {
    hide Moves, DropVip;
    var b := MarkNotReady(s.(session := None, ready := false));
    DropVipMoves(b, t, caller);
    MovesFrom(s, b, r, t, holding);
  }

  lemma StopTailMoves(s: State, t: nat, caller: Caller, raised: bool, hasChannel: bool)
    requires caller == InStart ==> s.lock
    ensures Moves(s, StopTail(s, t, caller, raised, hasChannel), t, caller == InStart)
  {
    hide Moves, Park;
    var m := MarkNotReady(s);
    var b := if m.lock then m else EnsureVip(m, hasChannel);
    ParkMoves(b, t, StopNotify(caller, raised), caller == InStart);
    MovesFrom(s, b, StopTail(s, t, caller, raised, hasChannel), t, caller == InStart);
  }

  lemma OtherMoves(s: State, t: nat, ok: bool, hasChannel: bool)
    requires t in s.tasks && (Holds(s.tasks[t]) ==> s.lock)
    requires s.tasks[t].PauseVip? || s.tasks[t].PauseNotify? || s.tasks[t].Starting? || s.tasks[t].StartNotify?
             || s.tasks[t].ShutVip? || s.tasks[t].ShutRtsp? || s.tasks[t].ShutClient?
    ensures Moves(s, Continue(s, t, ok, hasChannel), t, Holds(s.tasks[t]))
  {
    hide AfterStop, DropVip, DropClient, EndReconnect, EnsureVip, StopTail, BeginStart;
    hide Moves, Park, Finish, EndStart;
    var r, h := Continue(s, t, ok, hasChannel), Holds(s.tasks[t]);
    FinishMoves(s, t);
    match s.tasks[t]
    case PauseVip =>
      ParkMoves(s.(vip := false), t, PauseNotify, true);
      MovesFrom(s, s.(vip := false), r, t, true);
    case PauseNotify =>
      ParkMoves(s, t, Starting(s.next, s.client.Client?), true);
      MovesFrom(s, s, r, t, true) by { LaunchMoves(s, t); }
    case Starting(id, hasClient) =>
      var b := s.(session := Some(id), ready := true, rtspReady := s.rtsp);
      ParkMoves(b, t, StartNotify(id), true);
      if ok && hasClient {
        MovesFrom(s, b, r, t, true);
      }
    case StartNotify(_) =>
    case ShutVip =>
      var b := s.(vip := false);
      ParkMoves(b, t, ShutRtsp, false);
      ShutClientMoves(b, t);
      MovesFrom(s, b, r, t, false);
    case ShutRtsp =>
      var b := s.(rtsp := false, rtspReady := false);
      ShutClientMoves(b, t);
      MovesFrom(s, b, r, t, false);
    case ShutClient =>
      var b := s.(client := NoClient);
      FinishMoves(b, t);
      MovesFrom(s, b, r, t, false);
  }

  lemma LaunchMoves(s: State, t: nat)
    requires s.lock
    ensures Moves(s, Launch(s, t), t, true)
  {
  }

  lemma ShutClientMoves(s: State, t: nat)
    ensures Moves(s, ShutdownClient(s, t), t, false)
  {
    hide Moves, Park, Finish;
    ParkMoves(s, t, ShutClient, false);
    FinishMoves(s, t);
  }

  // ---- What a segment may do to the session --------------------------------------------

  /** A segment of task t leaves the session alone, or takes it down and waits for its stop; a
      session it starts is new. */
  predicate Effect(s: State, r: State, t: nat) {
    && r.tasks - {t} == s.tasks - {t}
    && r.rtsp == s.rtsp && r.rtspReady == s.rtspReady && s.next <= r.next
    && (|| (r.session == s.session && r.ready == s.ready)
        || (s.session.Some? && r.session.None? && !r.ready && t in r.tasks && r.tasks[t].StopWait?))
    && (t in r.tasks && r.tasks[t].Starting? ==> s.next <= r.tasks[t].id < r.next)
  }

  /** The steps in between change only the client, the listener, the flags and the lock. */
  predicate Alike(s: State, b: State) {
    && b.tasks == s.tasks && b.session == s.session && b.ready == s.ready && b.next == s.next
    && b.rtsp == s.rtsp && b.rtspReady == s.rtspReady
  }

  lemma EffectFrom(s: State, b: State, r: State, t: nat)
    requires Alike(s, b) && Effect(b, r, t)
    ensures Effect(s, r, t)
  {
  }

  lemma ParkEffect(s: State, b: State, t: nat, a: Await)
    requires Alike(s, b) && !a.Starting?
    ensures Effect(s, Park(b, t, a), t)
  {
  }

  lemma FinishEffect(s: State, b: State, t: nat)
    requires Alike(s, b)
    ensures Effect(s, Finish(b, t), t) && Effect(s, EndStart(b, t), t)
  {
  }

  lemma ShutdownEffect(s: State, t: nat)
    ensures Effect(s, ShutdownClient(s, t), t) && Effect(s, ShutdownRtsp(s, t), t) && Effect(s, ShutdownVip(s, t), t)
  {
    hide Effect, Park, Finish;
    ParkEffect(s, s, t, ShutVip);
    ParkEffect(s, s, t, ShutRtsp);
    ParkEffect(s, s, t, ShutClient);
    FinishEffect(s, s, t);
  }

  lemma LaunchEffect(s: State, t: nat)
    ensures Effect(s, Launch(s, t), t)
  {
  }

  lemma AfterStopEffect(s: State, t: nat, caller: Caller, raised: bool)
    ensures Effect(s, AfterStop(s, t, caller, raised), t)
  {
    hide Effect, Park, Finish, EndStart, Launch, ShutdownVip;
    ShutdownEffect(s, t);
    FinishEffect(s, s, t);
    ParkEffect(s, s, t, PauseVip);
    LaunchEffect(s, t);
  }

  lemma BeginStopEffect(s: State, b: State, t: nat, caller: Caller)
    requires Alike(s, b)
    ensures Effect(s, BeginStop(b, t, caller), t)
  {
    if b.session.None? {
      hide Effect, AfterStop;
      AfterStopEffect(b, t, caller, false);
      EffectFrom(s, b, BeginStop(b, t, caller), t);
    }
  }

  lemma DropVipEffect(s: State, t: nat, caller: Caller)
    ensures Effect(s, DropVip(s, t, caller), t) && Effect(s, DropClient(s, t, caller), t)
  {
    hide Effect, Park;
    ParkEffect(s, s, t, ReVip(caller));
    ParkEffect(s, s.(client := NoClient), t, ReDisconnect(caller));
    ParkEffect(s, s.(client := NoClient), t, ReConnect(caller));
  }

  lemma BeginReconnectEffect(s: State, b: State, t: nat, caller: Caller)
    requires Alike(s, b)
    ensures Effect(s, BeginReconnect(b, t, caller), t)
  {
    hide Effect, Park, DropVip;
    DropVipEffect(b, t, caller);
    EffectFrom(s, b, DropVip(b, t, caller), t);
    if b.session.Some? {
      ParkEffect(s, b, t, ReStop(caller, b.session.value));
    }
  }

  lemma EndReconnectEffect(s: State, b: State, t: nat, caller: Caller, ok: bool)
    requires Alike(s, b)
    ensures Effect(s, EndReconnect(b, t, caller, ok), t)
  {
    hide Effect, BeginStop, Finish, EndStart;
    FinishEffect(s, b, t);
    BeginStopEffect(s, b.(stoppedByUser := false), t, InStart);
  }

  lemma BeginStartEffect(s: State, t: nat, byUser: bool)
    ensures Effect(s, BeginStart(s, t, byUser), t)
  {
    hide Effect, BeginStop, BeginReconnect, Finish;
    FinishEffect(s, s, t);
    BeginReconnectEffect(s, s.(lock := true), t, InStart);
    BeginStopEffect(s, s.(lock := true, stoppedByUser := false), t, InStart);
  }

  /** The session invariants, leaving task t aside. */
  ghost predicate SoundBut(s: State, t: nat) {
    && SessionIsReady(s)
    && (s.session.Some? ==> s.session.value < s.next)
    && (forall u | u in s.tasks && u != t && s.tasks[u].Starting? :: s.tasks[u].id < s.next && s.session != Some(s.tasks[u].id))
    && (s.session.None? && s.rtspReady ==> exists u | u in s.tasks && u != t :: s.tasks[u].StopWait?)
    && (s.rtspReady ==> s.rtsp)
  }

  lemma SameElsewhere(s: State, r: State, t: nat, u: nat)
    requires r.tasks - {t} == s.tasks - {t} && u != t
    ensures u in r.tasks <==> u in s.tasks
    ensures u in r.tasks ==> r.tasks[u] == s.tasks[u]
  {
    assert u in r.tasks - {t} <==> u in r.tasks;
    assert u in s.tasks - {t} <==> u in s.tasks;
    if u in r.tasks {
      assert (r.tasks - {t})[u] == (s.tasks - {t})[u];
    }
  }

  lemma EffectKeeps(s: State, r: State, t: nat)
    requires SoundBut(s, t) && Effect(s, r, t)
    ensures SessionIsReady(r) && Fresh(r) && RtspTracks(r)
  {
    forall u | u in r.tasks && r.tasks[u].Starting?
      ensures r.tasks[u].id < r.next && r.session != Some(r.tasks[u].id)
    {
      if u != t {
        SameElsewhere(s, r, t, u);
      }
    }
    if r.session.None? && r.rtspReady && s.session.None? {
      var u :| u in s.tasks && u != t && s.tasks[u].StopWait?;
      SameElsewhere(s, r, t, u);
    }
  }

  lemma SoundAside(s: State, b: State, t: nat)
    requires Sound(s) && Alike(s, b) && (t in s.tasks ==> !s.tasks[t].StopWait?)
    ensures SoundBut(b, t)
  {
  }

  lemma SoundQuiet(s: State, b: State, t: nat)
    requires Sound(s) && b.tasks == s.tasks && b.next == s.next && !b.rtspReady
    requires (b.session == s.session && b.ready == s.ready) || (b.session.None? && !b.ready)
    ensures SoundBut(b, t)
  {
  }

  lemma PublishSound(s: State, t: nat)
    requires Sound(s) && OneHolder(s) && t in s.tasks && s.tasks[t].Starting?
    ensures Sound(Publish(s, t, s.tasks[t].id))
  {
    var id := s.tasks[t].id;
    var b := s.(session := Some(id), ready := true, rtspReady := s.rtsp);
    assert HoldsAt(s, t);
    forall u | u in s.tasks && u != t
      ensures !s.tasks[u].Starting?
    {
      assert !HoldsAt(s, u);
    }
    assert SoundBut(b, t);
    hide SoundBut, Effect, OneHolder;
    ParkEffect(b, b, t, StartNotify(id));
    EffectKeeps(b, Publish(s, t, id), t);
  }

  lemma StopTailSound(s: State, t: nat, caller: Caller, raised: bool, hasChannel: bool)
    requires Sound(s)
    ensures Sound(StopTail(s, t, caller, raised, hasChannel))
  {
    var m := MarkNotReady(s);
    var b := if m.lock then m else EnsureVip(m, hasChannel);
    SoundQuiet(s, m, t);
    hide SoundBut, Effect, Sound, Park;
    assert SoundBut(m, t) && Alike(m, b);
    ParkEffect(m, b, t, StopNotify(caller, raised));
    EffectKeeps(m, StopTail(s, t, caller, raised, hasChannel), t);
    assert Sound(StopTail(s, t, caller, raised, hasChannel)) by {
      SoundIs(StopTail(s, t, caller, raised, hasChannel));
    }
  }

  lemma SoundIs(s: State)
    ensures Sound(s) <==> SessionIsReady(s) && Fresh(s) && RtspTracks(s)
  {
  }

  /** A state Alike s up to an effect of t is sound again. */
  lemma EffectSound(s: State, r: State, t: nat)
    requires Sound(s) && (t in s.tasks ==> !s.tasks[t].StopWait?) && Effect(s, r, t)
    ensures Sound(r)
  {
    SoundAside(s, s, t);
    hide SoundBut, Effect;
    EffectKeeps(s, r, t);
  }

  lemma ReStopSound(s: State, t: nat, caller: Caller)
    requires Sound(s)
    ensures Sound(DropVip(MarkNotReady(s.(session := None, ready := false)), t, caller))
  {
    var b := MarkNotReady(s.(session := None, ready := false));
    SoundQuiet(s, b, t);
    hide SoundBut, Effect, DropVip;
    DropVipEffect(b, t, caller);
    EffectKeeps(b, DropVip(b, t, caller), t);
  }

  lemma ReconnectSound(s: State, t: nat, ok: bool, hasChannel: bool)
    requires Sound(s) && t in s.tasks && Reconnects(s.tasks[t])
    ensures Sound(Continue(s, t, ok, hasChannel))
  {
    var r, c := Continue(s, t, ok, hasChannel), s.tasks[t].caller;
    if s.tasks[t].ReStop? {
      hide Sound, DropVip;
      ReStopSound(s, t, c);
    } else {
      assert Effect(s, r, t) by {
        ReconnectEffect(s, t, ok, hasChannel);
      }
      hide Effect, Sound, Continue;
      EffectSound(s, r, t);
    }
  }

  lemma ReconnectEffect(s: State, t: nat, ok: bool, hasChannel: bool)
    requires t in s.tasks && Reconnects(s.tasks[t]) && !s.tasks[t].ReStop?
    ensures Effect(s, Continue(s, t, ok, hasChannel), t)
  {
    hide Effect, DropVip, DropClient, EndReconnect, Park;
    hide AfterStop, StopTail, BeginStart, StartConnected, Launch, Publish, MarkNotReady, ShutdownRtsp, ShutdownClient;
    var c := s.tasks[t].caller;
    match s.tasks[t]
    case ReVip(_) => ParkEffect(s, s.(vip := false), t, ReVipNotify(c));
    case ReVipNotify(_) => DropVipEffect(s, t, c);
    case ReDisconnect(_) => ParkEffect(s, s, t, ReConnect(c));
    case ReConnect(_) => ConnectedEffect(s, t, c);
    case ReOpen(_) =>
      EndReconnectEffect(s, s, t, c, true);
      ParkEffect(s, s.(vip := true), t, ReNotify(c));
    case ReNotify(_) => EndReconnectEffect(s, s, t, c, true);
  }

  lemma ConnectedEffect(s: State, t: nat, caller: Caller)
    ensures Effect(s, EndReconnect(s, t, caller, false), t)
    ensures Effect(s, EndReconnect(s.(client := Client(true)), t, caller, true), t)
    ensures Effect(s, Park(s.(client := Client(true)), t, ReOpen(caller)), t)
  {
    hide Effect, EndReconnect, Park;
    var b := s.(client := Client(true));
    EndReconnectEffect(s, s, t, caller, false);
    EndReconnectEffect(s, b, t, caller, true);
    ParkEffect(s, b, t, ReOpen(caller));
  }

  lemma ShutdownSound(s: State, t: nat, ok: bool, hasChannel: bool)
    requires Sound(s) && t in s.tasks && (s.tasks[t].ShutVip? || s.tasks[t].ShutRtsp? || s.tasks[t].ShutClient?)
    ensures Sound(Continue(s, t, ok, hasChannel))
  {
    var r := Continue(s, t, ok, hasChannel);
    match s.tasks[t]
    case ShutVip =>
      var b := s.(vip := false);
      SoundAside(s, b, t);
      hide SoundBut, Effect, ShutdownRtsp;
      ShutdownEffect(b, t);
      EffectKeeps(b, r, t);
    case ShutRtsp =>
      var b := s.(rtsp := false, rtspReady := false);
      SoundQuiet(s, b, t);
      hide SoundBut, Effect, ShutdownClient;
      ShutdownEffect(b, t);
      EffectKeeps(b, r, t);
    case ShutClient =>
      SoundAside(s, s, t);
      hide SoundBut, Effect;
      FinishEffect(s, s.(client := NoClient), t);
      EffectKeeps(s, r, t);
  }

  lemma StartSound(s: State, t: nat, ok: bool, hasChannel: bool)
    requires Sound(s) && OneHolder(s) && t in s.tasks
    requires s.tasks[t].PauseVip? || s.tasks[t].PauseNotify? || s.tasks[t].Starting? || s.tasks[t].StartNotify?
    ensures Sound(Continue(s, t, ok, hasChannel))
  {
    var r := Continue(s, t, ok, hasChannel);
    if s.tasks[t].Starting? && ok && s.tasks[t].hasClient {
      PublishSound(s, t);
    } else {
      hide Sound, OneHolder;
      FinishEffect(s, s, t);
      LaunchEffect(s, t);
      ParkEffect(s, s.(vip := false), t, PauseNotify);
      EffectSound(s, r, t);
    }
  }

  lemma ContinueSound(s: State, t: nat, ok: bool, hasChannel: bool)
    requires Sound(s) && OneHolder(s) && t in s.tasks
    ensures Sound(Continue(s, t, ok, hasChannel))
  {
    hide Sound, OneHolder;
    var a := s.tasks[t];
    if Reconnects(a) {
      ReconnectSound(s, t, ok, hasChannel);
    } else if a.ShutVip? || a.ShutRtsp? || a.ShutClient? {
      ShutdownSound(s, t, ok, hasChannel);
    } else if a.PauseVip? || a.PauseNotify? || a.Starting? || a.StartNotify? {
      StartSound(s, t, ok, hasChannel);
    } else if a.StopWait? {
      hide StopTail;
      StopTailSound(s, t, a.caller, !ok, hasChannel);
    } else if a.StopNotify? {
      hide AfterStop, Effect;
      AfterStopEffect(s, t, a.caller, a.raised);
      EffectSound(s, AfterStop(s, t, a.caller, a.raised), t);
    } else {
      hide BeginStart, Effect;
      BeginStartEffect(s, t, false);
      EffectSound(s, BeginStart(s, t, false), t);
    }
  }

  // ---- The lock ---------------------------------------------------------------------------

  lemma OneHolderKept(s: State, r: State, t: nat, holding: bool)
    requires OneHolder(s) && Moves(s, r, t, holding)
    requires holding ==> HoldsAt(s, t) || !s.lock
    requires !holding ==> !HoldsAt(s, t)
    ensures OneHolder(r)
  {
    forall u: nat | u != t
      ensures HoldsAt(r, u) <==> HoldsAt(s, u)
    {
      SameElsewhere(s, r, t, u);
    }
    if r.lock && !holding {
      var u: nat :| HoldsAt(s, u);
      assert HoldsAt(r, u);
    }
    if r.lock && holding {
      assert HoldsAt(r, t);
    }
  }

  lemma ContinueHolder(s: State, t: nat, ok: bool, hasChannel: bool)
    requires OneHolder(s) && t in s.tasks
    ensures OneHolder(Continue(s, t, ok, hasChannel))
  {
    var r := Continue(s, t, ok, hasChannel);
    if s.tasks[t].Restart? {
      hide OneHolder, BeginStart, Moves;
      BeginStartMoves(s, t, false);
      OneHolderKept(s, r, t, !s.lock);
    } else {
      assert HoldsAt(s, t) ==> s.lock;
      hide OneHolder, Continue, Moves;
      ContinueMoves(s, t, ok, hasChannel);
      OneHolderKept(s, r, t, Holds(s.tasks[t]));
    }
  }

  // ---- All interleavings --------------------------------------------------------------------

  lemma CallKeeps(s: State, r: State, t: nat, holding: bool)
    requires Inv(s) && t !in s.tasks && Effect(s, r, t) && Moves(s, r, t, holding) && (holding ==> !s.lock)
    ensures Inv(r)
  {
    hide Sound, OneHolder, Effect, Moves;
    EffectSound(s, r, t);
    OneHolderKept(s, r, t, holding);
  }

  lemma StepKeeps(s: State, e: Event)
    requires Inv(s)
    ensures Inv(Step(s, e))
  {
    hide Sound, OneHolder, Effect, Moves, BeginStart, BeginStop, BeginReconnect, Continue, Park;
    match e
    case CallStart(t, byUser) =>
      if t !in s.tasks {
        BeginStartEffect(s, t, byUser);
        BeginStartMoves(s, t, byUser);
        CallKeeps(s, BeginStart(s, t, byUser), t, !s.lock);
      }
    case CallStop(t) =>
      if t !in s.tasks {
        BeginStopEffect(s, s, t, Alone);
        BeginStopMoves(s, t, Alone);
        CallKeeps(s, BeginStop(s, t, Alone), t, false);
      }
    case CallShutdown(t) =>
      if t !in s.tasks {
        BeginStopEffect(s, s, t, InShutdown);
        BeginStopMoves(s, t, InShutdown);
        CallKeeps(s, BeginStop(s, t, InShutdown), t, false);
      }
    case HealthCheck(t) =>
      if t !in s.tasks {
        BeginReconnectEffect(s, s, t, Alone);
        BeginReconnectMoves(s, t, Alone);
        CallKeeps(s, BeginReconnect(s, t, Alone), t, false);
      }
    case CallEnd(t) =>
      if t !in s.tasks {
        ParkEffect(s, s, t, Restart);
        ParkMoves(s, t, Restart, false);
        CallKeeps(s, Park(s, t, Restart), t, false);
      }
    case UserStop => FlagsKeep(s, s.(stoppedByUser := true));
    case ConnectionLost => FlagsKeep(s, s.(client := Client(false)));
    case Resume(t, ok, hasChannel) =>
      if t in s.tasks {
        ContinueSound(s, t, ok, hasChannel);
        ContinueHolder(s, t, ok, hasChannel);
      }
  }

  lemma FlagsKeep(s: State, r: State)
    requires Inv(s) && Alike(s, r) && r.lock == s.lock
    ensures Inv(r)
  {
    assert forall u: nat :: HoldsAt(r, u) <==> HoldsAt(s, u);
  }

  /** In every interleaving the invariant holds at every await: the session is published
      exactly when the ready event is set, one task at most is inside the start, and the RTSP
      server's readiness follows the session except while, or after, a stop's tail intervenes. */
  lemma {:induction false} InvAlways(notifications: bool, vip: bool, events: seq<Event>)
    ensures Inv(Steps(Initial(notifications, vip), events))
    decreases |events|
  {
    if events != [] {
      var n := |events| - 1;
      InvAlways(notifications, vip, events[..n]);
      hide Inv, Step;
      StepKeeps(Steps(Initial(notifications, vip), events[..n]), events[n]);
    }
  }

  /** At most one `VideoCallSession.start` is in flight, and a start that comes meanwhile is
      answered at once: it never waits for the lock and changes nothing. */
  lemma OneStartInFlight(notifications: bool, vip: bool, events: seq<Event>, t: nat, u: nat, late: nat, byUser: bool)
    requires var s := Steps(Initial(notifications, vip), events); t in s.tasks && s.tasks[t].Starting?
    ensures var s := Steps(Initial(notifications, vip), events);
            && (u in s.tasks && s.tasks[u].Starting? ==> u == t)
            && Step(s, CallStart(late, byUser)) == s
  {
    var s := Steps(Initial(notifications, vip), events);
    InvAlways(notifications, vip, events);
    assert HoldsAt(s, t);
    hide Steps, Sound;
    assert u in s.tasks && s.tasks[u].Starting? ==> HoldsAt(s, u);
    if late !in s.tasks {
      assert s.tasks - {late} == s.tasks;
    }
  }

  // ---- What does not hold -------------------------------------------------------------------

  /** Task u is stopping a session while another one is published. */
  predicate TailPending(s: State, u: nat) {
    s.session.Some? && s.rtspReady && u in s.tasks && s.tasks[u].StopWait?
  }

  /** The tail of an older stop closes the RTSP server under a published session. */
  lemma LateTailUnmarks(s: State, u: nat, ok: bool, hasChannel: bool)
    requires Inv(s) && TailPending(s, u)
    ensures var r := Step(s, Resume(u, ok, hasChannel)); r.session == s.session && r.ready && !r.rtspReady
  {
  }

  lemma Then(s: State, events: seq<Event>, e: Event)
    ensures Steps(s, events + [e]) == Step(Steps(s, events), e)
  {
    assert (events + [e])[..|events|] == events;
  }

  lemma {:induction false} StepsTwo(s: State, a: seq<Event>, b: seq<Event>)
    ensures Steps(s, a + b) == Steps(Steps(s, a), b)
    decreases |b|
  {
    hide Step;
    if b == [] {
      assert a + b == a;
    } else {
      var n := |b| - 1;
      StepsTwo(s, a, b[..n]);
      assert (a + b)[..|a| + n] == a + b[..n] && (a + b)[|a| + n] == b[n];
    }
  }

  function Idle(session: Option<nat>, rtspReady: bool, tasks: map<nat, Await>, next: nat, lock: bool): State {
    State(session, session.Some?, lock, false, Client(true), false, false, true, rtspReady, tasks, next)
  }

  /** Such a state is reached: a stop is still tearing down when a new start publishes. */
  lemma LateTailReachable()
    ensures exists events, u: nat :: TailPending(Steps(Initial(false, false), events), u)
  {
    var i := Initial(false, false);
    var go := Resume(0, true, false);
    var go2 := Resume(2, true, false);
    var a := [CallStart(0, true)];
    assert a == [] + [CallStart(0, true)];
    Then(i, [], CallStart(0, true));
    assert Steps(i, a) == Idle(None, false, map[0 := Starting(0, true)], 1, true);
    Then(i, a, go);
    var b := a + [go];
    assert Steps(i, b) == Idle(Some(0), true, map[0 := StartNotify(0)], 1, true);
    Then(i, b, go);
    var c := b + [go];
    assert Steps(i, c) == Idle(Some(0), true, map[], 1, false);
    Then(i, c, CallStop(1));
    var d := c + [CallStop(1)];
    assert Steps(i, d) == Idle(None, true, map[1 := StopWait(Alone, 0)], 1, false);
    Then(i, d, CallStart(2, true));
    var e := d + [CallStart(2, true)];
    assert Steps(i, e) == Idle(None, true, map[1 := StopWait(Alone, 0), 2 := Starting(1, true)], 2, true);
    Then(i, e, go2);
    var f := e + [go2];
    assert Steps(i, f) == Idle(Some(1), true, map[1 := StopWait(Alone, 0), 2 := StartNotify(1)], 2, true);
    assert TailPending(Steps(i, f), 1);
  }
}
