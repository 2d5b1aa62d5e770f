/** The coordinator's fields and methods, one method for each stretch between two awaits, tied
    to the lifecycle's steps. */
module Coordinators {
  import opened Bytes
  import opened VideoLifecycle

  /** What a call of `async_start_video` has come to when it returns control. */
  datatype StartOutcome = Suspended | Answered(id: nat) | Raised

  class ComelitLocalCoordinator {
    /** `_video_session` (by number), `_video_ready_event`, `_video_start_lock`. */
    var session: Option<nat>
    var ready: bool
    var lock: bool
    var stoppedByUser: bool
    var client: Client
    const notifications: bool
    /** Whether `_vip_listener` and `_rtsp_server` are set, and the server's ready flag. */
    var vip: bool
    var rtsp: bool
    var rtspReady: bool
    /** The event loop's suspended tasks, and the sessions made so far. */
    var tasks: map<nat, Await>
    var next: nat

    ghost function Abs(): State
      reads this
    {
      State(session, ready, lock, stoppedByUser, client, notifications, vip, rtsp, rtspReady, tasks, next)
    }

    ghost predicate Valid()
      reads this
    {
      Inv(Abs())
    }

    /** After `async_setup`. */
    constructor (notifications: bool, vip: bool)
      ensures Valid() && Abs() == Initial(notifications, vip)
    {
      this.notifications, this.vip := notifications, vip;
      session, ready, lock, stoppedByUser := None, false, false, false;
      client, rtsp, rtspReady := Client(true), true, false;
      tasks, next := map[], 0;
      new;
      InvAlways(notifications, vip, []);
    }

    // ---- Pieces -----------------------------------------------------------------------

    method Await(t: nat, a: Await)
      modifies this`tasks
      ensures Abs() == Park(old(Abs()), t, a)
    {
      tasks := tasks[t := a];
    }

    method Return(t: nat)
      modifies this`tasks
      ensures Abs() == Finish(old(Abs()), t)
    {
      tasks := tasks - {t};
    }

    /** Leaving `async with self._video_start_lock`. */
    method ReturnFromStart(t: nat)
      modifies this`tasks, this`lock
      ensures Abs() == EndStart(old(Abs()), t)
    {
      tasks := tasks - {t};
      lock := false;
    }

    method EnsureVipListener(hasChannel: bool)
      modifies this`vip
      ensures Abs() == EnsureVip(old(Abs()), hasChannel)
    {
      if vip || client.NoClient? {
        return;
      }
      if !notifications {
        return;
      }
      if hasChannel {
        vip := true;
      }
    }

    method StopRtsp()
      modifies this`rtspReady
      ensures old(rtspReady ==> rtsp) ==> Abs() == MarkNotReady(old(Abs()))
    {
      if rtsp {
        rtspReady := false;
      }
    }

    // ---- Starting -------------------------------------------------------------------------

    /** A new session, not yet published, starts. */
    method LaunchSession(t: nat)
      modifies this`tasks, this`next
      ensures Abs() == Launch(old(Abs()), t)
    {
      var id := next;
      next := next + 1;
      Await(t, Starting(id, client.Client?));
    }

    /** Back from `async_stop_video`, in each of its callers. */
    method StopReturns(t: nat, caller: Caller, raised: bool)
      modifies this`tasks, this`next, this`lock
      ensures Abs() == AfterStop(old(Abs()), t, caller, raised)
    {
      match caller
      case Alone => Return(t);
      case InStart =>
        if raised {
          ReturnFromStart(t);
        } else if vip {
          Await(t, PauseVip);
        } else {
          LaunchSession(t);
        }
      case InShutdown =>
        if raised {
          Return(t);
        } else if vip {
          Await(t, ShutVip);
        } else {
          ShutRtspServer(t);
        }
    }

    method ShutRtspServer(t: nat)
      modifies this`tasks
      ensures Abs() == ShutdownRtsp(old(Abs()), t)
    {
      if rtsp {
        Await(t, ShutRtsp);
      } else {
        Disconnect(t);
      }
    }

    method Disconnect(t: nat)
      modifies this`tasks
      ensures Abs() == ShutdownClient(old(Abs()), t)
    {
      if client.Client? {
        Await(t, ShutClient);
      } else {
        Return(t);
      }
    }

    /** `async_stop_video`: the session is cleared before the first await. */
    method StopVideo(t: nat, caller: Caller)
      modifies this`tasks, this`next, this`lock, this`session, this`ready
      ensures Abs() == BeginStop(old(Abs()), t, caller)
    {
      if session.None? {
        StopReturns(t, caller, false);
        return;
      }
      var stopping := session.value;
      session := None;
      ready := false;
      Await(t, StopWait(caller, stopping));
    }

    /** `async_start_video` once the client is connected. */
    method ResetAndStop(t: nat)
      modifies this`tasks, this`next, this`lock, this`session, this`ready, this`stoppedByUser
      ensures Abs() == StartConnected(old(Abs()), t)
    {
      stoppedByUser := false;
      StopVideo(t, InStart);
    }

    /** `async_start_video` up to its first await. */
    method StartVideo(t: nat, byUser: bool) returns (r: StartOutcome)
      modifies this
      ensures Abs() == BeginStart(old(Abs()), t, byUser)
      ensures old(lock) ==> r == if old(session).Some? then Answered(old(session).value) else Raised
      ensures !old(lock) ==> (r.Raised? <==> old(client).NoClient? || (old(stoppedByUser) && !byUser))
      ensures !old(lock) && r.Raised? ==> !lock
    {
      if lock {
        Return(t);
        return if session.Some? then Answered(session.value) else Raised;
      }
      lock := true;
      if client.NoClient? || (stoppedByUser && !byUser) {
        ReturnFromStart(t);
        return Raised;
      }
      if !client.connected {
        Reconnect(t, InStart);
        return Suspended;
      }
      ResetAndStop(t);
      return Suspended;
    }

    // ---- Reconnecting -----------------------------------------------------------------------

    /** `_reconnect` up to its first await. */
    method Reconnect(t: nat, caller: Caller)
      modifies this`tasks, this`client
      ensures Abs() == BeginReconnect(old(Abs()), t, caller)
    {
      if session.Some? {
        Await(t, ReStop(caller, session.value));
      } else {
        ReconnectVip(t, caller);
      }
    }

    method ReconnectVip(t: nat, caller: Caller)
      modifies this`tasks, this`client
      ensures Abs() == DropVip(old(Abs()), t, caller)
    {
      if vip {
        Await(t, ReVip(caller));
      } else {
        ReconnectClient(t, caller);
      }
    }

    method ReconnectClient(t: nat, caller: Caller)
      modifies this`tasks, this`client
      ensures Abs() == DropClient(old(Abs()), t, caller)
    {
      var had := client.Client?;
      client := NoClient;
      if had {
        Await(t, ReDisconnect(caller));
      } else {
        Await(t, ReConnect(caller));
      }
    }

    method ReconnectReturns(t: nat, caller: Caller, ok: bool)
      modifies this`tasks, this`next, this`lock, this`session, this`ready, this`stoppedByUser
      ensures Abs() == EndReconnect(old(Abs()), t, caller, ok)
    {
      if caller != InStart {
        Return(t);
      } else if ok {
        ResetAndStop(t);
      } else {
        ReturnFromStart(t);
      }
    }

    // ---- Resuming ---------------------------------------------------------------------------

    /** The event loop resumes task t: its awaited operation has returned or raised. */
    method ResumeTask(t: nat, ok: bool, hasChannel: bool)
      requires Valid() && t in tasks
      modifies this
      ensures Abs() == Step(old(Abs()), Resume(t, ok, hasChannel)) && Valid()
    {
      StepKeeps(Abs(), Resume(t, ok, hasChannel));
      ReadyNeedsServer();
      hide Inv, Continue;
      if Reconnects(tasks[t]) {
        ResumeReconnect(t, ok, hasChannel);
      } else if tasks[t].ShutVip? || tasks[t].ShutRtsp? || tasks[t].ShutClient? {
        ResumeShutdown(t, ok, hasChannel);
      } else {
        ResumeVideo(t, ok, hasChannel);
      }
    }

    method ResumeVideo(t: nat, ok: bool, hasChannel: bool)
      requires t in tasks && !Reconnects(tasks[t]) && !tasks[t].ShutVip? && !tasks[t].ShutRtsp? && !tasks[t].ShutClient?
      requires rtspReady ==> rtsp
      modifies this
      ensures Abs() == Continue(old(Abs()), t, ok, hasChannel)
    {
      hide BeginStart, AfterStop, StopTail, Launch, Publish, Park, EndStart;
      match tasks[t]
      case Restart =>
        var r := StartVideo(t, false);
      case StopWait(caller, _) =>
        FinishStop(t, caller, !ok, hasChannel);
      case StopNotify(caller, raised) =>
        StopReturns(t, caller, raised);
      case PauseVip =>
        vip := false;
        Await(t, PauseNotify);
      case PauseNotify =>
        LaunchSession(t);
      case Starting(id, hasClient) =>
        if ok && hasClient {
          PublishSession(t, id);
        } else {
          ReturnFromStart(t);
        }
      case StartNotify(_) =>
        ReturnFromStart(t);
    }

    method ResumeShutdown(t: nat, ok: bool, hasChannel: bool)
      requires t in tasks && (tasks[t].ShutVip? || tasks[t].ShutRtsp? || tasks[t].ShutClient?)
      modifies this
      ensures Abs() == Continue(old(Abs()), t, ok, hasChannel)
    {
      hide ShutdownRtsp, ShutdownClient, Finish;
      match tasks[t]
      case ShutVip =>
        vip := false;
        ShutRtspServer(t);
      case ShutRtsp =>
        rtsp, rtspReady := false, false;
        Disconnect(t);
      case ShutClient =>
        client := NoClient;
        Return(t);
    }

    /** The `finally` part of `async_stop_video`. */
    method FinishStop(t: nat, caller: Caller, raised: bool, hasChannel: bool)
      requires rtspReady ==> rtsp
      modifies this`tasks, this`rtspReady, this`vip
      ensures Abs() == StopTail(old(Abs()), t, caller, raised, hasChannel)
    {
      StopRtsp();
      if !lock {
        EnsureVipListener(hasChannel);
      }
      Await(t, StopNotify(caller, raised));
    }

    /** The session has its first video: it is published, and PLAY requests are released. */
    method PublishSession(t: nat, id: nat)
      requires rtspReady ==> rtsp
      modifies this`tasks, this`session, this`ready, this`rtspReady
      ensures Abs() == Publish(old(Abs()), t, id)
    {
      session := Some(id);
      ready := true;
      if rtsp {
        rtspReady := true;
      }
      Await(t, StartNotify(id));
    }

    method ResumeReconnect(t: nat, ok: bool, hasChannel: bool)
      requires t in tasks && Reconnects(tasks[t]) && (rtspReady ==> rtsp)
      modifies this
      ensures Abs() == Continue(old(Abs()), t, ok, hasChannel)
    {
      if tasks[t].ReConnect? || tasks[t].ReOpen? || tasks[t].ReNotify? {
        ResumeConnecting(t, ok, hasChannel);
        return;
      }
      hide DropVip, DropClient, Park, MarkNotReady;
      var caller := tasks[t].caller;
      match tasks[t]
      case ReStop(_, _) =>
        DropSession(t, caller);
      case ReVip(_) =>
        vip := false;
        Await(t, ReVipNotify(caller));
      case ReVipNotify(_) =>
        ReconnectClient(t, caller);
      case ReDisconnect(_) =>
        Await(t, ReConnect(caller));
    }

    /** The new client's half of `_reconnect`. */
    method ResumeConnecting(t: nat, ok: bool, hasChannel: bool)
      requires t in tasks && (tasks[t].ReConnect? || tasks[t].ReOpen? || tasks[t].ReNotify?)
      modifies this
      ensures Abs() == Continue(old(Abs()), t, ok, hasChannel)
    {
      hide EndReconnect, Park;
      var caller := tasks[t].caller;
      match tasks[t]
      case ReConnect(_) =>
        if ok {
          Connected(t, caller);
        } else {
          ReconnectReturns(t, caller, false);
        }
      case ReOpen(_) =>
        if ok {
          vip := true;
          Await(t, ReNotify(caller));
        } else {
          ReconnectReturns(t, caller, true);
        }
      case ReNotify(_) =>
        ReconnectReturns(t, caller, true);
    }

    /** The old session has been stopped: whatever session is now published is dropped. */
    method DropSession(t: nat, caller: Caller)
      requires rtspReady ==> rtsp
      modifies this`tasks, this`client, this`session, this`ready, this`rtspReady
      ensures Abs() == DropVip(MarkNotReady(old(Abs()).(session := None, ready := false)), t, caller)
    {
      hide DropVip;
      session := None;
      ready := false;
      StopRtsp();
      ReconnectVip(t, caller);
    }

    method Connected(t: nat, caller: Caller)
      modifies this`tasks, this`next, this`lock, this`session, this`ready, this`stoppedByUser, this`client
      ensures var b := old(Abs()).(client := Client(true));
              Abs() == if notifications then Park(b, t, ReOpen(caller)) else EndReconnect(b, t, caller, true)
    {
      hide EndReconnect;
      client := Client(true);
      if notifications {
        Await(t, ReOpen(caller));
      } else {
        ReconnectReturns(t, caller, true);
      }
    }

    lemma ReadyNeedsServer()
      requires Valid()
      ensures rtspReady ==> rtsp
    {
    }

    // ---- Calls ---------------------------------------------------------------------------------

    method AsyncStartVideo(t: nat, byUser: bool) returns (r: StartOutcome)
      requires Valid() && t !in tasks
      modifies this
      ensures Abs() == Step(old(Abs()), CallStart(t, byUser)) && Valid()
      ensures old(lock) ==> r == if old(session).Some? then Answered(old(session).value) else Raised
    {
      StepKeeps(Abs(), CallStart(t, byUser));
      hide Inv, BeginStart;
      r := StartVideo(t, byUser);
    }

    method AsyncStopVideo(t: nat)
      requires Valid() && t !in tasks
      modifies this
      ensures Abs() == Step(old(Abs()), CallStop(t)) && Valid()
    {
      StepKeeps(Abs(), CallStop(t));
      hide Inv, BeginStop;
      StopVideo(t, Alone);
    }

    method AsyncShutdown(t: nat)
      requires Valid() && t !in tasks
      modifies this
      ensures Abs() == Step(old(Abs()), CallShutdown(t)) && Valid()
    {
      StepKeeps(Abs(), CallShutdown(t));
      hide Inv, BeginStop;
      StopVideo(t, InShutdown);
    }

    /** `_async_update_data` */
    method UpdateData(t: nat)
      requires Valid() && t !in tasks
      modifies this
      ensures Abs() == Step(old(Abs()), HealthCheck(t)) && Valid()
    {
      StepKeeps(Abs(), HealthCheck(t));
      hide Inv, BeginReconnect;
      if client.Client? && client.connected {
        return;
      }
      Reconnect(t, Alone);
    }

    method OnVideoCallEnd(t: nat)
      requires Valid() && t !in tasks
      modifies this`tasks
      ensures Abs() == Step(old(Abs()), CallEnd(t)) && Valid()
    {
      StepKeeps(Abs(), CallEnd(t));
      hide Inv;
      if stoppedByUser {
        return;
      }
      Await(t, Restart);
    }

    method RequestVideoStop()
      requires Valid()
      modifies this`stoppedByUser
      ensures Abs() == Step(old(Abs()), UserStop) && Valid()
    {
      StepKeeps(Abs(), UserStop);
      hide Inv;
      stoppedByUser := true;
    }
  }
}
