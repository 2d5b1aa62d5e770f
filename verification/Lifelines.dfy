/** What the coordinator brings about: which runs publish a session, bring the connection back,
    give the listener its channel again, and release everything. */
module Lifelines {
  import opened Bytes
  import opened VideoLifecycle
  import opened UserStops

  // ---- Sessions ---------------------------------------------------------------------------

  /** The run begins with the end of a call, has no start by a user, and publishes a session that is
      numbered from n. */
  predicate RestartsBy(s: State, t: nat, events: seq<Event>, n: nat) {
    events != [] && events[0] == CallEnd(t) && NoUserStart(events) && Came(Steps(s, events), n)
  }

  /** When a call ends with the lock free and a connection, video comes back - some run without a
      start by a user publishes a new session - if and only if the user has not stopped it. */
  lemma CallEndRestartsIff(s: State, t: nat)
    requires Inv(s) && !s.lock && s.client == Client(true) && t !in s.tasks
    ensures (exists events :: RestartsBy(s, t, events, s.next)) <==> !s.stoppedByUser
  {
    if !s.stoppedByUser {
      var scheduled := Step(s, CallEnd(t));
      var begun := Step(scheduled, Resume(t, true, false));
      ScheduledBegins(s, t);
      var rest := CanPublish(begun, t, s.next);
      var events := [CallEnd(t), Resume(t, true, false)] + rest;
      hide Step, BeginStart;
      TwoThen(s, CallEnd(t), Resume(t, true, false), rest);
      assert RestartsBy(s, t, events, s.next);
    } else {
      FreeLockNone(s);
      forall events | NoUserStart(events)
        ensures !Came(Steps(s, events), s.next)
      {
        StaysDown(s, events, s.next);
      }
    }
  }

  lemma TwoThen(s: State, a: Event, b: Event, rest: seq<Event>)
    ensures Steps(s, [a, b] + rest) == Steps(Step(Step(s, a), b), rest)
  {
    hide Step;
    assert [a, b] + rest == [a] + ([b] + rest);
    StepsFrom(s, a, [b] + rest);
    StepsFrom(Step(s, a), b, rest);
  }

  lemma FreeLockNone(s: State)
    requires Inv(s) && !s.lock
    ensures NoneInFlight(s) && Down(s.(stoppedByUser := true), s.next)
  {
    assert forall t: nat :: !HoldsAt(s, t);
  }

  lemma ScheduledBegins(s: State, t: nat)
    requires !s.lock && s.client == Client(true) && t !in s.tasks && !s.stoppedByUser
    ensures Comes(Step(Step(s, CallEnd(t)), Resume(t, true, false)), t, s.next)
  {
    var scheduled := Step(s, CallEnd(t));
    assert scheduled == s.(tasks := s.tasks[t := Restart]);
    hide Step;
    ConnectedStartComes(scheduled, t, false);
    assert Step(scheduled, Resume(t, true, false)) == BeginStart(scheduled, t, false) by {
      ResumeRestart(scheduled, t);
    }
  }

  lemma ResumeRestart(s: State, t: nat)
    requires t in s.tasks && s.tasks[t].Restart?
    ensures Step(s, Resume(t, true, false)) == BeginStart(s, t, false)
  {
    hide BeginStart;
  }

  lemma ConnectedStartComes(s: State, t: nat, byUser: bool)
    requires !s.lock && s.client == Client(true) && (byUser || !s.stoppedByUser)
    ensures Comes(BeginStart(s, t, byUser), t, s.next)
  {
  }

  /** A user's start publishes a new session in some run without another one, whatever the flag and
      the connection are, if the lock is free and there is a client; and otherwise does nothing. */
  lemma UserStartPublishes(s: State, t: nat) returns (events: seq<Event>)
    requires t !in s.tasks
    ensures !s.lock && s.client.Client? ==> NoUserStart(events) && Came(Steps(Step(s, CallStart(t, true)), events), s.next)
    ensures s.lock || s.client.NoClient? ==> Step(s, CallStart(t, true)) == s
  {
    events := [];
    if s.lock || s.client.NoClient? {
      assert s.tasks - {t} == s.tasks;
      return;
    }
    var begun := Step(s, CallStart(t, true));
    if s.client.connected {
      ConnectedStartComes(s, t, true);
      events := CanPublish(begun, t, s.next);
    } else if s.session.None? {
      LostStartComes(s, t);
      events := CanPublish(begun, t, s.next);
    } else {
      var next := Step(begun, Resume(t, true, false));
      LostSessionComes(s, t);
      var rest := CanPublish(next, t, s.next);
      hide Step;
      StepsFrom(begun, Resume(t, true, false), rest);
      events := [Resume(t, true, false)] + rest;
    }
  }

  lemma LostStartComes(s: State, t: nat)
    requires !s.lock && s.client == Client(false) && t !in s.tasks && s.session.None?
    ensures Comes(Step(s, CallStart(t, true)), t, s.next)
  {
  }

  lemma LostSessionComes(s: State, t: nat)
    requires !s.lock && s.client == Client(false) && t !in s.tasks && s.session.Some?
    ensures Comes(Step(Step(s, CallStart(t, true)), Resume(t, true, false)), t, s.next)
  {
    var parked := Step(s, CallStart(t, true));
    assert parked == Park(s.(lock := true), t, ReStop(InStart, s.session.value));
    var b := MarkNotReady(parked.(session := None, ready := false));
    DropVipInFlight(b, t);
    hide DropVip;
    assert Step(parked, Resume(t, true, false)) == DropVip(b, t, InStart);
    DropVipEffect(b, t, InStart);
    hide Step;
  }

  // ---- The connection ------------------------------------------------------------------------

  /** Task t reconnects on its own and nothing is left to drop behind it. */
  predicate Reconnecting(s: State, t: nat) {
    t in s.tasks && Reconnects(s.tasks[t]) && s.tasks[t].caller == Alone
    && (s.tasks[t].ReStop? || s.session.None?)
    && (s.tasks[t].ReStop? || s.tasks[t].ReVip? || s.tasks[t].ReNotify? || !s.vip)
    && (s.tasks[t].ReOpen? || s.tasks[t].ReNotify? ==> s.client == Client(true) && s.notifications)
    && (s.tasks[t].ReNotify? ==> s.vip)
  }

  /** The reconnect is over: a live connection, no session, and the listener running if it is
      wanted. */
  predicate BackAgain(s: State, t: nat) {
    s.client == Client(true) && s.session.None? && (s.vip <==> s.notifications) && t !in s.tasks
  }

  lemma ReconnectStep(s: State, t: nat)
    requires Reconnecting(s, t)
    ensures var r := Step(s, Resume(t, true, false));
            BackAgain(r, t) || (Reconnecting(r, t) && Ahead(r.tasks[t]) < Ahead(s.tasks[t]))
  {
    StepResumes(s, t);
    hide Step, Reconnecting, BackAgain;
    if s.tasks[t].ReStop? || s.tasks[t].ReVip? || s.tasks[t].ReVipNotify? {
      DroppingStep(s, t);
    } else {
      ConnectingStep(s, t);
    }
  }

  lemma DroppingStep(s: State, t: nat)
    requires Reconnecting(s, t) && (s.tasks[t].ReStop? || s.tasks[t].ReVip? || s.tasks[t].ReVipNotify?)
    ensures var r := Continue(s, t, true, false); Reconnecting(r, t) && Ahead(r.tasks[t]) < Ahead(s.tasks[t])
  {
    hide DropVip, DropClient;
    match s.tasks[t]
    case ReStop(_, _) => DropsVip(MarkNotReady(s.(session := None, ready := false)), t);
    case ReVip(_) =>
    case ReVipNotify(_) => DropsClient(s, t);
  }

  lemma DropsClient(s: State, t: nat)
    requires s.session.None? && !s.vip
    ensures var r := DropClient(s, t, Alone); Reconnecting(r, t) && Ahead(r.tasks[t]) < 9
  {
  }

  lemma DropsVip(s: State, t: nat)
    requires s.session.None?
    ensures var r := DropVip(s, t, Alone); Reconnecting(r, t) && Ahead(r.tasks[t]) < 11
  {
    hide DropClient;
    if !s.vip {
      DropsClient(s, t);
    }
  }

  lemma ConnectingStep(s: State, t: nat)
    requires Reconnecting(s, t) && (s.tasks[t].ReDisconnect? || s.tasks[t].ReConnect? || s.tasks[t].ReOpen? || s.tasks[t].ReNotify?)
    ensures var r := Continue(s, t, true, false);
            BackAgain(r, t) || (Reconnecting(r, t) && Ahead(r.tasks[t]) < Ahead(s.tasks[t]))
  {
    hide StartConnected, EndStart;
  }

  lemma {:induction false} ReconnectCompletes(s: State, t: nat) returns (events: seq<Event>)
    requires Reconnecting(s, t)
    ensures BackAgain(Steps(s, events), t)
    decreases Ahead(s.tasks[t])
  {
    var e := Resume(t, true, false);
    var r := Step(s, e);
    ReconnectStep(s, t);
    hide Step, Reconnecting, BackAgain;
    events := [e];
    StepsFrom(s, e, []);
    assert [e] + [] == [e];
    NoSteps(r);
    if !BackAgain(r, t) {
      var rest := ReconnectCompletes(r, t);
      StepsFrom(s, e, rest);
      events := [e] + rest;
    }
  }

  /** A health check with the connection lost brings it back in some run, taking any session down and
      giving the listener a new channel; with the connection up it does nothing. */
  lemma HealthCheckReconnects(s: State, t: nat) returns (events: seq<Event>)
    requires t !in s.tasks
    ensures s.client != Client(true) ==> BackAgain(Steps(Step(s, HealthCheck(t)), events), t)
    ensures s.client == Client(true) ==> Step(s, HealthCheck(t)) == s
  {
    events := [];
    if s.client != Client(true) {
      CheckBegins(s, t);
      events := ReconnectCompletes(Step(s, HealthCheck(t)), t);
    }
  }

  lemma CheckBegins(s: State, t: nat)
    requires t !in s.tasks && s.client != Client(true)
    ensures Reconnecting(Step(s, HealthCheck(t)), t)
  {
  }

  /** A lost connection is seen by the next health check, unless there is no client at all. */
  lemma LossIsSeen(s: State)
    ensures Step(s, ConnectionLost).client == if s.client.Client? then Client(false) else NoClient
    ensures Step(s, ConnectionLost).session == s.session
  {
  }

  // ---- Stopping ----------------------------------------------------------------------------------

  /** A stop that runs undisturbed takes the session down, closes the RTSP server, and gives the
      listener its channel back: exactly when no start holds the lock, listening is wanted and the
      channel is there. Nothing else changes. */
  lemma StopRestoresListener(s: State, t: nat, ok: bool, hasChannel: bool)
    requires t !in s.tasks && s.session.Some?
    ensures var r := Step(Step(Step(s, CallStop(t)), Resume(t, ok, hasChannel)), Resume(t, true, hasChannel));
            && r.session.None? && !r.ready && !r.rtspReady
            && (r.vip <==> s.vip || (!s.lock && s.client.Client? && s.notifications && hasChannel))
            && r.tasks == s.tasks && r.lock == s.lock && r.client == s.client && r.stoppedByUser == s.stoppedByUser && r.rtsp == s.rtsp
  {
    var a := Step(s, CallStop(t));
    assert a == Park(s.(session := None, ready := false), t, StopWait(Alone, s.session.value));
    var b := Step(a, Resume(t, ok, hasChannel));
    StopTails(s, t, ok, hasChannel);
    assert b.tasks - {t} == s.tasks;
    assert Step(b, Resume(t, true, hasChannel)) == Finish(b, t);
  }

  lemma StopTails(s: State, t: nat, ok: bool, hasChannel: bool)
    requires s.session.Some? && t !in s.tasks
    ensures var a := Park(s.(session := None, ready := false), t, StopWait(Alone, s.session.value));
            var b := Step(a, Resume(t, ok, hasChannel));
            && t in b.tasks && b.tasks == s.tasks[t := StopNotify(Alone, !ok)]
            && b.session.None? && !b.ready && !b.rtspReady
            && (b.vip <==> s.vip || (!s.lock && s.client.Client? && s.notifications && hasChannel))
            && b.lock == s.lock && b.client == s.client && b.stoppedByUser == s.stoppedByUser && b.rtsp == s.rtsp
  {
  }

  /** A stop with nothing to stop does nothing. */
  lemma StopOfNothing(s: State, t: nat)
    requires t !in s.tasks && s.session.None?
    ensures Step(s, CallStop(t)) == s
  {
    assert s.tasks - {t} == s.tasks;
  }

  /** Listening stops before a session starts: with the listener on, a start in a quiet state first
      takes it off, and only then launches. */
  lemma StartPausesListener(s: State, t: nat)
    requires !s.lock && s.client == Client(true) && t !in s.tasks && s.session.None? && s.vip
    ensures var go := Resume(t, true, false);
            var a := Step(s, CallStart(t, true));
            var b := Step(a, go);
            var c := Step(b, go);
            && a.vip && !b.vip && !c.vip
            && (forall u | u in b.tasks && u !in s.tasks :: !b.tasks[u].Starting?)
            && t in c.tasks && c.tasks[t] == Starting(s.next, true) && c.lock && !c.stoppedByUser
  {
  }

  // ---- Shutting down -------------------------------------------------------------------------------

  /** Task t shuts down: what it still has to release. */
  predicate ShuttingDown(s: State, t: nat) {
    t in s.tasks && s.session.None?
    && match s.tasks[t]
       case StopWait(c, _) => c == InShutdown
       case StopNotify(c, raised) => c == InShutdown && !raised
       case ShutVip => true
       case ShutRtsp => !s.vip
       case ShutClient => !s.vip && !s.rtsp
       case _ => false
  }

  function Left(a: Await): nat {
    match a
    case StopWait(_, _) => 5
    case StopNotify(_, _) => 4
    case ShutVip => 3
    case ShutRtsp => 2
    case _ => 1
  }

  predicate Released(s: State, t: nat) {
    s.session.None? && !s.vip && !s.rtsp && s.client.NoClient? && t !in s.tasks
  }

  lemma ShutdownStep(s: State, t: nat)
    requires ShuttingDown(s, t)
    ensures var r := Step(s, Resume(t, true, false));
            Released(r, t) || (ShuttingDown(r, t) && Left(r.tasks[t]) < Left(s.tasks[t]))
  {
    StepResumes(s, t);
    hide Step, Released, ShutdownVip, ShutdownRtsp, ShutdownClient, StopTail;
    match s.tasks[t]
    case StopWait(_, _) => TailShuts(s, t);
    case StopNotify(_, _) => ShutsVip(s, t);
    case ShutVip => ShutsRtsp(s.(vip := false), t);
    case ShutRtsp => ShutsClient(s.(rtsp := false, rtspReady := false), t);
    case ShutClient => ClientGone(s, t);
  }

  lemma TailShuts(s: State, t: nat)
    requires s.session.None?
    ensures var r := StopTail(s, t, InShutdown, false, false); ShuttingDown(r, t) && Left(r.tasks[t]) == 4
  {
  }

  lemma ShutsClient(s: State, t: nat)
    requires s.session.None? && !s.vip && !s.rtsp
    ensures var r := ShutdownClient(s, t); Released(r, t) || (ShuttingDown(r, t) && Left(r.tasks[t]) == 1)
  {
  }

  lemma ClientGone(s: State, t: nat)
    requires s.session.None? && !s.vip && !s.rtsp
    ensures Released(Finish(s.(client := NoClient), t), t)
  {
  }

  lemma ShutsRtsp(s: State, t: nat)
    requires s.session.None? && !s.vip
    ensures var r := ShutdownRtsp(s, t); Released(r, t) || (ShuttingDown(r, t) && Left(r.tasks[t]) <= 2)
  {
    hide ShutdownClient;
    if !s.rtsp {
      ShutsClient(s, t);
    }
  }

  lemma ShutsVip(s: State, t: nat)
    requires s.session.None?
    ensures var r := ShutdownVip(s, t); Released(r, t) || (ShuttingDown(r, t) && Left(r.tasks[t]) <= 3)
  {
    hide ShutdownRtsp;
    if !s.vip {
      ShutsRtsp(s, t);
    }
  }

  lemma {:induction false} ShutdownCompletes(s: State, t: nat) returns (events: seq<Event>)
    requires ShuttingDown(s, t)
    ensures Released(Steps(s, events), t)
    decreases Left(s.tasks[t])
  {
    var e := Resume(t, true, false);
    var r := Step(s, e);
    ShutdownStep(s, t);
    hide Step, ShuttingDown, Released;
    events := [e];
    StepsFrom(s, e, []);
    assert [e] + [] == [e];
    NoSteps(r);
    if !Released(r, t) {
      var rest := ShutdownCompletes(r, t);
      StepsFrom(s, e, rest);
      events := [e] + rest;
    }
  }

  /** A shutdown, run to its end, leaves no session, no listener, no RTSP server and no client. */
  lemma ShutdownReleases(s: State, t: nat) returns (events: seq<Event>)
    requires t !in s.tasks
    ensures Released(Steps(Step(s, CallShutdown(t)), events), t)
  {
    var r := Step(s, CallShutdown(t));
    events := [];
    NoSteps(r);
    if !Released(r, t) {
      ShutdownBegins(s, t);
      events := ShutdownCompletes(r, t);
    }
  }

  lemma ShutdownBegins(s: State, t: nat)
    requires t !in s.tasks
    ensures var r := Step(s, CallShutdown(t)); Released(r, t) || ShuttingDown(r, t)
  {
    hide ShutdownVip;
    if s.session.None? {
      ShutsVip(s, t);
    }
  }

  /** A user's stop is remembered, and touches nothing else. */
  lemma StopIsRemembered(s: State)
    ensures Step(s, UserStop).stoppedByUser && Step(s, UserStop).(stoppedByUser := s.stoppedByUser) == s
  {
  }
}
