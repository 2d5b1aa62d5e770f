/** How long the RTSP server stays ready under a published session: which suspended tasks can
    still close it, a stop's tail or a shutdown on its way to the server. */
module RtspReadiness {
  import opened Bytes
  import opened VideoLifecycle

  /** The task will mark the server not ready, or stop it. */
  predicate Disturbs(a: Await) {
    a.StopWait? || a.ShutVip? || a.ShutRtsp? || a == StopNotify(InShutdown, false)
  }

  predicate Undisturbed(s: State) {
    forall t | t in s.tasks :: !Disturbs(s.tasks[t])
  }

  predicate OpenUnder(s: State) {
    s.session.Some? && s.rtspReady
  }

  /** The run never changes the published session. */
  ghost predicate KeepsSession(s: State, events: seq<Event>) {
    forall k | 0 <= k <= |events| :: SessionAfter(s, events, k) == s.session
  }

  function SessionAfter(s: State, events: seq<Event>, k: nat): Option<nat>
    requires k <= |events|
  {
    Steps(s, events[..k]).session
  }

  // ---- Undisturbed servers stay ready ----------------------------------------------

  /** Task t's segment leaves the server alone and does not come to disturb it. */
  predicate Leaves(s: State, r: State, t: nat) {
    && r.tasks - {t} == s.tasks - {t}
    && r.rtspReady == s.rtspReady
    && (t in r.tasks ==> !Disturbs(r.tasks[t]))
  }

  lemma LeavesUndisturbed(s: State, r: State, t: nat)
    requires OpenUnder(s) && Undisturbed(s) && Leaves(s, r, t) && r.session == s.session
    ensures OpenUnder(r) && Undisturbed(r)
  {
    forall u | u in r.tasks
      ensures !Disturbs(r.tasks[u])
    {
      if u != t {
        SameElsewhere(s, r, t, u);
      }
    }
  }

  lemma ParkLeaves(s: State, b: State, t: nat, a: Await)
    requires b.tasks == s.tasks && b.rtspReady == s.rtspReady && !Disturbs(a)
    ensures Leaves(s, Park(b, t, a), t)
  {
  }

  lemma FinishLeaves(s: State, b: State, t: nat)
    requires b.tasks == s.tasks && b.rtspReady == s.rtspReady
    ensures Leaves(s, Finish(b, t), t) && Leaves(s, EndStart(b, t), t)
  {
  }

  lemma PauseLeaves(s: State, b: State, t: nat)
    requires b.tasks == s.tasks && b.rtspReady == s.rtspReady
    ensures Leaves(s, PauseListener(b, t), t) && Leaves(s, Launch(b, t), t)
  {
  }

  lemma AfterStopLeaves(s: State, t: nat, caller: Caller, raised: bool)
    requires !Disturbs(StopNotify(caller, raised))
    ensures Leaves(s, AfterStop(s, t, caller, raised), t)
  {
    hide Leaves, Finish, EndStart, PauseListener;
    FinishLeaves(s, s, t);
    PauseLeaves(s, s, t);
  }

  lemma BeginReconnectLeaves(s: State, b: State, t: nat, caller: Caller)
    requires b.tasks == s.tasks && b.rtspReady == s.rtspReady
    ensures Leaves(s, BeginReconnect(b, t, caller), t)
    ensures Leaves(s, DropVip(b, t, caller), t) && Leaves(s, DropClient(b, t, caller), t)
  {
    hide Leaves, Park;
    ParkLeaves(s, b, t, ReVip(caller));
    ParkLeaves(s, b.(client := NoClient), t, ReDisconnect(caller));
    ParkLeaves(s, b.(client := NoClient), t, ReConnect(caller));
    if b.session.Some? {
      ParkLeaves(s, b, t, ReStop(caller, b.session.value));
    }
  }

  /** A reconnect that returns into a start takes the session down; any other leaves the server. */
  lemma EndReconnectLeaves(s: State, b: State, t: nat, caller: Caller, ok: bool)
    requires b.tasks == s.tasks && b.rtspReady == s.rtspReady && b.session.Some?
    ensures Leaves(s, EndReconnect(b, t, caller, ok), t) || EndReconnect(b, t, caller, ok).session.None?
  {
    hide Leaves, Finish, EndStart;
    FinishLeaves(s, b, t);
  }

  lemma BeginStartLeaves(s: State, t: nat, byUser: bool)
    requires s.session.Some?
    ensures Leaves(s, BeginStart(s, t, byUser), t) || BeginStart(s, t, byUser).session.None?
  {
    hide Leaves, Finish, BeginReconnect;
    FinishLeaves(s, s, t);
    BeginReconnectLeaves(s, s.(lock := true), t, InStart);
  }

  lemma ContinueLeaves(s: State, t: nat, ok: bool, hasChannel: bool)
    requires Inv(s) && OpenUnder(s) && t in s.tasks && !Disturbs(s.tasks[t])
    ensures var r := Continue(s, t, ok, hasChannel);
            Leaves(s, r, t) || r.session != s.session
  {
    if Reconnects(s.tasks[t]) {
      ReconnectLeaves(s, t, ok, hasChannel);
    } else {
      hide Leaves, Finish, EndStart, Park, AfterStop, BeginStart, Launch;
      FinishLeaves(s, s, t);
      FinishLeaves(s, s.(client := NoClient), t);
      PauseLeaves(s, s, t);
      ParkLeaves(s, s.(vip := false), t, PauseNotify);
      match s.tasks[t]
      case Restart => BeginStartLeaves(s, t, false);
      case StopNotify(caller, raised) => AfterStopLeaves(s, t, caller, raised);
      case Starting(id, _) =>
        assert s.session != Some(id);
        ParkLeaves(s, s, t, StartNotify(id));
        assert Park(s, t, StartNotify(id)).session == s.session;
      case _ =>
    }
  }

  lemma ReconnectLeaves(s: State, t: nat, ok: bool, hasChannel: bool)
    requires OpenUnder(s) && t in s.tasks && Reconnects(s.tasks[t])
    ensures var r := Continue(s, t, ok, hasChannel);
            Leaves(s, r, t) || r.session != s.session
  {
    hide Leaves, Park, DropVip, DropClient, EndReconnect, BeginReconnect;
    var a := s.tasks[t];
    var c := a.caller;
    match a
    case ReStop(_, _) => DropsSession(MarkNotReady(s.(session := None, ready := false)), t, c);
    case ReVip(_) => ParkLeaves(s, s.(vip := false), t, ReVipNotify(c));
    case ReVipNotify(_) => BeginReconnectLeaves(s, s, t, c);
    case ReDisconnect(_) => ParkLeaves(s, s, t, ReConnect(c));
    case ReConnect(_) =>
      EndReconnectLeaves(s, s, t, c, false);
      EndReconnectLeaves(s, s.(client := Client(true)), t, c, true);
      ParkLeaves(s, s.(client := Client(true)), t, ReOpen(c));
    case ReOpen(_) =>
      EndReconnectLeaves(s, s, t, c, true);
      ParkLeaves(s, s.(vip := true), t, ReNotify(c));
    case ReNotify(_) => EndReconnectLeaves(s, s, t, c, true);
  }

  lemma DropsSession(s: State, t: nat, caller: Caller)
    ensures DropVip(s, t, caller).session == s.session
  {
  }

  lemma StepLeaves(s: State, e: Event)
    requires Inv(s) && OpenUnder(s) && Undisturbed(s) && Step(s, e).session == s.session
    ensures OpenUnder(Step(s, e)) && Undisturbed(Step(s, e))
  {
    hide Inv, Leaves, BeginStart, BeginReconnect, Continue;
    var r := Step(s, e);
    match e
    case CallStart(t, byUser) =>
      if t !in s.tasks {
        BeginStartLeaves(s, t, byUser);
        LeavesUndisturbed(s, r, t);
      }
    case CallStop(t) => assert t in s.tasks || r.session.None?;
    case CallShutdown(t) => assert t in s.tasks || r.session.None?;
    case HealthCheck(t) =>
      BeginReconnectLeaves(s, s, t, Alone);
      if r != s {
        LeavesUndisturbed(s, r, t);
      }
    case CallEnd(t) =>
      ParkLeaves(s, s, t, Restart);
      if r != s {
        LeavesUndisturbed(s, r, t);
      }
    case UserStop =>
    case ConnectionLost =>
    case Resume(t, ok, hasChannel) =>
      if t in s.tasks {
        ContinueLeaves(s, t, ok, hasChannel);
        LeavesUndisturbed(s, r, t);
      }
  }

  lemma {:induction false} StaysOpen(s: State, events: seq<Event>)
    requires Inv(s) && OpenUnder(s) && Undisturbed(s) && KeepsSession(s, events)
    ensures Inv(Steps(s, events)) && OpenUnder(Steps(s, events)) && Undisturbed(Steps(s, events))
    decreases |events|
  {
    if events != [] {
      var n := |events| - 1;
      var before := events[..n];
      forall k | 0 <= k <= n ensures SessionAfter(s, before, k) == s.session {
        assert before[..k] == events[..k];
        assert SessionAfter(s, events, k) == s.session;
      }
      StaysOpen(s, before);
      assert SessionAfter(s, events, n + 1) == s.session && events[..n + 1] == events;
      assert SessionAfter(s, events, n) == s.session;
      hide Inv, Step, Undisturbed, OpenUnder;
      StepKeeps(Steps(s, before), events[n]);
      StepLeaves(Steps(s, before), events[n]);
    }
  }

  // ---- Disturbed ones can close -------------------------------------------------------

  /** How many awaits the task is away from closing the server. */
  function Away(a: Await): nat {
    match a
    case StopNotify(_, _) => 2
    case ShutVip => 1
    case _ => 0
  }

  /** The task closes the server or gets closer, and the session stays. */
  lemma Closes(s: State, t: nat)
    requires s.rtsp && t in s.tasks && Disturbs(s.tasks[t])
    ensures var r := Step(s, Resume(t, true, false));
            && r.session == s.session && r.rtsp == (s.rtsp && !s.tasks[t].ShutRtsp?)
            && (!r.rtspReady || (t in r.tasks && Disturbs(r.tasks[t]) && Away(r.tasks[t]) < Away(s.tasks[t])))
  {
    if s.tasks[t].StopWait? {
      hide Park;
      TailCloses(s, t, s.tasks[t].caller);
    }
  }

  lemma TailCloses(s: State, t: nat, caller: Caller)
    ensures var r := StopTail(s, t, caller, false, false);
            r.session == s.session && r.rtsp == s.rtsp && !r.rtspReady
  {
  }

  /** The steps by which a disturbing task closes the server under the published session. */
  lemma {:induction false} CanClose(s: State, t: nat) returns (events: seq<Event>)
    requires s.rtsp && t in s.tasks && Disturbs(s.tasks[t])
    ensures KeepsSession(s, events) && !Steps(s, events).rtspReady
    decreases Away(s.tasks[t])
  {
    var e := Resume(t, true, false);
    var r := Step(s, e);
    Closes(s, t);
    Then(s, [], e);
    assert [] + [e] == [e] && Steps(s, []) == s;
    hide Step, Disturbs;
    if !r.rtspReady {
      events := [e];
      forall k | 0 <= k <= 1 ensures SessionAfter(s, events, k) == s.session {
        assert events[..0] == [] && events[..1] == events;
      }
    } else {
      var rest := CanClose(r, t);
      events := [e] + rest;
      StepsTwo(s, [e], rest);
      forall k | 0 <= k <= |events| ensures SessionAfter(s, events, k) == s.session {
        if k == 0 {
          assert events[..0] == [];
        } else {
          assert SessionAfter(r, rest, k - 1) == r.session;
          assert events[..k] == [e] + rest[..k - 1];
          StepsTwo(s, [e], rest[..k - 1]);
        }
      }
    }
  }

  /** Readiness survives every run that keeps the same session published if and only if no task
      is suspended in a stop, or in a shutdown that still has the server to stop. */
  lemma StaysReadyIff(s: State)
    requires Inv(s) && OpenUnder(s)
    ensures (forall events | KeepsSession(s, events) :: Steps(s, events).rtspReady) <==> Undisturbed(s)
  {
    if Undisturbed(s) {
      forall events | KeepsSession(s, events)
        ensures Steps(s, events).rtspReady
      {
        StaysOpen(s, events);
      }
    } else {
      var t :| t in s.tasks && Disturbs(s.tasks[t]);
      var events := CanClose(s, t);
      assert KeepsSession(s, events);
    }
  }
}
