/** When a user's stop of the video sticks: which interleavings can still publish a session
    although no user asks for one. */
module UserStops {
  import opened Bytes
  import opened VideoLifecycle

  /** The user has stopped video, and no session from number n on is published. */
  predicate Down(s: State, n: nat) {
    s.stoppedByUser && (s.session.Some? ==> s.session.value < n)
  }

  /** A start that can only end now: it has published already, its own stop raised, or it was
      launched while there was no client. */
  predicate Ending(a: Await) {
    a.StartNotify? || (a.StopNotify? && a.raised) || (a.Starting? && !a.hasClient)
  }

  /** No start is in flight that could still publish. */
  ghost predicate NoneInFlight(s: State) {
    forall t: nat | HoldsAt(s, t) :: Ending(s.tasks[t])
  }

  predicate NoUserStart(events: seq<Event>) {
    forall i | 0 <= i < |events| :: events[i].CallStart? ==> !events[i].byUser
  }

  lemma BeginKeepsDown(s: State, t: nat, caller: Caller, n: nat)
    requires Down(s, n) && caller != InStart
    ensures Down(BeginStop(s, t, caller), n) && Down(BeginReconnect(s, t, Alone), n) && Down(BeginStart(s, t, false), n)
    ensures Down(DropClient(s, t, caller), n) && Down(AfterStop(s, t, caller, false), n) && Down(AfterStop(s, t, caller, true), n)
    ensures Down(DropVip(s, t, caller), n)
  {
    DropKeepsDown(s, t, caller, n);
    DropKeepsDown(s, t, Alone, n);
    StopKeepsDown(s, t, caller, n);
    hide AfterStop, DropVip, DropClient, BeginStop;
  }

  lemma DropKeepsDown(s: State, t: nat, caller: Caller, n: nat)
    requires Down(s, n)
    ensures Down(DropClient(s, t, caller), n) && Down(DropVip(s, t, caller), n)
  {
  }

  lemma StopKeepsDown(s: State, t: nat, caller: Caller, n: nat)
    requires Down(s, n) && caller != InStart
    ensures Down(AfterStop(s, t, caller, false), n) && Down(AfterStop(s, t, caller, true), n)
    ensures Down(BeginStop(s, t, caller), n)
  {
  }

  lemma ContinueKeepsDown(s: State, t: nat, ok: bool, hasChannel: bool, n: nat)
    requires Down(s, n) && t in s.tasks && !Holds(s.tasks[t])
    ensures Down(Continue(s, t, ok, hasChannel), n)
  {
    hide BeginStart, AfterStop, DropVip, DropClient, StopTail, EndReconnect, Park, Finish, EnsureVip, Down, ShutdownRtsp, ShutdownClient;
    var r := Continue(s, t, ok, hasChannel);
    match s.tasks[t]
    case Restart => BeginKeepsDown(s, t, Alone, n);
    case StopWait(c, _) => TailKeepsDown(s, t, c, !ok, hasChannel, n);
    case StopNotify(c, raised) => BeginKeepsDown(s, t, c, n);
    case ReStop(c, _) => ReStopKeepsDown(s, t, c, r, n);
    case ReVipNotify(c) => BeginKeepsDown(s, t, c, n);
    case _ => RestKeepsDown(s, t, ok, hasChannel, n);
  }

  lemma TailKeepsDown(s: State, t: nat, caller: Caller, raised: bool, hasChannel: bool, n: nat)
    requires Down(s, n)
    ensures Down(StopTail(s, t, caller, raised, hasChannel), n)
  {
  }

  lemma ReStopKeepsDown(s: State, t: nat, caller: Caller, r: State, n: nat)
    requires Down(s, n) && caller != InStart
    requires r == DropVip(MarkNotReady(s.(session := None, ready := false)), t, caller)
    ensures Down(r, n)
  {
    var b := MarkNotReady(s.(session := None, ready := false));
    assert Down(b, n);
    hide DropVip, Down;
    BeginKeepsDown(b, t, caller, n);
  }

  /** The session and the user's flag stay. */
  predicate SameStop(s: State, r: State) {
    r.session == s.session && r.stoppedByUser == s.stoppedByUser
  }

  lemma ParkSameStop(s: State, t: nat, a: Await)
    ensures SameStop(s, Park(s, t, a)) && SameStop(s, Finish(s, t))
  {
  }

  lemma ShutSameStop(s: State, t: nat)
    ensures SameStop(s, ShutdownClient(s, t)) && SameStop(s, ShutdownRtsp(s, t)) && SameStop(s, Finish(s, t))
  {
    hide Park, Finish;
    ParkSameStop(s, t, ShutClient);
    ParkSameStop(s, t, ShutRtsp);
  }

  lemma RestKeepsDown(s: State, t: nat, ok: bool, hasChannel: bool, n: nat)
    requires Down(s, n) && t in s.tasks && !Holds(s.tasks[t])
    requires var a := s.tasks[t];
             !a.Restart? && !a.StopWait? && !a.StopNotify? && !a.ReStop? && !a.ReVipNotify?
    ensures Down(Continue(s, t, ok, hasChannel), n)
  {
    assert SameStop(s, Continue(s, t, ok, hasChannel)) by {
      if Reconnects(s.tasks[t]) {
        ReconnectSameStop(s, t, ok, hasChannel);
      } else {
        ShutdownSameStop(s, t, ok, hasChannel);
      }
    }
    hide Continue;
  }

  lemma ReconnectSameStop(s: State, t: nat, ok: bool, hasChannel: bool)
    requires t in s.tasks && !Holds(s.tasks[t])
    requires var a := s.tasks[t]; a.ReVip? || a.ReDisconnect? || a.ReConnect? || a.ReOpen? || a.ReNotify?
    ensures SameStop(s, Continue(s, t, ok, hasChannel))
  {
    hide StartConnected, EndStart, Park, Finish;
    var a := s.tasks[t];
    var c, b, v := a.caller, s.(client := Client(true)), s.(vip := a.ReOpen?);
    ParkSameStop(s, t, ReConnect(c));
    ParkSameStop(b, t, ReOpen(c));
    ParkSameStop(v, t, ReNotify(c));
    ParkSameStop(v, t, ReVipNotify(c));
  }

  lemma ShutdownSameStop(s: State, t: nat, ok: bool, hasChannel: bool)
    requires t in s.tasks && (s.tasks[t].ShutVip? || s.tasks[t].ShutRtsp? || s.tasks[t].ShutClient?)
    ensures SameStop(s, Continue(s, t, ok, hasChannel))
  {
    hide ShutdownClient, ShutdownRtsp, Park, Finish;
    ShutSameStop(s.(vip := false), t);
    ShutSameStop(s.(rtsp := false, rtspReady := false), t);
    ShutSameStop(s.(client := NoClient), t);
  }

  /** The task and the lock's other users after a step of a task outside the start. */
  lemma MovesKeepNone(s: State, r: State, t: nat)
    requires NoneInFlight(s) && Moves(s, r, t, false)
    ensures NoneInFlight(r)
  {
    forall u: nat | HoldsAt(r, u)
      ensures Ending(r.tasks[u])
    {
      if u != t {
        SameElsewhere(s, r, t, u);
        assert HoldsAt(s, u);
      }
    }
  }

  lemma EndKeepsNone(s: State, t: nat)
    requires NoneInFlight(s)
    ensures NoneInFlight(EndStart(s, t)) && NoneInFlight(Finish(s, t))
  {
    forall u: nat | HoldsAt(Finish(s, t), u)
      ensures Ending(Finish(s, t).tasks[u])
    {
      assert HoldsAt(s, u);
    }
    assert forall u: nat :: HoldsAt(EndStart(s, t), u) <==> HoldsAt(Finish(s, t), u);
  }

  lemma ContinueKeepsNone(s: State, t: nat, ok: bool, hasChannel: bool, n: nat)
    requires Inv(s) && Down(s, n) && NoneInFlight(s) && t in s.tasks
    ensures Down(Continue(s, t, ok, hasChannel), n) && NoneInFlight(Continue(s, t, ok, hasChannel))
  {
    var r := Continue(s, t, ok, hasChannel);
    if HoldsAt(s, t) {
      assert Ending(s.tasks[t]);
      assert r == EndStart(s, t);
      EndKeepsNone(s, t);
    } else {
      hide Continue, Inv, Moves, NoneInFlight, BeginStart;
      ContinueKeepsDown(s, t, ok, hasChannel, n);
      if s.tasks[t].Restart? {
        RestartMoves(s, t, ok, hasChannel, n);
      } else {
        ContinueMoves(s, t, ok, hasChannel);
      }
      MovesKeepNone(s, r, t);
    }
  }

  /** An auto-restart after the stop ends at once. */
  lemma RestartMoves(s: State, t: nat, ok: bool, hasChannel: bool, n: nat)
    requires Down(s, n) && t in s.tasks && s.tasks[t].Restart?
    ensures Moves(s, Continue(s, t, ok, hasChannel), t, false)
  {
    hide Moves;
    FinishMoves(s, t);
  }

  lemma StepKeepsDown(s: State, e: Event, n: nat)
    requires Inv(s) && Down(s, n) && NoneInFlight(s) && !(e.CallStart? && e.byUser)
    ensures Down(Step(s, e), n) && NoneInFlight(Step(s, e))
  {
    hide Inv, Moves, NoneInFlight, BeginStop, BeginReconnect, Continue, Park;
    match e
    case CallStart(t, byUser) =>
      FinishMoves(s, t);
      if t !in s.tasks {
        MovesKeepNone(s, Finish(s, t), t);
      }
    case CallStop(t) =>
      BeginKeepsDown(s, t, Alone, n);
      BeginStopMoves(s, t, Alone);
      if t !in s.tasks {
        MovesKeepNone(s, BeginStop(s, t, Alone), t);
      }
    case CallShutdown(t) =>
      BeginKeepsDown(s, t, InShutdown, n);
      BeginStopMoves(s, t, InShutdown);
      if t !in s.tasks {
        MovesKeepNone(s, BeginStop(s, t, InShutdown), t);
      }
    case HealthCheck(t) =>
      BeginKeepsDown(s, t, Alone, n);
      BeginReconnectMoves(s, t, Alone);
      if t !in s.tasks && !(s.client.Client? && s.client.connected) {
        MovesKeepNone(s, BeginReconnect(s, t, Alone), t);
      }
    case CallEnd(_) =>
    case UserStop => FlagsKeepNone(s, Step(s, e));
    case ConnectionLost => FlagsKeepNone(s, Step(s, e));
    case Resume(t, ok, hasChannel) =>
      if t in s.tasks {
        ContinueKeepsNone(s, t, ok, hasChannel, n);
      }
  }

  lemma FlagsKeepNone(s: State, r: State)
    requires NoneInFlight(s) && r.tasks == s.tasks
    ensures NoneInFlight(r)
  {
    assert forall u: nat :: HoldsAt(r, u) <==> HoldsAt(s, u);
  }

  lemma {:induction false} StaysDown(s: State, events: seq<Event>, n: nat)
    requires Inv(s) && Down(s, n) && NoneInFlight(s) && NoUserStart(events)
    ensures Inv(Steps(s, events)) && Down(Steps(s, events), n) && NoneInFlight(Steps(s, events))
    decreases |events|
  {
    if events != [] {
      var k := |events| - 1;
      StaysDown(s, events[..k], n);
      hide Inv, Down, Step, NoneInFlight;
      StepKeeps(Steps(s, events[..k]), events[k]);
      StepKeepsDown(Steps(s, events[..k]), events[k], n);
    }
  }

  // ---- A start in flight can still publish ------------------------------------------------

  /** How many awaits a start has before it publishes. */
  function Ahead(a: Await): nat {
    match a
    case ReStop(_, _) => 11
    case ReVip(_) => 10
    case ReVipNotify(_) => 9
    case ReDisconnect(_) => 8
    case ReConnect(_) => 7
    case ReOpen(_) => 6
    case ReNotify(_) => 5
    case StopWait(_, _) => 4
    case StopNotify(_, _) => 3
    case PauseVip => 2
    case PauseNotify => 1
    case _ => 0
  }

  /** Task t is inside a start that can still publish, with less than n awaits ahead. */
  predicate InFlight(s: State, t: nat, n: nat) {
    HoldsAt(s, t) && !Ending(s.tasks[t]) && Ahead(s.tasks[t]) < n
  }

  lemma PauseInFlight(s: State, t: nat)
    requires s.client.Client?
    ensures InFlight(PauseListener(s, t), t, 3)
  {
  }

  lemma BeginStopInFlight(s: State, t: nat)
    requires s.client.Client?
    ensures InFlight(StartConnected(s, t), t, 5) && InFlight(EndReconnect(s, t, InStart, true), t, 5)
  {
    hide PauseListener, InFlight;
    var b := s.(stoppedByUser := false);
    PauseInFlight(b, t);
    if b.session.None? {
      assert StartConnected(s, t) == PauseListener(b, t);
      Sooner(PauseListener(b, t), t, 3, 5);
    } else {
      ParkInFlight(b.(session := None, ready := false), t, StopWait(InStart, b.session.value));
      Sooner(StartConnected(s, t), t, 5, 5);
    }
  }

  lemma Sooner(s: State, t: nat, m: nat, n: nat)
    requires InFlight(s, t, m) && m <= n
    ensures InFlight(s, t, n)
  {
  }

  lemma ParkInFlight(s: State, t: nat, a: Await)
    requires Holds(a) && !Ending(a)
    ensures InFlight(Park(s, t, a), t, Ahead(a) + 1)
  {
  }

  lemma DropClientInFlight(s: State, t: nat)
    ensures InFlight(DropClient(s, t, InStart), t, 9)
  {
  }

  lemma DropVipInFlight(s: State, t: nat)
    ensures InFlight(DropVip(s, t, InStart), t, 11)
  {
    hide DropClient, InFlight;
    DropClientInFlight(s, t);
    Sooner(DropClient(s, t, InStart), t, 9, 11);
    ParkInFlight(s, t, ReVip(InStart));
  }

  /** When what it awaits succeeds and there is a client, the start gets closer or publishes. */
  lemma Progress(s: State, t: nat)
    requires s.client.Client? && HoldsAt(s, t) && !Ending(s.tasks[t])
    ensures var r := Continue(s, t, true, false);
            r.session.Some? || InFlight(r, t, Ahead(s.tasks[t]))
  {
    if Reconnects(s.tasks[t]) {
      ReconnectProgress(s, t);
    } else {
      hide InFlight, Park, PauseListener;
      match s.tasks[t]
      case StopWait(c, _) => TailProgress(s, t, c);
      case StopNotify(c, _) => PauseInFlight(s, t);
      case PauseVip => ParkInFlight(s.(vip := false), t, PauseNotify);
      case PauseNotify => LaunchInFlight(s, t);
      case Starting(_, _) =>
    }
  }

  lemma LaunchInFlight(s: State, t: nat)
    requires s.client.Client?
    ensures InFlight(Launch(s, t), t, 1)
  {
  }

  lemma TailProgress(s: State, t: nat, caller: Caller)
    requires caller == InStart
    ensures InFlight(StopTail(s, t, caller, false, false), t, 4)
  {
  }

  lemma ReconnectProgress(s: State, t: nat)
    requires s.client.Client? && HoldsAt(s, t) && Reconnects(s.tasks[t])
    ensures InFlight(Continue(s, t, true, false), t, Ahead(s.tasks[t]))
  {
    hide InFlight, Park, DropVip, DropClient, EndReconnect;
    match s.tasks[t]
    case ReStop(_, _) => DropVipInFlight(MarkNotReady(s.(session := None, ready := false)), t);
    case ReVip(_) => ParkInFlight(s.(vip := false), t, ReVipNotify(InStart));
    case ReVipNotify(_) => DropClientInFlight(s, t);
    case ReDisconnect(_) => ParkInFlight(s, t, ReConnect(InStart));
    case ReConnect(_) => ConnectProgress(s, t);
    case ReOpen(_) => ParkInFlight(s.(vip := true), t, ReNotify(InStart));
    case ReNotify(_) => BeginStopInFlight(s, t);
  }

  lemma ConnectProgress(s: State, t: nat)
    requires HoldsAt(s, t) && s.tasks[t] == ReConnect(InStart)
    ensures InFlight(Continue(s, t, true, false), t, 7)
  {
    hide InFlight, Park, EndReconnect;
    var b := s.(client := Client(true));
    ParkInFlight(b, t, ReOpen(InStart));
    BeginStopInFlight(b, t);
    if !s.notifications {
      Sooner(EndReconnect(b, t, InStart, true), t, 5, 7);
    }
  }

  lemma StepsFrom(s: State, e: Event, events: seq<Event>)
    ensures Steps(s, [e] + events) == Steps(Step(s, e), events)
  {
    StepsTwo(s, [e], events);
    Then(s, [], e);
    assert [] + [e] == [e] && Steps(s, []) == s;
  }

  /** A task number not in use. */
  lemma {:induction false} FreshNumber(used: set<nat>) returns (n: nat)
    ensures forall k | k in used :: k < n
    decreases used
  {
    if used == {} {
      n := 0;
    } else {
      var k :| k in used;
      var m := FreshNumber(used - {k});
      n := if k < m then m else k + 1;
      assert forall u | u in used :: u == k || u in used - {k};
    }
  }

  /** Nothing the start depends on changes but the client, which is there again. */
  predicate Reconnected(s: State, r: State) {
    && r.client == Client(true) && r.session == s.session && r.next == s.next
    && (forall u | u in s.tasks :: u in r.tasks && r.tasks[u] == s.tasks[u])
  }

  /** Without a session, a health check brings a missing client back. */
  lemma BringBackClient(s: State) returns (events: seq<Event>)
    requires s.client.NoClient? && s.session.None?
    ensures NoUserStart(events) && Reconnected(s, Steps(s, events))
  {
    var t := FreshNumber(s.tasks.Keys);
    var go := Resume(t, true, false);
    var first := Step(s, HealthCheck(t));
    StepsFrom(s, HealthCheck(t), []);
    assert [HealthCheck(t)] + [] == [HealthCheck(t)] && Steps(first, []) == first;
    var idle := DropClient(s.(vip := false), t, Alone);
    if s.vip {
      assert first == Park(s, t, ReVip(Alone));
      DropIdleVip(s, t);
      events := [HealthCheck(t)] + [go, go];
      StepsTwo(s, [HealthCheck(t)], [go, go]);
    } else {
      assert s.(vip := false) == s;
      assert first == idle;
      events := [HealthCheck(t)];
    }
    assert Steps(s, events) == idle;
    StepsTwo(s, events, [go]);
    StepsFrom(idle, go, []);
    assert [go] + [] == [go];
    ConnectIdle(s.(vip := false), t);
    events := events + [go];
  }

  lemma DropIdleVip(s: State, t: nat)
    requires s.vip
    ensures var go := Resume(t, true, false);
            Steps(Park(s, t, ReVip(Alone)), [go, go]) == DropClient(s.(vip := false), t, Alone)
  {
    var go := Resume(t, true, false);
    var a := Park(s, t, ReVip(Alone));
    StepsFrom(a, go, [go]);
    StepsFrom(Step(a, go), go, []);
    assert [go] + [] == [go] && [go] + [go] == [go, go];
    var b := Park(s.(vip := false), t, ReVipNotify(Alone));
    ParkAgain(s.(vip := false), t, ReVip(Alone), ReVipNotify(Alone));
    assert Step(a, go) == b;
    ParkAgain(s.(vip := false, client := NoClient), t, ReVipNotify(Alone), ReDisconnect(Alone));
    ParkAgain(s.(vip := false, client := NoClient), t, ReVipNotify(Alone), ReConnect(Alone));
    assert Step(b, go) == DropClient(s.(vip := false), t, Alone);
    assert Steps(Step(b, go), []) == Step(b, go);
  }

  lemma ParkAgain(s: State, t: nat, a: Await, b: Await)
    ensures Park(Park(s, t, a), t, b) == Park(s, t, b)
  {
  }

  lemma ConnectIdle(s: State, t: nat)
    requires s.client.NoClient? && t !in s.tasks
    ensures var idle := DropClient(s, t, Alone);
            Steps(Step(idle, Resume(t, true, false)), []) == Step(idle, Resume(t, true, false))
            && Reconnected(s, Step(idle, Resume(t, true, false)))
  {
  }

  /** A step of the start publishes only the session it launched, and launches only new ones. */
  predicate NewOnly(s: State, r: State, t: nat)
    requires t in s.tasks
  {
    && (r.session == s.session || r.session.None? || (s.tasks[t].Starting? && r.session == Some(s.tasks[t].id)))
    && s.next <= r.next && (t in r.tasks && r.tasks[t].Starting? ==> s.next <= r.tasks[t].id)
  }

  lemma EffectIsNew(s: State, r: State, t: nat)
    requires t in s.tasks && Effect(s, r, t)
    ensures NewOnly(s, r, t)
  {
  }

  lemma ContinueIsNew(s: State, t: nat)
    requires HoldsAt(s, t)
    ensures NewOnly(s, Continue(s, t, true, false), t)
  {
    if s.tasks[t].ReStop? {
      hide DropVip;
      ReStopIsNew(s, t, s.tasks[t].caller);
    } else if Reconnects(s.tasks[t]) {
      hide Effect, Continue;
      ReconnectEffect(s, t, true, false);
      EffectIsNew(s, Continue(s, t, true, false), t);
    } else if s.tasks[t].StopNotify? {
      hide Effect, AfterStop;
      AfterStopEffect(s, t, s.tasks[t].caller, s.tasks[t].raised);
      EffectIsNew(s, Continue(s, t, true, false), t);
    } else if s.tasks[t].StopWait? {
      hide StopTail;
      TailIsNew(s, t, s.tasks[t].caller);
    } else {
      StartIsNew(s, t);
    }
  }

  lemma TailIsNew(s: State, t: nat, caller: Caller)
    requires t in s.tasks
    ensures NewOnly(s, StopTail(s, t, caller, false, false), t)
  {
  }

  lemma StartIsNew(s: State, t: nat)
    requires t in s.tasks
    requires s.tasks[t].PauseVip? || s.tasks[t].PauseNotify? || s.tasks[t].Starting? || s.tasks[t].StartNotify?
    ensures NewOnly(s, Continue(s, t, true, false), t)
  {
    hide Effect, Park, EndStart, Launch;
    ParkEffect(s, s.(vip := false), t, PauseNotify);
    LaunchEffect(s, t);
    FinishEffect(s, s, t);
    if s.tasks[t].Starting? {
      PublishIsNew(s, t);
    } else {
      EffectIsNew(s, Continue(s, t, true, false), t);
    }
  }

  lemma PublishIsNew(s: State, t: nat)
    requires t in s.tasks && s.tasks[t].Starting?
    ensures NewOnly(s, Continue(s, t, true, false), t)
  {
  }

  lemma ReStopIsNew(s: State, t: nat, caller: Caller)
    requires t in s.tasks
    ensures NewOnly(s, DropVip(MarkNotReady(s.(session := None, ready := false)), t, caller), t)
  {
    var b := MarkNotReady(s.(session := None, ready := false));
    DropVipEffect(b, t, caller);
    hide DropVip;
  }

  /** The start is in flight, no session is published, and what it launches is numbered from n. */
  predicate Comes(s: State, t: nat, n: nat) {
    HoldsAt(s, t) && !Ending(s.tasks[t]) && s.session.None? && n <= s.next && (s.tasks[t].Starting? ==> n <= s.tasks[t].id)
  }

  predicate Came(s: State, n: nat) {
    s.session.Some? && n <= s.session.value
  }

  /** One await of the start, with the client brought back first if it is missing. */
  lemma ComesCloser(s: State, t: nat, n: nat) returns (events: seq<Event>)
    requires Comes(s, t, n)
    ensures NoUserStart(events)
    ensures var r := Steps(s, events); Came(r, n) || (Comes(r, t, n) && Ahead(r.tasks[t]) < Ahead(s.tasks[t]))
  {
    hide Step, Steps, Continue, NewOnly;
    events := [];
    NoSteps(s);
    if s.client.NoClient? {
      events := BringBackClient(s);
      assert Reconnected(s, Steps(s, events));
    }
    var b := Steps(s, events);
    assert t in b.tasks && b.tasks[t] == s.tasks[t] && b.session.None? && b.next == s.next && b.client.Client?;
    StepResumes(b, t);
    Then(s, events, Resume(t, true, false));
    events := events + [Resume(t, true, false)];
    Progress(b, t);
    ContinueIsNew(b, t);
    NewComes(b, Continue(b, t, true, false), t, n);
  }

  lemma NoSteps(s: State)
    ensures Steps(s, []) == s
  {
  }

  lemma StepResumes(s: State, t: nat)
    requires t in s.tasks
    ensures Step(s, Resume(t, true, false)) == Continue(s, t, true, false)
  {
  }

  lemma NewComes(b: State, r: State, t: nat, n: nat)
    requires Comes(b, t, n) && NewOnly(b, r, t) && (r.session.Some? || InFlight(r, t, Ahead(b.tasks[t])))
    ensures Came(r, n) || (Comes(r, t, n) && Ahead(r.tasks[t]) < Ahead(b.tasks[t]))
  {
  }

  /** The start that does publish, reconnecting first when there is no client. */
  lemma {:induction false} CanPublish(s: State, t: nat, n: nat) returns (events: seq<Event>)
    requires Comes(s, t, n)
    ensures NoUserStart(events) && Came(Steps(s, events), n)
    decreases Ahead(s.tasks[t])
  {
    hide Steps, Came;
    events := ComesCloser(s, t, n);
    var r := Steps(s, events);
    if !Came(r, n) {
      var rest := CanPublish(r, t, n);
      StepsTwo(s, events, rest);
      events := events + rest;
    }
  }

  /** A stop by the user sticks - no auto-restart, reconnect, health check or pending start ever
      publishes a session before a user starts one - if and only if no start is in flight that
      could still publish. */
  lemma StopSticksIff(s: State)
    requires Inv(s) && s.stoppedByUser && s.session.None?
    ensures (forall events | NoUserStart(events) :: Steps(s, events).session.None?) <==> NoneInFlight(s)
  {
    if NoneInFlight(s) {
      forall events | NoUserStart(events)
        ensures Steps(s, events).session.None?
      {
        StaysDown(s, events, 0);
      }
    } else {
      var t: nat :| HoldsAt(s, t) && !Ending(s.tasks[t]);
      var events := CanPublish(s, t, 0);
      assert NoUserStart(events);
    }
  }

  /** A start that is still reconnecting forgets a stop that comes meanwhile: the flag is cleared
      in whichever of its three ways the reconnect returns. */
  lemma ReconnectForgetsStop(s: State, t: nat, ok: bool, hasChannel: bool)
    requires t in s.tasks
    requires || s.tasks[t] == ReNotify(InStart)
             || (s.tasks[t] == ReOpen(InStart) && !ok)
             || (s.tasks[t] == ReConnect(InStart) && ok && !s.notifications)
    ensures !Step(Step(s, UserStop), Resume(t, ok, hasChannel)).stoppedByUser
  {
    hide PauseListener;
    var w := Step(s, UserStop).(stoppedByUser := false);
    assert AfterStop(w, t, InStart, false) == PauseListener(w, t);
    KeepsFlag(w, t);
    KeepsFlag(w.(client := Client(true)), t);
  }

  lemma KeepsFlag(s: State, t: nat)
    ensures PauseListener(s, t).stoppedByUser == s.stoppedByUser
  {
  }
}
