/** Deduplication of VIP events by type and time. */
module EventDedup {

  const DEDUP_WINDOW: real := 10.0

  datatype EventType = Ring | DoorOpened | MissedCall

  /** A call of `_fire_event`: what, when, and the message's addresses. */
  datatype Attempt = Attempt(kind: EventType, at: real, addresses: seq<string>)

  /** `_last_fired`, and the events handed to the callback. */
  datatype Dedup = Dedup(last: map<EventType, real>, fired: seq<Attempt>)

  function LastOf(last: map<EventType, real>, kind: EventType): real {
    if kind in last then last[kind] else 0.0
  }

  function Fire(s: Dedup, a: Attempt): Dedup {
    if a.at - LastOf(s.last, a.kind) < DEDUP_WINDOW then s else Dedup(s.last[a.kind := a.at], s.fired + [a])
  }

  function FireAll(attempts: seq<Attempt>): Dedup {
    if attempts == [] then Dedup(map[], [])
    else
      var n := |attempts| - 1;
      Fire(FireAll(attempts[..n]), attempts[n])
  }

  function OfKind(attempts: seq<Attempt>, kind: EventType): seq<Attempt> {
    if attempts == [] then []
    else
      var n := |attempts| - 1;
      OfKind(attempts[..n], kind) + (if attempts[n].kind == kind then [attempts[n]] else [])
  }

  /** The reference: one type alone, each event compared with the last one kept. */
  function Thin(attempts: seq<Attempt>): seq<Attempt> {
    if attempts == [] then []
    else
      var n := |attempts| - 1;
      var kept := Thin(attempts[..n]);
      if attempts[n].at - LastTime(kept) < 10.0 then kept else kept + [attempts[n]]
  }

  function LastTime(kept: seq<Attempt>): real {
    if kept == [] then 0.0 else kept[|kept| - 1].at
  }

  lemma OfKindLast(attempts: seq<Attempt>, a: Attempt, kind: EventType)
    ensures OfKind(attempts + [a], kind) == OfKind(attempts, kind) + (if a.kind == kind then [a] else [])
  {
    assert (attempts + [a])[..|attempts|] == attempts;
  }

  /** `_last_fired` is, for each type, the time of its last fired event. */
  lemma {:induction false} LastIsLastFired(attempts: seq<Attempt>, kind: EventType)
    ensures LastOf(FireAll(attempts).last, kind) == LastTime(OfKind(FireAll(attempts).fired, kind))
  {
    if attempts != [] {
      var n := |attempts| - 1;
      LastIsLastFired(attempts[..n], kind);
      OfKindLast(FireAll(attempts[..n]).fired, attempts[n], kind);
    }
  }

  /** Types never suppress each other: what is fired of a type is what that type's attempts
      alone would fire, whatever else comes between and whatever the clock does. */
  lemma {:induction false} TypesIndependent(attempts: seq<Attempt>, kind: EventType)
    ensures OfKind(FireAll(attempts).fired, kind) == Thin(OfKind(attempts, kind))
  {
    if attempts != [] {
      var n := |attempts| - 1;
      var before, a := attempts[..n], attempts[n];
      TypesIndependent(before, kind);
      LastIsLastFired(before, kind);
      var fired := FireAll(before).fired;
      OfKindLast(fired, a, kind);
      assert FireAll(attempts) == Fire(FireAll(before), a);
      var mine := OfKind(before, kind);
      hide Thin, FireAll;
      assert OfKind(fired, kind) + [] == OfKind(fired, kind);
      assert OfKind(attempts, kind) == mine + (if a.kind == kind then [a] else []);
      if a.kind == kind {
        ThinLast(mine, a);
      } else {
        assert mine + [] == mine;
      }
    }
  }

  lemma ThinLast(attempts: seq<Attempt>, a: Attempt)
    ensures var kept := Thin(attempts);
            Thin(attempts + [a]) == if a.at - LastTime(kept) < 10.0 then kept else kept + [a]
  {
    assert (attempts + [a])[..|attempts|] == attempts;
  }

  predicate Apart(kept: seq<Attempt>, i: int, j: int)
    requires 0 <= i < j < |kept|
  {
    kept[j].at - kept[i].at >= 10.0 * ((j - i) as real)
  }

  predicate Late(kept: seq<Attempt>, i: int)
    requires 0 <= i < |kept|
  {
    kept[i].at >= 10.0 * ((i + 1) as real)
  }

  predicate Spaced(kept: seq<Attempt>) {
    && (forall i | 0 <= i < |kept| :: Late(kept, i))
    && (forall i, j | 0 <= i < j < |kept| :: Apart(kept, i, j))
  }

  lemma SpacedLast(kept: seq<Attempt>, a: Attempt)
    requires Spaced(kept) && a.at - LastTime(kept) >= 10.0
    ensures Spaced(kept + [a])
  {
    var n := |kept|;
    var all := kept + [a];
    forall i | 0 <= i <= n ensures Late(all, i) {
      if i < n {
        assert Late(kept, i);
      } else if n > 0 {
        assert Late(kept, n - 1);
      }
    }
    forall i, j | 0 <= i < j <= n ensures Apart(all, i, j) {
      if j < n {
        assert Apart(kept, i, j);
      } else if i < n - 1 {
        assert Apart(kept, i, n - 1);
      }
    }
  }

  /** Any two kept events are 10 s apart for each step between them, and the k-th comes no
      earlier than 10 (k + 1) s, even when the clock steps back. */
  lemma {:induction false} ThinSpaced(attempts: seq<Attempt>)
    ensures Spaced(Thin(attempts))
  {
    if attempts != [] {
      var n := |attempts| - 1;
      ThinSpaced(attempts[..n]);
      var kept := Thin(attempts[..n]);
      if attempts[n].at - LastTime(kept) >= 10.0 {
        hide Spaced;
        SpacedLast(kept, attempts[n]);
      }
    }
  }

  /** Fired events of one type are at least 10 s apart in every run. */
  lemma FiredSpaced(attempts: seq<Attempt>, kind: EventType, i: nat, j: nat)
    requires i < j < |OfKind(FireAll(attempts).fired, kind)|
    ensures var fired := OfKind(FireAll(attempts).fired, kind);
            fired[j].at - fired[i].at >= 10.0 * ((j - i) as real)
  {
    TypesIndependent(attempts, kind);
    ThinSpaced(OfKind(attempts, kind));
    hide FireAll, OfKind, Thin;
    assert Apart(OfKind(FireAll(attempts).fired, kind), i, j);
  }

  /** An attempt is suppressed if and only if it lies less than 10 s after the last event fired
      of its type, or after time 0 when there is none. */
  lemma SuppressedIff(attempts: seq<Attempt>, a: Attempt)
    ensures var before, after := FireAll(attempts), FireAll(attempts + [a]);
            && (after.fired == before.fired <==> a.at < LastTime(OfKind(before.fired, a.kind)) + 10.0)
            && (after.fired == before.fired || after.fired == before.fired + [a])
  {
    assert (attempts + [a])[..|attempts|] == attempts;
    LastIsLastFired(attempts, a.kind);
  }
}
