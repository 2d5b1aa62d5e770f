/** The listener supervisor's sliding window of crash times. */
module CrashWindow {

  const WINDOW: real := 60.0
  const LIMIT: nat := 5

  /** The list comprehension: the times less than a window before now. */
  function Prune(times: seq<real>, now: real): seq<real> {
    if times == [] then []
    else
      var n := |times| - 1;
      Prune(times[..n], now) + (if now - times[n] < WINDOW then [times[n]] else [])
  }

  /** `restart_times` after the first k crashes. */
  function Pruned(crashes: seq<real>, k: nat): seq<real>
    requires k <= |crashes|
  {
    if k == 0 then [] else Prune(Pruned(crashes, k - 1), crashes[k - 1]) + [crashes[k - 1]]
  }

  /** The code re-raises at crash k. */
  predicate Escalates(crashes: seq<real>, k: nat)
    requires k < |crashes|
  {
    |Pruned(crashes, k + 1)| > LIMIT
  }

  // ---- The pruned list against the full history ---------------------------------

  /** The list is, at every crash, the last 60 s of the full history. */
  ghost predicate ListIsWindow(crashes: seq<real>) {
    forall k | 0 <= k < |crashes| :: ListIsWindowAt(crashes, k)
  }

  predicate ListIsWindowAt(crashes: seq<real>, k: nat)
    requires k < |crashes|
  {
    Pruned(crashes, k + 1) == Prune(crashes[..k + 1], crashes[k])
  }

  /** The clock never returns to within 60 s of a crash it had left behind. */
  predicate StaysOut(crashes: seq<real>) {
    forall i, j, k | 0 <= i < j < k < |crashes| && crashes[j] - crashes[i] >= 60.0 :: crashes[k] - crashes[i] >= 60.0
  }

  predicate Nondecreasing(crashes: seq<real>) {
    forall i, j | 0 <= i < j < |crashes| :: crashes[i] <= crashes[j]
  }

  /** Whatever is in the window at b was in it at a. */
  predicate InsideBefore(times: seq<real>, a: real, b: real) {
    forall i | 0 <= i < |times| :: b - times[i] < WINDOW ==> a - times[i] < WINDOW
  }

  lemma {:induction false} PruneTwice(times: seq<real>, a: real, b: real)
    ensures Prune(Prune(times, a), b) == Prune(times, b) <==> InsideBefore(times, a, b)
    ensures Prune(Prune(times, a), b) != Prune(times, b) ==> |Prune(Prune(times, a), b)| < |Prune(times, b)|
  {
    if times != [] {
      var n := |times| - 1;
      PruneTwice(times[..n], a, b);
      PruneTwiceLast(times[..n], times[n], a, b);
      assert times == times[..n] + [times[n]];
      InsideBeforeLast(times[..n], times[n], a, b);
    }
  }

  lemma InsideBeforeLast(times: seq<real>, t: real, a: real, b: real)
    ensures InsideBefore(times + [t], a, b) <==> InsideBefore(times, a, b) && (b - t < WINDOW ==> a - t < WINDOW)
  {
    var all := times + [t];
    assert forall i | 0 <= i < |times| :: all[i] == times[i];
    assert all[|times|] == t;
  }

  lemma PruneTwiceLast(times: seq<real>, t: real, a: real, b: real)
    requires Prune(Prune(times, a), b) != Prune(times, b) ==> |Prune(Prune(times, a), b)| < |Prune(times, b)|
    ensures var twice, direct := Prune(Prune(times + [t], a), b), Prune(times + [t], b);
            && (twice == direct <==> Prune(Prune(times, a), b) == Prune(times, b) && (b - t < WINDOW ==> a - t < WINDOW))
            && (twice != direct ==> |twice| < |direct|)
  {
    PruneLast(times, t, a);
    PruneLast(times, t, b);
    PruneLast(Prune(times, a), t, b);
    hide Prune;
    var once, twice, direct := Prune(times, a), Prune(Prune(times, a), b), Prune(times, b);
    assert once + [] == once && twice + [] == twice && direct + [] == direct;
    assert (twice + [t])[..|twice|] == twice && (direct + [t])[..|direct|] == direct;
  }

  lemma PruneLast(times: seq<real>, t: real, now: real)
    ensures Prune(times + [t], now) == Prune(times, now) + (if now - t < WINDOW then [t] else [])
  {
    assert (times + [t])[..|times|] == times;
  }

  /** One crash: if the list was the window before it, it is the window after it exactly when
      nothing that had left the window is back inside. */
  lemma StepIff(crashes: seq<real>, k: nat)
    requires 0 < k < |crashes| && ListIsWindowAt(crashes, k - 1)
    ensures ListIsWindowAt(crashes, k)
       <==> forall i | 0 <= i < k :: crashes[k] - crashes[i] < WINDOW ==> crashes[k - 1] - crashes[i] < WINDOW
  {
    var now := crashes[k];
    var was := crashes[..k];
    assert crashes[..k + 1] == was + [now];
    PruneLast(was, now, now);
    assert Pruned(crashes, k) == Prune(was, crashes[k - 1]);
    PruneTwice(was, crashes[k - 1], now);
    assert forall i | 0 <= i < k :: was[i] == crashes[i];
    hide Prune;
    var a, b := Prune(Prune(was, crashes[k - 1]), now), Prune(was, now);
    assert Pruned(crashes, k + 1) == a + [now];
    assert a + [now] == b + [now] ==> a == b by {
      assert (a + [now])[..|a|] == a && (b + [now])[..|b|] == b;
    }
  }

  /** The pruned list is always the window of the full history if and only if the clock never
      returns to within 60 s of a crash it had left. */
  lemma ListIsWindowIff(crashes: seq<real>)
    ensures ListIsWindow(crashes) <==> StaysOut(crashes)
  {
    if StaysOut(crashes) {
      forall k | 0 <= k < |crashes| ensures ListIsWindowAt(crashes, k) {
        WindowUpTo(crashes, k);
      }
    }
    if ListIsWindow(crashes) {
      forall i, j, k | 0 <= i < j < k < |crashes| && crashes[j] - crashes[i] >= WINDOW
        ensures crashes[k] - crashes[i] >= WINDOW
      {
        StaysOutFrom(crashes, i, j, k);
      }
    }
  }

  lemma {:induction false} WindowUpTo(crashes: seq<real>, k: nat)
    requires StaysOut(crashes) && k < |crashes|
    ensures ListIsWindowAt(crashes, k)
    decreases k
  {
    if k == 0 {
      assert crashes[..1] == [crashes[0]];
      assert Pruned(crashes, 0) == [] && Pruned(crashes, 1) == [crashes[0]];
      PruneLast([], crashes[0], crashes[0]);
      assert [] + [crashes[0]] == [crashes[0]];
    } else {
      WindowUpTo(crashes, k - 1);
      hide Pruned, Prune;
      StepIff(crashes, k);
    }
  }

  lemma {:induction false} StaysOutFrom(crashes: seq<real>, i: nat, j: nat, k: nat)
    requires ListIsWindow(crashes) && i < j < k < |crashes| && crashes[j] - crashes[i] >= WINDOW
    ensures crashes[k] - crashes[i] >= WINDOW
    decreases k - j
  {
    hide ListIsWindowAt;
    assert ListIsWindowAt(crashes, j) && ListIsWindowAt(crashes, j + 1);
    StepIff(crashes, j + 1);
    if j + 1 < k {
      StaysOutFrom(crashes, i, j + 1, k);
    }
  }

  // ---- Escalation --------------------------------------------------------------------

  /** Under a clock that does not step back, the loop re-raises at a crash exactly when it is
      the sixth within 60 s. */
  lemma EscalatesIff(crashes: seq<real>, k: nat)
    requires Nondecreasing(crashes) && k < |crashes|
    ensures Escalates(crashes, k) <==> k >= 5 && crashes[k] - crashes[k - 5] < 60.0
  {
    assert StaysOut(crashes);
    ListIsWindowIff(crashes);
    assert ListIsWindowAt(crashes, k);
    hide Prune, Pruned, StaysOut, ListIsWindow;
    var h := crashes[..k + 1];
    WindowSize(h, crashes[k], LIMIT + 1);
  }

  /** The window holds at least c crashes exactly when the c-th last is inside it. */
  lemma {:induction false} WindowSize(times: seq<real>, now: real, c: nat)
    requires Nondecreasing(times)
    ensures |Prune(times, now)| >= c <==> c == 0 || (|times| >= c && now - times[|times| - c] < WINDOW)
    decreases |times|
  {
    if times != [] && c > 0 {
      var n := |times| - 1;
      if now - times[n] >= WINDOW {
        PruneAll(times, now);
      } else {
        WindowSize(times[..n], now, c - 1);
        assert c <= n + 1 && c > 1 ==> times[..n][n - (c - 1)] == times[n + 1 - c];
      }
    }
  }

  /** No 60 s window holds more than five survived crashes. */
  lemma SurvivedCrashesAreSparse(crashes: seq<real>, survived: nat, start: nat)
    requires Nondecreasing(crashes) && survived <= |crashes|
    requires forall k | 0 <= k < survived :: !Escalates(crashes, k)
    requires start + 5 < survived
    ensures crashes[start + 5] - crashes[start] >= 60.0
  {
    EscalatesIff(crashes, start + 5);
  }

  predicate Ascending(indices: seq<nat>, bound: nat) {
    && (forall a, b | 0 <= a < b < |indices| :: indices[a] < indices[b])
    && (forall a | 0 <= a < |indices| :: indices[a] < bound)
  }

  /** The window holds at least as many crashes as can be named inside it. */
  lemma {:induction false} WindowHolds(times: seq<real>, now: real, indices: seq<nat>)
    requires Ascending(indices, |times|)
    requires forall a | 0 <= a < |indices| :: now - times[indices[a]] < WINDOW
    ensures |Prune(times, now)| >= |indices|
    decreases |times|
  {
    if indices != [] {
      var last := |indices| - 1;
      assert indices[last] < |times|;
      var n := |times| - 1;
      var before := times[..n];
      if indices[last] == n {
        var fewer := indices[..last];
        forall a | 0 <= a < |fewer| ensures fewer[a] < n && now - before[fewer[a]] < WINDOW {
          assert fewer[a] == indices[a] && indices[a] < indices[last];
        }
        WindowHolds(before, now, fewer);
        assert now - times[n] < WINDOW;
      } else {
        forall a | 0 <= a < |indices| ensures indices[a] < n && now - before[indices[a]] < WINDOW {
          assert a < last ==> indices[a] < indices[last];
        }
        WindowHolds(before, now, indices);
      }
    }
  }

  /** Of any six survived crashes, consecutive or not, one lies 60 s or more before the last,
      whenever the clock never returns to within 60 s of a crash it had left. */
  lemma SixSurvivedAreSpread(crashes: seq<real>, survived: nat, six: seq<nat>)
    requires StaysOut(crashes) && survived <= |crashes|
    requires forall k | 0 <= k < survived :: !Escalates(crashes, k)
    requires |six| == 6 && Ascending(six, survived)
    ensures exists a | 0 <= a < 6 :: crashes[six[5]] - crashes[six[a]] >= 60.0
  {
    hide Prune, Pruned, StaysOut;
    var k := six[5];
    assert !Escalates(crashes, k);
    ListIsWindowIff(crashes);
    assert ListIsWindowAt(crashes, k);
    hide ListIsWindow;
    if forall a | 0 <= a < |six| :: crashes[k] - crashes[six[a]] < WINDOW {
      WindowHolds(crashes[..k + 1], crashes[k], six);
    }
  }

  /** A clock that steps back defeats the limit: six crashes within a second, all survived. */
  lemma StepBackHidesCrashes()
    ensures exists crashes: seq<real> ::
              && |crashes| == 7
              && (forall k | 0 <= k < 7 :: !Escalates(crashes, k))
              && (forall k | 0 <= k < 7 && k != 3 :: 100.0 <= crashes[k] <= 101.0)
  {
    hide Prune, Pruned;
    var c := [100.0, 100.0, 100.0, 200.0, 101.0, 101.0, 101.0];
    NothingRecent(c);
    forall k | 0 <= k < 7 ensures !Escalates(c, k) {
      PrunedShort(c, k + 1);
      if k > 3 {
        PrunedGrows(c, 4, k + 1);
      }
    }
  }

  lemma {:induction false} PruneShorter(times: seq<real>, now: real)
    ensures |Prune(times, now)| <= |times|
  {
    if times != [] {
      PruneShorter(times[..|times| - 1], now);
    }
  }

  lemma {:induction false} PruneAll(times: seq<real>, now: real)
    requires forall i | 0 <= i < |times| :: now - times[i] >= WINDOW
    ensures Prune(times, now) == []
  {
    if times != [] {
      PruneAll(times[..|times| - 1], now);
    }
  }

  /** The list only holds crashes that happened. */
  lemma {:induction false} PrunedShort(crashes: seq<real>, k: nat)
    requires k <= |crashes|
    ensures |Pruned(crashes, k)| <= k
  {
    if k > 0 {
      PrunedShort(crashes, k - 1);
      PruneShorter(Pruned(crashes, k - 1), crashes[k - 1]);
    }
  }

  lemma {:induction false} PrunedGrows(crashes: seq<real>, j: nat, k: nat)
    requires j <= k <= |crashes|
    ensures |Pruned(crashes, k)| <= |Pruned(crashes, j)| + k - j
    decreases k
  {
    if j < k {
      PrunedGrows(crashes, j, k - 1);
      PruneShorter(Pruned(crashes, k - 1), crashes[k - 1]);
    }
  }

  /** A crash a minute or more after all earlier ones empties the list of them. */
  lemma NothingRecent(crashes: seq<real>)
    requires |crashes| > 3 && StaysOut(crashes[..3]) && forall i | 0 <= i < 3 :: crashes[3] - crashes[i] >= WINDOW
    ensures |Pruned(crashes, 4)| == 1
  {
    var first := crashes[..3];
    WindowUpTo(first, 2);
    SamePruned(first, crashes, 3);
    assert first[..3] == first;
    assert Pruned(crashes, 3) == Prune(first, first[2]);
    PruneTwice(first, first[2], crashes[3]);
    PruneAll(first, crashes[3]);
    PruneShorter(Prune(first, first[2]), crashes[3]);
    hide Prune;
    assert |Prune(Prune(first, first[2]), crashes[3])| == 0;
  }

  lemma {:induction false} SamePruned(a: seq<real>, b: seq<real>, k: nat)
    requires k <= |a| <= |b| && a == b[..|a|]
    ensures Pruned(a, k) == Pruned(b, k)
  {
    if k > 0 {
      SamePruned(a, b, k - 1);
    }
  }
}
