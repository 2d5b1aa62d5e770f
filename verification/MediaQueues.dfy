/** `asyncio.Queue(maxsize=...)` as the media pipeline uses it: bounded, never waiting. */
module MediaQueues {

  /** What a queue of at most `room` items makes of a list of puts: the overflow is dropped. */
  function PutAll<T>(queued: seq<T>, more: seq<T>, room: nat): seq<T> {
    if more == [] then queued
    else
      var before := PutAll(queued, more[..|more| - 1], room);
      if |before| < room then before + [more[|more| - 1]] else before
  }

  lemma PutNothing<T>(queued: seq<T>, room: nat)
    ensures PutAll(queued, [], room) == queued
  {
  }

  lemma {:induction false} PutInTwo<T>(queued: seq<T>, a: seq<T>, b: seq<T>, room: nat)
    ensures PutAll(queued, a + b, room) == PutAll(PutAll(queued, a, room), b, room)
    decreases |b|
  {
    if b == [] {
      assert a + b == a;
    } else {
      assert (a + b)[..|a| + |b| - 1] == a + b[..|b| - 1];
      PutInTwo(queued, a, b[..|b| - 1], room);
    }
  }

  /** The oldest survive: a queue takes a prefix of what it is offered and drops the rest. */
  lemma {:induction false} KeepsOldest<T>(queued: seq<T>, more: seq<T>, room: nat)
    requires |queued| <= room
    ensures var space := room - |queued|;
            PutAll(queued, more, room) == queued + (if |more| <= space then more else more[..space])
  {
    if more != [] {
      KeepsOldest(queued, more[..|more| - 1], room);
    }
  }

  class MediaQueue<T> {
    var items: seq<T>
    const maxsize: nat

    constructor (maxsize: nat)
      ensures items == [] && this.maxsize == maxsize
    {
      this.maxsize := maxsize;
      items := [];
    }

    /** `put_nowait`; false stands for QueueFull. */
    method PutNowait(x: T) returns (ok: bool)
      modifies this
      ensures ok == (|old(items)| < maxsize)
      ensures items == PutAll(old(items), [x], maxsize)
      ensures items == if ok then old(items) + [x] else old(items)
    {
      ok := |items| < maxsize;
      if ok {
        items := items + [x];
      }
      assert [x][..0] == [];
      assert PutAll(old(items), [x][..0], maxsize) == old(items);
    }

    method GetNowait() returns (x: T)
      requires items != []
      modifies this
      ensures x == old(items)[0] && items == old(items)[1..]
    {
      x := items[0];
      items := items[1..];
    }

    /** `reset`'s loop: take until empty. */
    method Drain() returns (drained: nat)
      modifies this
      ensures items == [] && drained == |old(items)|
    {
      drained := 0;
      while items != []
        invariant drained + |items| == |old(items)|
        decreases |items|
      {
        var _ := GetNowait();
        drained := drained + 1;
      }
    }
  }
}
