/** The client's channel registry as a value: an insertion-ordered dictionary, how commands
    from the device open its entries, and where data frames go. */
module ChannelRegistry {
  import opened Bytes

  const COMMAND: u16 := 0xABCD
  const END: u16 := 0x01EF
  const OPEN_BRACE: byte := 0x7B

  /** A registered channel. Request id 0 marks a placeholder for a device-initiated open. */
  datatype Entry = Entry(name: string, requestId: nat, serverId: u16, isOpen: bool)

  type Registry = seq<Entry>

  predicate DistinctNames(reg: Registry) {
    forall i, j | 0 <= i < j < |reg| :: reg[i].name != reg[j].name
  }

  predicate Absent(reg: Registry, name: string) {
    forall i | 0 <= i < |reg| :: reg[i].name != name
  }

  // ---- Dictionary operations ----------------------------------------------------

  /** `d[name] = entry`: an existing key keeps its position, a new one goes last. */
  function Assign(reg: Registry, e: Entry): Registry {
    if reg == [] then [e]
    else if reg[0].name == e.name then [e] + reg[1..]
    else [reg[0]] + Assign(reg[1..], e)
  }

  /** `d.pop(name, None)` */
  function Remove(reg: Registry, name: string): Registry {
    if reg == [] then []
    else if reg[0].name == name then reg[1..]
    else [reg[0]] + Remove(reg[1..], name)
  }

  function Lookup(reg: Registry, name: string): Option<Entry> {
    if reg == [] then None
    else if reg[0].name == name then Some(reg[0])
    else Lookup(reg[1..], name)
  }

  /** `rename_channel` */
  function Rename(reg: Registry, oldName: string, newName: string): Registry {
    match Lookup(reg, oldName)
    case None => reg
    case Some(e) => Assign(Remove(reg, oldName), e.(name := newName))
  }

  predicate FirstNamed(reg: Registry, name: string, i: nat) {
    i < |reg| && reg[i].name == name && forall j | 0 <= j < i :: reg[j].name != name
  }

  lemma {:induction false} OpsAtIndex(reg: Registry, e: Entry, i: nat)
    requires FirstNamed(reg, e.name, i)
    ensures Assign(reg, e) == reg[i := e]
    ensures Remove(reg, e.name) == reg[..i] + reg[i + 1..]
    ensures Lookup(reg, e.name) == Some(reg[i])
  {
    if i > 0 {
      var rest := reg[1..];
      assert forall j | 0 <= j < |rest| :: rest[j] == reg[j + 1];
      OpsAtIndex(rest, e, i - 1);
      Behind(reg, e, i);
    } else {
      assert [e] + reg[1..] == reg[0 := e];
    }
  }

  lemma Behind(reg: Registry, e: Entry, i: nat)
    requires 0 < i < |reg|
    ensures [reg[0]] + reg[1..][i - 1 := e] == reg[i := e]
    ensures [reg[0]] + (reg[1..][..i - 1] + reg[1..][i..]) == reg[..i] + reg[i + 1..]
  {
  }

  lemma {:induction false} OpsAbsent(reg: Registry, e: Entry)
    requires Absent(reg, e.name)
    ensures Assign(reg, e) == reg + [e] && Remove(reg, e.name) == reg && Lookup(reg, e.name) == None
  {
    if reg != [] {
      assert forall j | 0 <= j < |reg[1..]| :: reg[1..][j] == reg[j + 1];
      OpsAbsent(reg[1..], e);
      assert [reg[0]] + (reg[1..] + [e]) == reg + [e];
      assert [reg[0]] + reg[1..] == reg;
    }
  }

  // ---- Searching -------------------------------------------------------------------

  datatype Want = FreePlaceholder | PendingOpen | Serving(id: nat)

  predicate Matches(e: Entry, w: Want) {
    match w
    case FreePlaceholder => !e.isOpen && e.serverId == 0 && e.requestId == 0
    case PendingOpen => !e.isOpen && e.serverId == 0 && e.requestId != 0
    case Serving(id) => e.serverId == id && e.isOpen
  }

  /** Index of the first match in dictionary order, or the length. */
  function First(reg: Registry, w: Want): (i: nat)
    ensures i <= |reg|
    ensures i < |reg| ==> Matches(reg[i], w)
    ensures forall j | 0 <= j < i :: !Matches(reg[j], w)
  {
    if reg == [] then 0
    else if Matches(reg[0], w) then 0
    else 1 + First(reg[1..], w)
  }

  // ---- Commands ----------------------------------------------------------------------

  /** `body.index(0, start)`, or the length when there is no zero byte. */
  function ZeroFrom(body: seq<byte>, start: nat): (i: nat)
    requires start <= |body|
    ensures start <= i <= |body|
    ensures i < |body| ==> body[i] == 0
    ensures forall j | start <= j < i :: body[j] != 0
    decreases |body| - start
  {
    if start == |body| || body[start] == 0 then start else ZeroFrom(body, start + 1)
  }

  predicate IsDeviceOpen(body: seq<byte>) {
    |body| >= 10 && AtLe16(body, 0) == COMMAND && AtLe16(body, 2) == 1
  }

  predicate IsReply(body: seq<byte>) {
    |body| >= 4 && AtLe16(body, 0) == COMMAND && !IsDeviceOpen(body)
  }

  /** The request id dispatch reads out of a device open: after the first zero byte of the
      name, or three bytes before the end. */
  function DeviceOpenId(body: seq<byte>): u16
    requires |body| >= 10
  {
    var z := ZeroFrom(body, 8);
    if z < |body| && z + 3 <= |body| then AtLe16(body, z + 1) else AtLe16(body, |body| - 3)
  }

  function ReplyId(body: seq<byte>): u16 {
    if |body| >= 10 then AtLe16(body, 8) else 0
  }

  function OpenAt(reg: Registry, i: nat, id: u16): Registry {
    if i < |reg| then reg[i := reg[i].(serverId := id, isOpen := true)] else reg
  }

  /** A frame with request id 0. */
  function Command(reg: Registry, body: seq<byte>): Registry {
    if IsDeviceOpen(body) then OpenAt(reg, First(reg, FreePlaceholder), DeviceOpenId(body))
    else if IsReply(body) then OpenAt(reg, First(reg, PendingOpen), ReplyId(body))
    else reg
  }

  /** A command opens at most one channel: the first free placeholder for a device open, the
      first pending client open for any other COMMAND, nothing otherwise; every entry that was
      open is untouched. */
  lemma CommandOpensAtMostOne(reg: Registry, body: seq<byte>)
    ensures var after := Command(reg, body);
            && |after| == |reg|
            && (forall i | 0 <= i < |reg| :: reg[i].isOpen ==> after[i] == reg[i])
            && (forall i | 0 <= i < |reg| :: after[i].name == reg[i].name && after[i].requestId == reg[i].requestId)
            && (forall i | 0 <= i < |reg| && after[i] != reg[i] ::
                  && after[i].isOpen && !reg[i].isOpen
                  && (if reg[i].requestId == 0
                      then IsDeviceOpen(body) && after[i].serverId == DeviceOpenId(body)
                      else IsReply(body) && after[i].serverId == ReplyId(body)))
            && (forall i, j | 0 <= i < j < |reg| :: after[i] == reg[i] || after[j] == reg[j])
  {
  }

  // ---- In-order matching -----------------------------------------------------------------

  /** Names of the entries that wait for a frame, in dictionary order: client opens that wait for
      a reply, or placeholders that wait for a device open. */
  function Pending(reg: Registry, w: Want): seq<string> {
    if reg == [] then []
    else (if Matches(reg[0], w) then [reg[0].name] else []) + Pending(reg[1..], w)
  }

  datatype Op =
    | Open(name: string, requestId: nat)
    | Placeholder(name: string)
    | Drop(name: string)
    | Move(oldName: string, newName: string)
    | Frame(requestId: nat, body: seq<byte>)

  function Step(reg: Registry, op: Op): Registry {
    match op
    case Open(name, requestId) => Assign(reg, Entry(name, requestId, 0, false))
    case Placeholder(name) => Assign(reg, Entry(name, 0, 0, false))
    case Drop(name) => Remove(reg, name)
    case Move(oldName, newName) => Rename(reg, oldName, newName)
    case Frame(requestId, body) => if requestId == 0 then Command(reg, body) else reg
  }

  predicate NotPending(reg: Registry, name: string, w: Want) {
    forall i | 0 <= i < |reg| :: reg[i].name == name ==> !Matches(reg[i], w)
  }

  /** Entries that are to wait come under fresh names, nothing displaces a waiting one, and the
      frames that answer come after what they answer. */
  predicate Orderly(reg: Registry, op: Op, w: Want) {
    match op
    case Open(name, requestId) => requestId != 0 && (if w.PendingOpen? then Absent(reg, name) else NotPending(reg, name, w))
    case Placeholder(name) => if w.FreePlaceholder? then Absent(reg, name) else NotPending(reg, name, w)
    case Drop(name) => NotPending(reg, name, w)
    case Move(oldName, newName) => NotPending(reg, oldName, w) && NotPending(reg, newName, w)
    case Frame(requestId, body) => AnswerOf(op, w) != [] ==> Pending(reg, w) != []
  }

  /** The id a frame brings to what waits, if it is such a frame. */
  function AnswerOf(op: Op, w: Want): seq<u16> {
    if !op.Frame? || op.requestId != 0 then []
    else if w.PendingOpen? && IsReply(op.body) then [ReplyId(op.body)]
    else if w.FreePlaceholder? && IsDeviceOpen(op.body) then [DeviceOpenId(op.body)]
    else []
  }

  lemma NotPendingTail(reg: Registry, name: string, w: Want)
    requires NotPending(reg, name, w) && reg != []
    ensures NotPending(reg[1..], name, w)
  {
    assert forall j | 0 <= j < |reg[1..]| :: reg[1..][j] == reg[j + 1];
  }

  lemma {:induction false} PendingAssign(reg: Registry, e: Entry, w: Want)
    requires NotPending(reg, e.name, w) && !Matches(e, w)
    ensures Pending(Assign(reg, e), w) == Pending(reg, w)
  {
    if reg != [] {
      NotPendingTail(reg, e.name, w);
      PendingAssign(reg[1..], e, w);
    }
  }

  lemma {:induction false} PendingAppend(reg: Registry, e: Entry, w: Want)
    requires Absent(reg, e.name) && Matches(e, w)
    ensures Pending(Assign(reg, e), w) == Pending(reg, w) + [e.name]
  {
    if reg != [] {
      var rest := reg[1..];
      assert forall j | 0 <= j < |rest| :: rest[j] == reg[j + 1];
      PendingAppend(rest, e, w);
      PendingCons(reg[0], Assign(rest, e), w);
      PendingCons(reg[0], rest, w);
      assert reg == [reg[0]] + rest && Assign(reg, e) == [reg[0]] + Assign(rest, e);
    } else {
      PendingCons(e, [], w);
      assert [e] + [] == [e] && Assign(reg, e) == [e];
    }
  }

  lemma PendingCons(first: Entry, rest: Registry, w: Want)
    ensures Pending([first] + rest, w) == (if Matches(first, w) then [first.name] else []) + Pending(rest, w)
  {
    assert ([first] + rest)[1..] == rest;
  }

  lemma {:induction false} PendingRemove(reg: Registry, name: string, w: Want)
    requires NotPending(reg, name, w)
    ensures Pending(Remove(reg, name), w) == Pending(reg, w)
  {
    if reg != [] && reg[0].name != name {
      NotPendingTail(reg, name, w);
      PendingRemove(reg[1..], name, w);
    }
  }

  lemma {:induction false} RemoveKeepsNotPending(reg: Registry, gone: string, name: string, w: Want)
    requires NotPending(reg, name, w)
    ensures NotPending(Remove(reg, gone), name, w)
  {
    if reg != [] {
      NotPendingTail(reg, name, w);
      if reg[0].name != gone {
        RemoveKeepsNotPending(reg[1..], gone, name, w);
      }
    }
  }

  lemma {:induction false} LookupIsEntry(reg: Registry, name: string)
    ensures Lookup(reg, name).Some? ==>
              exists i | 0 <= i < |reg| :: reg[i] == Lookup(reg, name).value && reg[i].name == name
  {
    if reg != [] && reg[0].name != name {
      LookupIsEntry(reg[1..], name);
      if Lookup(reg, name).Some? {
        var i :| 0 <= i < |reg[1..]| && reg[1..][i] == Lookup(reg, name).value && reg[1..][i].name == name;
        assert reg[i + 1] == reg[1..][i];
      }
    }
  }

  lemma {:induction false} PendingOpened(reg: Registry, i: nat, id: u16, w: Want)
    requires i < |reg| && !w.Serving?
    ensures i == First(reg, w) ==>
              Pending(reg, w) != [] && Pending(reg, w)[0] == reg[i].name && Pending(OpenAt(reg, i, id), w) == Pending(reg, w)[1..]
    ensures !Matches(reg[i], w) ==> Pending(OpenAt(reg, i, id), w) == Pending(reg, w)
  {
    if i == 0 {
      assert OpenAt(reg, 0, id)[1..] == reg[1..];
    } else {
      PendingOpened(reg[1..], i - 1, id, w);
      assert OpenAt(reg, i, id)[1..] == OpenAt(reg[1..], i - 1, id);
      assert OpenAt(reg, i, id)[0] == reg[0];
    }
  }

  lemma {:induction false} NonePending(reg: Registry, w: Want)
    ensures First(reg, w) == |reg| <==> Pending(reg, w) == []
  {
    if reg != [] {
      NonePending(reg[1..], w);
    }
  }

  /** The name and id a step assigns to what waits, if any. */
  function Assigned(reg: Registry, op: Op, w: Want): seq<(string, u16)> {
    if AnswerOf(op, w) != [] && Pending(reg, w) != [] then [(Pending(reg, w)[0], AnswerOf(op, w)[0])] else []
  }

  /** The name that begins to wait with an operation, if any. */
  function OpenName(op: Op, w: Want): seq<string> {
    if w.PendingOpen? && op.Open? then [op.name]
    else if w.FreePlaceholder? && op.Placeholder? then [op.name]
    else []
  }

  /** What waits forms a queue: new entries join at the back, each answer takes the front. */
  lemma PendingIsQueue(reg: Registry, op: Op, w: Want)
    requires Orderly(reg, op, w) && !w.Serving?
    ensures Pending(Step(reg, op), w)
         == if AnswerOf(op, w) != [] then Pending(reg, w)[1..] else Pending(reg, w) + OpenName(op, w)
  {
    hide First;
    match op {
      case Open(name, requestId) =>
        if w.PendingOpen? {
          PendingAppend(reg, Entry(name, requestId, 0, false), w);
        } else {
          PendingAssign(reg, Entry(name, requestId, 0, false), w);
        }
      case Placeholder(name) =>
        if w.FreePlaceholder? {
          PendingAppend(reg, Entry(name, 0, 0, false), w);
        } else {
          PendingAssign(reg, Entry(name, 0, 0, false), w);
        }
      case Drop(name) => PendingRemove(reg, name, w);
      case Move(oldName, newName) =>
        LookupIsEntry(reg, oldName);
        PendingRemove(reg, oldName, w);
        if Lookup(reg, oldName).Some? {
          RemoveKeepsNotPending(reg, oldName, newName, w);
          PendingAssign(Remove(reg, oldName), Lookup(reg, oldName).value.(name := newName), w);
        }
      case Frame(requestId, body) =>
        NonePending(reg, w);
        if requestId == 0 && IsDeviceOpen(body) {
          var i := First(reg, FreePlaceholder);
          if i < |reg| {
            PendingOpened(reg, i, DeviceOpenId(body), w);
          }
        } else if requestId == 0 && IsReply(body) {
          var i := First(reg, PendingOpen);
          if i < |reg| {
            PendingOpened(reg, i, ReplyId(body), w);
          }
        }
    }
  }

  function Run(reg: Registry, ops: seq<Op>): Registry {
    if ops == [] then reg else Step(Run(reg, ops[..|ops| - 1]), ops[|ops| - 1])
  }

  // ---- Open ids over whole runs ------------------------------------------------------

  lemma {:induction false} LookupAssign(reg: Registry, e: Entry, name: string)
    ensures Lookup(Assign(reg, e), name) == if name == e.name then Some(e) else Lookup(reg, name)
  {
    if reg != [] && reg[0].name != e.name {
      LookupAssign(reg[1..], e, name);
    }
  }

  lemma {:induction false} LookupRemove(reg: Registry, gone: string, name: string)
    requires name != gone
    ensures Lookup(Remove(reg, gone), name) == Lookup(reg, name)
  {
    if reg != [] && reg[0].name != gone {
      LookupRemove(reg[1..], gone, name);
    }
  }

  lemma {:induction false} LookupOpenAt(reg: Registry, i: nat, id: u16, name: string)
    requires i < |reg| ==> !reg[i].isOpen
    requires Lookup(reg, name).Some? && Lookup(reg, name).value.isOpen
    ensures Lookup(OpenAt(reg, i, id), name) == Lookup(reg, name)
  {
    if i < |reg| {
      var after := OpenAt(reg, i, id);
      if i == 0 {
        assert after[1..] == reg[1..];
      } else {
        assert after[1..] == OpenAt(reg[1..], i - 1, id);
        if reg[0].name != name {
          LookupOpenAt(reg[1..], i - 1, id, name);
        }
      }
    }
  }

  /** Where the entry called `name` is after an operation; None once its name is used again,
      overwritten or removed. */
  function NameAfter(reg: Registry, name: string, op: Op): Option<string> {
    match op
    case Open(n, _) => if n == name then None else Some(name)
    case Placeholder(n) => if n == name then None else Some(name)
    case Drop(n) => if n == name then None else Some(name)
    case Move(from, to) =>
      if from == name then Some(to)
      else if to == name && Lookup(reg, from).Some? then None
      else Some(name)
    case Frame(_, _) => Some(name)
  }

  function Follow(reg: Registry, name: string, ops: seq<Op>): Option<string> {
    if ops == [] then Some(name)
    else
      var n := |ops| - 1;
      match Follow(reg, name, ops[..n])
      case None => None
      case Some(now) => NameAfter(Run(reg, ops[..n]), now, ops[n])
  }

  lemma StepKeepsOpen(reg: Registry, name: string, op: Op)
    requires Lookup(reg, name).Some? && Lookup(reg, name).value.isOpen && NameAfter(reg, name, op).Some?
    ensures var now := NameAfter(reg, name, op).value;
            Lookup(Step(reg, op), now) == Some(Lookup(reg, name).value.(name := now))
  {
    LookupHasName(reg, name);
    match op {
      case Open(n, requestId) => LookupAssign(reg, Entry(n, requestId, 0, false), name);
      case Placeholder(n) => LookupAssign(reg, Entry(n, 0, 0, false), name);
      case Drop(n) => LookupRemove(reg, n, name);
      case Move(from, to) =>
        if Lookup(reg, from).Some? {
          var e := Lookup(reg, from).value.(name := to);
          var now := NameAfter(reg, name, op).value;
          LookupAssign(Remove(reg, from), e, now);
          if from != name {
            LookupRemove(reg, from, name);
          }
        }
      case Frame(requestId, body) =>
        hide Lookup;
        if requestId == 0 && IsDeviceOpen(body) {
          LookupOpenAt(reg, First(reg, FreePlaceholder), DeviceOpenId(body), name);
        } else if requestId == 0 && IsReply(body) {
          LookupOpenAt(reg, First(reg, PendingOpen), ReplyId(body), name);
        }
    }
  }

  lemma {:induction false} LookupHasName(reg: Registry, name: string)
    ensures Lookup(reg, name).Some? ==> Lookup(reg, name).value.name == name
  {
    if reg != [] && reg[0].name != name {
      LookupHasName(reg[1..], name);
    }
  }

  /** In every run - opens, placeholders, removals, renames and frames in any order - an open
      channel keeps its server id, under whatever name, until that name is used again or
      removed. */
  lemma {:induction false} OpenIdNeverChanges(reg: Registry, name: string, ops: seq<Op>)
    requires Lookup(reg, name).Some? && Lookup(reg, name).value.isOpen && Follow(reg, name, ops).Some?
    ensures var now := Follow(reg, name, ops).value;
            Lookup(Run(reg, ops), now) == Some(Lookup(reg, name).value.(name := now))
    decreases |ops|
  {
    LookupHasName(reg, name);
    hide Lookup, Step, NameAfter;
    if ops != [] {
      var n := |ops| - 1;
      OpenIdNeverChanges(reg, name, ops[..n]);
      StepKeepsOpen(Run(reg, ops[..n]), Follow(reg, name, ops[..n]).value, ops[n]);
    }
  }

  predicate OrderlyRun(reg: Registry, ops: seq<Op>, w: Want) {
    ops == [] || (OrderlyRun(reg, ops[..|ops| - 1], w) && Orderly(Run(reg, ops[..|ops| - 1]), ops[|ops| - 1], w))
  }

  function Opens(ops: seq<Op>, w: Want): seq<string> {
    if ops == [] then [] else Opens(ops[..|ops| - 1], w) + OpenName(ops[|ops| - 1], w)
  }

  function Replies(ops: seq<Op>, w: Want): seq<u16> {
    if ops == [] then [] else Replies(ops[..|ops| - 1], w) + AnswerOf(ops[|ops| - 1], w)
  }

  function Assignments(reg: Registry, ops: seq<Op>, w: Want): seq<(string, u16)> {
    if ops == [] then []
    else Assignments(reg, ops[..|ops| - 1], w) + Assigned(Run(reg, ops[..|ops| - 1]), ops[|ops| - 1], w)
  }

  /** Queue arithmetic of one step. */
  lemma QueueStep(names: seq<string>, ids: seq<u16>, got: seq<(string, u16)>,
                  open: seq<string>, reply: seq<u16>, pair: seq<(string, u16)>)
    requires |got| == |ids| <= |names| && forall i | 0 <= i < |ids| :: got[i] == (names[i], ids[i])
    requires reply == [] || (|reply| == 1 && open == [])
    requires reply != [] ==> |ids| < |names| && pair == [(names[|ids|..][0], reply[0])]
    requires reply == [] ==> pair == []
    ensures var names', ids', got' := names + open, ids + reply, got + pair;
            && |got'| == |ids'| <= |names'|
            && names'[|ids'|..] == (if reply != [] then names[|ids|..][1..] else names[|ids|..] + open)
            && (forall i | 0 <= i < |ids'| :: got'[i] == (names'[i], ids'[i]))
  {
  }

  /** In every orderly run - opens, placeholders, removals, renames and frames interleaved as
      they like - the i-th entry that waits gets the i-th answer's id. */
  lemma {:induction false} AnswersMatchInOrder(reg: Registry, ops: seq<Op>, w: Want)
    requires !w.Serving? && Pending(reg, w) == [] && OrderlyRun(reg, ops, w)
    ensures var names, ids, got := Opens(ops, w), Replies(ops, w), Assignments(reg, ops, w);
            && |got| == |ids| <= |names| && Pending(Run(reg, ops), w) == names[|ids|..]
            && (forall i | 0 <= i < |ids| :: got[i] == (names[i], ids[i]))
    decreases |ops|
  {
    hide Step, Orderly, Pending, Assigned, AnswerOf, OpenName;
    if ops != [] {
      var n := |ops| - 1;
      AnswersMatchInOrder(reg, ops[..n], w);
      var before := Run(reg, ops[..n]);
      PendingIsQueue(before, ops[n], w);
      FrontExists(before, ops[n], w);
      QueueStep(Opens(ops[..n], w), Replies(ops[..n], w), Assignments(reg, ops[..n], w),
                OpenName(ops[n], w), AnswerOf(ops[n], w), Assigned(before, ops[n], w));
    }
  }

  lemma FrontExists(reg: Registry, op: Op, w: Want)
    requires Orderly(reg, op, w)
    ensures AnswerOf(op, w) != [] ==> Pending(reg, w) != [] && Assigned(reg, op, w) == [(Pending(reg, w)[0], AnswerOf(op, w)[0])]
    ensures AnswerOf(op, w) == [] ==> Assigned(reg, op, w) == []
    ensures AnswerOf(op, w) == [] || (|AnswerOf(op, w)| == 1 && OpenName(op, w) == [])
  {
  }

  /** The i-th client open gets the i-th reply's id. */
  lemma RepliesMatchOpensInOrder(reg: Registry, ops: seq<Op>)
    requires Pending(reg, PendingOpen) == [] && OrderlyRun(reg, ops, PendingOpen)
    ensures var names, ids, got := Opens(ops, PendingOpen), Replies(ops, PendingOpen), Assignments(reg, ops, PendingOpen);
            |got| == |ids| <= |names| && forall i | 0 <= i < |ids| :: got[i] == (names[i], ids[i])
  {
    AnswersMatchInOrder(reg, ops, PendingOpen);
  }

  /** The k-th device open fills the k-th placeholder, whatever client opens are pending. */
  lemma DeviceOpensFillPlaceholdersInOrder(reg: Registry, ops: seq<Op>)
    requires Pending(reg, FreePlaceholder) == [] && OrderlyRun(reg, ops, FreePlaceholder)
    ensures var names, ids, got := Opens(ops, FreePlaceholder), Replies(ops, FreePlaceholder), Assignments(reg, ops, FreePlaceholder);
            |got| == |ids| <= |names| && forall i | 0 <= i < |ids| :: got[i] == (names[i], ids[i])
  {
    AnswersMatchInOrder(reg, ops, FreePlaceholder);
  }

  /** The assignment is what the registry shows: that name is open under that id. */
  lemma AssignedIsOpen(reg: Registry, op: Op, w: Want)
    requires DistinctNames(reg) && !w.Serving? && Assigned(reg, op, w) != []
    ensures var (name, id) := Assigned(reg, op, w)[0];
            var after := Lookup(Step(reg, op), name);
            after.Some? && after.value.isOpen && after.value.serverId == id
  {
    NonePending(reg, w);
    var i, id := First(reg, w), AnswerOf(op, w)[0];
    PendingOpened(reg, i, id, w);
    var after := OpenAt(reg, i, id);
    assert Step(reg, op) == after;
    forall j | 0 <= j < i ensures after[j].name != after[i].name {
      assert after[j] == reg[j] && after[i].name == reg[i].name;
    }
    OpsAtIndex(after, after[i], i);
  }

  /** A reply opens the longest-waiting client channel under the reply's id. */
  lemma ReplyOpensFront(reg: Registry, body: seq<byte>)
    requires IsReply(body) && Pending(reg, PendingOpen) != []
    ensures var i := First(reg, PendingOpen);
            && i < |reg| && reg[i].name == Pending(reg, PendingOpen)[0]
            && Command(reg, body) == reg[i := reg[i].(serverId := ReplyId(body), isOpen := true)]
  {
    NonePending(reg, PendingOpen);
    PendingOpened(reg, First(reg, PendingOpen), ReplyId(body), PendingOpen);
  }

  /** A device open fills the first entry that is not open and has neither an id nor a request
      of its own; every other entry stays as it was, whatever client opens are pending. */
  lemma DeviceOpenFills(reg: Registry, body: seq<byte>, i: nat)
    requires |body| >= 10 && body[..4] == [0xCD, 0xAB, 0x01, 0x00]
    requires i < |reg| && !reg[i].isOpen && reg[i].serverId == 0 && reg[i].requestId == 0
    requires forall j | 0 <= j < i :: reg[j].isOpen || reg[j].serverId != 0 || reg[j].requestId != 0
    ensures var after := Command(reg, body);
            && |after| == |reg| && (forall j | 0 <= j < |reg| && j != i :: after[j] == reg[j])
            && after[i] == Entry(reg[i].name, 0, DeviceOpenId(body), true)
  {
    BodyWords(body);
    assert First(reg, FreePlaceholder) == i by {
      assert Matches(reg[i], FreePlaceholder);
    }
  }

  /** Any other COMMAND opens the first entry that is not open, has no id, and a request of its
      own. */
  lemma ReplyFills(reg: Registry, body: seq<byte>, i: nat)
    requires |body| >= 4 && body[..2] == [0xCD, 0xAB] && (|body| < 10 || body[2..4] != [0x01, 0x00])
    requires i < |reg| && !reg[i].isOpen && reg[i].serverId == 0 && reg[i].requestId != 0
    requires forall j | 0 <= j < i :: reg[j].isOpen || reg[j].serverId != 0 || reg[j].requestId == 0
    ensures var after := Command(reg, body);
            var id := if |body| >= 10 then body[8] as int + 0x100 * body[9] as int else 0;
            && |after| == |reg| && (forall j | 0 <= j < |reg| && j != i :: after[j] == reg[j])
            && after[i] == Entry(reg[i].name, reg[i].requestId, id, true)
  {
    BodyWords(body);
    assert First(reg, PendingOpen) == i by {
      assert Matches(reg[i], PendingOpen);
    }
  }

  /** A frame changes nothing when nothing waits for it, or when it is no COMMAND. */
  lemma CommandChangesNothing(reg: Registry, body: seq<byte>)
    requires || |body| < 4 || body[..2] != [0xCD, 0xAB]
             || (|body| >= 10 && body[2..4] == [0x01, 0x00] && forall j | 0 <= j < |reg| :: reg[j].isOpen || reg[j].serverId != 0 || reg[j].requestId != 0)
             || ((|body| < 10 || body[2..4] != [0x01, 0x00]) && forall j | 0 <= j < |reg| :: reg[j].isOpen || reg[j].serverId != 0 || reg[j].requestId == 0)
    ensures Command(reg, body) == reg
  {
    if |body| >= 4 {
      BodyWords(body);
    }
  }

  lemma BodyWords(body: seq<byte>)
    requires |body| >= 4
    ensures AtLe16(body, 0) == 0xABCD <==> body[..2] == [0xCD, 0xAB]
    ensures AtLe16(body, 2) == 1 <==> body[2..4] == [0x01, 0x00]
    ensures |body| >= 10 && body[..4] == [0xCD, 0xAB, 0x01, 0x00] ==> body[..2] == [0xCD, 0xAB] && body[2..4] == [0x01, 0x00]
  {
    assert body[..2] == [body[0], body[1]] && body[2..4] == [body[2], body[3]];
    var d := body[..4];
    assert d[0] == body[0] && d[1] == body[1] && d[2] == body[2] && d[3] == body[3];
  }

  // ---- Why the names must be fresh ---------------------------------------------------------

  function PendingExcept(reg: Registry, name: string, w: Want): seq<string> {
    if reg == [] then []
    else (if Matches(reg[0], w) && reg[0].name != name then [reg[0].name] else []) + PendingExcept(reg[1..], name, w)
  }

  /** No pending open stands behind this name's entry. */
  predicate NobodyBehind(reg: Registry, name: string, w: Want) {
    if reg == [] then true
    else if reg[0].name == name then Pending(reg[1..], w) == []
    else NobodyBehind(reg[1..], name, w)
  }

  lemma {:induction false} AbsentExcept(reg: Registry, name: string, w: Want)
    requires Absent(reg, name)
    ensures PendingExcept(reg, name, w) == Pending(reg, w)
    ensures name !in Pending(reg, w)
  {
    if reg != [] {
      assert forall i | 0 <= i < |reg[1..]| :: reg[1..][i] == reg[i + 1];
      AbsentExcept(reg[1..], name, w);
    }
  }

  /** Opening under a name queues last exactly when no pending open stands behind that name's
      old position: a re-used name keeps its place and overtakes everyone behind it. */
  lemma {:induction false} OpenQueuesLastIff(reg: Registry, e: Entry, w: Want)
    requires DistinctNames(reg) && Matches(e, w)
    ensures Pending(Assign(reg, e), w) == PendingExcept(reg, e.name, w) + [e.name] <==> NobodyBehind(reg, e.name, w)
  {
    if reg != [] {
      var tail := reg[1..];
      assert forall i | 0 <= i < |tail| :: tail[i] == reg[i + 1];
      if reg[0].name == e.name {
        AbsentExcept(tail, e.name, w);
        assert Pending(Assign(reg, e), w) == [e.name] + Pending(tail, w);
        if Pending(tail, w) != [] {
          assert ([e.name] + Pending(tail, w))[0] == e.name;
          assert (Pending(tail, w) + [e.name])[0] == Pending(tail, w)[0];
          assert Pending(tail, w)[0] in Pending(tail, w);
        }
      } else {
        OpenQueuesLastIff(tail, e, w);
        var front := if Matches(reg[0], w) then [reg[0].name] else [];
        PendingCons(reg[0], Assign(tail, e), w);
        assert Pending(Assign(reg, e), w) == front + Pending(Assign(tail, e), w);
        assert PendingExcept(reg, e.name, w) + [e.name] == front + (PendingExcept(tail, e.name, w) + [e.name]);
        SameBehind(front, Pending(Assign(tail, e), w), PendingExcept(tail, e.name, w) + [e.name]);
      }
    }
  }

  lemma SameBehind(front: seq<string>, a: seq<string>, b: seq<string>)
    ensures front + a == front + b <==> a == b
  {
    assert (front + a)[|front|..] == a && (front + b)[|front|..] == b;
  }

  // ---- Where data frames go -----------------------------------------------------------------

  datatype Fate = ToFuture | ToChannel(index: nat) | ToPush | Discarded

  predicate IsJson(body: seq<byte>) {
    |body| > 0 && body[0] == OPEN_BRACE
  }

  function FateOf(waiting: set<nat>, reg: Registry, requestId: nat, body: seq<byte>): Fate {
    if requestId in waiting then ToFuture
    else if First(reg, Serving(requestId)) < |reg| then ToChannel(First(reg, Serving(requestId)))
    else if IsJson(body) then ToPush
    else Discarded
  }

  /** A frame reaches a channel's queue exactly when an open channel serves its id and no
      future is registered under it. The entry a raising send leaves behind therefore
      swallows the next frame of its channel. */
  lemma ReachesChannelIff(waiting: set<nat>, reg: Registry, requestId: nat, body: seq<byte>)
    ensures FateOf(waiting, reg, requestId, body).ToChannel?
        <==> requestId !in waiting && exists i :: 0 <= i < |reg| && reg[i].isOpen && reg[i].serverId == requestId
    ensures FateOf(waiting + {requestId}, reg, requestId, body) == ToFuture
  {
    var i := First(reg, Serving(requestId));
    if i < |reg| {
      assert reg[i].isOpen && reg[i].serverId == requestId;
    } else if j :| 0 <= j < |reg| && reg[j].isOpen && reg[j].serverId == requestId {
      assert Matches(reg[j], Serving(requestId));
    }
  }

  lemma AssignDistinct(reg: Registry, e: Entry, i: nat)
    requires DistinctNames(reg) && FirstNamed(reg, e.name, i)
    ensures DistinctNames(reg[i := e])
  {
  }

  lemma AppendDistinct(reg: Registry, e: Entry)
    requires DistinctNames(reg) && Absent(reg, e.name)
    ensures DistinctNames(reg + [e])
  {
  }

  lemma RemoveDistinct(reg: Registry, i: nat)
    requires DistinctNames(reg) && i < |reg|
    ensures DistinctNames(reg[..i] + reg[i + 1..])
  {
  }

  // ---- Device opens ----------------------------------------------------------------------------

  /** Body of `encode_channel_open` without extra data. */
  function OpenBody(name: seq<byte>, channelType: u32, sequence: u16, requestId: u16, trailing: byte): seq<byte> {
    Le16(COMMAND) + Le16(sequence) + Le32(channelType) + name + Le16(requestId) + [trailing]
  }

  /** The tail for extra data: pad byte, length with terminator, text, terminator. */
  function ExtraData(extra: seq<byte>): seq<byte>
    requires |extra| + 1 < MOD32
  {
    if extra == [] then [] else [0] + Le32(|extra| + 1) + extra + [0]
  }

  /** Body of `encode_channel_open_response` */
  function OpenResponseBody(requestId: u16): seq<byte> {
    Le16(COMMAND) + Le16(2) + Le32(4) + Le16(requestId) + [0, 0]
  }

  lemma ResponseCarriesId(requestId: u16)
    ensures ReplyId(OpenResponseBody(requestId)) == requestId && IsReply(OpenResponseBody(requestId))
  {
    var b := OpenResponseBody(requestId);
    assert b[8..10] == Le16(requestId);
    ReadLe16(b, 8, requestId);
    assert b[0..2] == Le16(COMMAND) && b[2..4] == Le16(2);
    ReadLe16(b, 0, COMMAND);
    ReadLe16(b, 2, 2);
  }

  /** Dispatch recovers the id of a device open exactly when the id's low byte is not zero, for
      every NUL-free name of any length and every trailing byte. */
  lemma DeviceOpenIdIff(name: seq<byte>, channelType: u32, requestId: u16, trailing: byte)
    requires (forall i | 0 <= i < |name| :: name[i] != 0) && requestId != 0
    ensures var b := OpenBody(name, channelType, 1, requestId, trailing);
            IsDeviceOpen(b) && (DeviceOpenId(b) == requestId <==> requestId % 256 != 0)
  {
    var b := OpenBody(name, channelType, 1, requestId, trailing);
    var n := 8 + |name|;
    assert b[0..2] == Le16(COMMAND) && b[2..4] == Le16(1);
    ReadLe16(b, 0, COMMAND);
    ReadLe16(b, 2, 1);
    assert forall i | 8 <= i < n :: b[i] == name[i - 8];
    assert |b| == n + 3 && b[n] == requestId % 256 && b[n + 1] == requestId / 256 && b[n + 2] == trailing;
    assert b[n..n + 2] == Le16(requestId);
    ReadLe16(b, n, requestId);
    var z := ZeroFrom(b, 8);
    if requestId % 256 == 0 {
      assert z == n;
      var high: int := requestId / 256;
      assert DeviceOpenId(b) == high + 256 * trailing;
      assert high + 256 * trailing != 256 * high;
    } else {
      assert z > n;
    }
  }

  /** What the device reads in a channel open: COMMAND, sequence 1, the channel type, the name,
      the request id and the trailing byte. */
  lemma OpenBodyRead(name: seq<byte>, channelType: u32, requestId: u16, trailing: byte)
    ensures var b, n := OpenBody(name, channelType, 1, requestId, trailing), 8 + |name|;
            && |b| == n + 3 && b[..4] == [0xCD, 0xAB, 0x01, 0x00] && AtLe32(b, 4) == channelType && b[8..n] == name
            && b[n] as int + 0x100 * b[n + 1] as int == requestId && b[n + 2] == trailing
  {
    var b, n := OpenBody(name, channelType, 1, requestId, trailing), 8 + |name|;
    assert b[4..8] == Le32(channelType);
    ReadLe32(b, 4, channelType);
    assert b[n..n + 2] == Le16(requestId);
    assert b[n] == Le16(requestId)[0] && b[n + 1] == Le16(requestId)[1];
  }

  /** Extra data after it: nothing, or a zero byte, the length with its terminator, the text and
      the terminator. */
  lemma ExtraDataRead(extra: seq<byte>)
    requires |extra| + 1 < MOD32
    ensures var e := ExtraData(extra);
            if extra == [] then e == []
            else |e| == |extra| + 6 && e[0] == 0 && AtLe32(e, 1) == |extra| + 1 && e[5..5 + |extra|] == extra && e[5 + |extra|] == 0
  {
    if extra != [] {
      var e := ExtraData(extra);
      assert e[1..5] == Le32(|extra| + 1);
      ReadLe32(e, 1, |extra| + 1);
    }
  }

  /** What the device reads in the reply to its channel open. */
  lemma ResponseRead(requestId: u16)
    ensures var b := OpenResponseBody(requestId);
            && |b| == 12 && b[..8] == [0xCD, 0xAB, 0x02, 0x00, 0x04, 0x00, 0x00, 0x00]
            && b[8] as int + 0x100 * b[9] as int == requestId && b[10] == 0 && b[11] == 0
  {
  }

  // ---- Whole laws of dispatch and renaming -------------------------------------------------

  /** Every frame has one fate: a pending future takes it; else the first open channel with its
      id; else the push callback, if it looks like JSON; else it is discarded. */
  lemma FrameHasOneFate(waiting: set<nat>, reg: Registry, requestId: nat, body: seq<byte>, i: nat)
    ensures requestId in waiting ==> FateOf(waiting, reg, requestId, body) == ToFuture
    ensures requestId !in waiting && i < |reg| && reg[i].isOpen && reg[i].serverId == requestId
            && (forall j | 0 <= j < i :: !reg[j].isOpen || reg[j].serverId != requestId)
            ==> FateOf(waiting, reg, requestId, body) == ToChannel(i)
    ensures requestId !in waiting && (forall j | 0 <= j < |reg| :: !reg[j].isOpen || reg[j].serverId != requestId)
            ==> FateOf(waiting, reg, requestId, body) == if body != [] && body[0] == 0x7B then ToPush else Discarded
  {
    if i < |reg| && reg[i].isOpen && reg[i].serverId == requestId {
      assert Matches(reg[i], Serving(requestId));
    }
  }

  /** Renaming moves the entry to the end under its new name, id and state unchanged; a name that
      is not there changes nothing. */
  lemma RenameMovesLast(reg: Registry, i: nat, newName: string)
    requires DistinctNames(reg) && i < |reg| && Absent(reg[..i] + reg[i + 1..], newName)
    ensures Rename(reg, reg[i].name, newName) == reg[..i] + reg[i + 1..] + [reg[i].(name := newName)]
  {
    OpsAtIndex(reg, reg[i], i);
    OpsAbsent(reg[..i] + reg[i + 1..], reg[i].(name := newName));
  }

  lemma RenameAbsent(reg: Registry, oldName: string, newName: string)
    requires Absent(reg, oldName)
    ensures Rename(reg, oldName, newName) == reg
  {
    OpsAbsent(reg, Entry(oldName, 0, 0, false));
  }
}
