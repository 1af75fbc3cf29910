/**
 The request table of src/cli/sedes-mcp-server.ts as a step system: lines arrive, pending calls
 end in any order, replies leave, and the server may be closed at any time. Which messages are
 requests is decided by the schemas; how long a call takes and how it ends is up to the tools.
 */
module McpServer {
  import opened Wrappers
  import opened Utf16

  const MAXIMUM_CONCURRENT_REQUESTS: nat := 16
  const MAXIMUM_BATCH_MESSAGES: nat := 32

  /** A number is named by its text. */
  datatype Id = StringId(s: Text) | NumberId(text: Text)

  /** `s:` and `n:` keep strings and numbers apart. */
  function Key(id: Id): Text { if id.StringId? then [115, COLON] + id.s else [110, COLON] + id.text }

  lemma KeyInjective(a: Id, b: Id)
    requires Key(a) == Key(b)
    ensures a == b
  {
    assert Key(a)[0] == Key(b)[0];
    assert Key(a)[2..] == Key(b)[2..];
  }

  datatype Inbound = Request(id: Id) | Cancel(target: Id) | Notification | Response | Invalid(known: Option<Id>)

  datatype Body = Result | ParseError | InvalidRequest | Busy | Failed

  datatype Reply = Reply(id: Option<Id>, body: Body)

  datatype Reason = NoReplyDue | Cancelled | CutOff

  /** The promised reply to one message. */
  datatype Cell = Pending(id: Id) | Answered(reply: Reply) | Silent(reason: Reason)

  /** One received line: its messages, the replies promised to them, and whether they were sent. */
  datatype Group = Group(batch: bool, inbound: seq<Inbound>, cells: seq<Cell>, sent: bool)

  datatype Place = Place(group: nat, index: nat)

  datatype Outgoing = One(reply: Reply) | Many(replies: seq<Reply>)

  datatype Sent = Sent(group: nat, message: Outgoing)

  /** `cancellations` records, as history, which requests were in flight when a cancellation came. */
  datatype Server = Server(inFlight: map<Text, Place>, cancelled: set<Text>, closed: bool,
                           groups: seq<Group>, outbox: seq<Sent>, cancellations: set<Place>)

  const START := Server(map[], {}, false, [], [], {})

  // ---- receiving ----

  function Refusal(id: Option<Id>, body: Body): Cell { Answered(Reply(id, body)) }

  /** `#dispatch`: what is promised to one message. */
  function CellFor(s: Server, m: Inbound): Cell {
    match m
    case Request(id) =>
      if Key(id) in s.inFlight then Refusal(Some(id), InvalidRequest)
      else if |s.inFlight| >= MAXIMUM_CONCURRENT_REQUESTS then Refusal(Some(id), Busy)
      else Pending(id)
    case Invalid(known) => Refusal(known, InvalidRequest)
    case _ => Silent(NoReplyDue)
  }

  function Admit(s: Server, m: Inbound, place: Place): Server {
    match m
    case Request(id) =>
      if CellFor(s, m).Pending? then s.(inFlight := s.inFlight[Key(id) := place]) else s
    case Cancel(target) =>
      if Key(target) in s.inFlight
      then s.(cancelled := s.cancelled + {Key(target)}, cancellations := s.cancellations + {s.inFlight[Key(target)]})
      else s
    case _ => s
  }

  function Dispatch(s: Server, g: nat, m: Inbound): Server
    requires g < |s.groups|
  {
    var group := s.groups[g];
    var place := Place(g, |group.cells|);
    Admit(s, m, place).(groups := s.groups[g := group.(inbound := group.inbound + [m],
                                                       cells := group.cells + [CellFor(s, m)])])
  }

  function DispatchAll(s: Server, g: nat, messages: seq<Inbound>): Server
    requires g < |s.groups|
    decreases |messages|
  {
    if messages == [] then s else DispatchAll(Dispatch(s, g, messages[0]), g, messages[1..])
  }

  datatype Line = Garbage | Single(message: Inbound) | Batch(messages: seq<Inbound>)

  /** A line that is answered without being dispatched. */
  function Refused(s: Server, body: Body): Server {
    s.(groups := s.groups + [Group(false, [Invalid(None)], [Refusal(None, body)], false)])
  }

  function Receive(s: Server, line: Line): Server {
    if s.closed then s
    else match line
    case Garbage => Refused(s, ParseError)
    case Single(m) => DispatchAll(s.(groups := s.groups + [Group(false, [], [], false)]), |s.groups|, [m])
    case Batch(messages) =>
      if messages == [] || |messages| > MAXIMUM_BATCH_MESSAGES then Refused(s, InvalidRequest)
      else DispatchAll(s.(groups := s.groups + [Group(true, [], [], false)]), |s.groups|, messages)
  }

  // ---- a call ends ----

  function Outcome(s: Server, key: Text, id: Id, ok: bool): Cell {
    if key in s.cancelled then Silent(Cancelled)
    else if ok then Answered(Reply(Some(id), Result))
    else if s.closed then Silent(CutOff)
    else Answered(Reply(Some(id), Failed))
  }

  predicate InTable(s: Server, key: Text) {
    && key in s.inFlight
    && var place := s.inFlight[key];
    && place.group < |s.groups| && place.index < |s.groups[place.group].cells|
    && s.groups[place.group].cells[place.index].Pending?
  }

  function Finish(s: Server, key: Text, ok: bool): Server {
    if !InTable(s, key) then s
    else
      var Place(g, i) := s.inFlight[key];
      var group := s.groups[g];
      s.(inFlight := s.inFlight - {key}, cancelled := s.cancelled - {key},
         groups := s.groups[g := group.(cells := group.cells[i := Outcome(s, key, group.cells[i].id, ok)])])
  }

  // ---- replies leave ----

  function Replies(cells: seq<Cell>): seq<Reply> {
    if cells == [] then []
    else (if cells[0].Answered? then [cells[0].reply] else []) + Replies(cells[1..])
  }

  predicate Settled(g: Group) { forall i :: 0 <= i < |g.cells| ==> !g.cells[i].Pending? }

  /** The message a settled group sends: none, one reply, or one array. */
  function MessageOf(g: Group): Option<Outgoing> {
    var replies := Replies(g.cells);
    if replies == [] then None
    else if g.batch then Some(Many(replies))
    else Some(One(replies[0]))
  }

  function Flush(s: Server, g: nat): Server {
    if g >= |s.groups| || s.groups[g].sent || !Settled(s.groups[g]) then s
    else
      var message := MessageOf(s.groups[g]);
      s.(groups := s.groups[g := s.groups[g].(sent := true)],
         outbox := s.outbox + if message.Some? then [Sent(g, message.value)] else [])
  }

  datatype Step = OnLine(line: Line) | OnEnd(key: Text, ok: bool) | OnFlush(group: nat) | OnClose

  function Take(s: Server, step: Step): Server {
    match step
    case OnLine(line) => Receive(s, line)
    case OnEnd(key, ok) => Finish(s, key, ok)
    case OnFlush(g) => Flush(s, g)
    case OnClose => s.(closed := true)
  }

  function Run(s: Server, steps: seq<Step>): Server
    decreases |steps|
  {
    if steps == [] then s else Run(Take(s, steps[0]), steps[1..])
  }

  // ---- the invariant ----

  predicate IsAt(s: Server, place: Place) {
    place.group < |s.groups| && place.index < |s.groups[place.group].cells|
  }

  function CellAt(s: Server, place: Place): Cell
    requires IsAt(s, place)
  {
    s.groups[place.group].cells[place.index]
  }

  /** The table and the pending cells name each other. */
  ghost predicate TableOk(s: Server) {
    && s.cancelled <= s.inFlight.Keys
    && |s.inFlight| <= MAXIMUM_CONCURRENT_REQUESTS
    && (forall k :: k in s.inFlight ==>
          && IsAt(s, s.inFlight[k]) && CellAt(s, s.inFlight[k]).Pending?
          && Key(CellAt(s, s.inFlight[k]).id) == k)
    && (forall p :: IsAt(s, p) && CellAt(s, p).Pending? ==>
          Key(CellAt(s, p).id) in s.inFlight && s.inFlight[Key(CellAt(s, p).id)] == p)
  }

  /** A request that ended was silenced exactly if a cancellation came while it was in flight. */
  ghost predicate CancelOk(s: Server) {
    && (forall p :: p in s.cancellations ==> IsAt(s, p))
    && (forall k :: k in s.inFlight ==> (k in s.cancelled <==> s.inFlight[k] in s.cancellations))
    && (forall p :: IsAt(s, p) && !CellAt(s, p).Pending? ==>
          (p in s.cancellations <==> CellAt(s, p) == Silent(Cancelled)))
  }

  /** A reply carries the id of its message; silence has a cause. */
  predicate CellOk(closed: bool, m: Inbound, c: Cell) {
    match m
    case Request(id) =>
      match c {
        case Pending(i) => i == id
        case Answered(reply) => reply.id == Some(id)
        case Silent(reason) => reason == Cancelled || (reason == CutOff && closed)
      }
    case Invalid(known) => c.Answered? && c.reply.id == known
    case _ => c == Silent(NoReplyDue)
  }

  ghost predicate GroupOk(closed: bool, g: Group) {
    && |g.inbound| == |g.cells| && (g.batch || |g.cells| <= 1)
    && (forall i :: 0 <= i < |g.cells| ==> CellOk(closed, g.inbound[i], g.cells[i]))
    && (g.sent ==> Settled(g))
  }

  /** The outbox holds, once each, the messages of the groups that were sent. */
  ghost predicate OutboxOk(s: Server) {
    && (forall i :: 0 <= i < |s.outbox| ==>
          && s.outbox[i].group < |s.groups| && s.groups[s.outbox[i].group].sent
          && MessageOf(s.groups[s.outbox[i].group]) == Some(s.outbox[i].message))
    && (forall i, j :: 0 <= i < j < |s.outbox| ==> s.outbox[i].group != s.outbox[j].group)
    && (forall g :: 0 <= g < |s.groups| && s.groups[g].sent && MessageOf(s.groups[g]).Some? ==>
          exists i :: 0 <= i < |s.outbox| && s.outbox[i].group == g)
  }

  ghost predicate Valid(s: Server) {
    TableOk(s) && CancelOk(s) && OutboxOk(s) && forall g :: 0 <= g < |s.groups| ==> GroupOk(s.closed, s.groups[g])
  }

  // ---- every step keeps it ----

  /** Groups that were sent do not change. */
  lemma OutboxKept(s: Server, t: Server)
    requires OutboxOk(s) && t.outbox == s.outbox && |s.groups| <= |t.groups|
    requires forall g :: 0 <= g < |s.groups| && s.groups[g].sent ==> t.groups[g] == s.groups[g]
    requires forall g :: 0 <= g < |t.groups| && t.groups[g].sent ==> g < |s.groups| && s.groups[g].sent
    ensures OutboxOk(t)
  {
    hide MessageOf;
  }

  /** Appending a cell to an open group. */
  function Appended(g: Group, m: Inbound, c: Cell): Group { g.(inbound := g.inbound + [m], cells := g.cells + [c]) }

  lemma DispatchShape(s: Server, g: nat, m: Inbound)
    requires g < |s.groups|
    ensures var t := Dispatch(s, g, m);
            && t.groups == s.groups[g := Appended(s.groups[g], m, CellFor(s, m))]
            && t.outbox == s.outbox && t.closed == s.closed
            && t.inFlight == (if CellFor(s, m).Pending? then s.inFlight[Key(m.id) := Place(g, |s.groups[g].cells|)]
                              else s.inFlight)
            && (if m.Cancel? && Key(m.target) in s.inFlight
                then && t.cancelled == s.cancelled + {Key(m.target)}
                     && t.cancellations == s.cancellations + {s.inFlight[Key(m.target)]}
                else t.cancelled == s.cancelled && t.cancellations == s.cancellations)
  {
    hide Key;
  }

  lemma PendingIsNew(s: Server, m: Inbound)
    ensures CellFor(s, m).Pending? ==>
              && m.Request? && CellFor(s, m) == Pending(m.id)
              && Key(m.id) !in s.inFlight && |s.inFlight| < MAXIMUM_CONCURRENT_REQUESTS
  {
    hide Key;
  }

  lemma DispatchTable(s: Server, g: nat, m: Inbound)
    requires g < |s.groups| && TableOk(s)
    ensures TableOk(Dispatch(s, g, m))
  {
    hide Dispatch, Key, CellFor, IsAt, CellAt;
    DispatchShape(s, g, m);
    PendingIsNew(s, m);
    var t, c := Dispatch(s, g, m), CellFor(s, m);
    var here := Place(g, |s.groups[g].cells|);
    AppendedCells(s, t, g, m, c);
    if c.Pending? {
      assert t.inFlight.Keys == s.inFlight.Keys + {Key(m.id)};
    }
    forall p | IsAt(t, p) && CellAt(t, p).Pending?
      ensures Key(CellAt(t, p).id) in t.inFlight && t.inFlight[Key(CellAt(t, p).id)] == p
    {
      if p != here { assert IsAt(s, p); }
    }
  }

  lemma DispatchCancel(s: Server, g: nat, m: Inbound)
    requires g < |s.groups| && TableOk(s) && CancelOk(s)
    ensures CancelOk(Dispatch(s, g, m))
  {
    hide Dispatch, Key, IsAt, CellAt, CellFor;
    DispatchShape(s, g, m);
    PendingIsNew(s, m);
    NotCancelledCell(s, m);
    var t, c := Dispatch(s, g, m), CellFor(s, m);
    AppendedCells(s, t, g, m, c);
    if m.Cancel? && Key(m.target) in s.inFlight {
      var k := Key(m.target);
      assert forall j :: j in s.inFlight && j != k ==> s.inFlight[j] != s.inFlight[k];
    }
  }

  lemma NotCancelledCell(s: Server, m: Inbound)
    ensures CellFor(s, m) != Silent(Cancelled) && (m.Cancel? ==> CellFor(s, m) == Silent(NoReplyDue))
  {
  }

  lemma AppendedCells(s: Server, t: Server, g: nat, m: Inbound, c: Cell)
    requires g < |s.groups| && t.groups == s.groups[g := Appended(s.groups[g], m, c)]
    ensures var here := Place(g, |s.groups[g].cells|);
            && IsAt(t, here) && CellAt(t, here) == c && !IsAt(s, here)
            && (forall p :: IsAt(t, p) <==> IsAt(s, p) || p == here)
            && (forall p :: IsAt(s, p) ==> CellAt(t, p) == CellAt(s, p))
  {
  }

  lemma CellForOk(s: Server, m: Inbound)
    ensures CellOk(s.closed, m, CellFor(s, m))
  {
  }

  lemma DispatchKeeps(s: Server, g: nat, m: Inbound)
    requires Valid(s) && g < |s.groups| && !s.groups[g].sent && (s.groups[g].batch || s.groups[g].cells == [])
    ensures var t := Dispatch(s, g, m);
            && Valid(t) && |t.groups| == |s.groups|
            && !t.groups[g].sent && t.groups[g].batch == s.groups[g].batch
            && |t.groups[g].cells| == |s.groups[g].cells| + 1
  {
    hide Dispatch, TableOk, CancelOk, OutboxOk, CellFor, CellOk, Key;
    DispatchShape(s, g, m);
    DispatchTable(s, g, m);
    DispatchCancel(s, g, m);
    CellForOk(s, m);
    OutboxKept(s, Dispatch(s, g, m));
  }

  lemma {:induction false} DispatchAllKeeps(s: Server, g: nat, messages: seq<Inbound>)
    requires Valid(s) && g < |s.groups| && !s.groups[g].sent
    requires s.groups[g].batch || |s.groups[g].cells| + |messages| <= 1
    ensures Valid(DispatchAll(s, g, messages))
    decreases |messages|
  {
    if messages != [] {
      hide Valid, Dispatch;
      DispatchKeeps(s, g, messages[0]);
      DispatchAllKeeps(Dispatch(s, g, messages[0]), g, messages[1..]);
    }
  }

  /** A new group whose cells are settled, or which has none yet. */
  lemma NewGroupKeeps(s: Server, group: Group)
    requires Valid(s) && GroupOk(s.closed, group) && !group.sent && Settled(group) && Silent(Cancelled) !in group.cells
    ensures Valid(s.(groups := s.groups + [group]))
  {
    var t := s.(groups := s.groups + [group]);
    hide CellOk, MessageOf;
    OutboxKept(s, t);
    forall p | IsAt(t, p) && CellAt(t, p).Pending? ensures IsAt(s, p) && CellAt(s, p) == CellAt(t, p) {
    }
    forall p | IsAt(s, p) ensures IsAt(t, p) && CellAt(t, p) == CellAt(s, p) {
    }
    forall p | IsAt(t, p) && !IsAt(s, p) ensures CellAt(t, p) in group.cells {
      assert p.group == |s.groups|;
    }
  }

  lemma ReceiveKeeps(s: Server, line: Line)
    requires Valid(s)
    ensures Valid(Receive(s, line))
  {
    hide Valid, DispatchAll;
    if !s.closed {
      var open := Group(line.Batch?, [], [], false);
      match line
      case Garbage =>
        NewGroupKeeps(s, Group(false, [Invalid(None)], [Refusal(None, ParseError)], false));
      case Single(m) =>
        NewGroupKeeps(s, open);
        DispatchAllKeeps(s.(groups := s.groups + [open]), |s.groups|, [m]);
      case Batch(messages) =>
        NewGroupKeeps(s, Group(false, [Invalid(None)], [Refusal(None, InvalidRequest)], false));
        NewGroupKeeps(s, open);
        DispatchAllKeeps(s.(groups := s.groups + [open]), |s.groups|, messages);
    }
  }

  lemma FinishTable(s: Server, key: Text, ok: bool)
    requires TableOk(s) && InTable(s, key)
    ensures TableOk(Finish(s, key, ok))
  {
    hide Finish, Outcome, Key;
    FinishShape(s, key, ok);
    var t, here := Finish(s, key, ok), s.inFlight[key];
    forall p ensures IsAt(t, p) <==> IsAt(s, p) {
    }
    forall p | IsAt(s, p) && p != here ensures CellAt(t, p) == CellAt(s, p) {
    }
    assert !CellAt(t, here).Pending?;
    assert t.inFlight.Keys == s.inFlight.Keys - {key};
    forall k | k in t.inFlight ensures IsAt(t, t.inFlight[k]) && CellAt(t, t.inFlight[k]) == CellAt(s, s.inFlight[k]) {
      assert Key(CellAt(s, s.inFlight[k]).id) == k && Key(CellAt(s, here).id) == key;
    }
  }

  lemma FinishCancel(s: Server, key: Text, ok: bool)
    requires TableOk(s) && CancelOk(s) && InTable(s, key)
    ensures CancelOk(Finish(s, key, ok))
  {
    hide Finish, Outcome, Key;
    FinishShape(s, key, ok);
    var t, here := Finish(s, key, ok), s.inFlight[key];
    forall p ensures IsAt(t, p) <==> IsAt(s, p) {
    }
    forall p | IsAt(s, p) && p != here ensures CellAt(t, p) == CellAt(s, p) {
    }
  }

  lemma FinishShape(s: Server, key: Text, ok: bool)
    requires InTable(s, key)
    ensures var t, here := Finish(s, key, ok), s.inFlight[key];
            var cell := Outcome(s, key, CellAt(s, here).id, ok);
            && t == Server(s.inFlight - {key}, s.cancelled - {key}, s.closed, t.groups, s.outbox, s.cancellations)
            && (cell == Silent(Cancelled) <==> key in s.cancelled)
            && |t.groups| == |s.groups| && !cell.Pending?
            && t.groups[here.group] == s.groups[here.group].(cells := s.groups[here.group].cells[here.index := cell])
            && forall g :: 0 <= g < |s.groups| && g != here.group ==> t.groups[g] == s.groups[g]
  {
  }

  lemma FinishKeeps(s: Server, key: Text, ok: bool)
    requires Valid(s)
    ensures Valid(Finish(s, key, ok))
  {
    hide TableOk, CancelOk, OutboxOk, GroupOk, Outcome, Key, Settled;
    if InTable(s, key) {
      FinishTable(s, key, ok);
      FinishCancel(s, key, ok);
      FinishShape(s, key, ok);
      var t, here := Finish(s, key, ok), s.inFlight[key];
      FinishGroup(s, key, ok);
      OutboxKept(s, t);
    }
  }

  lemma FinishGroup(s: Server, key: Text, ok: bool)
    requires InTable(s, key) && GroupOk(s.closed, s.groups[s.inFlight[key].group])
    ensures var t, g := Finish(s, key, ok), s.inFlight[key].group;
            GroupOk(s.closed, t.groups[g]) && !s.groups[g].sent && !t.groups[g].sent
  {
    hide Finish;
    FinishShape(s, key, ok);
    var here := s.inFlight[key];
    var group := s.groups[here.group];
    assert !Settled(group);
    assert CellOk(s.closed, group.inbound[here.index], group.cells[here.index]);
  }

  lemma FlushKeeps(s: Server, g: nat)
    requires Valid(s)
    ensures Valid(Flush(s, g))
  {
    hide MessageOf, CellOk, Key;
    var t := Flush(s, g);
    if t != s {
      assert |t.groups| == |s.groups| && t.groups[g] == s.groups[g].(sent := true);
      assert forall h :: 0 <= h < |s.groups| && h != g ==> t.groups[h] == s.groups[h];
      forall p ensures (IsAt(t, p) <==> IsAt(s, p)) && (IsAt(s, p) ==> CellAt(t, p) == CellAt(s, p)) {
      }
      assert TableOk(t);
      assert CancelOk(t);
      FlushOutbox(s, g);
    }
  }

  lemma MessageIgnoresSent(g: Group)
    ensures MessageOf(g.(sent := true)) == MessageOf(g)
  {
  }

  lemma FlushOutbox(s: Server, g: nat)
    requires OutboxOk(s) && g < |s.groups| && !s.groups[g].sent && Settled(s.groups[g])
    ensures OutboxOk(Flush(s, g))
  {
    hide MessageOf, Settled;
    var t := Flush(s, g);
    MessageIgnoresSent(s.groups[g]);
    assert forall i :: 0 <= i < |s.outbox| ==> t.outbox[i] == s.outbox[i];
    forall h | 0 <= h < |t.groups| && t.groups[h].sent && MessageOf(t.groups[h]).Some?
      ensures exists i :: 0 <= i < |t.outbox| && t.outbox[i].group == h
    {
      if h == g {
        assert t.outbox[|s.outbox|].group == g;
      } else {
        var i :| 0 <= i < |s.outbox| && s.outbox[i].group == h;
        assert t.outbox[i].group == h;
      }
    }
  }

  lemma CloseKeeps(s: Server)
    requires Valid(s)
    ensures Valid(s.(closed := true))
  {
    var t := s.(closed := true);
    OutboxKept(s, t);
    hide MessageOf;
    forall p ensures (IsAt(t, p) <==> IsAt(s, p)) && (IsAt(s, p) ==> CellAt(t, p) == CellAt(s, p)) {
    }
  }

  lemma {:induction false} RunKeeps(s: Server, steps: seq<Step>)
    requires Valid(s)
    ensures Valid(Run(s, steps))
    decreases |steps|
  {
    if steps != [] {
      hide Valid, Receive, Finish, Flush;
      var step := steps[0];
      match step {
        case OnLine(line) => ReceiveKeeps(s, line);
        case OnEnd(key, ok) => FinishKeeps(s, key, ok);
        case OnFlush(g) => FlushKeeps(s, g);
        case OnClose => CloseKeeps(s);
      }
      RunKeeps(Take(s, step), steps[1..]);
    }
  }

  /** Every reachable state is valid. */
  lemma ReachableIsValid(steps: seq<Step>)
    ensures Valid(Run(START, steps))
  {
    hide Run;
    assert Valid(START);
    RunKeeps(START, steps);
  }

  // ---- what it means ----

  /** A request refused as duplicate or busy changes nothing but its own answer. */
  lemma RefusedKeepsSlots(s: Server, g: nat, m: Inbound)
    requires g < |s.groups| && m.Request? && CellFor(s, m).Answered?
    ensures var t := Dispatch(s, g, m);
            && t.inFlight == s.inFlight && t.cancelled == s.cancelled && t.outbox == s.outbox
            && CellFor(s, m).reply.id == Some(m.id)
  {
    hide Key, Dispatch;
    DispatchShape(s, g, m);
  }

  /** Ending one call keeps all other slots. */
  lemma FinishKeepsOthers(s: Server, key: Text, ok: bool, other: Text)
    requires other != key && other in s.inFlight
    ensures var t := Finish(s, key, ok);
            other in t.inFlight && t.inFlight[other] == s.inFlight[other]
            && (other in t.cancelled <==> other in s.cancelled)
  {
    hide Outcome;
  }

  /** When no call is in flight, nothing is owed. */
  lemma IdleIsSettled(s: Server)
    requires Valid(s) && s.inFlight == map[]
    ensures forall g :: 0 <= g < |s.groups| ==> Settled(s.groups[g])
  {
    hide GroupOk, OutboxOk, CancelOk, Key;
    forall g, i | 0 <= g < |s.groups| && 0 <= i < |s.groups[g].cells| ensures !s.groups[g].cells[i].Pending? {
      assert IsAt(s, Place(g, i)) && CellAt(s, Place(g, i)) == s.groups[g].cells[i];
    }
  }

  lemma {:induction false} AnswerIsAmongReplies(cells: seq<Cell>, i: nat)
    requires i < |cells| && cells[i].Answered?
    ensures cells[i].reply in Replies(cells)
  {
    if i > 0 {
      AnswerIsAmongReplies(cells[1..], i - 1);
    }
  }

  predicate Carries(message: Outgoing, reply: Reply) {
    match message
    case One(r) => r == reply
    case Many(replies) => reply in replies
  }

  /**
   The reply to a request of a group that was sent: exactly one message left for the group, and it
   carries the request's own answer, unless the request was cancelled in flight or cut off by close.
   */
  lemma EveryRequestIsAnswered(s: Server, g: nat, i: nat)
    requires Valid(s) && g < |s.groups| && s.groups[g].sent && i < |s.groups[g].cells|
    requires s.groups[g].inbound[i].Request?
    ensures var c := s.groups[g].cells[i];
            || (c == Silent(Cancelled) && Place(g, i) in s.cancellations)
            || (c == Silent(CutOff) && s.closed)
            || (c.Answered? && c.reply.id == Some(s.groups[g].inbound[i].id)
                && exists j :: 0 <= j < |s.outbox| && s.outbox[j].group == g && Carries(s.outbox[j].message, c.reply)
                               && forall k :: 0 <= k < |s.outbox| && s.outbox[k].group == g ==> k == j)
  {
    hide TableOk;
    var group := s.groups[g];
    var c := group.cells[i];
    assert CellOk(s.closed, group.inbound[i], c) && Settled(group);
    assert IsAt(s, Place(g, i)) && CellAt(s, Place(g, i)) == c;
    if c.Answered? {
      AnswerIsAmongReplies(group.cells, i);
      SingleReply(group);
      var j :| 0 <= j < |s.outbox| && s.outbox[j].group == g;
      assert MessageOf(group) == Some(s.outbox[j].message);
      assert forall k :: 0 <= k < |s.outbox| && s.outbox[k].group == g ==> k == j;
    }
  }

  /** A line that is not a batch has at most one reply. */
  lemma SingleReply(g: Group)
    requires GroupOk(false, g) || GroupOk(true, g)
    ensures !g.batch ==> |Replies(g.cells)| <= 1
  {
    if !g.batch && g.cells != [] {
      assert g.cells[1..] == [];
    }
  }

  /** How many of the first `i` messages are answered: the place of the reply to message `i` in the array. */
  function Position(cells: seq<Cell>, i: nat): nat
    requires i <= |cells|
  {
    if i == 0 then 0 else Position(cells, i - 1) + if cells[i - 1].Answered? then 1 else 0
  }

  lemma {:induction false} PositionShift(cells: seq<Cell>, i: nat)
    requires 0 < i <= |cells|
    ensures Position(cells, i) == Position(cells[1..], i - 1) + if cells[0].Answered? then 1 else 0
  {
    if i > 1 { PositionShift(cells, i - 1); }
  }

  lemma {:induction false} PositionGrows(cells: seq<Cell>, i: nat, j: nat)
    requires i <= j <= |cells|
    ensures Position(cells, i) <= Position(cells, j)
    ensures i < j && cells[i].Answered? ==> Position(cells, i) < Position(cells, j)
  {
    if i < j { PositionGrows(cells, i, j - 1); }
  }

  /** The array has one place for each answered message, in order, and nothing else. */
  lemma {:induction false} RepliesInOrder(cells: seq<Cell>)
    ensures |Replies(cells)| == Position(cells, |cells|)
    ensures forall i :: 0 <= i < |cells| && cells[i].Answered? ==>
              Position(cells, i) < |Replies(cells)| && Replies(cells)[Position(cells, i)] == cells[i].reply
    ensures forall i, j :: 0 <= i < j < |cells| && cells[i].Answered? ==> Position(cells, i) < Position(cells, j)
    decreases |cells|
  {
    if cells != [] {
      var rest := cells[1..];
      RepliesInOrder(rest);
      PositionShift(cells, |cells|);
      forall i | 0 <= i < |cells| && cells[i].Answered?
        ensures Position(cells, i) < |Replies(cells)| && Replies(cells)[Position(cells, i)] == cells[i].reply
      {
        if i > 0 {
          PositionShift(cells, i);
          assert rest[i - 1] == cells[i];
        }
      }
      forall i, j | 0 <= i < j < |cells| && cells[i].Answered? ensures Position(cells, i) < Position(cells, j) {
        PositionGrows(cells, i, j);
      }
    }
  }

  // ---- closing ----

  /** The calls whose signal is aborted: those cancelled, and all of them once the server is closed. */
  function Signalled(s: Server): set<Text> { if s.closed then s.inFlight.Keys else s.cancelled }

  lemma ClosedStep(s: Server, step: Step)
    requires s.closed
    ensures var t := Take(s, step);
            t.closed && t.inFlight.Keys <= s.inFlight.Keys && |t.groups| == |s.groups|
    ensures step.OnEnd? && InTable(s, step.key) ==> Take(s, step).inFlight.Keys == s.inFlight.Keys - {step.key}
  {
    hide Outcome;
  }

  /** What `close` waits for can only shrink: nothing is admitted after it, and each end takes one call away. */
  lemma {:induction false} CloseDrains(s: Server, steps: seq<Step>)
    requires s.closed
    ensures var t := Run(s, steps);
            t.closed && t.inFlight.Keys <= s.inFlight.Keys && |t.groups| == |s.groups|
    decreases |steps|
  {
    hide Take;
    if steps != [] {
      ClosedStep(s, steps[0]);
      CloseDrains(Take(s, steps[0]), steps[1..]);
    }
  }

  // ---- the object ----

  class SedesMcpServer {
    var inFlight: map<Text, Place>
    var cancelled: set<Text>
    var closed: bool
    var groups: seq<Group>
    var aborted: set<Text>
    ghost var outbox: seq<Sent>
    ghost var cancellations: set<Place>

    ghost function State(): Server
      reads this
    {
      Server(inFlight, cancelled, closed, groups, outbox, cancellations)
    }

    /** The signals agree with the table. */
    ghost predicate Tied()
      reads this
    {
      aborted == Signalled(State())
    }

    constructor ()
      ensures State() == START && Valid(State()) && Tied()
    {
      inFlight, cancelled, closed, groups, outbox, cancellations := map[], {}, false, [], [], {};
      aborted := {};
    }

    /** Every call in flight is aborted. */
    method Close()
      modifies this`closed, this`aborted
      ensures State() == Take(old(State()), OnClose) && Tied() && aborted == inFlight.Keys
    {
      closed := true;
      aborted := inFlight.Keys;
    }

    method DispatchOne(g: nat, m: Inbound)
      requires g < |groups| && !closed && Tied()
      modifies this
      ensures State() == Dispatch(old(State()), g, m) && Tied()
    {
      var place := Place(g, |groups[g].cells|);
      var cell := Silent(NoReplyDue);
      match m {
        case Request(id) =>
          var key := Key(id);
          if key in inFlight {
            cell := Refusal(Some(id), InvalidRequest);
          } else if |inFlight| >= MAXIMUM_CONCURRENT_REQUESTS {
            cell := Refusal(Some(id), Busy);
          } else {
            inFlight := inFlight[key := place];
            cell := Pending(id);
          }
        case Cancel(target) =>
          var key := Key(target);
          if key in inFlight {
            cancelled := cancelled + {key};
            cancellations := cancellations + {inFlight[key]};
            aborted := aborted + {key};
          }
        case Invalid(known) => cell := Refusal(known, InvalidRequest);
        case Notification =>
        case Response =>
      }
      var group := groups[g];
      groups := groups[g := group.(inbound := group.inbound + [m], cells := group.cells + [cell])];
    }

    method ReceiveLine(line: Line)
      requires Tied()
      modifies this
      ensures State() == Receive(old(State()), line) && Tied()
    {
      if closed { return; }
      hide Dispatch;
      match line
      case Garbage =>
        groups := groups + [Group(false, [Invalid(None)], [Refusal(None, ParseError)], false)];
      case Single(m) =>
        groups := groups + [Group(false, [], [], false)];
        DispatchLoop(|groups| - 1, [m]);
      case Batch(messages) =>
        if messages == [] || |messages| > MAXIMUM_BATCH_MESSAGES {
          groups := groups + [Group(false, [Invalid(None)], [Refusal(None, InvalidRequest)], false)];
        } else {
          groups := groups + [Group(true, [], [], false)];
          DispatchLoop(|groups| - 1, messages);
        }
    }

    method DispatchLoop(g: nat, messages: seq<Inbound>)
      requires g < |groups| && !closed && Tied()
      modifies this
      ensures State() == DispatchAll(old(State()), g, messages) && Tied()
    {
      hide Dispatch;
      ghost var start := State();
      var i := 0;
      assert messages[0..] == messages;
      while i < |messages|
        invariant 0 <= i <= |messages| && g < |groups| && !closed && Tied()
        invariant DispatchAll(State(), g, messages[i..]) == DispatchAll(start, g, messages)
      {
        assert messages[i..][0] == messages[i] && messages[i..][1..] == messages[i + 1..];
        DispatchShape(State(), g, messages[i]);
        DispatchOne(g, messages[i]);
        i := i + 1;
      }
    }

    /** The end of `#request`: the reply is decided, then the slot is given back. */
    method EndRequest(key: Text, ok: bool)
      requires InTable(State(), key) && Tied()
      modifies this
      ensures State() == Finish(old(State()), key, ok) && Tied()
    {
      var place := inFlight[key];
      var group := groups[place.group];
      var id := group.cells[place.index].id;
      var cell;
      if key in cancelled {
        cell := Silent(Cancelled);
      } else if ok {
        cell := Answered(Reply(Some(id), Result));
      } else if closed {
        cell := Silent(CutOff);
      } else {
        cell := Answered(Reply(Some(id), Failed));
      }
      inFlight := inFlight - {key};
      cancelled := cancelled - {key};
      aborted := aborted - {key};
      groups := groups[place.group := group.(cells := group.cells[place.index := cell])];
    }

    /** The replies of a line whose calls have all ended leave in one message, if there are any. */
    method SendReplies(g: nat)
      requires g < |groups| && !groups[g].sent && Settled(groups[g]) && Tied()
      modifies this`groups, this`outbox
      ensures State() == Flush(old(State()), g) && Tied()
    {
      var cells := groups[g].cells;
      var replies := [];
      var i := 0;
      assert cells[0..] == cells;
      while i < |cells|
        invariant 0 <= i <= |cells|
        invariant replies + Replies(cells[i..]) == Replies(cells)
      {
        assert cells[i..][1..] == cells[i + 1..];
        if cells[i].Answered? { replies := replies + [cells[i].reply]; }
        i := i + 1;
      }
      assert replies == Replies(cells);
      if replies != [] {
        outbox := outbox + [Sent(g, if groups[g].batch then Many(replies) else One(replies[0]))];
      }
      groups := groups[g := groups[g].(sent := true)];
    }

    method Perform(step: Step)
      requires Tied()
      modifies this
      ensures State() == Take(old(State()), step) && Tied()
    {
      hide Receive, Tied;
      match step {
        case OnLine(line) => ReceiveLine(line);
        case OnEnd(key, ok) =>
          if key in inFlight {
            var place := inFlight[key];
            if place.group < |groups| && place.index < |groups[place.group].cells|
               && groups[place.group].cells[place.index].Pending? {
              EndRequest(key, ok);
            }
          }
        case OnFlush(g) => if g < |groups| && !groups[g].sent && Settled(groups[g]) { SendReplies(g); }
        case OnClose => Close();
      }
    }
  }

  /** A server driven through any steps is where `Run` says, within the invariant, and aborts what it should. */
  method Serve(steps: seq<Step>) returns (server: SedesMcpServer)
    ensures fresh(server) && server.State() == Run(START, steps) && Valid(server.State())
    ensures server.aborted == (if server.closed then server.inFlight.Keys else server.cancelled) <= server.inFlight.Keys
  {
    hide Run, Take, Valid;
    server := new SedesMcpServer();
    NothingRun();
    assert steps[..0] == [];
    var i := 0;
    while i < |steps|
      invariant 0 <= i <= |steps| && fresh(server) && server.Tied()
      invariant server.State() == Run(START, steps[..i])
    {
      server.Perform(steps[i]);
      assert steps[..i + 1] == steps[..i] + [steps[i]];
      RunSnoc(START, steps[..i], steps[i]);
      i := i + 1;
    }
    assert steps[..i] == steps;
    ReachableIsValid(steps);
    SignalledInFlight(server.State());
  }

  lemma NothingRun()
    ensures Run(START, []) == START
  {
  }

  lemma SignalledInFlight(s: Server)
    requires Valid(s)
    ensures Signalled(s) <= s.inFlight.Keys
  {
  }

  lemma {:induction false} RunSnoc(s: Server, steps: seq<Step>, last: Step)
    ensures Run(s, steps + [last]) == Take(Run(s, steps), last)
    decreases |steps|
  {
    hide Take;
    if steps == [] {
      assert steps + [last] == [last] && [last][1..] == [];
    } else {
      assert (steps + [last])[1..] == steps[1..] + [last];
      RunSnoc(Take(s, steps[0]), steps[1..], last);
    }
  }
}
