/**
 What every received message is answered, told from the run: refusals are decided when the message arrives, and the
 first end that comes for an admitted call decides the rest (src/cli/sedes-mcp-server.ts).
 */
module McpHistory {
  import opened Wrappers
  import opened Utf16
  import opened McpServer

  // ---- one message arrives ----

  /** A call with this id is under way. */
  ghost predicate UnderWay(s: Server, id: Id) { exists p :: IsAt(s, p) && CellAt(s, p) == Pending(id) }

  /** The answer to a message at the moment it arrives; a request that is admitted has none yet. */
  ghost function AtArrival(s: Server, m: Inbound): Cell {
    match m
    case Request(id) =>
      if UnderWay(s, id) then Answered(Reply(Some(id), InvalidRequest))
      else if |s.inFlight| >= 16 then Answered(Reply(Some(id), Busy))
      else Pending(id)
    case Invalid(known) => Answered(Reply(known, InvalidRequest))
    case Cancel(_) => Silent(NoReplyDue)
    case Notification => Silent(NoReplyDue)
    case Response => Silent(NoReplyDue)
  }

  lemma UnderWayIsKey(s: Server, id: Id)
    requires TableOk(s)
    ensures UnderWay(s, id) <==> Key(id) in s.inFlight
  {
    hide Key;
    if Key(id) in s.inFlight {
      var p := s.inFlight[Key(id)];
      KeyInjective(CellAt(s, p).id, id);
      assert CellAt(s, p) == Pending(id);
    }
  }

  /** The in-flight calls at their places: exactly the pending ones. */
  lemma ArrivesExactly(s: Server, g: nat, m: Inbound)
    requires Valid(s) && g < |s.groups|
    ensures var t, here := Dispatch(s, g, m), Place(g, |s.groups[g].cells|);
            && t.groups == s.groups[g := Appended(s.groups[g], m, AtArrival(s, m))]
            && (forall p :: (p in t.cancellations <==>
                  p in s.cancellations || (m.Cancel? && IsAt(s, p) && CellAt(s, p) == Pending(m.target))))
            && t.closed == s.closed && t.outbox == s.outbox
            && |t.inFlight| == |s.inFlight| + (if AtArrival(s, m).Pending? then 1 else 0)
  {
    hide Dispatch, Key, OutboxOk, GroupOk, CancelOk, UnderWay;
    DispatchShape(s, g, m);
    match m
    case Request(id) => UnderWayIsKey(s, id);
    case Cancel(target) =>
      forall p
        ensures Key(target) in s.inFlight && p == s.inFlight[Key(target)] <==> IsAt(s, p) && CellAt(s, p) == Pending(target)
      {
        CalledAt(s, target, p);
      }
    case _ =>
  }

  lemma CalledAt(s: Server, id: Id, p: Place)
    requires TableOk(s)
    ensures Key(id) in s.inFlight && p == s.inFlight[Key(id)] <==> IsAt(s, p) && CellAt(s, p) == Pending(id)
  {
    hide Key;
    if Key(id) in s.inFlight && p == s.inFlight[Key(id)] {
      KeyInjective(CellAt(s, p).id, id);
    }
  }

  // ---- a line arrives ----

  /** The messages of a line that is taken apart: one message, or a batch of 1 to 32. */
  ghost predicate TakenApart(line: Line, messages: seq<Inbound>) {
    || (line.Single? && messages == [line.message])
    || (line.Batch? && messages == line.messages && 1 <= |messages| <= 32)
  }

  /** The server after the first `i` messages of a line. */
  function During(s: Server, line: Line, messages: seq<Inbound>, i: nat): Server
    requires i <= |messages|
  {
    DispatchAll(s.(groups := s.groups + [Group(line.Batch?, [], [], false)]), |s.groups|, messages[..i])
  }

  lemma {:induction false} DispatchAllSnoc(s: Server, g: nat, messages: seq<Inbound>, last: Inbound)
    requires g < |s.groups|
    ensures g < |DispatchAll(s, g, messages).groups|
    ensures DispatchAll(s, g, messages + [last]) == Dispatch(DispatchAll(s, g, messages), g, last)
    decreases |messages|
  {
    hide Dispatch;
    if messages == [] {
      assert messages + [last] == [last] && [last][1..] == [];
    } else {
      DispatchShape(s, g, messages[0]);
      assert (messages + [last])[1..] == messages[1..] + [last];
      DispatchAllSnoc(Dispatch(s, g, messages[0]), g, messages[1..], last);
    }
  }

  /** After `i` messages the new group has those messages and their answers at arrival. */
  ghost predicate LineSoFar(s: Server, line: Line, messages: seq<Inbound>, i: nat)
    requires i <= |messages|
  {
    var t, g := During(s, line, messages, i), |s.groups|;
    && Valid(t) && |t.groups| == g + 1 && t.groups[..g] == s.groups && t.closed == s.closed && t.outbox == s.outbox
    && t.groups[g].batch == line.Batch? && !t.groups[g].sent
    && t.groups[g].inbound == messages[..i] && |t.groups[g].cells| == i
    && forall j :: 0 <= j < i ==> t.groups[g].cells[j] == AtArrival(During(s, line, messages, j), messages[j])
  }

  lemma {:induction false} LineIsAnswered(s: Server, line: Line, messages: seq<Inbound>, i: nat)
    requires Valid(s) && TakenApart(line, messages) && i <= |messages|
    ensures LineSoFar(s, line, messages, i)
    decreases i
  {
    hide Valid, Dispatch, AtArrival, DispatchAll;
    var open := s.(groups := s.groups + [Group(line.Batch?, [], [], false)]);
    var g := |s.groups|;
    if i == 0 {
      NothingDispatched(open, g);
      assert messages[..0] == [];
      assert Valid(open) by { OpenGroupKeeps(s, line); }
    } else {
      LineIsAnswered(s, line, messages, i - 1);
      var before, m := During(s, line, messages, i - 1), messages[i - 1];
      assert messages[..i] == messages[..i - 1] + [m];
      DispatchAllSnoc(open, g, messages[..i - 1], m);
      DispatchKeeps(before, g, m);
      ArrivesExactly(before, g, m);
    }
  }

  lemma NothingDispatched(s: Server, g: nat)
    requires g < |s.groups|
    ensures DispatchAll(s, g, []) == s
  {
  }

  lemma OpenGroupKeeps(s: Server, line: Line)
    requires Valid(s)
    ensures Valid(s.(groups := s.groups + [Group(line.Batch?, [], [], false)]))
  {
    hide Valid;
    NewGroupKeeps(s, Group(line.Batch?, [], [], false));
  }

  /** What a line does: nothing once closed; one refusal when it does not parse or is no batch; else its messages in turn. */
  lemma LineExactly(s: Server, line: Line, messages: seq<Inbound>)
    requires Valid(s)
    ensures s.closed ==> Take(s, OnLine(line)) == s
    ensures !s.closed && TakenApart(line, messages) ==> Take(s, OnLine(line)) == During(s, line, messages, |messages|)
    ensures var refused := Group(false, [Invalid(None)], [Answered(Reply(None, ParseError))], false);
            !s.closed && line.Garbage? ==> Take(s, OnLine(line)) == s.(groups := s.groups + [refused])
    ensures var refused := Group(false, [Invalid(None)], [Answered(Reply(None, InvalidRequest))], false);
            !s.closed && line.Batch? && (line.messages == [] || |line.messages| > 32) ==>
              Take(s, OnLine(line)) == s.(groups := s.groups + [refused])
  {
    hide Valid, DispatchAll;
    assert messages[..|messages|] == messages;
  }

  // ---- a call ends ----

  /** This step ends the call at `p`. */
  ghost predicate Ends(s: Server, step: Step, p: Place) {
    step.OnEnd? && IsAt(s, p) && CellAt(s, p).Pending? && Key(CellAt(s, p).id) == step.key
  }

  /** Cancelled calls are silent; a good end is the result; a bad end is an error, unless the server has closed. */
  ghost function AtEnd(s: Server, p: Place, id: Id, ok: bool): Cell {
    if p in s.cancellations then Silent(Cancelled)
    else if ok then Answered(Reply(Some(id), Result))
    else if s.closed then Silent(CutOff)
    else Answered(Reply(Some(id), Failed))
  }

  /** The answer to the call at `p`: the first end that comes for it decides. */
  ghost function Fate(s: Server, steps: seq<Step>, p: Place, id: Id): Cell
    decreases |steps|
  {
    if steps == [] then Pending(id)
    else if Ends(s, steps[0], p) then AtEnd(s, p, id, steps[0].ok)
    else Fate(Take(s, steps[0]), steps[1..], p, id)
  }

  /** One step changes the answers of earlier messages only by ending a call. */
  lemma StepDecides(s: Server, step: Step, p: Place)
    requires Valid(s) && IsAt(s, p)
    ensures IsAt(Take(s, step), p) && Take(s, step).groups[p.group].inbound == s.groups[p.group].inbound
    ensures CellAt(Take(s, step), p) ==
              if Ends(s, step, p) then AtEnd(s, p, CellAt(s, p).id, step.ok) else CellAt(s, p)
  {
    hide Key, Receive, Finish, Outcome, OutboxOk, GroupOk;
    match step
    case OnLine(line) => LineKeepsEarlier(s, line, p);
    case OnEnd(key, ok) => EndDecides(s, key, ok, p);
    case OnFlush(g) =>
    case OnClose =>
  }

  lemma LineKeepsEarlier(s: Server, line: Line, p: Place)
    requires Valid(s) && IsAt(s, p)
    ensures var t := Receive(s, line);
            IsAt(t, p) && CellAt(t, p) == CellAt(s, p) && t.groups[p.group] == s.groups[p.group]
  {
    hide Valid, AtArrival, During;
    var messages := if line.Single? then [line.message] else if line.Batch? then line.messages else [];
    LineExactly(s, line, messages);
    if TakenApart(line, messages) {
      LineIsAnswered(s, line, messages, |messages|);
      var t := During(s, line, messages, |messages|);
      assert t.groups[..|s.groups|][p.group] == t.groups[p.group];
    }
  }

  lemma EndDecides(s: Server, key: Text, ok: bool, p: Place)
    requires Valid(s) && IsAt(s, p)
    ensures var t := Finish(s, key, ok);
            && IsAt(t, p) && t.groups[p.group].inbound == s.groups[p.group].inbound
            && CellAt(t, p) == if Ends(s, OnEnd(key, ok), p) then AtEnd(s, p, CellAt(s, p).id, ok) else CellAt(s, p)
  {
    hide Key, OutboxOk, GroupOk;
    if InTable(s, key) {
      assert p == s.inFlight[key] <==> CellAt(s, p).Pending? && Key(CellAt(s, p).id) == key;
    }
  }

  lemma StepKeeps(s: Server, step: Step)
    requires Valid(s)
    ensures Valid(Take(s, step))
  {
    hide Valid, Take, Run;
    RunKeeps(s, [step]);
    RunOne(s, step);
  }

  lemma RunOne(s: Server, step: Step)
    ensures Run(s, [step]) == Take(s, step)
  {
    hide Take;
    assert [step][1..] == [];
  }

  lemma {:induction false} CallsEnd(s: Server, steps: seq<Step>, p: Place)
    requires Valid(s) && IsAt(s, p)
    ensures IsAt(Run(s, steps), p)
    ensures CellAt(Run(s, steps), p) ==
              if CellAt(s, p).Pending? then Fate(s, steps, p, CellAt(s, p).id) else CellAt(s, p)
    decreases |steps|
  {
    hide Valid, Take, Ends, AtEnd, IsAt, CellAt;
    if steps != [] {
      StepDecides(s, steps[0], p);
      StepKeeps(s, steps[0]);
      EndIsFinal(s, steps[0], p);
      CallsEnd(Take(s, steps[0]), steps[1..], p);
    }
  }

  lemma EndIsFinal(s: Server, step: Step, p: Place)
    requires IsAt(s, p)
    ensures Ends(s, step, p) ==> CellAt(s, p).Pending? && !AtEnd(s, p, CellAt(s, p).id, step.ok).Pending?
  {
  }

  /** The place of the message that arrives as number `i` of the line at step `k`. */
  ghost predicate Arrives(steps: seq<Step>, k: nat, i: nat, messages: seq<Inbound>) {
    && k < |steps| && steps[k].OnLine? && !Run(START, steps[..k]).closed
    && TakenApart(steps[k].line, messages) && i < |messages|
  }

  /**
   In every run: what a message is answered is what was decided when it arrived, and for a call that was admitted then
   what its end decides; no later step changes it.
   */
  lemma AnsweredExactly(steps: seq<Step>, k: nat, i: nat, messages: seq<Inbound>)
    requires Arrives(steps, k, i, messages)
    ensures var before := Run(START, steps[..k]);
            var after := Take(before, steps[k]);
            var p, s := Place(|before.groups|, i), Run(START, steps);
            var first := AtArrival(During(before, steps[k].line, messages, i), messages[i]);
            && IsAt(s, p)
            && CellAt(s, p) == if first.Pending? then Fate(after, steps[k + 1..], p, first.id) else first
  {
    hide Valid, Take, Run, Fate, AtArrival, During, IsAt, CellAt;
    var before := Run(START, steps[..k]);
    var line, g := steps[k].line, |before.groups|;
    ReachableIsValid(steps[..k]);
    LineExactly(before, line, messages);
    LineIsAnswered(before, line, messages, |messages|);
    var after := Take(before, steps[k]);
    assert IsAt(after, Place(g, i)) && CellAt(after, Place(g, i)) == after.groups[g].cells[i] by {
      NewPlace(after, g, i);
    }
    CallsEnd(after, steps[k + 1..], Place(g, i));
    RunSplit(steps, k);
  }

  lemma NewPlace(s: Server, g: nat, i: nat)
    requires g < |s.groups| && i < |s.groups[g].cells|
    ensures IsAt(s, Place(g, i)) && CellAt(s, Place(g, i)) == s.groups[g].cells[i]
  {
  }

  lemma RunSplit(steps: seq<Step>, k: nat)
    requires k < |steps|
    ensures Run(START, steps) == Run(Take(Run(START, steps[..k]), steps[k]), steps[k + 1..])
  {
    RunConcat(START, steps[..k], steps[k..]);
    assert steps == steps[..k] + steps[k..];
    hide Take;
    assert steps[k..][1..] == steps[k + 1..];
  }

  lemma {:induction false} RunConcat(s: Server, a: seq<Step>, b: seq<Step>)
    ensures Run(s, a + b) == Run(Run(s, a), b)
    decreases |a|
  {
    hide Take;
    if a == [] {
      assert a + b == b;
    } else {
      assert (a + b)[1..] == a[1..] + b;
      RunConcat(Take(s, a[0]), a[1..], b);
    }
  }

  // ---- leaving and closing ----

  /** The answers of a line leave as soon as none is pending, once: an array for a batch, else the one reply. */
  lemma LeavesWhenSettled(s: Server, g: nat)
    requires Valid(s) && g < |s.groups| && !s.groups[g].sent
    ensures var t, cells := Take(s, OnFlush(g)), s.groups[g].cells;
            if exists i :: 0 <= i < |cells| && cells[i].Pending? then t == s
            else
              && t.groups == s.groups[g := s.groups[g].(sent := true)]
              && t.outbox == s.outbox +
                   if forall i :: 0 <= i < |cells| ==> !cells[i].Answered? then []
                   else if s.groups[g].batch then [Sent(g, Many(Replies(cells)))]
                   else [Sent(g, One(cells[0].reply))]
  {
    hide TableOk, CancelOk, OutboxOk, CellOk;
    NoReplies(s.groups[g].cells);
    if !s.groups[g].batch && s.groups[g].cells != [] {
      assert s.groups[g].cells[1..] == [];
    }
  }

  lemma {:induction false} NoReplies(cells: seq<Cell>)
    ensures Replies(cells) == [] <==> forall i :: 0 <= i < |cells| ==> !cells[i].Answered?
  {
    if cells != [] {
      NoReplies(cells[1..]);
      assert forall i :: 0 < i < |cells| ==> cells[i] == cells[1..][i - 1];
    }
  }

  /** The server is closed exactly from the close step on. */
  lemma ClosedExactly(steps: seq<Step>)
    ensures Run(START, steps).closed <==> OnClose in steps
  {
    hide Run;
    ClosedFrom(START, steps);
  }

  lemma {:induction false} ClosedFrom(s: Server, steps: seq<Step>)
    ensures Run(s, steps).closed <==> s.closed || OnClose in steps
    decreases |steps|
  {
    if steps != [] {
      StepCloses(s, steps[0]);
      hide Take;
      ClosedFrom(Take(s, steps[0]), steps[1..]);
    }
  }

  lemma StepCloses(s: Server, step: Step)
    ensures Take(s, step).closed <==> s.closed || step == OnClose
  {
    hide Dispatch, Outcome, DispatchAll;
    if step.OnLine? && !s.closed {
      match step.line
      case Garbage =>
      case Single(m) => AllKeepOpen(s.(groups := s.groups + [Group(false, [], [], false)]), |s.groups|, [m]);
      case Batch(messages) => AllKeepOpen(s.(groups := s.groups + [Group(true, [], [], false)]), |s.groups|, messages);
    }
  }

  lemma {:induction false} AllKeepOpen(s: Server, g: nat, messages: seq<Inbound>)
    requires g < |s.groups|
    ensures DispatchAll(s, g, messages).closed == s.closed
    decreases |messages|
  {
    hide Dispatch;
    if messages != [] {
      DispatchShape(s, g, messages[0]);
      AllKeepOpen(Dispatch(s, g, messages[0]), g, messages[1..]);
    }
  }
}
