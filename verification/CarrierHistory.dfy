/**
 What the byte carrier has accepted, admitted and sent, and why it ended, told from the steps of a run alone: the
 limits are written out, and nothing refers to how a step is taken.
 */
module CarrierHistory {
  import opened Utf16
  import opened ByteCarrier

  /** The run without its last step. */
  function Before(steps: seq<Step>): Carrier
    requires steps != []
  {
    Reached(steps[..|steps| - 1])
  }

  function Last(steps: seq<Step>): Step
    requires steps != []
  {
    steps[|steps| - 1]
  }

  lemma ReachedSnoc(steps: seq<Step>)
    requires steps != []
    ensures Reached(steps) == Take(Before(steps), Last(steps))
  {
    var init := steps[..|steps| - 1];
    assert steps == init + [Last(steps)];
    RunSnoc(INITIAL, init, Last(steps));
  }

  lemma ReachedValid(steps: seq<Step>)
    ensures Valid(Reached(steps)) && ReceiveOk(Reached(steps))
  {
    hide Valid, Run, ReceiveOk;
    InitialValid();
    RunKeeps(INITIAL, steps);
    ValidReceive(Reached(steps));
  }

  // ---- what was accepted ----

  /** A binary message of at most 64 KiB that keeps the queue within 4 MiB. */
  ghost predicate WithinLimits(c: Carrier, bytes: Bytes, binary: bool) {
    binary && |bytes| <= 65_536 && |Flatten(c.receiver.queue)| + |bytes| <= 4_194_304
  }

  /** The payloads of the messages that came while the stream was live and within the limits, in order. */
  ghost function Arrived(steps: seq<Step>): Bytes
    decreases |steps|
  {
    if steps == [] then [] else
    var c, step := Before(steps), Last(steps);
    Arrived(steps[..|steps| - 1]) +
    if step.OnMessage? && !c.ended && WithinLimits(c, step.bytes, step.binary) then step.bytes else []
  }

  /** The chunk that this step hands to the consumer: the oldest one, when it asks or has been woken. */
  ghost function Handed(c: Carrier, step: Step): Bytes {
    if Runs(c, step) && c.receiver.queue != [] then c.receiver.queue[0] else []
  }

  ghost predicate Runs(c: Carrier, step: Step) {
    || (step.OnNext? && (c.receiver.consumer == Detached || c.receiver.consumer == AtYield))
    || (step.OnResume? && c.receiver.consumer == Waiting(true))
  }

  ghost function Delivered(steps: seq<Step>): Bytes
    decreases |steps|
  {
    if steps == [] then [] else Delivered(steps[..|steps| - 1]) + Handed(Before(steps), Last(steps))
  }

  lemma StepAccepts(c: Carrier, step: Step)
    requires Valid(c)
    ensures Take(c, step).receiver.accepted == c.receiver.accepted +
              if step.OnMessage? && !c.ended && WithinLimits(c, step.bytes, step.binary) then step.bytes else []
    ensures Take(c, step).receiver.yielded == c.receiver.yielded + Handed(c, step)
  {
    hide Flatten, SenderOk, Settle, NextChunk, MaySend, Enqueue;
    assert c.receiver.queuedBytes == |Flatten(c.receiver.queue)| by { ValidReceive(c); }
    assert c.receiver.accepted + [] == c.receiver.accepted && c.receiver.yielded + [] == c.receiver.yielded;
  }

  /** Nothing that came is lost, changed or reordered, and nothing else is accepted or handed over. */
  lemma {:induction false} AcceptedExactly(steps: seq<Step>)
    ensures Reached(steps).receiver.accepted == Arrived(steps)
    ensures Reached(steps).receiver.yielded == Delivered(steps)
    decreases |steps|
  {
    hide Take, Valid, WithinLimits, Handed, Run;
    if steps == [] {
      NothingRun();
    } else {
      var init := steps[..|steps| - 1];
      AcceptedExactly(init);
      ReachedSnoc(steps);
      ReachedValid(init);
      StepAccepts(Before(steps), Last(steps));
    }
  }

  lemma NothingRun()
    ensures Reached([]) == INITIAL
  {
  }

  // ---- why it ended ----

  /** The steps that end a live stream. */
  ghost predicate Ends(c: Carrier, step: Step) {
    match step
    case OnMessage(bytes, binary) => !WithinLimits(c, bytes, binary)
    case OnSocketEnd => true
    case OnTimeout => c.sender.current.Sending? && c.sender.current.chunk == Pending
    case OnTurn(link) =>
      && c.sender.current.Sending?
      && var Sending(owned, sent, chunk) := c.sender.current;
         || chunk == Rejected
         || (chunk == Resolved && |sent| < |owned| && !Usable(link))
    case _ => false
  }

  /** An open socket with at most 4 MiB waiting, for a write that is not aborted. */
  ghost predicate Usable(link: Link) { link.open && !link.aborted && link.bufferedAmount <= 4_194_304 }

  /** Some step of the run was one of those that end a live stream. */
  ghost predicate HasEnded(steps: seq<Step>) {
    exists i :: 0 <= i < |steps| && Ends(Reached(steps[..i]), steps[i])
  }

  lemma StepEnds(c: Carrier, step: Step)
    requires Valid(c)
    ensures Take(c, step).ended <==> c.ended || Ends(c, step)
  {
    hide Flatten, Settle, NextChunk, Enqueue, Sent, Owned, LastUnknown, SettledOk, Total;
    assert c.receiver.queuedBytes == |Flatten(c.receiver.queue)| by { ValidReceive(c); }
  }

  /** The stream has ended exactly if a message broke a limit, a write failed in the middle or timed out, or the socket ended. */
  lemma {:induction false} EndsExactly(steps: seq<Step>)
    ensures Reached(steps).ended <==> HasEnded(steps)
    decreases |steps|
  {
    hide Take, Valid, Ends, Run;
    if steps == [] {
      NothingRun();
    } else {
      var n := |steps| - 1;
      var init := steps[..n];
      EndsExactly(init);
      ReachedSnoc(steps);
      ReachedValid(init);
      StepEnds(Before(steps), Last(steps));
      assert forall i :: 0 <= i < n ==> init[..i] == steps[..i] && init[i] == steps[i];
      if Ends(Reached(init), steps[n]) {
        assert steps[..n] == init;
      }
    }
  }

  // ---- pausing and waking ----

  /** A message that is kept, or the end of the stream: what a sleeping consumer is woken for. */
  ghost predicate Rings(c: Carrier, step: Step) {
    !c.ended && (Ends(c, step) || (step.OnMessage? && WithinLimits(c, step.bytes, step.binary) && step.bytes != []))
  }

  /** The queue, the consumer and the socket's reading after one more step. */
  ghost predicate Moves(c: Carrier, step: Step, d: Carrier) {
    var r, q := c.receiver, d.receiver;
    if Runs(c, step) then
      if r.queue != [] then
        && q.queue == r.queue[1..] && q.consumer == AtYield
        && q.paused == (r.paused && (c.ended || |Flatten(q.queue)| >= 1_048_576))
      else q.queue == [] && q.consumer == (if c.ended then Exited else Waiting(false)) && q.paused == r.paused
    else if step.OnReturn? && r.consumer == AtYield then q.queue == [] && q.consumer == Exited && q.paused == r.paused
    else
      && q.consumer == (if r.consumer.Waiting? && Rings(c, step) then Waiting(true) else r.consumer)
      && if step.OnMessage? && Rings(c, step) && !Ends(c, step)
         then q.queue == r.queue + [step.bytes] && q.paused == (r.paused || |Flatten(q.queue)| >= 2_097_152)
         else q.queue == r.queue && q.paused == r.paused
  }

  lemma StepMoves(c: Carrier, step: Step)
    requires Valid(c)
    ensures Moves(c, step, Take(c, step))
  {
    hide Flatten, Settle, NextChunk, Enqueue, ReceiverOk, Total, SenderOk;
    assert c.receiver.queuedBytes == |Flatten(c.receiver.queue)| by { ValidReceive(c); }
    match step
    case OnMessage(bytes, binary) => FlattenSnoc(c.receiver.queue, bytes);
    case OnTurn(link) => TurnOnlyWakes(c, link);
    case _ => if c.receiver.queue != [] { FlattenFirst(c.receiver.queue); }
  }

  /** A writer's turn touches the receiving side only by ending the stream. */
  lemma TurnOnlyWakes(c: Carrier, link: Link)
    requires Valid(c)
    ensures Take(c, OnTurn(link)).receiver ==
              if !c.ended && Ends(c, OnTurn(link)) then Wake(c.receiver) else c.receiver
  {
    hide Flatten, Settle, NextChunk, Total, Sent, Owned, LastUnknown, SettledOk, ReceiverOk;
  }

  lemma FlattenFirst(parts: seq<Bytes>)
    requires parts != []
    ensures Flatten(parts) == parts[0] + Flatten(parts[1..])
  {
  }

  /**
   In every run: a message that fills the queue to 2 MiB pauses the socket, a chunk taken that leaves less than 1 MiB
   lets a live socket go on, and a message or the end wakes a consumer that sleeps.
   */
  lemma PausesAndWakes(steps: seq<Step>, step: Step)
    ensures Moves(Reached(steps), step, Reached(steps + [step]))
  {
    hide Take, Valid, Moves, Run;
    ReachedValid(steps);
    StepMoves(Reached(steps), step);
    assert (steps + [step])[..|steps|] == steps;
    ReachedSnoc(steps + [step]);
  }

  // ---- what was admitted and sent ----

  /** A live stream, an open socket, fewer than 32 writes and the bytes within both limits. */
  ghost predicate MayWrite(c: Carrier, step: Step) {
    && step.OnWrite? && !c.ended && step.open && !step.aborted
    && |CurrentOwned(c.sender)| + |c.sender.waiting| < 32
    && |step.data| <= 100_728_840
    && Total(CurrentOwned(c.sender)) + Total(c.sender.waiting) + |step.data| <= 104_923_144
  }

  /** The writes that were admitted, in order. */
  ghost function AdmittedBy(steps: seq<Step>): seq<Bytes>
    decreases |steps|
  {
    if steps == [] then [] else
    AdmittedBy(steps[..|steps| - 1]) + if MayWrite(Before(steps), Last(steps)) then [Last(steps).data] else []
  }

  /** The write whose turn it is, and how much of it is out; none when nothing is to be done. */
  datatype Turn = Nobody | Writer(owned: Bytes, sent: Bytes)

  ghost function TurnOf(s: Sender): Turn {
    match s.current
    case Idle => if s.waiting == [] then Nobody else Writer(s.waiting[0], [])
    case Sending(owned, sent, chunk) => if chunk == Resolved then Writer(owned, sent) else Nobody
  }

  /** What a turn puts on the wire: at most 64 KiB of what is left, if the link can be used. */
  ghost function Goes(c: Carrier, step: Step): Bytes {
    if !step.OnTurn? || c.ended || !Usable(step.link) then [] else
    match TurnOf(c.sender)
    case Nobody => []
    case Writer(owned, sent) =>
      if |sent| > |owned| then []
      else if |owned| - |sent| <= 65_536 then owned[|sent|..] else owned[|sent|..|sent| + 65_536]
  }

  ghost function Gone(steps: seq<Step>): Bytes
    decreases |steps|
  {
    if steps == [] then [] else Gone(steps[..|steps| - 1]) + Goes(Before(steps), Last(steps))
  }

  lemma StepSends(c: Carrier, step: Step)
    requires Valid(c)
    ensures Take(c, step).sender.admitted == c.sender.admitted + if MayWrite(c, step) then [step.data] else []
    ensures Take(c, step).sender.wire == c.sender.wire + Goes(c, step)
  {
    hide Flatten, Sent, Owned, LastUnknown, SettledOk, ReceiverOk;
    assert c.sender.admitted + [] == c.sender.admitted && c.sender.wire + [] == c.sender.wire;
    if step.OnTurn? && c.sender.current.Sending? && c.sender.current.chunk.Resolved?
       && |c.sender.current.sent| == |c.sender.current.owned| {
      assert c.sender.current.owned[|c.sender.current.sent|..] == [];
    }
  }

  /** In every run exactly the writes within the limits are admitted, and the wire holds what the usable turns let go. */
  lemma {:induction false} SendsExactly(steps: seq<Step>)
    ensures Reached(steps).sender.admitted == AdmittedBy(steps)
    ensures Reached(steps).sender.wire == Gone(steps)
    decreases |steps|
  {
    hide Take, Valid, MayWrite, Goes, Run;
    if steps == [] {
      NothingRun();
    } else {
      var init := steps[..|steps| - 1];
      SendsExactly(init);
      ReachedSnoc(steps);
      ReachedValid(init);
      StepSends(Before(steps), Last(steps));
    }
  }

  // ---- how writes settle ----

  /** What a settled write answers: everything out, nothing out, or the link lost in the middle. */
  ghost predicate Settles(c: Carrier, step: Step, d: Carrier) {
    var s, t := c.sender, d.sender;
    if !step.OnTurn? then t.done == s.done
    else if s.current.Sending? && s.current.chunk == Rejected then
      t.done == s.done + [Settled(s.current.owned, s.current.sent, SentOutcomeUnknown)] && t.current == Idle
    else
      match TurnOf(s)
      case Nobody => t.done == s.done
      case Writer(owned, sent) =>
        if |sent| >= |owned| then t.done == s.done + [Settled(owned, sent, Written)] && t.current == Idle
        else if !c.ended && Usable(step.link) then t.done == s.done && t.current == Sending(owned, sent + Goes(c, step), Pending)
        else t.done == s.done + [Settled(owned, sent, if sent == [] then NotSent else SentOutcomeUnknown)] && t.current == Idle
  }

  lemma StepSettles(c: Carrier, step: Step)
    requires Valid(c)
    ensures Settles(c, step, Take(c, step))
    ensures step.OnSent? && c.sender.current.Sending? && c.sender.current.chunk == Pending ==>
              Take(c, step).sender.current == c.sender.current.(chunk := if step.ok then Resolved else Rejected)
    ensures step.OnTimeout? && c.sender.current.Sending? && c.sender.current.chunk == Pending ==>
              Take(c, step).sender.current == c.sender.current.(chunk := Rejected)
  {
    hide Flatten, Sent, Owned, LastUnknown, SettledOk, ReceiverOk, Total;
  }

  /** In every run a write is answered when its turn says so, and by what is on the wire then. */
  lemma AnswersExactly(steps: seq<Step>, step: Step)
    ensures Settles(Reached(steps), step, Reached(steps + [step]))
  {
    hide Take, Valid, Settles, Run;
    ReachedValid(steps);
    StepSettles(Reached(steps), step);
    assert (steps + [step])[..|steps|] == steps;
    ReachedSnoc(steps + [step]);
  }
}
