/**
 The byte carrier of src/internal/websocket-byte-stream.ts as a step system. Every handler, every
 resumption of the consumer and every turn of a writer up to its next await is one step; what the
 socket, the clock and the callers do is chosen by the environment.
 */
module ByteCarrier {
  import opened Utf16

  type Byte = b: int | 0 <= b < 256
  type Bytes = seq<Byte>

  const CHUNK_BYTES: nat := 64 * 1024
  const MAX_BUFFER_BYTES: nat := 4 * 1024 * 1024
  const MAX_FRAME_BYTES: nat := 16 * 1024 * 1024 * 6 + 64 * 1024
  const MAX_QUEUED_WRITES: nat := 32

  // ---- state ----

  /** The async generator between two steps. */
  datatype Consumer = Detached | AtYield | Waiting(woken: bool) | Exited

  /** `accepted` and `yielded` record history; the program does not keep them. */
  datatype Receiver = Receiver(queue: seq<Bytes>, queuedBytes: int, paused: bool, consumer: Consumer,
                               accepted: Bytes, yielded: Bytes)

  datatype Outcome = Written | NotSent | SentOutcomeUnknown

  /** A settled write: the caller's bytes, those handed to the socket, and the answer. */
  datatype Settled = Settled(owned: Bytes, sent: Bytes, outcome: Outcome)

  datatype Settlement = Pending | Resolved | Rejected

  /** The writer whose turn it is, while a chunk is under way. */
  datatype Current = Idle | Sending(owned: Bytes, sent: Bytes, chunk: Settlement)

  /** `wire`, `admitted` and `done` record history. */
  datatype Sender = Sender(waiting: seq<Bytes>, current: Current, queuedWrites: int, queuedWriteCount: int,
                           wire: Bytes, admitted: seq<Bytes>, done: seq<Settled>)

  datatype Carrier = Carrier(ended: bool, receiver: Receiver, sender: Sender)

  const INITIAL := Carrier(false, Receiver([], 0, false, Detached, [], []), Sender([], Idle, 0, 0, [], [], []))

  // ---- steps ----

  function Wake(r: Receiver): Receiver {
    if r.consumer.Waiting? then r.(consumer := Waiting(true)) else r
  }

  function Finish(c: Carrier): Carrier {
    if c.ended then c else c.(ended := true, receiver := Wake(c.receiver))
  }

  function Accept(r: Receiver, bytes: Bytes): Receiver {
    var queuedBytes := r.queuedBytes + |bytes|;
    Wake(r.(queue := r.queue + [bytes], queuedBytes := queuedBytes, accepted := r.accepted + bytes,
            paused := r.paused || queuedBytes >= MAX_BUFFER_BYTES / 2))
  }

  function Message(c: Carrier, bytes: Bytes, binary: bool): Carrier {
    if c.ended then c
    else if !binary || |bytes| > CHUNK_BYTES || c.receiver.queuedBytes + |bytes| > MAX_BUFFER_BYTES
    then Finish(c)
    else if bytes == [] then c
    else c.(receiver := Accept(c.receiver, bytes))
  }

  function Exit(r: Receiver): Receiver { r.(consumer := Exited, queue := [], queuedBytes := 0) }

  /** The generator from the top of its loop to the next yield, await or return. */
  function Loop(c: Carrier): Carrier {
    var r := c.receiver;
    if r.queue != [] then
      var queuedBytes := r.queuedBytes - |r.queue[0]|;
      c.(receiver := r.(queue := r.queue[1..], queuedBytes := queuedBytes, consumer := AtYield,
                        yielded := r.yielded + r.queue[0],
                        paused := r.paused && !(queuedBytes < MAX_BUFFER_BYTES / 4 && !c.ended)))
    else if c.ended then c.(receiver := Exit(r))
    else c.(receiver := r.(consumer := Waiting(false)))
  }

  function Next(c: Carrier): Carrier {
    if c.receiver.consumer.Detached? || c.receiver.consumer.AtYield? then Loop(c) else c
  }

  function Resume(c: Carrier): Carrier {
    if c.receiver.consumer == Waiting(true) then Loop(c) else c
  }

  function Return(c: Carrier): Carrier {
    if c.receiver.consumer.AtYield? then c.(receiver := Exit(c.receiver)) else c
  }

  predicate Admissible(c: Carrier, bytes: Bytes, open: bool, aborted: bool) {
    && !c.ended && open && !aborted
    && c.sender.queuedWriteCount < MAX_QUEUED_WRITES
    && |bytes| <= MAX_FRAME_BYTES + 8
    && c.sender.queuedWrites + |bytes| <= MAX_FRAME_BYTES + 8 + MAX_BUFFER_BYTES
  }

  function Enqueue(s: Sender, bytes: Bytes): Sender {
    s.(waiting := s.waiting + [bytes], admitted := s.admitted + [bytes],
       queuedWrites := s.queuedWrites + |bytes|, queuedWriteCount := s.queuedWriteCount + 1)
  }

  function Admit(c: Carrier, bytes: Bytes, open: bool, aborted: bool): Carrier {
    if Admissible(c, bytes, open, aborted) then c.(sender := Enqueue(c.sender, bytes)) else c
  }

  /** The end of a write: its counters are given back and the next writer may run. */
  function Settle(s: Sender, owned: Bytes, sent: Bytes, outcome: Outcome): Sender {
    s.(current := Idle, done := s.done + [Settled(owned, sent, outcome)],
       queuedWrites := s.queuedWrites - |owned|, queuedWriteCount := s.queuedWriteCount - 1)
  }

  function NextChunk(owned: Bytes, offset: nat): Bytes
    requires offset <= |owned|
  {
    if offset + CHUNK_BYTES <= |owned| then owned[offset..offset + CHUNK_BYTES] else owned[offset..]
  }

  datatype Link = Link(open: bool, aborted: bool, bufferedAmount: nat)

  predicate MaySend(c: Carrier, link: Link) {
    !c.ended && link.open && !link.aborted && link.bufferedAmount <= MAX_BUFFER_BYTES
  }

  /** One round of the chunk loop, for a writer that has handed over `sent` so far. */
  function Round(c: Carrier, owned: Bytes, sent: Bytes, link: Link): Carrier
    requires |sent| <= |owned|
  {
    if |sent| == |owned| then c.(sender := Settle(c.sender, owned, sent, Written))
    else if MaySend(c, link) then
      var chunk := NextChunk(owned, |sent|);
      c.(sender := c.sender.(current := Sending(owned, sent + chunk, Pending), wire := c.sender.wire + chunk))
    else if sent == [] then c.(sender := Settle(c.sender, owned, sent, NotSent))
    else Finish(c).(sender := Settle(c.sender, owned, sent, SentOutcomeUnknown))
  }

  /** The writer whose turn it is runs: it starts, or goes on after its chunk was settled. */
  function RunWriter(c: Carrier, link: Link): Carrier {
    var s := c.sender;
    match s.current
    case Idle =>
      if s.waiting == [] then c
      else Round(c.(sender := s.(waiting := s.waiting[1..])), s.waiting[0], [], link)
    case Sending(owned, sent, Pending) => c
    case Sending(owned, sent, Resolved) => if |sent| <= |owned| then Round(c, owned, sent, link) else c
    case Sending(owned, sent, Rejected) =>
      Finish(c).(sender := Settle(s, owned, sent, SentOutcomeUnknown))
  }

  function SettleChunk(s: Sender, ok: bool): Sender {
    if s.current.Sending? && s.current.chunk.Pending?
    then s.(current := s.current.(chunk := if ok then Resolved else Rejected)) else s
  }

  datatype Step =
    | OnMessage(bytes: Bytes, binary: bool)
    | OnNext | OnResume | OnReturn
    | OnWrite(data: Bytes, open: bool, aborted: bool)
    | OnTurn(link: Link)
    | OnSent(ok: bool)
    | OnTimeout
    | OnSocketEnd

  function Take(c: Carrier, step: Step): Carrier {
    match step
    case OnMessage(bytes, binary) => Message(c, bytes, binary)
    case OnNext => Next(c)
    case OnResume => Resume(c)
    case OnReturn => Return(c)
    case OnWrite(data, open, aborted) => Admit(c, data, open, aborted)
    case OnTurn(link) => RunWriter(c, link)
    case OnSent(ok) => c.(sender := SettleChunk(c.sender, ok))
    case OnTimeout => if c.sender.current.Sending? && c.sender.current.chunk.Pending?
                      then Finish(c.(sender := SettleChunk(c.sender, false))) else c
    case OnSocketEnd => Finish(c)
  }

  function Run(c: Carrier, steps: seq<Step>): Carrier
    decreases |steps|
  {
    if steps == [] then c else Run(Take(c, steps[0]), steps[1..])
  }

  // ---- receive side ----

  function Total(parts: seq<Bytes>): nat {
    if parts == [] then 0 else |parts[0]| + Total(parts[1..])
  }

  lemma {:induction false} TotalSnoc(parts: seq<Bytes>, last: Bytes)
    ensures Total(parts + [last]) == Total(parts) + |last|
  {
    if parts == [] {
      assert parts + [last] == [last];
    } else {
      assert (parts + [last])[1..] == parts[1..] + [last];
      TotalSnoc(parts[1..], last);
    }
  }

  ghost predicate ReceiverOk(ended: bool, r: Receiver) {
    && r.queuedBytes == Total(r.queue) <= MAX_BUFFER_BYTES
    && (forall i :: 0 <= i < |r.queue| ==> 0 < |r.queue[i]| <= CHUNK_BYTES)
    && r.yielded <= r.accepted
    && (r.consumer != Exited ==> r.accepted == r.yielded + Flatten(r.queue))
    && (r.consumer == Waiting(false) ==> r.queue == [] && !ended)
    && (r.consumer != Exited && r.paused && !ended ==> r.queuedBytes >= MAX_BUFFER_BYTES / 4)
  }

  lemma AcceptKeeps(r: Receiver, bytes: Bytes)
    requires ReceiverOk(false, r)
    requires 0 < |bytes| <= CHUNK_BYTES && r.queuedBytes + |bytes| <= MAX_BUFFER_BYTES
    ensures ReceiverOk(false, Accept(r, bytes))
  {
    TotalSnoc(r.queue, bytes);
    FlattenSnoc(r.queue, bytes);
    assert r.yielded + (Flatten(r.queue) + bytes) == r.yielded + Flatten(r.queue) + bytes;
  }

  lemma LoopKeeps(c: Carrier)
    requires ReceiverOk(c.ended, c.receiver) && c.receiver.consumer != Exited
    ensures ReceiverOk(c.ended, Loop(c).receiver)
  {
    var r := c.receiver;
    if r.queue != [] {
      assert r.yielded + (r.queue[0] + Flatten(r.queue[1..])) == r.yielded + r.queue[0] + Flatten(r.queue[1..]);
    }
  }

  // ---- send side ----

  function Sent(done: seq<Settled>): Bytes {
    if done == [] then [] else done[0].sent + Sent(done[1..])
  }

  function Owned(done: seq<Settled>): seq<Bytes> {
    if done == [] then [] else [done[0].owned] + Owned(done[1..])
  }

  lemma {:induction false} DoneSnoc(done: seq<Settled>, last: Settled)
    ensures Sent(done + [last]) == Sent(done) + last.sent
    ensures Owned(done + [last]) == Owned(done) + [last.owned]
  {
    if done == [] {
      assert done + [last] == [last];
    } else {
      assert (done + [last])[1..] == done[1..] + [last];
      DoneSnoc(done[1..], last);
    }
  }

  predicate SettledOk(w: Settled) {
    match w.outcome
    case Written => w.sent == w.owned
    case NotSent => w.sent == []
    case SentOutcomeUnknown => w.sent != [] && w.sent <= w.owned
  }

  /** Nothing follows a write whose outcome is unknown. */
  ghost predicate LastUnknown(ended: bool, s: Sender) {
    && (forall i, j :: 0 <= i < j < |s.done| && s.done[i].outcome.SentOutcomeUnknown? ==> s.done[j].sent == [])
    && (forall i :: 0 <= i < |s.done| && s.done[i].outcome.SentOutcomeUnknown? ==> ended && s.current.Idle?)
  }

  function CurrentSent(s: Sender): Bytes { if s.current.Sending? then s.current.sent else [] }
  function CurrentOwned(s: Sender): seq<Bytes> { if s.current.Sending? then [s.current.owned] else [] }

  ghost predicate SenderOk(ended: bool, s: Sender) {
    && s.wire == Sent(s.done) + CurrentSent(s)
    && s.admitted == Owned(s.done) + CurrentOwned(s) + s.waiting
    && (forall i :: 0 <= i < |s.done| ==> SettledOk(s.done[i]))
    && LastUnknown(ended, s)
    && (s.current.Sending? ==> s.current.sent != [] && s.current.sent <= s.current.owned)
    && s.queuedWrites == Total(CurrentOwned(s)) + Total(s.waiting) <= MAX_FRAME_BYTES + 8 + MAX_BUFFER_BYTES
    && s.queuedWriteCount == |CurrentOwned(s)| + |s.waiting| <= MAX_QUEUED_WRITES
  }

  lemma EnqueueKeeps(ended: bool, s: Sender, bytes: Bytes)
    requires SenderOk(ended, s) && s.queuedWriteCount < MAX_QUEUED_WRITES
    requires s.queuedWrites + |bytes| <= MAX_FRAME_BYTES + 8 + MAX_BUFFER_BYTES
    ensures SenderOk(ended, Enqueue(s, bytes))
  {
    hide Sent, Owned, Total, SettledOk, LastUnknown;
    TotalSnoc(s.waiting, bytes);
    EnqueueLast(ended, s, bytes);
    AdmittedSnoc(Owned(s.done), CurrentOwned(s), s.waiting, bytes);
  }

  lemma AdmittedSnoc(done: seq<Bytes>, current: seq<Bytes>, waiting: seq<Bytes>, bytes: Bytes)
    ensures done + current + (waiting + [bytes]) == done + current + waiting + [bytes]
  {
  }

  lemma EnqueueLast(ended: bool, s: Sender, bytes: Bytes)
    requires LastUnknown(ended, s)
    ensures LastUnknown(ended, Enqueue(s, bytes))
  {
  }

  /** A writer between two chunks: what `Round` may assume. */
  ghost predicate Turn(ended: bool, s: Sender, owned: Bytes, sent: Bytes) {
    && s.wire == Sent(s.done) + sent
    && s.admitted == Owned(s.done) + [owned] + s.waiting
    && (forall i :: 0 <= i < |s.done| ==> SettledOk(s.done[i]))
    && (forall i, j :: 0 <= i < j < |s.done| && s.done[i].outcome.SentOutcomeUnknown? ==> s.done[j].sent == [])
    && (forall i :: 0 <= i < |s.done| && s.done[i].outcome.SentOutcomeUnknown? ==> ended && sent == [])
    && sent <= owned
    && s.queuedWrites == |owned| + Total(s.waiting) <= MAX_FRAME_BYTES + 8 + MAX_BUFFER_BYTES
    && s.queuedWriteCount == 1 + |s.waiting| <= MAX_QUEUED_WRITES
  }

  lemma SettleKeeps(ended: bool, s: Sender, owned: Bytes, sent: Bytes, outcome: Outcome, now: bool)
    requires Turn(ended, s, owned, sent) && SettledOk(Settled(owned, sent, outcome))
    requires ended || outcome.SentOutcomeUnknown? ==> now
    ensures SenderOk(now, Settle(s, owned, sent, outcome))
  {
    hide Sent, Owned, Total, SettledOk, LastUnknown;
    DoneSnoc(s.done, Settled(owned, sent, outcome));
    SettleLast(ended, s, owned, sent, outcome, now);
    assert Sent(s.done) + sent + [] == Sent(s.done) + sent;
    assert Owned(s.done) + [owned] + [] + s.waiting == Owned(s.done) + [owned] + s.waiting;
    assert Total([]) == 0 by { TotalOfNone(); }
  }

  lemma TotalOfNone()
    ensures Total([]) == 0
  {
  }

  lemma SettleLast(ended: bool, s: Sender, owned: Bytes, sent: Bytes, outcome: Outcome, now: bool)
    requires Turn(ended, s, owned, sent) && (ended || outcome.SentOutcomeUnknown? ==> now)
    ensures LastUnknown(now, Settle(s, owned, sent, outcome))
  {
    hide Sent, Owned, Total, SettledOk;
  }

  lemma RoundKeeps(c: Carrier, owned: Bytes, sent: Bytes, link: Link)
    requires Turn(c.ended, c.sender, owned, sent)
    ensures SenderOk(Round(c, owned, sent, link).ended, Round(c, owned, sent, link).sender)
  {
    var s := c.sender;
    if |sent| == |owned| {
      assert sent == owned;
      SettleKeeps(c.ended, s, owned, sent, Written, c.ended);
    } else if MaySend(c, link) {
      var chunk := NextChunk(owned, |sent|);
      assert Sent(s.done) + (sent + chunk) == Sent(s.done) + sent + chunk;
      assert sent + chunk <= owned;
      assert Total([owned]) == |owned| + Total([]);
    } else if sent == [] {
      SettleKeeps(c.ended, s, owned, sent, NotSent, c.ended);
    } else {
      SettleKeeps(c.ended, s, owned, sent, SentOutcomeUnknown, true);
    }
  }

  lemma RunWriterKeeps(c: Carrier, link: Link)
    requires SenderOk(c.ended, c.sender)
    ensures SenderOk(RunWriter(c, link).ended, RunWriter(c, link).sender)
  {
    hide Round, Settle;
    var s := c.sender;
    if s.current.Idle? {
      if s.waiting != [] {
        assert Owned(s.done) + [] + s.waiting == Owned(s.done) + [s.waiting[0]] + s.waiting[1..];
        RoundKeeps(c.(sender := s.(waiting := s.waiting[1..])), s.waiting[0], [], link);
      }
    } else {
      var Sending(owned, sent, chunk) := s.current;
      assert Total([owned]) == |owned| + Total([]);
      if chunk.Resolved? {
        RoundKeeps(c, owned, sent, link);
      } else if chunk.Rejected? {
        SettleKeeps(c.ended, s, owned, sent, SentOutcomeUnknown, true);
      }
    }
  }

  // ---- every reachable state ----

  ghost predicate Valid(c: Carrier) { ReceiverOk(c.ended, c.receiver) && SenderOk(c.ended, c.sender) }

  lemma FinishKeeps(c: Carrier)
    requires Valid(c)
    ensures Valid(Finish(c))
  {
    hide Total, Flatten, Sent, Owned;
  }

  lemma MessageKeeps(c: Carrier, bytes: Bytes, binary: bool)
    requires Valid(c)
    ensures Valid(Message(c, bytes, binary))
  {
    hide SenderOk, ReceiverOk, Accept, Finish;
    FinishKeeps(c);
    if !c.ended && 0 < |bytes| <= CHUNK_BYTES && c.receiver.queuedBytes + |bytes| <= MAX_BUFFER_BYTES {
      AcceptKeeps(c.receiver, bytes);
    }
  }

  lemma LoopLeavesSender(c: Carrier)
    ensures Loop(c).sender == c.sender && Loop(c).ended == c.ended
  {
  }

  lemma RunWriterOnReceiver(c: Carrier, link: Link)
    requires ReceiverOk(c.ended, c.receiver)
    ensures var d := RunWriter(c, link); ReceiverOk(d.ended, d.receiver)
  {
    hide Total, Flatten, Settle, MaySend, NextChunk;
  }

  lemma SettleChunkKeeps(ended: bool, s: Sender, ok: bool)
    requires SenderOk(ended, s)
    ensures SenderOk(ended, SettleChunk(s, ok))
  {
    hide Total, Sent, Owned;
  }

  lemma StepKeeps(c: Carrier, step: Step)
    requires Valid(c)
    ensures Valid(Take(c, step))
  {
    hide ReceiverOk, SenderOk, Message, Loop, RunWriter, SettleChunk, Finish, Enqueue;
    match step
    case OnMessage(bytes, binary) => MessageKeeps(c, bytes, binary);
    case OnNext => if c.receiver.consumer != Exited { LoopKeeps(c); LoopLeavesSender(c); }
    case OnResume => if c.receiver.consumer != Exited { LoopKeeps(c); LoopLeavesSender(c); }
    case OnReturn => ReturnKeeps(c);
    case OnWrite(data, open, aborted) =>
      if Admissible(c, data, open, aborted) { EnqueueKeeps(c.ended, c.sender, data); }
    case OnTurn(link) => RunWriterKeeps(c, link); RunWriterOnReceiver(c, link);
    case OnSent(ok) => SettleChunkKeeps(c.ended, c.sender, ok);
    case OnTimeout =>
      SettleChunkKeeps(c.ended, c.sender, false);
      FinishKeeps(c.(sender := SettleChunk(c.sender, false)));
    case OnSocketEnd => FinishKeeps(c);
  }

  lemma ReturnKeeps(c: Carrier)
    requires Valid(c)
    ensures Valid(Return(c))
  {
    hide SenderOk;
  }

  lemma {:induction false} RunKeeps(c: Carrier, steps: seq<Step>)
    requires Valid(c)
    ensures Valid(Run(c, steps))
    decreases |steps|
  {
    if steps != [] {
      hide Valid, Take;
      StepKeeps(c, steps[0]);
      RunKeeps(Take(c, steps[0]), steps[1..]);
    }
  }

  function Reached(steps: seq<Step>): Carrier { Run(INITIAL, steps) }

  // ---- what the invariant means ----

  /** The bytes of the writes that succeeded, in admission order. */
  function Completed(done: seq<Settled>): Bytes {
    if done == [] then []
    else (if done[0].outcome.Written? then done[0].owned else []) + Completed(done[1..])
  }

  /** What was sent of the one write whose outcome is unknown. */
  function Partial(done: seq<Settled>): Bytes {
    if done == [] then []
    else if done[0].outcome.SentOutcomeUnknown? then done[0].sent
    else Partial(done[1..])
  }

  lemma {:induction false} SentIsCompletedThenPartial(done: seq<Settled>)
    requires forall i :: 0 <= i < |done| ==> SettledOk(done[i])
    requires forall i, j :: 0 <= i < j < |done| && done[i].outcome.SentOutcomeUnknown? ==> done[j].sent == []
    ensures Sent(done) == Completed(done) + Partial(done)
  {
    if done != [] {
      var first, rest := done[0], done[1..];
      assert forall i :: 0 <= i < |rest| ==> rest[i] == done[i + 1];
      hide SettledOk;
      if first.outcome.SentOutcomeUnknown? {
        assert forall i :: 0 <= i < |rest| ==> rest[i].sent == [];
        NothingSent(rest);
      } else {
        assert first.sent == if first.outcome.Written? then first.owned else [] by { SettledSent(first); }
        SentIsCompletedThenPartial(rest);
        assert first.sent + (Completed(rest) + Partial(rest)) == first.sent + Completed(rest) + Partial(rest);
      }
    }
  }

  lemma SettledSent(w: Settled)
    requires SettledOk(w) && !w.outcome.SentOutcomeUnknown?
    ensures w.sent == if w.outcome.Written? then w.owned else []
  {
  }

  lemma {:induction false} NothingSent(done: seq<Settled>)
    requires forall i :: 0 <= i < |done| ==> SettledOk(done[i]) && done[i].sent == []
    ensures Sent(done) == Completed(done) == []
  {
    if done != [] {
      NothingSent(done[1..]);
    }
  }

  lemma {:induction false} PartialIsUnknown(done: seq<Settled>) returns (i: nat)
    requires Partial(done) != []
    ensures i < |done| && done[i].outcome.SentOutcomeUnknown?
  {
    if done[0].outcome.SentOutcomeUnknown? {
      i := 0;
    } else {
      i := PartialIsUnknown(done[1..]);
      i := i + 1;
    }
  }

  /**
   The wire holds the completed writes in admission order, then at most one partial write: the
   one whose outcome is unknown, after which the stream has ended and no writer is active, or the
   one being sent. No write is lost, duplicated or reordered, and one that was not sent left no byte.
   */
  ghost predicate WireOk(c: Carrier) {
    var s := c.sender;
    && s.wire == Completed(s.done) + Partial(s.done) + CurrentSent(s)
    && s.admitted == Owned(s.done) + CurrentOwned(s) + s.waiting
    && (Partial(s.done) != [] ==> c.ended && s.current.Idle?)
    && (s.current.Sending? ==> s.current.sent <= s.current.owned)
    && (forall i :: 0 <= i < |s.done| ==> SettledOk(s.done[i]))
  }

  lemma ValidWire(c: Carrier)
    requires Valid(c)
    ensures WireOk(c)
  {
    var done := c.sender.done;
    SentIsCompletedThenPartial(done);
    if Partial(done) != [] {
      var i := PartialIsUnknown(done);
    }
  }

  lemma WireIntegrity(steps: seq<Step>)
    ensures WireOk(Reached(steps))
  {
    hide Run, Valid, WireOk;
    InitialValid();
    RunKeeps(INITIAL, steps);
    ValidWire(Reached(steps));
  }

  lemma InitialValid()
    ensures Valid(INITIAL)
  {
  }

  /** Admission keeps the retained bytes and the number of writers bounded, and counts them exactly. */
  ghost predicate Bounded(s: Sender) {
    && 0 <= s.queuedWriteCount <= MAX_QUEUED_WRITES
    && s.queuedWriteCount == |CurrentOwned(s)| + |s.waiting|
    && s.queuedWrites == Total(CurrentOwned(s)) + Total(s.waiting)
    && s.queuedWrites <= MAX_FRAME_BYTES + 8 + MAX_BUFFER_BYTES
  }

  lemma ValidBounded(c: Carrier)
    requires Valid(c)
    ensures Bounded(c.sender)
  {
  }

  lemma WritesAreBounded(steps: seq<Step>)
    ensures Bounded(Reached(steps).sender)
  {
    hide Run, Valid, Bounded;
    InitialValid();
    RunKeeps(INITIAL, steps);
    ValidBounded(Reached(steps));
  }

  lemma EndedStep(c: Carrier, step: Step)
    requires c.ended
    ensures Take(c, step).ended && Take(c, step).sender.wire == c.sender.wire
  {
  }

  /** Once the stream has ended nothing more is sent, whatever happens. */
  lemma {:induction false} EndFreezesWire(c: Carrier, steps: seq<Step>)
    requires c.ended
    ensures Run(c, steps).ended && Run(c, steps).sender.wire == c.sender.wire
    decreases |steps|
  {
    if steps != [] {
      hide Take;
      EndedStep(c, steps[0]);
      EndFreezesWire(Take(c, steps[0]), steps[1..]);
    }
  }

  /**
   The bytes yielded, then the bytes queued, are the bytes accepted; the queue's count is exact and
   bounded; a consumer that sleeps has nothing to do; and a socket that is paused has work queued
   for a consumer that is awake, so the two cannot wait for each other.
   */
  ghost predicate ReceiveOk(c: Carrier) {
    var r := c.receiver;
    && r.yielded <= r.accepted
    && (r.consumer != Exited ==> r.accepted == r.yielded + Flatten(r.queue))
    && r.queuedBytes == |Flatten(r.queue)| <= MAX_BUFFER_BYTES
    && (r.consumer == Waiting(false) ==> r.queue == [] && !c.ended)
    && (r.consumer != Exited && r.paused && !c.ended ==>
          r.queuedBytes >= MAX_BUFFER_BYTES / 4 && r.queue != [] && r.consumer != Waiting(false))
  }

  lemma ValidReceive(c: Carrier)
    requires Valid(c)
    ensures ReceiveOk(c)
  {
    TotalIsLength(c.receiver.queue);
  }

  lemma ReceiveIntegrity(steps: seq<Step>)
    ensures ReceiveOk(Reached(steps))
  {
    hide Run, Valid, ReceiveOk;
    InitialValid();
    RunKeeps(INITIAL, steps);
    ValidReceive(Reached(steps));
  }

  lemma {:induction false} TotalIsLength(parts: seq<Bytes>)
    ensures Total(parts) == |Flatten(parts)|
  {
    if parts != [] {
      TotalIsLength(parts[1..]);
    }
  }

  function Repeat(step: Step, n: nat): seq<Step> {
    if n == 0 then [] else [step] + Repeat(step, n - 1)
  }

  /** A consumer that keeps asking receives everything that was accepted. */
  lemma {:induction false} Drain(c: Carrier)
    requires Valid(c) && c.receiver.consumer.AtYield?
    ensures var d := Run(c, Repeat(OnNext, |c.receiver.queue|));
            d.receiver.queue == [] && d.receiver.yielded == d.receiver.accepted == c.receiver.accepted
    decreases |c.receiver.queue|
  {
    hide Valid, Run, Next, Repeat;
    NextDrains(c);
    RunRepeat(c, |c.receiver.queue|);
    if c.receiver.queue != [] {
      StepKeeps(c, OnNext);
      Drain(Next(c));
    }
  }

  lemma RunRepeat(c: Carrier, n: nat)
    ensures Run(c, Repeat(OnNext, n)) == if n == 0 then c else Run(Next(c), Repeat(OnNext, n - 1))
  {
    hide Next;
    if n > 0 {
      var steps := Repeat(OnNext, n);
      assert steps[0] == OnNext && steps[1..] == Repeat(OnNext, n - 1);
    }
  }

  lemma NextDrains(c: Carrier)
    requires Valid(c) && c.receiver.consumer.AtYield?
    ensures c.receiver.queue == [] ==> c.receiver.yielded == c.receiver.accepted
    ensures var n := Next(c).receiver;
            c.receiver.queue != [] ==>
              n.consumer.AtYield? && |n.queue| == |c.receiver.queue| - 1 && n.accepted == c.receiver.accepted
  {
    hide SenderOk, Total;
  }

  // ---- a write that nothing disturbs ----

  const CALM := Link(true, false, 0)

  /** The turns that carry `n` remaining bytes: one for each chunk, and one to finish. */
  function Delivery(n: nat): seq<Step> {
    if n == 0 then [OnTurn(CALM)]
    else [OnTurn(CALM), OnSent(true)] + Delivery(if n <= CHUNK_BYTES then 0 else n - CHUNK_BYTES)
  }

  lemma {:induction false} RestIsDelivered(c: Carrier, owned: Bytes, sent: Bytes)
    requires !c.ended && c.sender.current == Sending(owned, sent, Resolved) && sent <= owned
    ensures Run(c, Delivery(|owned| - |sent|)) ==
            c.(sender := Settle(c.sender, owned, owned, Written).(wire := c.sender.wire + owned[|sent|..]))
    decreases |owned| - |sent|
  {
    var left := |owned| - |sent|;
    if left == 0 {
      assert owned == sent && c.sender.wire + owned[|sent|..] == c.sender.wire;
      RunOne(c, OnTurn(CALM));
    } else {
      var chunk := NextChunk(owned, |sent|);
      var rest := if left <= CHUNK_BYTES then 0 else left - CHUNK_BYTES;
      var mid := c.(sender := c.sender.(current := Sending(owned, sent + chunk, Resolved),
                                        wire := c.sender.wire + chunk));
      RunTwo(c, OnTurn(CALM), OnSent(true), Delivery(rest));
      ChunkGoesOut(c, owned, sent);
      hide Run, Take, NextChunk, Settle;
      assert sent + chunk <= owned && owned[|sent|..] == chunk + owned[|sent + chunk|..];
      RestIsDelivered(mid, owned, sent + chunk);
      assert mid.sender.wire + owned[|sent + chunk|..] == c.sender.wire + (chunk + owned[|sent + chunk|..]);
    }
  }

  lemma ChunkGoesOut(c: Carrier, owned: Bytes, sent: Bytes)
    requires !c.ended && c.sender.current == Sending(owned, sent, Resolved) && sent < owned
    ensures var chunk := NextChunk(owned, |sent|);
            && Take(Take(c, OnTurn(CALM)), OnSent(true)) ==
               c.(sender := c.sender.(current := Sending(owned, sent + chunk, Resolved), wire := c.sender.wire + chunk))
            && sent + chunk <= owned && owned[|sent|..] == chunk + owned[|sent + chunk|..]
            && |owned| - |sent + chunk| == if |owned| - |sent| <= CHUNK_BYTES then 0 else |owned| - |sent| - CHUNK_BYTES
  {
  }

  lemma RunOne(c: Carrier, step: Step)
    ensures Run(c, [step]) == Take(c, step)
  {
    hide Take;
    assert [step][1..] == [];
  }

  lemma RunTwo(c: Carrier, first: Step, second: Step, rest: seq<Step>)
    ensures Run(c, [first, second] + rest) == Run(Take(Take(c, first), second), rest)
  {
    hide Take;
    var steps := [first, second] + rest;
    assert steps[1..] == [second] + rest && steps[1..][1..] == rest;
  }

  /** On an open link the chunks reassemble the write: exactly its bytes reach the wire. */
  lemma UndisturbedWrite(c: Carrier)
    requires !c.ended && c.sender.current.Idle? && c.sender.waiting != []
    ensures Run(c, Delivery(|c.sender.waiting[0]|)) == WholeWrite(c)
  {
    hide Run, Take, NextChunk, Settle;
    var s := c.sender;
    var owned := s.waiting[0];
    FirstTurn(c);
    if owned == [] {
      RunOne(c, OnTurn(CALM));
    } else {
      var chunk := NextChunk(owned, 0);
      var rest := if |owned| <= CHUNK_BYTES then 0 else |owned| - CHUNK_BYTES;
      var mid := c.(sender := s.(waiting := s.waiting[1..], current := Sending(owned, chunk, Resolved),
                                 wire := s.wire + chunk));
      RunTwo(c, OnTurn(CALM), OnSent(true), Delivery(rest));
      RestIsDelivered(mid, owned, chunk);
      WireJoins(s.wire, chunk, owned);
      SettledIsWhole(c, mid, chunk);
    }
  }

  /** The whole write has been sent and has settled. */
  function WholeWrite(c: Carrier): Carrier
    requires c.sender.waiting != []
  {
    var s := c.sender;
    c.(sender := Settle(s.(waiting := s.waiting[1..]), s.waiting[0], s.waiting[0], Written)
                   .(wire := s.wire + s.waiting[0]))
  }

  lemma FirstTurn(c: Carrier)
    requires !c.ended && c.sender.current.Idle? && c.sender.waiting != []
    ensures var s, owned := c.sender, c.sender.waiting[0];
            if owned == [] then Take(c, OnTurn(CALM)) == WholeWrite(c)
            else
              var chunk := NextChunk(owned, 0);
              && Take(Take(c, OnTurn(CALM)), OnSent(true)) ==
                 c.(sender := s.(waiting := s.waiting[1..], current := Sending(owned, chunk, Resolved),
                                 wire := s.wire + chunk))
              && chunk <= owned && owned == chunk + owned[|chunk|..]
              && |owned| - |chunk| == if |owned| <= CHUNK_BYTES then 0 else |owned| - CHUNK_BYTES
  {
    var s, owned := c.sender, c.sender.waiting[0];
    if owned == [] {
      assert s.wire + owned == s.wire;
    } else {
      assert [] + NextChunk(owned, 0) == NextChunk(owned, 0);
    }
  }

  lemma WireJoins(wire: Bytes, chunk: Bytes, owned: Bytes)
    requires chunk <= owned
    ensures wire + chunk + owned[|chunk|..] == wire + owned
  {
    assert owned == chunk + owned[|chunk|..];
  }

  lemma SettledIsWhole(c: Carrier, mid: Carrier, chunk: Bytes)
    requires c.sender.current.Idle? && c.sender.waiting != [] && chunk <= c.sender.waiting[0]
    requires var s := c.sender;
             mid == c.(sender := s.(waiting := s.waiting[1..], current := Sending(s.waiting[0], chunk, Resolved),
                                    wire := s.wire + chunk))
    ensures mid.(sender := Settle(mid.sender, c.sender.waiting[0], c.sender.waiting[0], Written)
                             .(wire := c.sender.wire + c.sender.waiting[0])) == WholeWrite(c)
  {
  }

  lemma {:induction false} RunSnoc(c: Carrier, steps: seq<Step>, last: Step)
    ensures Run(c, steps + [last]) == Take(Run(c, steps), last)
    decreases |steps|
  {
    hide Take;
    if steps == [] {
      assert steps + [last] == [last] && [last][1..] == [];
    } else {
      assert (steps + [last])[1..] == steps[1..] + [last];
      RunSnoc(Take(c, steps[0]), steps[1..], last);
    }
  }
}
