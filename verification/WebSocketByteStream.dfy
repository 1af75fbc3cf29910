/**
 The closure of src/internal/websocket-byte-stream.ts as an object: its variables are fields, its
 handlers methods. Every step of the step system has its method, and a stream that is driven through any
 steps keeps both directions intact.
 */
module WebSocketByteStream {
  import opened ByteCarrier
  import opened CarrierHistory

  class Stream {
    var queue: seq<Bytes>
    var queuedBytes: int
    var ended: bool
    var paused: bool
    var consumer: Consumer
    var waiting: seq<Bytes>
    var current: Current
    var queuedWrites: int
    var queuedWriteCount: int
    ghost var accepted: Bytes
    ghost var yielded: Bytes
    ghost var wire: Bytes
    ghost var admitted: seq<Bytes>
    ghost var done: seq<Settled>

    ghost function ReceiveState(): Receiver
      reads this
    {
      Receiver(queue, queuedBytes, paused, consumer, accepted, yielded)
    }

    ghost function SendState(): Sender
      reads this
    {
      Sender(waiting, current, queuedWrites, queuedWriteCount, wire, admitted, done)
    }

    ghost function State(): Carrier
      reads this
    {
      Carrier(ended, ReceiveState(), SendState())
    }

    constructor ()
      ensures State() == INITIAL
    {
      queue, queuedBytes, ended, paused, consumer := [], 0, false, false, Detached;
      waiting, current, queuedWrites, queuedWriteCount := [], Idle, 0, 0;
      accepted, yielded, wire, admitted, done := [], [], [], [], [];
    }

    method CallWake()
      modifies this`consumer
      ensures ReceiveState() == Wake(old(ReceiveState()))
    {
      if consumer.Waiting? { consumer := Waiting(true); }
    }

    method Finish()
      modifies this`ended, this`consumer
      ensures State() == ByteCarrier.Finish(old(State()))
    {
      if ended { return; }
      ended := true;
      CallWake();
    }

    method OnMessage(bytes: Bytes, binary: bool)
      modifies this
      ensures State() == ByteCarrier.Message(old(State()), bytes, binary)
    {
      if ended { return; }
      if !binary || |bytes| > CHUNK_BYTES || queuedBytes + |bytes| > MAX_BUFFER_BYTES {
        Finish();
        return;
      }
      if |bytes| == 0 { return; }
      queue := queue + [bytes];
      queuedBytes := queuedBytes + |bytes|;
      accepted := accepted + bytes;
      if queuedBytes >= MAX_BUFFER_BYTES / 2 { paused := true; }
      CallWake();
    }

    /** The generator, from the top of its loop; the chunk it yields, if it yields one. */
    method Iterate() returns (chunk: Bytes)
      modifies this
      ensures State() == Loop(old(State()))
      ensures consumer.AtYield? ==> old(queue) != [] && chunk == old(queue)[0]
    {
      chunk := [];
      if queue != [] {
        chunk := queue[0];
        queue := queue[1..];
        queuedBytes := queuedBytes - |chunk|;
        if queuedBytes < MAX_BUFFER_BYTES / 4 && !ended { paused := false; }
        yielded := yielded + chunk;
        consumer := AtYield;
      } else if ended {
        consumer, queue, queuedBytes := Exited, [], 0;
      } else {
        consumer := Waiting(false);
      }
    }

    /** Admission; the caller's memory is copied before the write waits for its turn. */
    method Write(bytes: array<Byte>, open: bool, aborted: bool) returns (ok: bool)
      modifies this
      ensures ok == Admissible(old(State()), bytes[..], open, aborted)
      ensures State() == Admit(old(State()), bytes[..], open, aborted)
    {
      if ended || !open || aborted { return false; }
      if queuedWriteCount >= MAX_QUEUED_WRITES || bytes.Length > MAX_FRAME_BYTES + 8
         || queuedWrites + bytes.Length > MAX_FRAME_BYTES + 8 + MAX_BUFFER_BYTES {
        return false;
      }
      var owned := bytes[..];
      queuedWrites := queuedWrites + |owned|;
      queuedWriteCount := queuedWriteCount + 1;
      waiting := waiting + [owned];
      admitted := admitted + [owned];
      ok := true;
    }

    method EndWrite(owned: Bytes, sent: Bytes, outcome: Outcome)
      modifies this`current, this`done, this`queuedWrites, this`queuedWriteCount
      ensures SendState() == Settle(old(SendState()), owned, sent, outcome)
    {
      done := done + [Settled(owned, sent, outcome)];
      current := Idle;
      queuedWrites := queuedWrites - |owned|;
      queuedWriteCount := queuedWriteCount - 1;
    }

    /** One round of the chunk loop. */
    method SendChunk(owned: Bytes, sent: Bytes, link: Link)
      requires |sent| <= |owned|
      modifies this
      ensures State() == Round(old(State()), owned, sent, link)
    {
      if |sent| == |owned| {
        EndWrite(owned, sent, Written);
      } else if ended || !link.open || link.aborted || link.bufferedAmount > MAX_BUFFER_BYTES {
        if sent != [] {
          Finish();
          EndWrite(owned, sent, SentOutcomeUnknown);
        } else {
          EndWrite(owned, sent, NotSent);
        }
      } else {
        var chunk := NextChunk(owned, |sent|);
        wire := wire + chunk;
        current := Sending(owned, sent + chunk, Pending);
      }
    }

    /** The writer whose turn it is starts, or goes on after its chunk. */
    method WriterTurn(link: Link)
      modifies this
      ensures State() == RunWriter(old(State()), link)
    {
      match current {
        case Idle =>
          if waiting != [] {
            var owned := waiting[0];
            waiting := waiting[1..];
            SendChunk(owned, [], link);
          }
        case Sending(owned, sent, chunk) =>
          if chunk.Resolved? && |sent| <= |owned| {
            SendChunk(owned, sent, link);
          } else if chunk.Rejected? {
            Finish();
            EndWrite(owned, sent, SentOutcomeUnknown);
          }
      }
    }

    /** The callback of `send`. */
    method ChunkSettles(ok: bool)
      modifies this`current
      ensures SendState() == SettleChunk(old(SendState()), ok)
    {
      if current.Sending? && current.chunk.Pending? {
        current := current.(chunk := if ok then Resolved else Rejected);
      }
    }

    /** The timer of a chunk. */
    method ChunkTimesOut()
      modifies this
      ensures State() == Take(old(State()), OnTimeout)
    {
      if current.Sending? && current.chunk.Pending? {
        ChunkSettles(false);
        Finish();
      }
    }

    /** The consumer leaves the generator. */
    method ConsumerReturns()
      modifies this
      ensures State() == Return(old(State()))
    {
      if consumer.AtYield? { consumer, queue, queuedBytes := Exited, [], 0; }
    }

    /** A write whose bytes are in an array of the caller. */
    method WriteBytes(data: Bytes, open: bool, aborted: bool)
      modifies this
      ensures State() == Admit(old(State()), data, open, aborted)
    {
      var buffer := new Byte[|data|](i requires 0 <= i < |data| => data[i]);
      assert buffer[..] == data;
      var _ := Write(buffer, open, aborted);
    }

    method Perform(step: Step)
      modifies this
      ensures State() == Take(old(State()), step)
    {
      hide Loop, RunWriter, ByteCarrier.Message, Admit, SettleChunk, ByteCarrier.Finish;
      match step {
        case OnMessage(bytes, binary) => OnMessage(bytes, binary);
        case OnNext => if consumer.Detached? || consumer.AtYield? { var _ := Iterate(); }
        case OnResume => if consumer == Waiting(true) { var _ := Iterate(); }
        case OnReturn => ConsumerReturns();
        case OnWrite(data, open, aborted) => WriteBytes(data, open, aborted);
        case OnTurn(link) => WriterTurn(link);
        case OnSent(ok) => ChunkSettles(ok);
        case OnTimeout => ChunkTimesOut();
        case OnSocketEnd => Finish();
      }
    }
  }

  /**
   Whatever socket, clock, consumer and writers do, the stream keeps what the two integrity theorems promise, and it
   has accepted, handed over, admitted and sent exactly what the steps say.
   */
  method Serve(steps: seq<Step>) returns (stream: Stream)
    ensures fresh(stream) && stream.State() == Reached(steps)
    ensures WireOk(stream.State()) && Bounded(stream.SendState()) && ReceiveOk(stream.State())
    ensures stream.accepted == Arrived(steps) && stream.yielded == Delivered(steps)
    ensures stream.admitted == AdmittedBy(steps) && stream.wire == Gone(steps)
    ensures stream.ended <==> HasEnded(steps)
  {
    hide Run, Take, WireOk, ReceiveOk, Bounded, Arrived, Delivered, AdmittedBy, Gone, HasEnded;
    stream := new Stream();
    NothingRun();
    assert steps[..0] == [];
    var i := 0;
    while i < |steps|
      invariant 0 <= i <= |steps| && fresh(stream)
      invariant stream.State() == Run(INITIAL, steps[..i])
    {
      stream.Perform(steps[i]);
      assert steps[..i + 1] == steps[..i] + [steps[i]];
      RunSnoc(INITIAL, steps[..i], steps[i]);
      i := i + 1;
    }
    assert steps[..i] == steps;
    WireIntegrity(steps);
    WritesAreBounded(steps);
    ReceiveIntegrity(steps);
    AcceptedExactly(steps);
    SendsExactly(steps);
    EndsExactly(steps);
  }

  lemma NothingRun()
    ensures Run(INITIAL, []) == INITIAL
  {
  }

  /** Overwriting the buffer after the call changes nothing of what was admitted. */
  method WriteThenReuse(stream: Stream, bytes: array<Byte>, filler: Byte, open: bool) returns (ok: bool)
    modifies stream, bytes
    ensures stream.State() == Admit(old(stream.State()), old(bytes[..]), open, false)
    ensures forall i :: 0 <= i < bytes.Length ==> bytes[i] == filler
  {
    ok := stream.Write(bytes, open, false);
    var i := 0;
    while i < bytes.Length
      invariant 0 <= i <= bytes.Length
      invariant forall j :: 0 <= j < i ==> bytes[j] == filler
      invariant stream.State() == Admit(old(stream.State()), old(bytes[..]), open, false)
    {
      bytes[i] := filler;
      i := i + 1;
    }
  }
}
