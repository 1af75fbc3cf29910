/**
 The configuration queue cannot block itself (src/server/production-application.ts): an explicit start waits for its
 attempt only after it has left the queue.
 */
module BackendProgress {
  import opened BackendStartup

  // ---- the queue cannot block itself ----

  /** What the runtime collection and the queue do once they have been asked; no new request is needed. */
  predicate Completes(step: Step) {
    step.Reserved? || step.Complete? || step.TakeTurn? || step.PublicationEnds? || step.CleanupEnds? ||
    step.DiscardTurn? || step.Answer? || step.Removed?
  }

  ghost predicate Settled(s: System) {
    && s.queue.Free?
    && (forall n :: 0 <= n < |s.attempts| ==> s.attempts[n].phase.Done?)
    && (forall k :: 0 <= k < |s.clients| ==> s.clients[k].Answered?)
  }

  /** Nobody waits for something that cannot happen: until everything is settled a completion is possible. */
  lemma NeverStuck(s: System) returns (step: Step)
    requires Valid(s) && !Settled(s)
    ensures Completes(step) && Take(s, step) != s
  {
    hide EffectsOk, BackoffOk, Matches, Delay, IsCurrent;
    if s.queue.Removing? {
      step := Removed(false);
    } else if s.queue.Reserving? {
      step := Reserved(NotIdle);
    } else if s.queue.InPublication? {
      step := PublicationEnds(false);
    } else if n :| 0 <= n < |s.attempts| && !s.attempts[n].phase.Done? {
      step := StuckAttempt(s, n);
    } else {
      var k :| 0 <= k < |s.clients| && !s.clients[k].Answered?;
      step := Answer(k);
      assert s.clients[k].attempt < |s.attempts|;
      assert Take(s, step).clients[k] != s.clients[k];
    }
  }

  lemma StuckAttempt(s: System, n: nat) returns (step: Step)
    requires s.queue.Free? && AttemptsOk(s.queue, s.attempts) && n < |s.attempts| && !s.attempts[n].phase.Done?
    ensures Completes(step) && Take(s, step) != s
  {
    hide Turn, SecondTurn, AttemptsOk;
    NotPublishing(s, n);
    match s.attempts[n].phase {
      case Starting => step := Complete(n, false);
      case Started(_) => step := TakeTurn(n); TurnFrame(s, n);
      case Discarding(_) => step := CleanupEnds(n, false);
      case Discarded(_, _) => step := DiscardTurn(n); SecondTurnFrame(s, n);
    }
    assert Take(s, step).attempts[n].phase != s.attempts[n].phase;
  }

  lemma LeaveFrame(s: System, n: nat, publicationFailed: bool)
    requires n < |s.attempts|
    ensures var u := LeavePlace(s, n, publicationFailed); u == s.(registry := u.registry, backoff := u.backoff)
  {
    hide RecordFailure, IsCurrent, Registered;
    RecordFailureAt(s, s.attempts[n].backend, s.attempts[n].fingerprint);
  }

  lemma NotPublishing(s: System, n: nat)
    requires s.queue.Free? && AttemptsOk(s.queue, s.attempts) && n < |s.attempts|
    ensures !s.attempts[n].phase.Publishing?
  {
  }

  /** What a turn changes, apart from the delays. */
  lemma TurnFrame(s: System, n: nat)
    requires s.queue.Free? && n < |s.attempts| && s.attempts[n].phase.Started?
    ensures var t := Turn(s, n); t.clients == s.clients && (t.queue.Free? || t.queue.InPublication?)
    ensures exists a: Attempt :: Turn(s, n).attempts == s.attempts[n := a] &&
                                 (a.phase.Discarding? || a.phase.Done? || a.phase.Publishing?)
  {
    hide RecordFailure, IsCurrent, Registered;
    var a := s.attempts[n];
    RecordFailureAt(s, a.backend, a.fingerprint);
    assert Turn(s, n).attempts == s.attempts[n := Turn(s, n).attempts[n]];
  }

  lemma SecondTurnFrame(s: System, n: nat)
    requires s.queue.Free? && n < |s.attempts| && s.attempts[n].phase.Discarded?
    ensures var t := SecondTurn(s, n); t.clients == s.clients && t.queue.Free?
    ensures exists a: Attempt :: SecondTurn(s, n).attempts == s.attempts[n := a] && a.phase.Done?
  {
    hide LeavePlace, RecordFailure;
    var a, u := s.attempts[n], LeavePlace(s, n, s.attempts[n].phase.publicationFailed);
    LeaveFrame(s, n, a.phase.publicationFailed);
    RecordFailureAt(u, a.backend, a.fingerprint);
    var b := a.(phase := Done(if a.phase.publicationFailed then Failed else Superseded));
    assert SecondTurn(s, n).attempts == s.attempts[n := b];
  }


  // ---- and every completion brings the end closer ----

  function PhaseWeight(phase: Phase): nat {
    match phase
    case Starting => 5
    case Started(_) => 4
    case Publishing => 3
    case Discarding(_) => 2
    case Discarded(_, _) => 1
    case Done(_) => 0
  }

  function AttemptsWeight(attempts: seq<Attempt>): nat {
    if attempts == [] then 0
    else AttemptsWeight(attempts[..|attempts| - 1]) + PhaseWeight(attempts[|attempts| - 1].phase)
  }

  function ClientsWeight(clients: seq<Client>): nat {
    if clients == [] then 0
    else ClientsWeight(clients[..|clients| - 1]) + (if clients[|clients| - 1].Awaiting? then 1 else 0)
  }

  function QueueWeight(queue: Queue): nat {
    match queue
    case Free => 0
    case Reserving(_, _, _, _) => 7
    case InPublication(_, _) => 0
    case Holding(_) => 1
    case Removing(_, _) => 1
  }

  function Weight(s: System): nat { AttemptsWeight(s.attempts) + ClientsWeight(s.clients) + QueueWeight(s.queue) }

  lemma {:induction false} AttemptWeighs(attempts: seq<Attempt>, n: nat, a: Attempt)
    requires n < |attempts|
    ensures AttemptsWeight(attempts[n := a]) ==
            AttemptsWeight(attempts) - PhaseWeight(attempts[n].phase) + PhaseWeight(a.phase)
  {
    hide PhaseWeight;
    var m := |attempts| - 1;
    if n < m {
      assert attempts[n := a][..m] == attempts[..m][n := a];
      AttemptWeighs(attempts[..m], n, a);
    } else {
      assert attempts[n := a][..m] == attempts[..m];
    }
  }

  lemma {:induction false} AnswerWeighs(clients: seq<Client>, k: nat, c: Client)
    requires k < |clients| && clients[k].Awaiting? && c.Answered?
    ensures ClientsWeight(clients[k := c]) == ClientsWeight(clients) - 1
  {
    var m := |clients| - 1;
    if k < m {
      assert clients[k := c][..m] == clients[..m][k := c];
      AnswerWeighs(clients[..m], k, c);
    } else {
      assert clients[k := c][..m] == clients[..m];
    }
  }

  lemma TurnWeighs(s: System, n: nat)
    ensures Turn(s, n) == s || Weight(Turn(s, n)) < Weight(s)
  {
    hide AttemptsWeight, ClientsWeight;
    if s.queue.Free? && n < |s.attempts| && s.attempts[n].phase.Started? {
      hide Turn;
      TurnFrame(s, n);
      AttemptWeighs(s.attempts, n, Turn(s, n).attempts[n]);
    }
  }

  lemma SecondTurnWeighs(s: System, n: nat)
    ensures SecondTurn(s, n) == s || Weight(SecondTurn(s, n)) < Weight(s)
  {
    hide AttemptsWeight, ClientsWeight;
    if s.queue.Free? && n < |s.attempts| && s.attempts[n].phase.Discarded? {
      hide SecondTurn;
      SecondTurnFrame(s, n);
      AttemptWeighs(s.attempts, n, SecondTurn(s, n).attempts[n]);
    }
  }

  lemma EndWeighs(s: System, result: Reservation, ok: bool)
    requires Valid(s)
    ensures EndReserve(s, result) == s || Weight(EndReserve(s, result)) < Weight(s)
    ensures EndPublication(s, ok) == s || Weight(EndPublication(s, ok)) < Weight(s)
  {
    hide RecordFailure, IsCurrent, AttemptsOk, RegistryOk, EffectsOk, BackoffOk, ClientsOk, Matches;
    if s.queue.Reserving? {
      RecordFailureAt(s.(queue := Free), s.queue.backend, s.queue.definition.fingerprint);
      var t := EndReserve(s, Granted);
      assert t.attempts[..|s.attempts|] == s.attempts;
      assert (s.clients + [Awaiting(|s.attempts|)])[..|s.clients|] == s.clients;
    } else if s.queue.InPublication? {
      var n := s.queue.attempt;
      AttemptWeighs(s.attempts, n, s.attempts[n].(phase := Discarding(true), discarded := true));
      AttemptWeighs(s.attempts, n, s.attempts[n].(phase := Done(Applied)));
    }
  }

  lemma CompletionWeighs(s: System, step: Step)
    requires Valid(s) && Completes(step)
    ensures Take(s, step) == s || Weight(Take(s, step)) < Weight(s)
  {
    hide Valid, Turn, SecondTurn, EndReserve, EndPublication, AttemptsWeight, ClientsWeight;
    match step {
      case Reserved(result) => EndWeighs(s, result, false);
      case PublicationEnds(ok) => EndWeighs(s, NotIdle, ok);
      case TakeTurn(n) => TurnWeighs(s, n);
      case DiscardTurn(n) => SecondTurnWeighs(s, n);
      case Complete(n, ok) =>
        if n < |s.attempts| { AttemptWeighs(s.attempts, n, s.attempts[n].(phase := Started(ok))); }
      case CleanupEnds(n, failed) =>
        if n < |s.attempts| && s.attempts[n].phase.Discarding? {
          var phase := Discarded(s.attempts[n].phase.publicationFailed, failed);
          AttemptWeighs(s.attempts, n, s.attempts[n].(phase := phase));
        }
      case Answer(k) =>
        var t := Report(s, k);
        if t != s { AnswerWeighs(s.clients, k, t.clients[k]); }
      case Removed(ok) =>
    }
  }

  ghost predicate AllEffective(s: System, steps: seq<Step>)
    decreases |steps|
  {
    steps == [] || (Completes(steps[0]) && Take(s, steps[0]) != s && AllEffective(Take(s, steps[0]), steps[1..]))
  }

  /** In whatever order completions come, only so many can happen; when no more can, everything is settled. */
  lemma {:induction false} CompletionsEnd(s: System, steps: seq<Step>)
    requires Valid(s) && AllEffective(s, steps)
    ensures |steps| <= Weight(s)
    ensures (forall step :: Completes(step) ==> Take(Run(s, steps), step) == Run(s, steps)) ==> Settled(Run(s, steps))
    decreases |steps|
  {
    hide Valid, Take, Settled, Weight, Completes;
    if steps != [] {
      StepKeeps(s, steps[0]);
      CompletionWeighs(s, steps[0]);
      CompletionsEnd(Take(s, steps[0]), steps[1..]);
    } else if !Settled(s) {
      var step := NeverStuck(s);
    }
  }

  // ---- why an explicit start leaves the queue first ----

  /** The program never holds the queue until an attempt ends. */
  lemma NobodyHolds(steps: seq<Step>)
    ensures !Run(START, steps).queue.Holding?
  {
    hide Run;
    ReachableIsValid(steps);
  }

  ghost predicate Stuck(s: System, n: nat) {
    s.queue == Holding(n) && n < |s.attempts| && (s.attempts[n].phase.Starting? || s.attempts[n].phase.Started?)
  }

  lemma StuckStep(s: System, step: Step, n: nat)
    requires Stuck(s, n)
    ensures Stuck(Take(s, step), n)
  {
    hide IsCurrent, RecordFailure, Configured, Registered;
  }

  /** An operation that did would wait forever: the attempt could not get its turn, whatever happens. */
  lemma {:induction false} HolderIsStuck(s: System, n: nat, steps: seq<Step>)
    requires Stuck(s, n)
    ensures Stuck(Run(s, steps), n)
    decreases |steps|
  {
    hide Take, Stuck;
    if steps != [] {
      StuckStep(s, steps[0], n);
      HolderIsStuck(Take(s, steps[0]), n, steps[1..]);
    }
  }
}
