/**
 The life of one attempt, one registration, one delay and one saved record (src/server/production-application.ts): for
 each of them, which of all the steps change it, and to what. The comparison and the delays are written out.
 */
module BackendLife {
  import opened Wrappers
  import opened BackendStartup

  // ---- what is compared ----

  /** The repository, the loaded definition and the runtime of its environment are what the attempt was made from. */
  predicate Agrees(s: System, a: Attempt) {
    && !a.cancelled && !s.shutdown
    && a.backend in s.config.saved && a.backend in s.config.loaded
    && s.config.saved[a.backend].definition.enabled && s.config.saved[a.backend].automatic
    && s.config.saved[a.backend].revision == a.revision
    && s.config.loaded[a.backend].fingerprint == a.fingerprint
    && (if a.runtime.Some? then a.environment in s.config.environments && s.config.environments[a.environment] == a.runtime.value
        else a.environment !in s.config.environments)
  }

  lemma AgreesIsCurrent(s: System, a: Attempt)
    ensures IsCurrent(s, a) <==> Agrees(s, a)
  {
  }

  /** The attempt that is registered for its backend. */
  predicate InPlace(s: System, n: nat) {
    n < |s.attempts| && s.attempts[n].backend in s.registry && s.registry[s.attempts[n].backend] == n
  }

  // ---- an attempt ----

  /** The phase of attempt `n` after a step. */
  function NextPhase(s: System, step: Step, n: nat): Phase
    requires n < |s.attempts|
  {
    var a := s.attempts[n];
    match a.phase
    case Starting => if step.Complete? && step.attempt == n then Started(step.ok) else a.phase
    case Started(ok) =>
      if !(step == TakeTurn(n) && s.queue == Free) then a.phase
      else if !InPlace(s, n) || !Agrees(s, a) then Discarding(false)
      else if ok then Publishing else Done(Failed)
    case Publishing =>
      if !step.PublicationEnds? then a.phase else if step.ok then Done(Applied) else Discarding(true)
    case Discarding(failed) =>
      if step.CleanupEnds? && step.attempt == n then Discarded(failed, step.failed) else a.phase
    case Discarded(failed, _) =>
      if step == DiscardTurn(n) && s.queue == Free then Done(if failed then Failed else Superseded) else a.phase
    case Done(_) => a.phase
  }

  /** The steps that cancel attempt `n`: the removal of its backend, and finding that it no longer agrees. */
  predicate Cancels(s: System, step: Step, n: nat) {
    && InPlace(s, n) && s.queue == Free
    && match step {
         case Remove(id, _) => id == s.attempts[n].backend
         case CancelStale => !Agrees(s, s.attempts[n])
         case Apply(id, _) =>
           && id == s.attempts[n].backend
           && (id !in s.config.loaded || !s.config.loaded[id].enabled || !Agrees(s, s.attempts[n]))
         case _ => false
       }
  }

  /** `t` has attempt `n` as the step leaves it: phase and cancellation as above, and it remembers being turned away. */
  predicate LivesOn(s: System, step: Step, n: nat, t: System)
    requires n < |s.attempts|
  {
    var a, phase := s.attempts[n], NextPhase(s, step, n);
    && n < |t.attempts|
    && t.attempts[n] == a.(phase := phase, cancelled := a.cancelled || Cancels(s, step, n),
                           discarded := a.discarded || phase.Discarding?)
  }

  /** Every step moves an attempt exactly as `NextPhase` says, cancels it exactly as `Cancels` says, and keeps the rest. */
  lemma AttemptLife(s: System, step: Step, n: nat)
    requires Valid(s) && n < |s.attempts|
    ensures LivesOn(s, step, n, Take(s, step))
  {
    hide Valid, StartApply, Turn, SecondTurn, EndPublication, EndReserve, CancelAllStale, LivesOn;
    match step
    case Apply(id, explicit) => ApplyLife(s, id, explicit, n);
    case TakeTurn(m) => TurnLife(s, m, n);
    case DiscardTurn(m) => DiscardLife(s, m, n);
    case PublicationEnds(ok) => PublicationLife(s, ok, n);
    case Reserved(result) => ReserveLife(s, result, n);
    case CancelStale => StaleLife(s, n);
    case Remove(id, clear) => RemoveLife(s, id, clear, n);
    case _ => QuietLife(s, step, n);
  }

  lemma QuietLife(s: System, step: Step, n: nat)
    requires Valid(s) && n < |s.attempts|
    requires !step.Apply? && !step.TakeTurn? && !step.DiscardTurn? && !step.PublicationEnds? && !step.Reserved?
    requires !step.CancelStale? && !step.Remove?
    ensures LivesOn(s, step, n, Take(s, step))
  {
    hide Valid, Agrees, Configured;
    AttemptIsOk(s, n);
  }

  lemma PublicationLife(s: System, ok: bool, n: nat)
    requires Valid(s) && n < |s.attempts|
    ensures LivesOn(s, PublicationEnds(ok), n, EndPublication(s, ok))
  {
    hide Valid, Agrees;
    AttemptIsOk(s, n);
    if s.queue.InPublication? { PublishingNow(s); }
  }

  lemma ReserveLife(s: System, result: Reservation, n: nat)
    requires Valid(s) && n < |s.attempts|
    ensures LivesOn(s, Reserved(result), n, EndReserve(s, result))
  {
    hide RecordFailure, Valid;
    AttemptIsOk(s, n);
    if s.queue.Reserving? { RecordFailureAt(s.(queue := Free), s.queue.backend, s.queue.definition.fingerprint); }
  }

  lemma StaleLife(s: System, n: nat)
    requires Valid(s) && n < |s.attempts|
    ensures LivesOn(s, CancelStale, n, CancelAllStale(s))
  {
    hide Agrees, IsCurrent, Valid;
    AttemptIsOk(s, n);
    AgreesIsCurrent(s, s.attempts[n]);
  }

  lemma RemoveLife(s: System, id: Backend, clear: bool, n: nat)
    requires Valid(s) && n < |s.attempts|
    ensures LivesOn(s, Remove(id, clear), n, Take(s, Remove(id, clear)))
  {
    hide Agrees, Valid;
    AttemptIsOk(s, n);
    if id in s.registry { RegisteredIsLive(s, id); }
  }

  lemma ApplyLife(s: System, id: Backend, explicit: bool, n: nat)
    requires Valid(s) && n < |s.attempts|
    ensures LivesOn(s, Apply(id, explicit), n, StartApply(s, id, explicit))
  {
    hide Valid, RecordFailure, IsCurrent, Begin, Agrees, MustWait;
    AttemptIsOk(s, n);
    AgreesIsCurrent(s, s.attempts[n]);
    if id in s.config.loaded { BeginAttempts(s, id, explicit); }
    if id in s.registry {
      RegisteredIsLive(s, id);
      AgreesIsCurrent(s, s.attempts[s.registry[id]]);
    }
  }

  lemma BeginAttempts(s: System, id: Backend, explicit: bool)
    requires id in s.config.loaded
    ensures var t := Begin(s, id, explicit); t == s.(backoff := t.backoff, queue := t.queue)
  {
    hide Delay;
  }

  lemma TurnLife(s: System, m: nat, n: nat)
    requires Valid(s) && n < |s.attempts|
    ensures LivesOn(s, TakeTurn(m), n, Turn(s, m))
  {
    hide RecordFailure, IsCurrent, View, Valid, Agrees;
    AttemptIsOk(s, n);
    AgreesIsCurrent(s, s.attempts[n]);
    if m < |s.attempts| { RecordFailureAt(s, s.attempts[m].backend, s.attempts[m].fingerprint); }
  }

  lemma DiscardLife(s: System, m: nat, n: nat)
    requires Valid(s) && n < |s.attempts|
    ensures LivesOn(s, DiscardTurn(m), n, SecondTurn(s, m))
  {
    hide RecordFailure, LeavePlace, Valid, Agrees;
    AttemptIsOk(s, n);
  }

  // ---- a registration ----

  /** The steps after which the backend has no attempt any more. */
  predicate Leaves(s: System, step: Step, id: Backend) {
    && id in s.registry && s.registry[id] < |s.attempts|
    && var n := s.registry[id];
       match step {
         case TakeTurn(m) => m == n && s.queue == Free && s.attempts[n].phase == Started(false) && Agrees(s, s.attempts[n])
         case PublicationEnds(ok) => ok && s.queue.InPublication? && s.queue.attempt == n
         case DiscardTurn(m) => m == n && s.queue == Free && s.attempts[n].phase.Discarded?
         case Removed(ok) => ok && s.queue.Removing? && s.queue.backend == id
         case _ => false
       }
  }

  /** A reservation that is granted registers the next attempt. */
  predicate Enters(s: System, step: Step, id: Backend) {
    step == Reserved(Granted) && s.queue.Reserving? && s.queue.backend == id
  }

  /** A backend gets an attempt, and loses it, exactly by those steps. */
  lemma RegistrationLife(s: System, step: Step, id: Backend)
    requires Valid(s)
    ensures var t := Take(s, step);
            && (id in t.registry <==> Enters(s, step, id) || (id in s.registry && !Leaves(s, step, id)))
            && (id in t.registry ==> t.registry[id] == if Enters(s, step, id) then |s.attempts| else s.registry[id])
  {
    hide Valid, StartApply, Turn, SecondTurn, EndPublication, Agrees, CancelAllStale, Cancel, Configured, RecordFailure;
    match step
    case Apply(other, explicit) => ApplyRegistry(s, other, explicit);
    case TakeTurn(m) => TurnRegistry(s, m, id);
    case PublicationEnds(ok) => PublicationRegistry(s, ok, id);
    case Reserved(result) =>
      if s.queue.Reserving? { RecordFailureAt(s.(queue := Free), s.queue.backend, s.queue.definition.fingerprint); }
    case DiscardTurn(m) => LeavingLife(s, m, id);
    case Removed(_) => if id in s.registry { RegisteredIsLive(s, id); }
    case Remove(other, _) => CancelRegistry(s, other);
    case CancelStale => CancelRegistry(s, id);
    case _ =>
  }

  lemma CancelRegistry(s: System, id: Backend)
    ensures Cancel(s, id).registry == s.registry && CancelAllStale(s).registry == s.registry
  {
    hide IsCurrent;
  }

  lemma ApplyRegistry(s: System, other: Backend, explicit: bool)
    ensures StartApply(s, other, explicit).registry == s.registry
  {
    hide IsCurrent, Begin;
    if other in s.config.loaded { BeginAttempts(s, other, explicit); }
  }

  lemma TurnRegistry(s: System, m: nat, id: Backend)
    requires Valid(s)
    ensures var t := Turn(s, m);
            && (id in t.registry <==> id in s.registry && !Leaves(s, TakeTurn(m), id))
            && (id in t.registry ==> t.registry[id] == s.registry[id])
  {
    hide Valid, RecordFailure, IsCurrent, View, Agrees;
    if id in s.registry { RegisteredIsLive(s, id); }
    if m < |s.attempts| {
      AgreesIsCurrent(s, s.attempts[m]);
      RecordFailureAt(s, s.attempts[m].backend, s.attempts[m].fingerprint);
    }
  }

  lemma PublicationRegistry(s: System, ok: bool, id: Backend)
    requires Valid(s)
    ensures var t := EndPublication(s, ok);
            && (id in t.registry <==> id in s.registry && !Leaves(s, PublicationEnds(ok), id))
            && (id in t.registry ==> t.registry[id] == s.registry[id])
  {
    hide Valid;
    if id in s.registry { RegisteredIsLive(s, id); }
    if s.queue.InPublication? { PublishingNow(s); }
  }

  lemma LeavingLife(s: System, m: nat, id: Backend)
    requires Valid(s)
    ensures var t := SecondTurn(s, m);
            && (id in t.registry <==> id in s.registry && !Leaves(s, DiscardTurn(m), id))
            && (id in t.registry ==> t.registry[id] == s.registry[id])
  {
    hide Valid, RecordFailure, IsCurrent;
    if id in s.registry { RegisteredIsLive(s, id); }
    if m < |s.attempts| {
      var a, u := s.attempts[m], LeavePlace(s, m, s.attempts[m].phase.Discarded? && s.attempts[m].phase.publicationFailed);
      RecordFailureAt(s, a.backend, a.fingerprint);
      RecordFailureAt(u, a.backend, a.fingerprint);
    }
  }

  /** The attempt that is registered is new, and has what was read before the wait and the runtime of now. */
  lemma NewAttempt(s: System, step: Step)
    requires Valid(s)
    ensures var t := Take(s, step);
            if step == Reserved(Granted) && s.queue.Reserving? then
              var Reserving(id, _, revision, d) := s.queue;
              var runtime := if d.environment in s.config.environments then Some(s.config.environments[d.environment]) else None;
              t.attempts == s.attempts + [Attempt(id, revision, d.fingerprint, d.environment, runtime, false, Starting, false)]
            else |t.attempts| == |s.attempts|
  {
    hide Valid, RecordFailure, IsCurrent, View, LeavePlace, Begin;
    match step
    case Apply(id, explicit) => if id in s.config.loaded { BeginAttempts(s, id, explicit); }
    case TakeTurn(m) => if m < |s.attempts| { RecordFailureAt(s, s.attempts[m].backend, s.attempts[m].fingerprint); }
    case Reserved(result) =>
      if s.queue.Reserving? { RecordFailureAt(s.(queue := Free), s.queue.backend, s.queue.definition.fingerprint); }
    case _ =>
  }

  // ---- when a start begins ----

  /** Defined and enabled, without an attempt: a start may be made. */
  predicate Startable(s: System, id: Backend) {
    s.queue == Free && id in s.config.loaded && s.config.loaded[id].enabled && id !in s.registry
  }

  /** An automatic start of what failed last waits for its time; an explicit one never does. */
  predicate Delayed(s: System, id: Backend, explicit: bool) {
    && !explicit && id in s.backoff && id in s.config.loaded
    && s.backoff[id].fingerprint == s.config.loaded[id].fingerprint && s.now < s.backoff[id].retryAt
  }

  predicate Reachable(s: System, id: Backend) {
    id in s.config.saved && id in s.config.loaded && s.config.loaded[id].environment in s.config.environments
  }

  /** Who has the queue after a step. */
  function NextQueue(s: System, step: Step): Queue {
    match step
    case Apply(id, explicit) =>
      if s.queue != Free then s.queue
      else if id !in s.config.loaded || !s.config.loaded[id].enabled then Removing(id, true)
      else if Startable(s, id) && !Delayed(s, id, explicit) && Reachable(s, id)
      then Reserving(id, explicit, s.config.saved[id].revision, s.config.loaded[id])
      else Free
    case Reserved(_) => if s.queue.Reserving? then Free else s.queue
    case TakeTurn(n) =>
      if s.queue == Free && InPlace(s, n) && s.attempts[n].phase == Started(true) && Agrees(s, s.attempts[n])
      then InPublication(n, View(s.config, s.attempts[n])) else s.queue
    case PublicationEnds(_) => if s.queue.InPublication? then Free else s.queue
    case Remove(id, clear) => if s.queue == Free then Removing(id, clear) else s.queue
    case Removed(_) => if s.queue.Removing? then Free else s.queue
    case _ => s.queue
  }

  /** The queue passes exactly so: a start begins when it is not delayed and its environment is there. */
  lemma QueueLife(s: System, step: Step)
    requires Valid(s)
    ensures Take(s, step).queue == NextQueue(s, step)
  {
    hide Valid, RecordFailure, IsCurrent, View;
    assert !s.queue.Holding? by { NobodyHoldsHere(s); }
    if s.queue.InPublication? { PublishingNow(s); }
    match step
    case Apply(id, explicit) => StartLife(s, id, explicit);
    case TakeTurn(n) => if n < |s.attempts| {
        AgreesIsCurrent(s, s.attempts[n]);
        RecordFailureAt(s, s.attempts[n].backend, s.attempts[n].fingerprint);
      }
    case DiscardTurn(n) => SecondTurnQueue(s, n);
    case Reserved(result) =>
      if s.queue.Reserving? { RecordFailureAt(s.(queue := Free), s.queue.backend, s.queue.definition.fingerprint); }
    case _ =>
  }

  lemma NobodyHoldsHere(s: System)
    requires Valid(s)
    ensures !s.queue.Holding?
  {
  }

  lemma SecondTurnQueue(s: System, n: nat)
    ensures SecondTurn(s, n).queue == s.queue && SecondTurn(s, n).clients == s.clients
  {
    hide Delay, IsCurrent;
  }

  lemma StartLife(s: System, id: Backend, explicit: bool)
    ensures StartApply(s, id, explicit).queue == NextQueue(s, Apply(id, explicit))
  {
    hide RecordFailure, IsCurrent;
    if id in s.config.loaded {
      var t := if explicit then s.(backoff := s.backoff - {id}) else s;
      RecordFailureAt(t, id, s.config.loaded[id].fingerprint);
    }
  }

  // ---- a delay ----

  /** Five, ten, twenty and forty seconds, then a minute. */
  function Wait(failures: nat): nat {
    if failures <= 1 then 5_000 else if failures == 2 then 10_000 else if failures == 3 then 20_000
    else if failures == 4 then 40_000 else 60_000
  }

  lemma DelayIsWait(failures: nat)
    requires failures >= 1
    ensures Delay(failures) == Wait(failures)
  {
    DelayTable();
  }

  datatype Kept = Nothing | Kept(backoff: Backoff)

  function KeptFor(s: System, id: Backend): Kept { if id in s.backoff then Kept(s.backoff[id]) else Nothing }

  /** One more failure of this configuration; another configuration starts to count again. */
  function Worse(k: Kept, fingerprint: Fingerprint, now: nat): Kept {
    var failures := if k.Kept? && k.backoff.fingerprint == fingerprint then k.backoff.failures + 1 else 1;
    Kept(Backoff(fingerprint, failures, now, now + Wait(failures)))
  }

  lemma FailureIsWorse(s: System, id: Backend, fingerprint: Fingerprint, other: Backend)
    ensures KeptFor(RecordFailure(s, id, fingerprint), other) ==
              if other == id then Worse(KeptFor(s, id), fingerprint, s.now) else KeptFor(s, other)
    ensures RecordFailure(s, id, fingerprint) == s.(backoff := RecordFailure(s, id, fingerprint).backoff)
  {
    hide Delay;
    var again := id in s.backoff && s.backoff[id].fingerprint == fingerprint;
    DelayIsWait(if again then s.backoff[id].failures + 1 else 1);
  }

  /** The steps that take a delay away: an explicit start, a success, a removal that clears, and forgiving. */
  predicate Forgets(s: System, step: Step, id: Backend) {
    match step
    case Apply(other, explicit) => explicit && other == id && Startable(s, id)
    case PublicationEnds(ok) =>
      ok && s.queue.InPublication? && s.queue.attempt < |s.attempts| && s.attempts[s.queue.attempt].backend == id
    case Removed(ok) => ok && s.queue.Removing? && s.queue.backend == id && s.queue.clear
    case Forgive(other) => s.queue == Free && other == id
    case _ => false
  }

  /** What failed in a step. */
  datatype Failures = NoFailure | Once(fingerprint: Fingerprint) | Twice(fingerprint: Fingerprint)

  /** The failures of a step: a start without its environment, a refused reservation, a failed start, publication or cleanup. */
  function Fails(s: System, step: Step, id: Backend): Failures {
    match step
    case Apply(other, explicit) =>
      if other == id && Startable(s, id) && !Delayed(s, id, explicit) && !Reachable(s, id)
      then Once(s.config.loaded[id].fingerprint) else NoFailure
    case Reserved(result) =>
      if result == Refused && s.queue.Reserving? && s.queue.backend == id then Once(s.queue.definition.fingerprint)
      else NoFailure
    case TakeTurn(n) =>
      if s.queue == Free && InPlace(s, n) && s.attempts[n].phase == Started(false) && Agrees(s, s.attempts[n])
         && s.attempts[n].backend == id
      then Once(s.attempts[n].fingerprint) else NoFailure
    case DiscardTurn(n) =>
      if s.queue != Free || n >= |s.attempts| || !s.attempts[n].phase.Discarded? || s.attempts[n].backend != id then NoFailure
      else
        var published := s.attempts[n].phase.publicationFailed && InPlace(s, n) && Agrees(s, s.attempts[n]);
        if published && s.attempts[n].phase.cleanupFailed then Twice(s.attempts[n].fingerprint)
        else if published || s.attempts[n].phase.cleanupFailed then Once(s.attempts[n].fingerprint)
        else NoFailure
    case _ => NoFailure
  }

  function NextDelay(k: Kept, failures: Failures, now: nat): Kept {
    match failures
    case NoFailure => k
    case Once(fingerprint) => Worse(k, fingerprint, now)
    case Twice(fingerprint) => Worse(Worse(k, fingerprint, now), fingerprint, now)
  }

  /** A delay is taken away and made longer exactly by those steps, and its time is counted from now. */
  lemma DelayLife(s: System, step: Step, id: Backend)
    requires Valid(s)
    ensures KeptFor(Take(s, step), id) ==
              NextDelay(if Forgets(s, step, id) then Nothing else KeptFor(s, id), Fails(s, step, id), s.now)
  {
    hide Valid, RecordFailure, Wait, Delay, StartApply, Turn, SecondTurn, Agrees, CancelAllStale, Configured;
    if s.queue.InPublication? { PublishingNow(s); }
    match step
    case Apply(other, explicit) => ApplyDelay(s, other, explicit, id);
    case TakeTurn(n) => TurnDelay(s, n, id);
    case DiscardTurn(n) => DiscardDelay(s, n, id);
    case CancelStale => StaleDelay(s);
    case Reserved(result) =>
      if s.queue.Reserving? {
        FailureIsWorse(s.(queue := Free), s.queue.backend, s.queue.definition.fingerprint, id);
      }
    case _ =>
  }

  lemma TurnDelay(s: System, n: nat, id: Backend)
    ensures KeptFor(Turn(s, n), id) == NextDelay(KeptFor(s, id), Fails(s, TakeTurn(n), id), s.now)
  {
    hide RecordFailure, IsCurrent, View, Wait, Agrees;
    if n < |s.attempts| {
      AgreesIsCurrent(s, s.attempts[n]);
      FailureIsWorse(s, s.attempts[n].backend, s.attempts[n].fingerprint, id);
    }
  }

  lemma StaleDelay(s: System)
    ensures CancelAllStale(s).backoff == s.backoff
  {
    hide IsCurrent;
  }

  lemma ApplyDelay(s: System, other: Backend, explicit: bool, id: Backend)
    requires Valid(s)
    ensures KeptFor(StartApply(s, other, explicit), id) ==
              NextDelay(if Forgets(s, Apply(other, explicit), id) then Nothing else KeptFor(s, id),
                        Fails(s, Apply(other, explicit), id), s.now)
  {
    hide Valid, RecordFailure, IsCurrent, Wait, Delay;
    if other in s.config.loaded {
      var t := if explicit then s.(backoff := s.backoff - {other}) else s;
      FailureIsWorse(t, other, s.config.loaded[other].fingerprint, id);
    }
  }

  lemma DiscardDelay(s: System, n: nat, id: Backend)
    requires Valid(s)
    ensures KeptFor(SecondTurn(s, n), id) == NextDelay(KeptFor(s, id), Fails(s, DiscardTurn(n), id), s.now)
  {
    hide Valid, RecordFailure, IsCurrent, Wait, Delay;
    if n < |s.attempts| && s.attempts[n].phase.Discarded? {
      var a := s.attempts[n];
      AgreesIsCurrent(s, a);
      FailureIsWorse(s, a.backend, a.fingerprint, id);
      FailureIsWorse(LeavePlace(s, n, a.phase.publicationFailed), a.backend, a.fingerprint, id);
    }
  }

  // ---- clients, time and what is saved ----

  /** An explicit start waits for the attempt that is there or the one it made, and is told when that is over. */
  lemma ClientLife(s: System, step: Step)
    requires Valid(s)
    ensures var t := Take(s, step);
            t.clients ==
              match step {
                case Apply(id, explicit) =>
                  if explicit && s.queue == Free && id in s.config.loaded && s.config.loaded[id].enabled && id in s.registry
                  then s.clients + [Awaiting(s.registry[id])] else s.clients
                case Reserved(result) =>
                  if result == Granted && s.queue.Reserving? && s.queue.explicit
                  then s.clients + [Awaiting(|s.attempts|)] else s.clients
                case Answer(k) =>
                  if k < |s.clients| && s.clients[k].Awaiting? && s.queue == Free
                     && s.clients[k].attempt < |s.attempts| && s.attempts[s.clients[k].attempt].phase.Done?
                  then s.clients[k := Answered(s.clients[k].attempt,
                                               s.attempts[s.clients[k].attempt].phase == Done(Superseded))]
                  else s.clients
                case _ => s.clients
              }
  {
    hide Valid, RecordFailure, IsCurrent, View;
    match step
    case Apply(id, explicit) => if id in s.config.loaded { BeginAttempts(s, id, explicit); }
    case TakeTurn(n) => if n < |s.attempts| { RecordFailureAt(s, s.attempts[n].backend, s.attempts[n].fingerprint); }
    case DiscardTurn(n) => SecondTurnQueue(s, n);
    case Reserved(result) =>
      if s.queue.Reserving? { RecordFailureAt(s.(queue := Free), s.queue.backend, s.queue.definition.fingerprint); }
    case _ =>
  }

  /** No step of the startup protocol touches configuration, clock or shutdown. */
  lemma StartupFrame(s: System, step: Step)
    requires step.Apply? || step.Reserved? || step.TakeTurn? || step.PublicationEnds? || step.DiscardTurn?
    ensures var t := Take(s, step); t.config == s.config && t.now == s.now && t.shutdown == s.shutdown
  {
    hide StartApply, SecondTurn, Turn, EndPublication, EndReserve;
    match step
    case Apply(id, explicit) => ApplyFrame(s, id, explicit);
    case DiscardTurn(n) => SecondTurnFrame(s, n);
    case TakeTurn(n) => TurnFrame(s, n);
    case Reserved(result) => ReserveFrame(s, result);
    case PublicationEnds(ok) => PublicationFrame(s, ok);
  }

  predicate SameFrame(s: System, t: System) { t.config == s.config && t.now == s.now && t.shutdown == s.shutdown }

  lemma ApplyFrame(s: System, id: Backend, explicit: bool)
    ensures SameFrame(s, StartApply(s, id, explicit))
  {
    hide IsCurrent, Begin, MustWait;
    if id in s.config.loaded { BeginAttempts(s, id, explicit); }
  }

  lemma SecondTurnFrame(s: System, n: nat)
    ensures SameFrame(s, SecondTurn(s, n))
  {
    hide Delay, IsCurrent;
  }

  lemma TurnFrame(s: System, n: nat)
    ensures SameFrame(s, Turn(s, n))
  {
    hide RecordFailure, IsCurrent, View;
    if n < |s.attempts| { RecordFailureAt(s, s.attempts[n].backend, s.attempts[n].fingerprint); }
  }

  lemma ReserveFrame(s: System, result: Reservation)
    ensures SameFrame(s, EndReserve(s, result))
  {
    hide Delay;
  }

  lemma PublicationFrame(s: System, ok: bool)
    ensures SameFrame(s, EndPublication(s, ok))
  {
  }

  /** Time passes with the clock, and the shutdown is for ever. */
  lemma ClockLife(s: System, step: Step)
    requires Valid(s)
    ensures Take(s, step).now == s.now + (if step.Tick? then step.duration else 0)
    ensures Take(s, step).shutdown == (s.shutdown || step.Shutdown?)
  {
    hide Valid, StartApply, EndReserve, Turn, EndPublication, SecondTurn, IsCurrent;
    if step.Apply? || step.Reserved? || step.TakeTurn? || step.PublicationEnds? || step.DiscardTurn? { StartupFrame(s, step); }
  }

  /** What is saved about a backend after a step: only a save, in its turn, and a command, at any time, change it. */
  lemma RecordLife(s: System, step: Step, id: Backend)
    requires Valid(s)
    ensures var c, d := s.config, Take(s, step).config;
            match step {
              case Save(changes) =>
                if s.queue == Free && id in changes then
                  id in d.saved
                  && d.saved[id] == Record(changes[id], id !in c.saved || c.saved[id].automatic, c.revision + 1)
                else (id in d.saved <==> id in c.saved) && (id in c.saved ==> d.saved[id] == c.saved[id])
              case Command(other, automatic) =>
                && (id in d.saved <==> id in c.saved)
                && (id in c.saved ==>
                      d.saved[id] == if other == id then Record(c.saved[id].definition, automatic, c.revision + 1) else c.saved[id])
              case _ => (id in d.saved <==> id in c.saved) && (id in c.saved ==> d.saved[id] == c.saved[id])
            }
    ensures Take(s, step).config.revision == s.config.revision +
              if (step.Save? && s.queue == Free) || (step.Command? && step.backend in s.config.saved) then 1 else 0
  {
    hide Valid, StartApply, EndReserve, Turn, EndPublication, SecondTurn, IsCurrent;
    if step.Apply? || step.Reserved? || step.TakeTurn? || step.PublicationEnds? || step.DiscardTurn? { StartupFrame(s, step); }
  }

  /** A reload reads all definitions, and a runtime is replaced under its environment; nothing else changes them. */
  lemma LoadLife(s: System, step: Step, id: Backend, e: Environment)
    requires Valid(s)
    ensures var c, d := s.config, Take(s, step).config;
            if step == Reload && s.queue == Free then
              (id in d.loaded <==> id in c.saved) && (id in c.saved ==> d.loaded[id] == c.saved[id].definition)
            else d.loaded == c.loaded
    ensures var c, d := s.config, Take(s, step).config;
            if step.Replace? && step.environment == e then
              (e in d.environments <==> step.runtime.Some?) && (step.runtime.Some? ==> d.environments[e] == step.runtime.value)
            else (e in d.environments <==> e in c.environments) && (e in c.environments ==> d.environments[e] == c.environments[e])
  {
    hide Valid, StartApply, EndReserve, Turn, EndPublication, SecondTurn, IsCurrent;
    if step.Apply? || step.Reserved? || step.TakeTurn? || step.PublicationEnds? || step.DiscardTurn? { StartupFrame(s, step); }
  }
}
