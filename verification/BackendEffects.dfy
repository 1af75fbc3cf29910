/**
 Which attempts to start a backend take effect (src/server/production-application.ts): over every run of the
 steps in `BackendStartup`, only one that was registered and current at its turn, and each once.
 */
module BackendEffects {
  import opened Wrappers
  import opened BackendStartup

  // ---- what a step can do for an attempt ----

  /** The attempt is at its turn, and the turn will let it pass. */
  predicate Passes(s: System, n: nat) {
    s.queue.Free? && Registered(s, n) && s.attempts[n].phase.Started? && IsCurrent(s, s.attempts[n])
  }

  predicate PublishedNow(s: System, n: nat) { s.queue.InPublication? && s.queue.attempt == n }

  /** A step that is neither its passing turn nor the end of its publication does not bring an attempt forward. */
  predicate Powerless(s: System, step: Step, n: nat) {
    && n < |s.attempts| && s.attempts[n].phase != Done(Applied)
    && !(step == TakeTurn(n) && Passes(s, n)) && !(step.PublicationEnds? && PublishedNow(s, n))
  }

  /** What a step may do to an attempt that is not to take effect. */
  predicate Wanes(a: Attempt, b: Attempt) {
    && b.backend == a.backend && b.revision == a.revision
    && (a.cancelled ==> b.cancelled) && (a.discarded ==> b.discarded)
    && b.phase != Done(Applied) && (b.phase.Publishing? ==> a.phase.Publishing?)
  }

  /** Nothing in a step gives the attempt back what it lost. */
  ghost predicate Fades(s: System, t: System, n: nat) {
    && n < |s.attempts| && n < |t.attempts| && Wanes(s.attempts[n], t.attempts[n])
    && (Registered(t, n) ==> Registered(s, n))
    && (s.attempts[n].backend in s.config.saved ==>
          NotNewer(t.config, s.attempts[n].backend, s.config.saved[s.attempts[n].backend].revision))
  }

  /** The usual case: nothing is saved, and nothing new is registered. */
  lemma FadesHere(s: System, t: System, n: nat)
    requires n < |s.attempts| && n < |t.attempts| && Wanes(s.attempts[n], t.attempts[n]) && t.config == s.config
    requires forall id :: id in t.registry ==> id in s.registry && t.registry[id] == s.registry[id]
    ensures Fades(s, t, n)
  {
  }

  lemma TurnFades(s: System, m: nat, n: nat)
    requires Valid(s) && Powerless(s, TakeTurn(m), n)
    ensures Fades(s, Turn(s, m), n)
  {
    hide Valid, Turn, IsCurrent, Fades, Registered;
    if s.queue.Free? && m < |s.attempts| && s.attempts[m].phase.Started? {
      TurnShape(s, m);
      RegisteredIsThere(s, m);
    } else {
      NoTurn(s, m);
    }
    FadesHere(s, Turn(s, m), n);
  }

  lemma RegisteredIsThere(s: System, m: nat)
    ensures Registered(s, m) ==> m < |s.attempts|
  {
  }

  lemma NoTurn(s: System, m: nat)
    requires !(s.queue.Free? && m < |s.attempts| && s.attempts[m].phase.Started?)
    ensures Turn(s, m) == s
  {
  }

  lemma TurnShape(s: System, m: nat)
    requires s.queue.Free? && m < |s.attempts| && s.attempts[m].phase.Started?
    ensures var t, a := Turn(s, m), s.attempts[m];
            && t.config == s.config && (t.registry == s.registry || t.registry == s.registry - {a.backend})
            && |t.attempts| == |s.attempts| && t.attempts == s.attempts[m := t.attempts[m]]
            && Wanes(a, t.attempts[m].(phase := Starting)) && t.attempts[m].phase != Done(Applied)
            && (t.attempts[m].phase.Publishing? ==> Registered(s, m) && IsCurrent(s, a))
  {
    hide RecordFailure, IsCurrent, Registered;
    RecordFailureAt(s, s.attempts[m].backend, s.attempts[m].fingerprint);
  }

  lemma SecondTurnFades(s: System, m: nat, n: nat)
    requires Valid(s) && Powerless(s, DiscardTurn(m), n)
    ensures Fades(s, SecondTurn(s, m), n)
  {
    hide Valid, RecordFailure, LeavePlace, NotNewer;
    if s.queue.Free? && m < |s.attempts| && s.attempts[m].phase.Discarded? {
      var a, u := s.attempts[m], LeavePlace(s, m, s.attempts[m].phase.publicationFailed);
      LeaveFades(s, m, a.phase.publicationFailed, n);
      RecordFailureAt(u, a.backend, a.fingerprint);
    }
    NotNewerThanItself(s);
  }

  lemma LeaveFades(s: System, m: nat, publicationFailed: bool, n: nat)
    requires Valid(s) && s.queue.Free? && m < |s.attempts|
    ensures var u := LeavePlace(s, m, publicationFailed);
            && u == s.(registry := u.registry, backoff := u.backoff)
            && (Registered(u, n) ==> Registered(s, n))
  {
    hide Valid, RecordFailure, IsCurrent;
    LeaveKeeps(s, m, publicationFailed);
    RecordFailureAt(s, s.attempts[m].backend, s.attempts[m].fingerprint);
  }

  lemma NotNewerThanItself(s: System)
    ensures forall id :: id in s.config.saved ==> NotNewer(s.config, id, s.config.saved[id].revision)
  {
  }

  lemma PublicationFades(s: System, ok: bool, n: nat)
    requires Valid(s) && Powerless(s, PublicationEnds(ok), n)
    ensures Fades(s, EndPublication(s, ok), n)
  {
    hide Valid, IsCurrent, NotNewer;
    NotNewerThanItself(s);
  }

  lemma ApplyFades(s: System, id: Backend, explicit: bool, n: nat)
    requires Valid(s) && Powerless(s, Apply(id, explicit), n)
    ensures Fades(s, StartApply(s, id, explicit), n)
  {
    hide Valid, IsCurrent, Begin, Fades, Registered, Cancel;
    if id in s.config.loaded { BeginFrame(s, id, explicit); }
    CancelWanes(s, id, n);
    FadesHere(s, StartApply(s, id, explicit), n);
  }

  lemma CancelWanes(s: System, id: Backend, n: nat)
    requires n < |s.attempts| && s.attempts[n].phase != Done(Applied)
    ensures var t := Cancel(s, id); t == s.(attempts := t.attempts) && |t.attempts| == |s.attempts|
    ensures Wanes(s.attempts[n], Cancel(s, id).attempts[n])
  {
  }

  lemma BeginFrame(s: System, id: Backend, explicit: bool)
    requires id in s.config.loaded
    ensures var t := Begin(s, id, explicit); t == s.(backoff := t.backoff, queue := t.queue)
  {
    hide RecordFailure;
    var t := if explicit then s.(backoff := s.backoff - {id}) else s;
    RecordFailureAt(t, id, s.config.loaded[id].fingerprint);
  }

  lemma ReserveFades(s: System, result: Reservation, n: nat)
    requires Valid(s) && Powerless(s, Reserved(result), n)
    ensures Fades(s, EndReserve(s, result), n)
  {
    hide Valid, RecordFailure;
    if s.queue.Reserving? {
      RecordFailureAt(s.(queue := Free), s.queue.backend, s.queue.definition.fingerprint);
    }
  }

  lemma SaveFades(s: System, step: Step, n: nat)
    requires Valid(s) && Powerless(s, step, n) && Configures(step)
    ensures Fades(s, Take(s, step), n)
  {
    hide AttemptsOk, RegistryOk, EffectsOk, BackoffOk, ClientsOk, QueueOk, AgesOk, RecordsOk, Configured, Take;
    ConfiguringKeeps(s, step);
    ConfiguredIsLater(s, step);
  }

  lemma OtherFades(s: System, step: Step, n: nat)
    requires Powerless(s, step, n)
    requires !Configures(step) && !step.Apply? && !step.Reserved?
    requires !step.TakeTurn? && !step.DiscardTurn? && !step.PublicationEnds?
    ensures Fades(s, Take(s, step), n)
  {
    hide Fades, Cancel, CancelAllStale, SetPhase, Report, EndRemove;
    match step {
      case Complete(m, ok) => PhaseWanes(s, step, n);
      case CleanupEnds(m, failed) => PhaseWanes(s, step, n);
      case CancelStale => StaleWanes(s, n); FadesHere(s, Take(s, step), n);
      case Remove(id, clear) => CancelWanes(s, id, n); FadesHere(s, Take(s, step), n);
      case Removed(ok) => RemovedFrame(s, ok); FadesHere(s, Take(s, step), n);
      case Answer(k) => ReportFrame(s, k); FadesHere(s, Take(s, step), n);
      case _ => FadesHere(s, Take(s, step), n);
    }
  }

  lemma PhaseWanes(s: System, step: Step, n: nat)
    requires n < |s.attempts| && s.attempts[n].phase != Done(Applied) && (step.Complete? || step.CleanupEnds?)
    ensures Fades(s, Take(s, step), n)
  {
    hide Fades;
    FadesHere(s, Take(s, step), n);
  }

  lemma RemovedFrame(s: System, ok: bool)
    ensures var t := EndRemove(s, ok); t == s.(registry := t.registry, queue := t.queue, backoff := t.backoff)
    ensures var t := EndRemove(s, ok);
            forall id :: id in t.registry ==> id in s.registry && t.registry[id] == s.registry[id]
  {
  }

  lemma ReportFrame(s: System, k: nat)
    ensures Report(s, k) == s.(clients := Report(s, k).clients)
  {
  }

  lemma StaleWanes(s: System, n: nat)
    requires n < |s.attempts| && s.attempts[n].phase != Done(Applied)
    ensures var t := CancelAllStale(s); t == s.(attempts := t.attempts) && |t.attempts| == |s.attempts|
    ensures Wanes(s.attempts[n], CancelAllStale(s).attempts[n])
  {
    hide IsCurrent, Registered;
  }

  lemma StepFades(s: System, step: Step, n: nat)
    requires Valid(s) && Powerless(s, step, n)
    ensures Fades(s, Take(s, step), n)
  {
    hide Valid, Fades;
    match step {
      case Save(_) => SaveFades(s, step, n);
      case Command(_, _) => SaveFades(s, step, n);
      case Reload => SaveFades(s, step, n);
      case Replace(_, _) => SaveFades(s, step, n);
      case Apply(id, explicit) => ApplyFades(s, id, explicit, n);
      case Reserved(result) => ReserveFades(s, result, n);
      case TakeTurn(m) => TurnFades(s, m, n);
      case DiscardTurn(m) => SecondTurnFades(s, m, n);
      case PublicationEnds(ok) => PublicationFades(s, ok, n);
      case _ => OtherFades(s, step, n);
    }
  }

  // ---- an attempt that lost its place ----

  /** A command or a save has given its backend a newer revision. */
  predicate Outdated(s: System, n: nat)
    requires n < |s.attempts|
  {
    s.attempts[n].backend in s.config.saved && s.config.saved[s.attempts[n].backend].revision > s.attempts[n].revision
  }

  /** Cancelled, turned away or replaced before it took effect, or outdated before its turn. */
  ghost predicate Lost(s: System, n: nat) {
    && n < |s.attempts| && s.attempts[n].phase != Done(Applied)
    && (s.attempts[n].cancelled || s.attempts[n].discarded || !Registered(s, n)
        || (Outdated(s, n) && !s.attempts[n].phase.Publishing?))
  }

  lemma LostIsPowerless(s: System, step: Step, n: nat)
    requires Valid(s) && Lost(s, n)
    ensures Powerless(s, step, n)
  {
    hide Valid;
    AttemptIsOk(s, n);
    if s.queue.InPublication? { PublishingNow(s); }
  }

  lemma FadesIsLost(s: System, t: System, n: nat)
    requires Lost(s, n) && Fades(s, t, n)
    ensures Lost(t, n)
  {
  }

  lemma {:induction false} LostStaysLost(s: System, steps: seq<Step>, n: nat)
    requires Valid(s) && Lost(s, n)
    ensures Lost(Run(s, steps), n)
    decreases |steps|
  {
    hide Valid, Take, Lost, Fades;
    if steps != [] {
      StepKeeps(s, steps[0]);
      LostIsPowerless(s, steps[0], n);
      StepFades(s, steps[0], n);
      FadesIsLost(s, Take(s, steps[0]), n);
      LostStaysLost(Take(s, steps[0]), steps[1..], n);
    }
  }

  /** An attempt that is cancelled, replaced or stale at its turn takes no effect, however the run goes on. */
  lemma StaleIsNeverPublished(s: System, n: nat, steps: seq<Step>)
    requires Valid(s) && s.queue.Free? && n < |s.attempts| && s.attempts[n].phase.Started?
    requires !Registered(s, n) || !IsCurrent(s, s.attempts[n])
    ensures var t := Run(Take(s, TakeTurn(n)), steps);
            n < |t.attempts| && t.attempts[n].phase != Done(Applied) && !Named(t.effects, n)
  {
    hide Valid;
    StepKeeps(s, TakeTurn(n));
    LostStaysLost(Take(s, TakeTurn(n)), steps, n);
    RunKeeps(Take(s, TakeTurn(n)), steps);
    LostIsNotNamed(Run(Take(s, TakeTurn(n)), steps), n);
  }

  lemma LostIsNotNamed(s: System, n: nat)
    requires Valid(s) && Lost(s, n)
    ensures !Named(s.effects, n)
  {
  }

  // ---- every run ----

  /** Exactly the attempts that were applied took effect, once each, with what was saved at that moment;
      none of them had been cancelled or turned away. */
  lemma TakesEffectOnce(steps: seq<Step>, n: nat)
    requires n < |Run(START, steps).attempts|
    ensures var s := Run(START, steps);
            && (s.attempts[n].phase == Done(Applied) <==> Named(s.effects, n))
            && (Named(s.effects, n) ==> !s.attempts[n].cancelled && !s.attempts[n].discarded)
            && forall i, j :: 0 <= i <= j < |s.effects| && s.effects[i].attempt == n && s.effects[j].attempt == n ==>
                 i == j && Matches(s.effects[i].config, s.attempts[n])
  {
    hide Run, Matches;
    ReachableIsValid(steps);
    assert AttemptOk(Run(START, steps).queue, n, Run(START, steps).attempts[n]);
  }

  /** Two attempts for one backend: at most one of them can still take effect. */
  lemma OneAttemptPerBackend(steps: seq<Step>, more: seq<Step>, m: nat, n: nat)
    requires var s := Run(START, steps);
             && m < |s.attempts| && n < |s.attempts| && m != n && s.attempts[m].backend == s.attempts[n].backend
             && s.attempts[m].phase != Done(Applied) && s.attempts[n].phase != Done(Applied)
    ensures var t := Run(Run(START, steps), more); !Named(t.effects, m) || !Named(t.effects, n)
  {
    hide Run, Valid;
    var s := Run(START, steps);
    ReachableIsValid(steps);
    RunKeeps(s, more);
    var lost := if Registered(s, m) then n else m;
    LostStaysLost(s, more, lost);
    LostIsNotNamed(Run(s, more), lost);
  }

  // ---- seen from the trace ----

  predicate Begun(phase: Phase) { phase.Publishing? || phase == Done(Applied) }

  /** Publication begins only with a turn that the attempt passes. */
  lemma OnlyATurn(s: System, step: Step, n: nat)
    requires Valid(s) && n < |Take(s, step).attempts| && Begun(Take(s, step).attempts[n].phase)
    ensures n < |s.attempts| && (Begun(s.attempts[n].phase) || (step == TakeTurn(n) && Passes(s, n)))
  {
    hide Valid, Take, Passes;
    if n >= |s.attempts| {
      NewIsNotBegun(s, step, n);
    } else if !Begun(s.attempts[n].phase) && !(step == TakeTurn(n) && Passes(s, n)) {
      if PublishedNow(s, n) { PublishingNow(s); }
      StepFades(s, step, n);
    }
  }

  lemma NewIsNotBegun(s: System, step: Step, n: nat)
    requires Valid(s) && |s.attempts| <= n < |Take(s, step).attempts|
    ensures !Begun(Take(s, step).attempts[n].phase)
  {
    hide Valid, Turn, SecondTurn, Begin, Cancel, IsCurrent, Configured, RecordFailure;
    match step {
      case Reserved(result) =>
        if s.queue.Reserving? {
          RecordFailureAt(s.(queue := Free), s.queue.backend, s.queue.definition.fingerprint);
        }
      case Apply(id, explicit) =>
        if id in s.config.loaded { BeginFrame(s, id, explicit); }
        CancelLength(s, id);
      case Remove(id, _) => CancelLength(s, id);
      case TakeTurn(m) => TurnLength(s, m);
      case DiscardTurn(m) => SecondTurnLength(s, m);
      case _ =>
    }
  }

  lemma CancelLength(s: System, id: Backend)
    ensures |Cancel(s, id).attempts| == |s.attempts|
  {
  }

  lemma TurnLength(s: System, m: nat)
    ensures |Turn(s, m).attempts| == |s.attempts|
  {
    hide RecordFailure, IsCurrent, Registered;
    if m < |s.attempts| { RecordFailureAt(s, s.attempts[m].backend, s.attempts[m].fingerprint); }
  }

  lemma SecondTurnLength(s: System, m: nat)
    ensures |SecondTurn(s, m).attempts| == |s.attempts|
  {
    hide RecordFailure, LeavePlace;
  }

  lemma {:induction false} RunSnoc(s: System, steps: seq<Step>, last: Step)
    ensures Run(s, steps + [last]) == Take(Run(s, steps), last)
    decreases |steps|
  {
    hide Take;
    if steps == [] {
      assert steps + [last] == [last] && [last][1..] == [];
    } else {
      assert (steps + [last])[1..] == steps[1..] + [last];
      RunSnoc(Take(s, steps[0]), steps[1..], last);
    }
  }

  /** Whatever is applied had its turn somewhere in the run, registered and current at that moment. */
  lemma {:induction false} AppliedHadItsTurn(steps: seq<Step>, n: nat) returns (k: nat)
    requires n < |Run(START, steps).attempts| && Begun(Run(START, steps).attempts[n].phase)
    ensures k < |steps| && steps[k] == TakeTurn(n) && Passes(Run(START, steps[..k]), n)
    decreases |steps|
  {
    hide Take, Run, Passes, Valid;
    if steps == [] {
      NothingRun();
      assert false;
    } else {
      var m := |steps| - 1;
      var before := steps[..m];
      assert steps == before + [steps[m]];
      RunSnoc(START, before, steps[m]);
      ReachableIsValid(before);
      OnlyATurn(Run(START, before), steps[m], n);
      if Begun(Run(START, before).attempts[n].phase) {
        k := AppliedHadItsTurn(before, n);
        assert before[..k] == steps[..k];
      } else {
        k := m;
      }
    }
  }

  lemma NothingRun()
    ensures Run(START, []) == START
  {
  }

  // ---- commands are admitted at any time ----

  /** Once a start, stop, connect or disconnect is admitted, no earlier attempt that has not reached its turn takes
      effect; the queue need not be free. */
  lemma CommandSupersedes(s: System, id: Backend, automatic: bool, n: nat, steps: seq<Step>)
    requires Valid(s) && n < |s.attempts| && s.attempts[n].backend == id && !Begun(s.attempts[n].phase)
    ensures !Named(Run(Take(s, Command(id, automatic)), steps).effects, n)
  {
    hide Run, AttemptsOk, RegistryOk, EffectsOk, BackoffOk, ClientsOk, QueueOk;
    var t := Take(s, Command(id, automatic));
    assert NotNewer(s.config, id, s.attempts[n].revision);
    assert t.attempts == s.attempts && Lost(t, n);
    StepKeeps(s, Command(id, automatic));
    LostStaysLost(t, steps, n);
    RunKeeps(t, steps);
    LostIsNotNamed(Run(t, steps), n);
  }

  /** Nor does the attempt that a reservation under way will make. */
  lemma CommandDuringReservation(s: System, automatic: bool, steps: seq<Step>)
    requires Valid(s) && s.queue.Reserving?
    ensures var t := Take(Take(s, Command(s.queue.backend, automatic)), Reserved(Granted));
            !Named(Run(t, steps).effects, |s.attempts|)
  {
    hide Run, AttemptsOk, RegistryOk, EffectsOk, BackoffOk, ClientsOk, AgesOk;
    var u := Take(s, Command(s.queue.backend, automatic));
    var t := Take(u, Reserved(Granted));
    assert NotNewer(s.config, s.queue.backend, s.queue.revision);
    assert t.attempts[|s.attempts|].revision == s.queue.revision;
    StepKeeps(s, Command(s.queue.backend, automatic));
    StepKeeps(u, Reserved(Granted));
    LostStaysLost(t, steps, |s.attempts|);
    RunKeeps(t, steps);
    LostIsNotNamed(Run(t, steps), |s.attempts|);
  }

  /** The repository still says what the attempt was made from. */
  predicate StillSaved(c: Configuration, a: Attempt) {
    a.backend in c.saved && c.saved[a.backend].definition.enabled && c.saved[a.backend].automatic &&
    c.saved[a.backend].revision == a.revision
  }

  predicate Commanded(steps: seq<Step>, id: Backend) {
    exists i :: 0 <= i < |steps| && steps[i].Command? && steps[i].backend == id
  }

  /** While an attempt is being published only a command can change what is saved. */
  lemma PublicationStep(s: System, step: Step, n: nat)
    requires Valid(s) && PublishedNow(s, n) && !step.PublicationEnds?
    ensures var t := Take(s, step);
            && PublishedNow(t, n) && |t.attempts| == |s.attempts|
            && t.attempts[n].backend == s.attempts[n].backend && t.attempts[n].revision == s.attempts[n].revision
            && t.config.saved == Configured(s.config, s.queue, step).saved
  {
    hide AttemptsOk, RegistryOk, EffectsOk, BackoffOk, ClientsOk, RecordsOk, AgesOk, Matches;
    hide Begin, RecordFailure, LeavePlace, SecondTurn, SaveAll, Admit, LoadAll, ReplaceRuntime;
    if step.DiscardTurn? { NoSecondTurn(s, step.attempt); }
  }

  lemma NoSecondTurn(s: System, m: nat)
    requires !s.queue.Free?
    ensures SecondTurn(s, m) == s
  {
  }

  /** So at the end of the publication the repository still agrees exactly if no command came in between. */
  lemma {:induction false} PublicationIsCurrent(s: System, steps: seq<Step>, n: nat)
    requires Valid(s) && PublishedNow(s, n) && n < |s.attempts|
    requires forall i :: 0 <= i < |steps| ==> !steps[i].PublicationEnds?
    ensures var t := Run(s, steps);
            && PublishedNow(t, n) && n < |t.attempts|
            && (StillSaved(t.config, t.attempts[n]) <==>
                  StillSaved(s.config, s.attempts[n]) && !Commanded(steps, s.attempts[n].backend))
    decreases |steps|
  {
    hide Valid, Take, StillSaved, Commanded;
    if steps == [] {
      NoCommand(s.attempts[n].backend);
    } else {
      var t, rest := Take(s, steps[0]), steps[1..];
      StepKeeps(s, steps[0]);
      PublicationStep(s, steps[0], n);
      PublicationIsCurrent(t, rest, n);
      CommandedCons(steps, s.attempts[n].backend);
      StillSavedStep(s, steps[0], n);
    }
  }

  lemma NoCommand(id: Backend)
    ensures !Commanded([], id)
  {
  }

  lemma CommandedCons(steps: seq<Step>, id: Backend)
    requires steps != []
    ensures Commanded(steps, id) <==> (steps[0].Command? && steps[0].backend == id) || Commanded(steps[1..], id)
  {
    var rest := steps[1..];
    if i :| 0 <= i < |steps| && steps[i].Command? && steps[i].backend == id {
      if i > 0 { assert rest[i - 1] == steps[i]; }
    }
    if i :| 0 <= i < |rest| && rest[i].Command? && rest[i].backend == id { assert steps[i + 1] == rest[i]; }
  }

  lemma StillSavedStep(s: System, step: Step, n: nat)
    requires Valid(s) && PublishedNow(s, n) && n < |s.attempts| && !step.PublicationEnds?
    requires var t := Take(s, step);
             && n < |t.attempts| && t.attempts[n].backend == s.attempts[n].backend
             && t.attempts[n].revision == s.attempts[n].revision
             && t.config.saved == Configured(s.config, s.queue, step).saved
    ensures var t := Take(s, step);
            StillSaved(t.config, t.attempts[n]) <==>
              StillSaved(s.config, s.attempts[n]) && !(step.Command? && step.backend == s.attempts[n].backend)
  {
    hide Take, AttemptsOk, RegistryOk, EffectsOk, BackoffOk, ClientsOk, QueueOk;
    assert NotNewer(s.config, s.attempts[n].backend, s.attempts[n].revision);
  }

  /** At the turn it does agree. */
  lemma PassingIsSaved(s: System, n: nat)
    requires Passes(s, n) && s.attempts[n].phase.ok
    ensures var t := Take(s, TakeTurn(n));
            PublishedNow(t, n) && StillSaved(t.config, t.attempts[n]) && t.queue.seen == View(s.config, s.attempts[n])
  {
  }

  // ---- a stop during a publication ----

  /** The comparison is that of the turn: a stop that is admitted during the publication comes too late. */
  lemma StopDuringPublication(s: System, n: nat)
    requires Valid(s) && Passes(s, n) && s.attempts[n].phase.ok
    ensures var id := s.attempts[n].backend;
            var t := Take(Take(Take(s, TakeTurn(n)), Command(id, false)), PublicationEnds(true));
            Named(t.effects, n) && id in t.config.saved && !t.config.saved[id].automatic
  {
    hide AttemptsOk, RegistryOk, EffectsOk, BackoffOk, ClientsOk, RecordsOk, AgesOk, Matches, View;
    var id := s.attempts[n].backend;
    var t := Take(Take(Take(s, TakeTurn(n)), Command(id, false)), PublicationEnds(true));
    assert t.effects[|s.effects|].attempt == n;
  }

  const ID: Backend := "b"
  const DEFINITION := Definition(true, 7, "e")

  /** And such a turn is reached: saved, loaded, started, completed. */
  lemma TurnIsReached() returns (steps: seq<Step>)
    ensures Passes(Run(START, steps), 0) && Run(START, steps).attempts[0].phase.ok
  {
    hide Run, Take;
    var a := Attempt(ID, 1, 7, "e", Some(1), false, Starting, false);
    var c := Configuration(map[ID := Record(DEFINITION, true, 1)], 1, map[ID := DEFINITION], map["e" := 1]);
    var s := START.(config := c);
    steps := [Save(map[ID := DEFINITION]), Reload, Replace("e", Some(1))];
    RunThree(START, steps[0], steps[1], steps[2]);
    assert Run(START, steps) == s by { FirstSteps(c); }
    var more := [Apply(ID, false), Reserved(Granted), Complete(0, true)];
    RunThree(s, more[0], more[1], more[2]);
    RunConcat(START, steps, more);
    steps := steps + more;
    NextSteps(s, a);
  }

  lemma FirstSteps(c: Configuration)
    requires c == Configuration(map[ID := Record(DEFINITION, true, 1)], 1, map[ID := DEFINITION], map["e" := 1])
    ensures Take(Take(Take(START, Save(map[ID := DEFINITION])), Reload), Replace("e", Some(1))) == START.(config := c)
  {
    var d := SaveAll(START.config, map[ID := DEFINITION]);
    assert d.saved == c.saved;
    assert LoadAll(d).loaded == c.loaded;
    assert ReplaceRuntime(LoadAll(d), "e", Some(1)).environments == c.environments;
  }

  lemma NextSteps(s: System, a: Attempt)
    requires a == Attempt(ID, 1, 7, "e", Some(1), false, Starting, false)
    requires s == START.(config := Configuration(map[ID := Record(DEFINITION, true, 1)], 1, map[ID := DEFINITION],
                                                 map["e" := 1]))
    ensures var t := Take(Take(Take(s, Apply(ID, false)), Reserved(Granted)), Complete(0, true));
            Passes(t, 0) && t.attempts[0].phase.ok
  {
    hide Delay;
    var t := s.(queue := Reserving(ID, false, 1, DEFINITION));
    assert Take(s, Apply(ID, false)) == t;
    var u := s.(attempts := [a], registry := map[ID := 0]);
    assert Take(t, Reserved(Granted)) == u;
    assert Take(u, Complete(0, true)) == u.(attempts := [a.(phase := Started(true))]);
  }

  lemma RunThree(s: System, a: Step, b: Step, c: Step)
    ensures Run(s, [a, b, c]) == Take(Take(Take(s, a), b), c)
  {
    hide Take;
    assert [a, b, c] == [a, b] + [c] && [a, b] == [a] + [b] && [a] == [] + [a];
    RunSnoc(s, [a, b], c);
    RunSnoc(s, [a], b);
    RunSnoc(s, [], a);
  }

  lemma {:induction false} RunConcat(s: System, a: seq<Step>, b: seq<Step>)
    ensures Run(s, a + b) == Run(Run(s, a), b)
    decreases |a|
  {
    hide Take;
    if a == [] {
      assert a + b == b;
    } else {
      assert (a + b)[1..] == a[1..] + b;
      RunConcat(Take(s, a[0]), a[1..], b);
    }
  }
}
