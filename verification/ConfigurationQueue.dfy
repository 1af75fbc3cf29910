/**
 The mutable state behind the configuration queue (src/server/production-application.ts): each method is
 what one stretch of the program does to the maps and to the attempts between two waits. Every step of
 `BackendStartup` has its method, and an object that is driven through any steps is where `Run` says.
 */
module ConfigurationQueue {
  import opened Wrappers
  import opened BackendStartup
  import BackendEffects

  class Backends {
    var config: Configuration
    var attempts: seq<Attempt>
    var backendStartups: map<Backend, nat>
    var backendStartupBackoff: map<Backend, Backoff>
    var queue: Queue
    var shutdown: bool
    var now: nat
    var clients: seq<Client>
    ghost var effects: seq<Effect>

    ghost function State(): (s: System)
      reads this
    {
      System(config, attempts, backendStartups, backendStartupBackoff, queue, shutdown, now, clients, effects)
    }

    constructor ()
      ensures State() == START && Valid(State())
    {
      config := Configuration(map[], 0, map[], map[]);
      attempts, backendStartups, backendStartupBackoff := [], map[], map[];
      queue, shutdown, now, clients, effects := Free, false, 0, [], [];
      new;
      ReachableIsValid([]);
    }

    method RecordBackendStartupFailure(id: Backend, fingerprint: Fingerprint)
      requires Valid(State())
      modifies this`backendStartupBackoff
      ensures State() == RecordFailure(old(State()), id, fingerprint) && Valid(State())
    {
      hide Valid;
      FailureKeeps(State(), id, fingerprint);
      var failures := 1;
      if id in backendStartupBackoff && backendStartupBackoff[id].fingerprint == fingerprint {
        failures := backendStartupBackoff[id].failures + 1;
      }
      backendStartupBackoff := backendStartupBackoff[id := Backoff(fingerprint, failures, now, now + Delay(failures))];
    }

    method CancelBackendStartup(id: Backend)
      requires Valid(State()) && queue.Free?
      modifies this`attempts
      ensures State() == Cancel(old(State()), id) && Valid(State())
    {
      hide Valid;
      CancelKeeps(State(), id);
      if id in backendStartups {
        RegisteredIsLive(State(), id);
        var n := backendStartups[id];
        attempts := attempts[n := attempts[n].(cancelled := true)];
      }
    }

    method BackendStartupIsCurrent(n: nat) returns (current: bool)
      requires n < |attempts|
      ensures current == IsCurrent(State(), attempts[n])
      ensures current ==> attempts[n].backend in config.saved
    {
      var a := attempts[n];
      if a.cancelled || shutdown || a.backend !in config.saved || a.backend !in config.loaded {
        return false;
      }
      var record := config.saved[a.backend];
      current := record.definition.enabled && record.automatic && record.revision == a.revision &&
                 config.loaded[a.backend].fingerprint == a.fingerprint && RuntimeOf(config, a.environment) == a.runtime;
    }

    /** Up to the first wait, for a removal or for a reservation. */
    method ApplyBackendRuntime(id: Backend, explicit: bool)
      requires Valid(State()) && queue.Free?
      modifies this
      ensures State() == Take(old(State()), Apply(id, explicit)) && Valid(State())
    {
      hide Valid, IsCurrent, Cancel, Begin;
      StepKeeps(State(), Apply(id, explicit));
      CancelFrame(State(), id);
      if id !in config.loaded || !config.loaded[id].enabled {
        CancelBackendStartup(id);
        queue := Removing(id, true);
      } else if id in backendStartups {
        RegisteredIsLive(State(), id);
        var n := backendStartups[id];
        var current := BackendStartupIsCurrent(n);
        if !current { CancelBackendStartup(id); }
        if explicit { clients := clients + [Awaiting(n)]; }
      } else {
        var backoff := backendStartupBackoff;
        if !explicit && id in backoff && backoff[id].fingerprint == config.loaded[id].fingerprint
           && backoff[id].retryAt > now {
          return;
        }
        BeginStartup(id, explicit);
      }
    }

    /** The revision and the definition are read before the wait. */
    method BeginStartup(id: Backend, explicit: bool)
      requires Valid(State()) && queue.Free? && id in config.loaded && id !in backendStartups
      modifies this`queue, this`backendStartupBackoff
      ensures State() == Begin(old(State()), id, explicit)
    {
      hide Valid, RecordFailure;
      ForgiveKeeps(State(), id);
      if explicit { backendStartupBackoff := backendStartupBackoff - {id}; }
      var definition := config.loaded[id];
      if id !in config.saved || definition.environment !in config.environments {
        RecordBackendStartupFailure(id, definition.fingerprint);
      } else {
        queue := Reserving(id, explicit, config.saved[id].revision, definition);
      }
    }

    /** The reservation answers; the operation ends and leaves the queue without waiting for the attempt. */
    method ReservationEnds(result: Reservation)
      requires Valid(State()) && queue.Reserving?
      modifies this
      ensures State() == Take(old(State()), Reserved(result)) && Valid(State()) && queue.Free?
    {
      hide AttemptsOk, RegistryOk, EffectsOk, BackoffOk, ClientsOk, RecordsOk, AgesOk, QueueOk;
      hide RecordFailure, StartApply, Turn, SecondTurn, EndPublication;
      StepKeeps(State(), Reserved(result));
      var Reserving(id, explicit, revision, d) := queue;
      RecordFailureCommutes(State(), id, d.fingerprint);
      if result.Granted? {
        var n := |attempts|;
        var runtime := RuntimeOf(config, d.environment);
        attempts := attempts + [Attempt(id, revision, d.fingerprint, d.environment, runtime, false, Starting, false)];
        backendStartups := backendStartups[id := n];
        if explicit { clients := clients + [Awaiting(n)]; }
      } else if result.Refused? {
        RecordBackendStartupFailure(id, d.fingerprint);
      }
      queue := Free;
    }

    /** `finishBackendStartup`, in its first turn, up to the publication. */
    method FirstTurn(n: nat)
      requires Valid(State()) && queue.Free? && n < |attempts| && attempts[n].phase.Started?
      modifies this
      ensures State() == Take(old(State()), TakeTurn(n)) && Valid(State())
    {
      hide Valid, IsCurrent, RecordFailure;
      StepKeeps(State(), TakeTurn(n));
      var a := attempts[n];
      RecordFailureAt(State(), a.backend, a.fingerprint);
      var current := BackendStartupIsCurrent(n);
      if a.backend !in backendStartups || backendStartups[a.backend] != n || !current {
        attempts := attempts[n := a.(phase := Discarding(false), discarded := true)];
      } else if !a.phase.ok {
        RecordBackendStartupFailure(a.backend, a.fingerprint);
        backendStartups := backendStartups - {a.backend};
        attempts := attempts[n := a.(phase := Done(Failed))];
      } else {
        queue := InPublication(n, View(config, a));
        attempts := attempts[n := a.(phase := Publishing)];
      }
    }

    /** The rest of the first turn. */
    method PublicationReturns(ok: bool)
      requires Valid(State()) && queue.InPublication?
      modifies this
      ensures State() == Take(old(State()), PublicationEnds(ok)) && Valid(State()) && queue.Free?
    {
      hide AttemptsOk, RegistryOk, EffectsOk, BackoffOk, ClientsOk, Matches, RecordsOk, AgesOk;
      StepKeeps(State(), PublicationEnds(ok));
      var n, seen := queue.attempt, queue.seen;
      var a := attempts[n];
      queue := Free;
      if ok {
        backendStartupBackoff := backendStartupBackoff - {a.backend};
        backendStartups := backendStartups - {a.backend};
        attempts := attempts[n := a.(phase := Done(Applied))];
        effects := effects + [Effect(n, seen)];
      } else {
        attempts := attempts[n := a.(phase := Discarding(true), discarded := true)];
      }
    }

    method GiveUpPlace(n: nat, publicationFailed: bool)
      requires Valid(State()) && queue.Free? && n < |attempts|
      modifies this`backendStartups, this`backendStartupBackoff
      ensures State() == LeavePlace(old(State()), n, publicationFailed) && Valid(State())
    {
      hide Valid, IsCurrent, RecordFailure;
      LeaveKeeps(State(), n, publicationFailed);
      var a := attempts[n];
      RecordFailureAt(State(), a.backend, a.fingerprint);
      var registered := a.backend in backendStartups && backendStartups[a.backend] == n;
      var current := BackendStartupIsCurrent(n);
      if publicationFailed && registered && current {
        RecordBackendStartupFailure(a.backend, a.fingerprint);
      }
      if registered { backendStartups := backendStartups - {a.backend}; }
    }

    /** `finishBackendStartup`, in the turn after the cleanup of an attempt that was turned away. */
    method DiscardedTurn(n: nat)
      requires Valid(State()) && queue.Free? && n < |attempts| && attempts[n].phase.Discarded?
      modifies this
      ensures State() == Take(old(State()), DiscardTurn(n)) && Valid(State())
    {
      hide Valid, RecordFailure, LeavePlace;
      StepKeeps(State(), DiscardTurn(n));
      var a := attempts[n];
      LeaveKeeps(State(), n, a.phase.publicationFailed);
      GiveUpPlace(n, a.phase.publicationFailed);
      RecordFailureAt(State(), a.backend, a.fingerprint);
      if a.phase.cleanupFailed {
        RecordBackendStartupFailure(a.backend, a.fingerprint);
      }
      attempts := attempts[n := a.(phase := Done(if a.phase.publicationFailed then Failed else Superseded))];
    }

    /** A reconciliation first cancels every registered attempt that is no longer current. */
    method CancelStaleStartups()
      requires Valid(State()) && queue.Free?
      modifies this`attempts
      ensures State() == Take(old(State()), CancelStale) && Valid(State())
    {
      hide Valid, IsCurrent;
      StepKeeps(State(), CancelStale);
      ghost var before := State();
      ghost var stale := CancelAllStale(before).attempts;
      hide CancelAllStale;
      StaleLength(before);
      for i := 0 to |attempts|
        invariant |attempts| == |before.attempts| == |stale|
        invariant forall j :: 0 <= j < i ==> attempts[j] == stale[j]
        invariant forall j :: i <= j < |attempts| ==> attempts[j] == before.attempts[j]
        invariant State() == before.(attempts := attempts)
      {
        StaleAt(before, i);
        SameCurrent(before, State(), attempts[i]);
        var a := attempts[i];
        var current := BackendStartupIsCurrent(i);
        if a.backend in backendStartups && backendStartups[a.backend] == i && !current {
          attempts := attempts[i := a.(cancelled := true)];
        }
      }
      assert attempts == stale;
    }

    /** The provider has started, or failed to. */
    method StartupCompletes(n: nat, ok: bool)
      requires Valid(State()) && n < |attempts| && attempts[n].phase.Starting?
      modifies this`attempts
      ensures State() == Take(old(State()), Complete(n, ok)) && Valid(State())
    {
      hide Valid;
      StepKeeps(State(), Complete(n, ok));
      attempts := attempts[n := attempts[n].(phase := Started(ok))];
    }

    /** The provider of an attempt that was turned away has been cleaned up, or could not be. */
    method CleanupCompletes(n: nat, failed: bool)
      requires Valid(State()) && n < |attempts| && attempts[n].phase.Discarding?
      modifies this`attempts
      ensures State() == Take(old(State()), CleanupEnds(n, failed)) && Valid(State())
    {
      hide Valid;
      StepKeeps(State(), CleanupEnds(n, failed));
      attempts := attempts[n := attempts[n].(phase := Discarded(attempts[n].phase.publicationFailed, failed))];
    }

    /** The deferred part of an explicit start, in a turn of its own. */
    method ReportStart(k: nat)
      requires Valid(State()) && queue.Free? && k < |clients| && clients[k].Awaiting?
      requires clients[k].attempt < |attempts| && attempts[clients[k].attempt].phase.Done?
      modifies this`clients
      ensures State() == Take(old(State()), Answer(k)) && Valid(State())
    {
      hide Valid;
      StepKeeps(State(), Answer(k));
      var n := clients[k].attempt;
      clients := clients[k := Answered(n, attempts[n].phase.outcome.Superseded?)];
    }

    method RemoveRuntime(id: Backend, clear: bool)
      requires Valid(State()) && queue.Free?
      modifies this`attempts, this`queue
      ensures State() == Take(old(State()), Remove(id, clear)) && Valid(State())
    {
      hide Valid, Cancel;
      StepKeeps(State(), Remove(id, clear));
      CancelFrame(State(), id);
      CancelBackendStartup(id);
      queue := Removing(id, clear);
    }

    method RemovalEnds(ok: bool)
      requires Valid(State()) && queue.Removing?
      modifies this`queue, this`backendStartups, this`backendStartupBackoff
      ensures State() == Take(old(State()), Removed(ok)) && Valid(State()) && queue.Free?
    {
      hide Valid;
      StepKeeps(State(), Removed(ok));
      var Removing(id, clear) := queue;
      if ok {
        backendStartups := backendStartups - {id};
        if clear { backendStartupBackoff := backendStartupBackoff - {id}; }
      }
      queue := Free;
    }

    method ClearBackoff(id: Backend)
      requires Valid(State()) && queue.Free?
      modifies this`backendStartupBackoff
      ensures State() == Take(old(State()), Forgive(id)) && Valid(State())
    {
      hide Valid;
      StepKeeps(State(), Forgive(id));
      backendStartupBackoff := backendStartupBackoff - {id};
    }

    /** Saving, admitting a command, reloading, and replacing the runtime of an environment. */
    method Configure(step: Step)
      requires Valid(State()) && Configures(step)
      modifies this`config
      ensures State() == Take(old(State()), step) && Valid(State())
    {
      hide Valid, Configured;
      ConfiguringKeeps(State(), step);
      config := Configured(config, queue, step);
    }

    method Elapse(duration: nat)
      requires Valid(State())
      modifies this`now
      ensures State() == Take(old(State()), Tick(duration)) && Valid(State())
    {
      hide Valid;
      StepKeeps(State(), Tick(duration));
      now := now + duration;
    }

    method BeginShutdown()
      requires Valid(State())
      modifies this`shutdown
      ensures State() == Take(old(State()), Shutdown) && Valid(State())
    {
      hide Valid;
      StepKeeps(State(), Shutdown);
      shutdown := true;
    }

    /** What the object does at one step; a step that is not due changes nothing. */
    method Perform(step: Step)
      requires Valid(State())
      modifies this
      ensures State() == Take(old(State()), step) && Valid(State())
    {
      hide Valid, Configured, Begin, RecordFailure, LeavePlace, Cancel, IsCurrent, SetPhase;
      match step {
        case Save(_) => Configure(step);
        case Command(_, _) => Configure(step);
        case Reload => Configure(step);
        case Replace(_, _) => Configure(step);
        case Apply(id, explicit) => if queue.Free? { ApplyBackendRuntime(id, explicit); }
        case Reserved(result) => if queue.Reserving? { ReservationEnds(result); }
        case Complete(n, ok) => if n < |attempts| && attempts[n].phase.Starting? { StartupCompletes(n, ok); }
        case TakeTurn(n) => if queue.Free? && n < |attempts| && attempts[n].phase.Started? { FirstTurn(n); }
        case PublicationEnds(ok) => if queue.InPublication? { PublicationReturns(ok); }
        case CleanupEnds(n, failed) =>
          if n < |attempts| && attempts[n].phase.Discarding? { CleanupCompletes(n, failed); }
        case DiscardTurn(n) => if queue.Free? && n < |attempts| && attempts[n].phase.Discarded? { DiscardedTurn(n); }
        case Answer(k) =>
          if queue.Free? && k < |clients| && clients[k].Awaiting? && clients[k].attempt < |attempts|
             && attempts[clients[k].attempt].phase.Done? {
            ReportStart(k);
          }
        case CancelStale => if queue.Free? { CancelStaleStartups(); }
        case Remove(id, clear) => if queue.Free? { RemoveRuntime(id, clear); }
        case Removed(ok) => if queue.Removing? { RemovalEnds(ok); }
        case HolderEnds => assert !queue.Holding? by { NoHolder(State()); }
        case Forgive(id) => if queue.Free? { ClearBackoff(id); }
        case Shutdown => BeginShutdown();
        case Tick(duration) => Elapse(duration);
      }
    }
  }

  /** A server driven through any steps: what took effect is exactly what was applied, once each, and the last state
      is the one that `Run` gives. */
  method Serve(steps: seq<Step>) returns (b: Backends)
    ensures fresh(b) && b.State() == Run(START, steps) && Valid(b.State())
    ensures forall n :: 0 <= n < |b.attempts| ==> TookEffect(b.attempts[n], b.effects, n)
  {
    hide Valid, Run, Take, TookEffect;
    b := new Backends();
    var i := 0;
    BackendEffects.NothingRun();
    assert steps[..0] == [];
    while i < |steps|
      invariant 0 <= i <= |steps| && fresh(b) && Valid(b.State())
      invariant b.State() == Run(START, steps[..i])
    {
      b.Perform(steps[i]);
      assert steps[..i + 1] == steps[..i] + [steps[i]];
      BackendEffects.RunSnoc(START, steps[..i], steps[i]);
      i := i + 1;
    }
    assert steps[..i] == steps;
    forall n | 0 <= n < |b.attempts| ensures TookEffect(b.attempts[n], b.effects, n) {
      EffectOf(steps, n);
    }
  }

  ghost predicate TookEffect(a: Attempt, effects: seq<Effect>, n: nat) {
    && (a.phase == Done(Applied) <==> Named(effects, n))
    && (Named(effects, n) ==> !a.cancelled && !a.discarded)
    && forall i, j :: 0 <= i <= j < |effects| && effects[i].attempt == n && effects[j].attempt == n ==>
         i == j && Matches(effects[i].config, a)
  }

  lemma EffectOf(steps: seq<Step>, n: nat)
    requires n < |Run(START, steps).attempts|
    ensures TookEffect(Run(START, steps).attempts[n], Run(START, steps).effects, n)
  {
    hide Run, Matches;
    BackendEffects.TakesEffectOnce(steps, n);
  }

  lemma NoHolder(s: System)
    requires Valid(s)
    ensures !s.queue.Holding?
  {
  }

  lemma RecordFailureCommutes(s: System, id: Backend, fingerprint: Fingerprint)
    ensures RecordFailure(s.(queue := Free), id, fingerprint) ==
            s.(queue := Free, backoff := RecordFailure(s, id, fingerprint).backoff)
    ensures RecordFailure(s, id, fingerprint) == s.(backoff := RecordFailure(s, id, fingerprint).backoff)
  {
  }

  lemma StaleLength(s: System)
    requires s.queue.Free?
    ensures |CancelAllStale(s).attempts| == |s.attempts|
    ensures CancelAllStale(s) == s.(attempts := CancelAllStale(s).attempts)
  {
  }

  lemma StaleAt(s: System, i: nat)
    requires s.queue.Free? && i < |s.attempts|
    ensures |CancelAllStale(s).attempts| == |s.attempts|
    ensures CancelAllStale(s).attempts[i] ==
            if Registered(s, i) && !IsCurrent(s, s.attempts[i]) then s.attempts[i].(cancelled := true)
            else s.attempts[i]
  {
  }

  lemma SameCurrent(s: System, t: System, a: Attempt)
    requires t == s.(attempts := t.attempts)
    ensures IsCurrent(s, a) == IsCurrent(t, a)
  {
  }
}
