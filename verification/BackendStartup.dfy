/**
 Starting backends behind the configuration queue (src/server/production-application.ts). The queue
 runs one operation at a time; an operation that waits for the runtime collection keeps it. Lifecycle
 commands are admitted into the repository without waiting for the queue, providers start, publish and
 clean up in their own time, time passes, and the server may begin to shut down.
 */
module BackendStartup {
  import opened Wrappers

  type Backend = string
  type Environment = string
  type Fingerprint = nat

  /** What a document says about a backend; one that is not defined counts as not enabled. */
  datatype Definition = Definition(enabled: bool, fingerprint: Fingerprint, environment: Environment)

  /** What the repository holds: the definition, the lifecycle preference and the desired revision. */
  datatype Record = Record(definition: Definition, automatic: bool, revision: nat)

  /** What an attempt is compared with: repository, loaded definition and runtime of its environment. */
  datatype Config = Config(enabled: bool, automatic: bool, revision: nat, fingerprint: Option<Fingerprint>,
                           runtime: Option<nat>)

  datatype Outcome = Applied | Failed | Superseded

  datatype Phase =
    | Starting
    | Started(ok: bool)                     // its turn in the queue is next
    | Publishing                            // in its turn, inside the queue
    | Discarding(publicationFailed: bool)
    | Discarded(publicationFailed: bool, cleanupFailed: bool)
    | Done(outcome: Outcome)

  /** `discarded` records that the attempt was turned away. */
  datatype Attempt = Attempt(backend: Backend, revision: nat, fingerprint: Fingerprint, environment: Environment,
                             runtime: Option<nat>, cancelled: bool, phase: Phase, discarded: bool)

  /** `failedAt` records when the delay began. */
  datatype Backoff = Backoff(fingerprint: Fingerprint, failures: nat, failedAt: nat, retryAt: nat)

  /**
   The operation that has the queue while it waits, with what it read before. `Holding` is an operation
   that waits for an attempt to end; it is there to show that the program has none.
   */
  datatype Queue =
    | Free
    | Reserving(backend: Backend, explicit: bool, revision: nat, definition: Definition)
    | InPublication(attempt: nat, seen: Config)
    | Removing(backend: Backend, clear: bool)
    | Holding(attempt: nat)

  /** An explicit start that left the queue and waits for its attempt, and the report it makes in a later turn. */
  datatype Client = Awaiting(attempt: nat) | Answered(attempt: nat, superseded: bool)

  /** History: an attempt that took effect, and what it was compared with at its turn. */
  datatype Effect = Effect(attempt: nat, config: Config)

  /** `saved` and `revision` are the repository, `loaded` is what the last reconciliation read from it. */
  datatype Configuration = Configuration(saved: map<Backend, Record>, revision: nat,
                                         loaded: map<Backend, Definition>, environments: map<Environment, nat>)

  datatype System = System(config: Configuration, attempts: seq<Attempt>, registry: map<Backend, nat>,
                           backoff: map<Backend, Backoff>, queue: Queue, shutdown: bool, now: nat,
                           clients: seq<Client>, effects: seq<Effect>)

  const START := System(Configuration(map[], 0, map[], map[]), [], map[], map[], Free, false, 0, [], [])

  // ---- the delay ----

  function Power(n: nat): nat { if n == 0 then 1 else 2 * Power(n - 1) }

  function Min(a: nat, b: nat): nat { if a <= b then a else b }

  function Delay(failures: nat): nat
    requires failures >= 1
  {
    Min(60_000, 5_000 * Power(Min(failures - 1, 4)))
  }

  lemma DelayTable()
    ensures Power(0) == 1 && Power(1) == 2 && Power(2) == 4 && Power(3) == 8 && Power(4) == 16
  {
    assert Power(3) == 2 * Power(2);
    assert Power(4) == 2 * Power(3);
  }

  /** From five seconds, never shorter after more failures, up to a minute. */
  lemma DelayIsMonotone(a: nat, b: nat)
    requires 1 <= a <= b
    ensures 5_000 <= Delay(a) <= Delay(b) <= 60_000
    ensures b >= 5 ==> Delay(b) == 60_000
  {
    DelayTable();
  }

  // ---- helpers of the program ----

  predicate Matches(c: Config, a: Attempt) {
    && c.enabled && c.automatic && c.revision == a.revision
    && c.fingerprint == Some(a.fingerprint) && c.runtime == a.runtime
  }

  function RuntimeOf(c: Configuration, e: Environment): Option<nat> {
    if e in c.environments then Some(c.environments[e]) else None
  }

  function View(c: Configuration, a: Attempt): Config
    requires a.backend in c.saved
  {
    var r := c.saved[a.backend];
    Config(r.definition.enabled, r.automatic, r.revision,
           if a.backend in c.loaded then Some(c.loaded[a.backend].fingerprint) else None, RuntimeOf(c, a.environment))
  }

  /** `backendStartupIsCurrent` */
  predicate IsCurrent(s: System, a: Attempt) {
    !a.cancelled && !s.shutdown && a.backend in s.config.saved && Matches(View(s.config, a), a)
  }

  predicate Registered(s: System, n: nat) {
    n < |s.attempts| && s.attempts[n].backend in s.registry && s.registry[s.attempts[n].backend] == n
  }

  function RecordFailure(s: System, id: Backend, fingerprint: Fingerprint): System {
    var again := id in s.backoff && s.backoff[id].fingerprint == fingerprint;
    var failures := if again then s.backoff[id].failures + 1 else 1;
    s.(backoff := s.backoff[id := Backoff(fingerprint, failures, s.now, s.now + Delay(failures))])
  }

  function SetPhase(s: System, n: nat, phase: Phase): System
    requires n < |s.attempts|
  {
    s.(attempts := s.attempts[n := s.attempts[n].(phase := phase)])
  }

  function Discard(s: System, n: nat, publicationFailed: bool): System
    requires n < |s.attempts|
  {
    s.(attempts := s.attempts[n := s.attempts[n].(phase := Discarding(publicationFailed), discarded := true)])
  }

  function Cancel(s: System, id: Backend): System {
    if id in s.registry && s.registry[id] < |s.attempts|
    then s.(attempts := s.attempts[s.registry[id] := s.attempts[s.registry[id]].(cancelled := true)]) else s
  }

  function Unregister(s: System, id: Backend): System { s.(registry := s.registry - {id}) }

  // ---- steps ----

  /** The runtime is still busy: neither a start nor a failure. */
  datatype Reservation = Granted | Refused | NotIdle

  datatype Step =
    | Save(changes: map<Backend, Definition>)
    | Command(backend: Backend, automatic: bool)
    | Reload
    | Replace(environment: Environment, runtime: Option<nat>)
    | Apply(backend: Backend, explicit: bool)
    | Reserved(result: Reservation)
    | Complete(attempt: nat, ok: bool)
    | TakeTurn(attempt: nat)
    | PublicationEnds(ok: bool)
    | CleanupEnds(attempt: nat, failed: bool)
    | DiscardTurn(attempt: nat)
    | Answer(client: nat)
    | CancelStale
    | Remove(backend: Backend, clear: bool)
    | Removed(ok: bool)
    | HolderEnds
    | Forgive(backend: Backend)
    | Shutdown
    | Tick(duration: nat)

  /** An automatic start waits for its delay, unless the configuration changed since the failure. */
  predicate MustWait(s: System, id: Backend, explicit: bool)
    requires id in s.config.loaded
  {
    && !explicit && id in s.backoff
    && s.backoff[id].fingerprint == s.config.loaded[id].fingerprint && s.backoff[id].retryAt > s.now
  }

  /** A save changes definitions and gives the changed backends a new revision; a new one starts automatic. */
  function SaveAll(c: Configuration, changes: map<Backend, Definition>): Configuration {
    c.(revision := c.revision + 1,
       saved := c.saved + map id | id in changes ::
         Record(changes[id], id in c.saved ==> c.saved[id].automatic, c.revision + 1))
  }

  /** `beginLifecycle`: start and connect make a backend automatic, stop and disconnect do not. It does not queue. */
  function Admit(c: Configuration, id: Backend, automatic: bool): Configuration {
    if id !in c.saved then c
    else c.(revision := c.revision + 1,
            saved := c.saved[id := Record(c.saved[id].definition, automatic, c.revision + 1)])
  }

  function LoadAll(c: Configuration): Configuration {
    c.(loaded := map id | id in c.saved :: c.saved[id].definition)
  }

  function ReplaceRuntime(c: Configuration, e: Environment, runtime: Option<nat>): Configuration {
    c.(environments := if runtime.Some? then c.environments[e := runtime.value] else c.environments - {e})
  }

  /** What `apply` does once nothing stands in its way; an environment that is missing is a failure. */
  function Begin(s: System, id: Backend, explicit: bool): System
    requires id in s.config.loaded
  {
    var t := if explicit then s.(backoff := s.backoff - {id}) else s;
    var d := s.config.loaded[id];
    if id !in s.config.saved || d.environment !in s.config.environments then RecordFailure(t, id, d.fingerprint)
    else t.(queue := Reserving(id, explicit, s.config.saved[id].revision, d))
  }

  function StartApply(s: System, id: Backend, explicit: bool): System {
    if !s.queue.Free? then s
    else if id !in s.config.loaded || !s.config.loaded[id].enabled then Cancel(s, id).(queue := Removing(id, true))
    else if id in s.registry then
      var t := if s.registry[id] < |s.attempts| && !IsCurrent(s, s.attempts[s.registry[id]]) then Cancel(s, id) else s;
      if explicit then t.(clients := s.clients + [Awaiting(s.registry[id])]) else t
    else if MustWait(s, id, explicit) then s
    else Begin(s, id, explicit)
  }

  /** The attempt keeps the revision and the definition that were read before the wait. */
  function EndReserve(s: System, result: Reservation): System {
    if !s.queue.Reserving? then s
    else
      var Reserving(id, explicit, revision, d) := s.queue;
      var t := s.(queue := Free);
      match result
      case NotIdle => t
      case Refused => RecordFailure(t, id, d.fingerprint)
      case Granted =>
        var runtime := RuntimeOf(s.config, d.environment);
        var a := Attempt(id, revision, d.fingerprint, d.environment, runtime, false, Starting, false);
        t.(attempts := s.attempts + [a],
           registry := s.registry[id := |s.attempts|],
           clients := if explicit then s.clients + [Awaiting(|s.attempts|)] else s.clients)
  }

  /** The first turn of a finished startup. */
  function Turn(s: System, n: nat): System {
    if !s.queue.Free? || n >= |s.attempts| || !s.attempts[n].phase.Started? then s
    else
      var a := s.attempts[n];
      if !Registered(s, n) || !IsCurrent(s, a) then Discard(s, n, false)
      else if !a.phase.ok then
        Unregister(SetPhase(RecordFailure(s, a.backend, a.fingerprint), n, Done(Failed)), a.backend)
      else SetPhase(s, n, Publishing).(queue := InPublication(n, View(s.config, a)))
  }

  function EndPublication(s: System, ok: bool): System {
    if !s.queue.InPublication? || s.queue.attempt >= |s.attempts| then s
    else
      var n := s.queue.attempt;
      var a, t := s.attempts[n], s.(queue := Free);
      if !ok then Discard(t, n, true)
      else Unregister(SetPhase(t, n, Done(Applied)), a.backend)
             .(backoff := s.backoff - {a.backend}, effects := s.effects + [Effect(n, s.queue.seen)])
  }

  /** A publication that failed counts against the configuration if the attempt still has its place, and gives it up. */
  function LeavePlace(s: System, n: nat, publicationFailed: bool): System
    requires n < |s.attempts|
  {
    var a := s.attempts[n];
    if !Registered(s, n) then s
    else if publicationFailed && IsCurrent(s, a) then Unregister(RecordFailure(s, a.backend, a.fingerprint), a.backend)
    else Unregister(s, a.backend)
  }

  /** The second turn, of an attempt that was turned away. */
  function SecondTurn(s: System, n: nat): System {
    if !s.queue.Free? || n >= |s.attempts| || !s.attempts[n].phase.Discarded? then s
    else
      var a, u := s.attempts[n], LeavePlace(s, n, s.attempts[n].phase.publicationFailed);
      var v := if a.phase.cleanupFailed then RecordFailure(u, a.backend, a.fingerprint) else u;
      v.(attempts := s.attempts[n := a.(phase := Done(if a.phase.publicationFailed then Failed else Superseded))])
  }

  /** The report of an explicit start, once its attempt is over. */
  function Report(s: System, k: nat): System {
    if !s.queue.Free? || k >= |s.clients| || !s.clients[k].Awaiting? then s
    else
      var n := s.clients[k].attempt;
      if n >= |s.attempts| || !s.attempts[n].phase.Done? then s
      else s.(clients := s.clients[k := Answered(n, s.attempts[n].phase.outcome.Superseded?)])
  }

  function CancelAllStale(s: System): System {
    if !s.queue.Free? then s
    else s.(attempts := seq(|s.attempts|, i requires 0 <= i < |s.attempts| =>
              if Registered(s, i) && !IsCurrent(s, s.attempts[i]) then s.attempts[i].(cancelled := true)
              else s.attempts[i]))
  }

  /** A removal that fails leaves the cancelled attempt registered. */
  function EndRemove(s: System, ok: bool): System {
    if !s.queue.Removing? then s
    else if !ok then s.(queue := Free)
    else
      var id := s.queue.backend;
      Unregister(s, id).(queue := Free, backoff := if s.queue.clear then s.backoff - {id} else s.backoff)
  }

  /** What a step does to the configuration, whoever has the queue. */
  function Configured(c: Configuration, queue: Queue, step: Step): Configuration {
    match step
    case Save(changes) => if queue.Free? then SaveAll(c, changes) else c
    case Command(id, automatic) => Admit(c, id, automatic)
    case Reload => if queue.Free? then LoadAll(c) else c
    case Replace(e, runtime) => ReplaceRuntime(c, e, runtime)
    case _ => c
  }

  function Take(s: System, step: Step): System {
    match step
    case Save(_) => s.(config := Configured(s.config, s.queue, step))
    case Command(_, _) => s.(config := Configured(s.config, s.queue, step))
    case Reload => s.(config := Configured(s.config, s.queue, step))
    case Replace(_, _) => s.(config := Configured(s.config, s.queue, step))
    case Apply(id, explicit) => StartApply(s, id, explicit)
    case Reserved(result) => EndReserve(s, result)
    case Complete(n, ok) =>
      if n < |s.attempts| && s.attempts[n].phase.Starting? then SetPhase(s, n, Started(ok)) else s
    case TakeTurn(n) => Turn(s, n)
    case PublicationEnds(ok) => EndPublication(s, ok)
    case CleanupEnds(n, failed) =>
      if n < |s.attempts| && s.attempts[n].phase.Discarding?
      then SetPhase(s, n, Discarded(s.attempts[n].phase.publicationFailed, failed)) else s
    case DiscardTurn(n) => SecondTurn(s, n)
    case Answer(k) => Report(s, k)
    case CancelStale => CancelAllStale(s)
    case Remove(id, clear) => if s.queue.Free? then Cancel(s, id).(queue := Removing(id, clear)) else s
    case Removed(ok) => EndRemove(s, ok)
    case HolderEnds =>
      if s.queue.Holding? && s.queue.attempt < |s.attempts| && s.attempts[s.queue.attempt].phase.Done?
      then s.(queue := Free) else s
    case Forgive(id) => if s.queue.Free? then s.(backoff := s.backoff - {id}) else s
    case Shutdown => s.(shutdown := true)
    case Tick(duration) => s.(now := s.now + duration)
  }

  function Run(s: System, steps: seq<Step>): System
    decreases |steps|
  {
    if steps == [] then s else Run(Take(s, steps[0]), steps[1..])
  }

  // ---- the invariant ----

  predicate AttemptOk(queue: Queue, n: nat, a: Attempt) {
    && (a.phase == Done(Applied) ==> !a.cancelled && !a.discarded)
    && (a.phase.Publishing? ==> queue.InPublication? && queue.attempt == n)
    && (a.phase.Starting? || a.phase.Started? || a.phase.Publishing? ==> !a.discarded)
    && (a.phase.Discarding? || a.phase.Discarded? || a.phase == Done(Superseded) ==> a.discarded)
  }

  ghost predicate AttemptsOk(queue: Queue, attempts: seq<Attempt>) {
    forall n :: 0 <= n < |attempts| ==> AttemptOk(queue, n, attempts[n])
  }

  /** A registered attempt belongs to the backend it is registered for and is not over. */
  ghost predicate RegistryOk(registry: map<Backend, nat>, attempts: seq<Attempt>) {
    forall id :: id in registry ==>
      registry[id] < |attempts| && attempts[registry[id]].backend == id && !attempts[registry[id]].phase.Done?
  }

  /** Revisions only grow: what is saved, and what attempts were made from, is not newer than the repository. */
  ghost predicate RecordsOk(c: Configuration) {
    c.loaded.Keys <= c.saved.Keys && forall id :: id in c.saved ==> c.saved[id].revision <= c.revision
  }

  ghost predicate AgesOk(c: Configuration, attempts: seq<Attempt>) {
    forall n :: 0 <= n < |attempts| ==> NotNewer(c, attempts[n].backend, attempts[n].revision)
  }

  predicate NotNewer(c: Configuration, id: Backend, revision: nat) { id in c.saved && revision <= c.saved[id].revision }

  /** What an operation found before its wait and may rely on after it; what is saved is not part of that. */
  ghost predicate QueueOk(s: System) {
    match s.queue
    case Free => true
    case Reserving(id, _, revision, _) => id !in s.registry && NotNewer(s.config, id, revision)
    case InPublication(n, seen) =>
      Registered(s, n) && s.attempts[n].phase.Publishing? && !s.attempts[n].cancelled && Matches(seen, s.attempts[n])
    case Removing(_, _) => true
    case Holding(_) => false
  }

  /** Whatever took effect matched what it was compared with at its turn, and took effect once. */
  ghost predicate EffectsOk(effects: seq<Effect>, attempts: seq<Attempt>) {
    && (forall i :: 0 <= i < |effects| ==>
          && effects[i].attempt < |attempts| && attempts[effects[i].attempt].phase == Done(Applied)
          && Matches(effects[i].config, attempts[effects[i].attempt]))
    && (forall i, j :: 0 <= i < j < |effects| ==> effects[i].attempt != effects[j].attempt)
    && (forall n :: 0 <= n < |attempts| && attempts[n].phase == Done(Applied) ==> Named(effects, n))
  }

  ghost predicate Named(effects: seq<Effect>, n: nat) { exists i :: 0 <= i < |effects| && effects[i].attempt == n }

  ghost predicate BackoffOk(backoff: map<Backend, Backoff>, now: nat) {
    forall id :: id in backoff ==>
      && backoff[id].failures >= 1 && backoff[id].failedAt <= now
      && backoff[id].retryAt == backoff[id].failedAt + Delay(backoff[id].failures)
  }

  /** An explicit start is told that it was superseded exactly when its own attempt was. */
  ghost predicate ClientsOk(clients: seq<Client>, attempts: seq<Attempt>) {
    forall k :: 0 <= k < |clients| ==>
      && clients[k].attempt < |attempts|
      && (clients[k].Answered? ==>
            && attempts[clients[k].attempt].phase.Done?
            && clients[k].superseded == attempts[clients[k].attempt].phase.outcome.Superseded?)
  }

  ghost predicate Valid(s: System) {
    && AttemptsOk(s.queue, s.attempts) && RegistryOk(s.registry, s.attempts) && QueueOk(s)
    && EffectsOk(s.effects, s.attempts) && BackoffOk(s.backoff, s.now) && ClientsOk(s.clients, s.attempts)
    && RecordsOk(s.config) && AgesOk(s.config, s.attempts)
  }

  // ---- the small changes that steps are made of ----

  /** Attempts that are over stay as they are, and none becomes applied. */
  ghost predicate Evolves(a: seq<Attempt>, b: seq<Attempt>) {
    && |a| <= |b|
    && (forall i :: 0 <= i < |a| ==>
          (a[i].phase.Done? ==> b[i] == a[i]) && (b[i].phase == Done(Applied) ==> a[i].phase == Done(Applied)))
    && (forall i :: |a| <= i < |b| ==> b[i].phase != Done(Applied))
  }

  lemma EffectsKept(effects: seq<Effect>, a: seq<Attempt>, b: seq<Attempt>)
    requires EffectsOk(effects, a) && Evolves(a, b)
    ensures EffectsOk(effects, b)
  {
    hide Matches, Named;
  }

  lemma ClientsKept(clients: seq<Client>, a: seq<Attempt>, b: seq<Attempt>)
    requires ClientsOk(clients, a) && Evolves(a, b)
    ensures ClientsOk(clients, b)
  {
  }

  lemma FailureKeeps(s: System, id: Backend, fingerprint: Fingerprint)
    requires Valid(s)
    ensures Valid(RecordFailure(s, id, fingerprint))
    ensures RecordFailure(s, id, fingerprint) == s.(backoff := RecordFailure(s, id, fingerprint).backoff)
  {
    hide AttemptsOk, RegistryOk, EffectsOk, ClientsOk, Delay, Matches, RecordsOk, AgesOk;
  }

  lemma RecordFailureAt(s: System, id: Backend, fingerprint: Fingerprint)
    ensures var t := RecordFailure(s, id, fingerprint);
            && t == s.(backoff := t.backoff) && id in t.backoff && t.backoff[id].fingerprint == fingerprint
            && (forall other :: other in s.backoff && other != id ==>
                  other in t.backoff && t.backoff[other] == s.backoff[other])
  {
  }

  lemma UnregisterKeeps(s: System, id: Backend)
    requires Valid(s) && !s.queue.InPublication?
    ensures Valid(Unregister(s, id))
  {
    hide AttemptsOk, BackoffOk, EffectsOk, ClientsOk, Matches, RecordsOk, AgesOk;
  }

  lemma ForgiveKeeps(s: System, id: Backend)
    requires Valid(s)
    ensures Valid(s.(backoff := s.backoff - {id}))
  {
    hide AttemptsOk, RegistryOk, EffectsOk, ClientsOk, Delay, Matches, RecordsOk, AgesOk;
  }

  /** While nothing is being published the queue may pass to and from an operation that is not a publication. */
  lemma QueueKeeps(s: System, queue: Queue)
    requires Valid(s) && !s.queue.InPublication? && (queue.Free? || queue.Removing? || queue.Reserving?)
    requires queue.Reserving? ==> queue.backend !in s.registry && NotNewer(s.config, queue.backend, queue.revision)
    ensures Valid(s.(queue := queue))
  {
    hide RegistryOk, BackoffOk, EffectsOk, ClientsOk, Matches, RecordsOk, AgesOk;
  }

  lemma AttemptKeeps(s: System, n: nat, a: Attempt)
    requires Valid(s) && n < |s.attempts|
    requires a.backend == s.attempts[n].backend && a.revision == s.attempts[n].revision
    requires !s.attempts[n].phase.Done? && !s.attempts[n].phase.Publishing?
    requires AttemptOk(s.queue, n, a) && a.phase != Done(Applied) && (a.phase.Done? ==> !Registered(s, n))
    ensures Valid(s.(attempts := s.attempts[n := a]))
  {
    hide BackoffOk, EffectsOk, ClientsOk, Matches, RecordsOk, NotNewer;
    var b := s.attempts[n := a];
    assert Evolves(s.attempts, b);
    EffectsKept(s.effects, s.attempts, b);
    ClientsKept(s.clients, s.attempts, b);
    assert QueueOk(s.(attempts := b));
  }

  lemma ClientKeeps(s: System, n: nat)
    requires Valid(s) && n < |s.attempts|
    ensures Valid(s.(clients := s.clients + [Awaiting(n)]))
  {
    hide AttemptsOk, RegistryOk, BackoffOk, EffectsOk, Matches, RecordsOk, AgesOk;
  }

  lemma RegisteredIsLive(s: System, id: Backend)
    requires Valid(s) && id in s.registry
    ensures s.registry[id] < |s.attempts| && s.attempts[s.registry[id]].backend == id
    ensures !s.attempts[s.registry[id]].phase.Done? && AttemptOk(s.queue, s.registry[id], s.attempts[s.registry[id]])
  {
  }

  lemma AttemptIsOk(s: System, n: nat)
    requires Valid(s) && n < |s.attempts|
    ensures AttemptOk(s.queue, n, s.attempts[n])
  {
  }

  lemma CancelKeeps(s: System, id: Backend)
    requires Valid(s) && s.queue.Free?
    ensures Valid(Cancel(s, id)) && Cancel(s, id).queue.Free?
    ensures Cancel(s, id).registry == s.registry && |Cancel(s, id).attempts| == |s.attempts|
  {
    hide Valid;
    if id in s.registry {
      RegisteredIsLive(s, id);
      AttemptKeeps(s, s.registry[id], s.attempts[s.registry[id]].(cancelled := true));
    }
  }

  // ---- every step keeps it ----

  lemma BeginKeeps(s: System, id: Backend, explicit: bool)
    requires Valid(s) && s.queue.Free? && id in s.config.loaded && id !in s.registry
    ensures Valid(Begin(s, id, explicit))
  {
    hide Valid, RecordFailure;
    var t := if explicit then s.(backoff := s.backoff - {id}) else s;
    ForgiveKeeps(s, id);
    FailureKeeps(t, id, s.config.loaded[id].fingerprint);
    if id in s.config.saved {
      QueueKeeps(t, Reserving(id, explicit, s.config.saved[id].revision, s.config.loaded[id]));
    }
  }

  lemma ApplyKeeps(s: System, id: Backend, explicit: bool)
    requires Valid(s)
    ensures Valid(StartApply(s, id, explicit))
  {
    hide Valid, IsCurrent, Cancel, Begin;
    if s.queue.Free? {
      CancelKeeps(s, id);
      if id !in s.config.loaded || !s.config.loaded[id].enabled {
        QueueKeeps(Cancel(s, id), Removing(id, true));
      } else if id in s.registry {
        RegisteredIsLive(s, id);
        ClientKeeps(s, s.registry[id]);
        ClientKeeps(Cancel(s, id), s.registry[id]);
        assert Cancel(s, id).clients == s.clients by { CancelFrame(s, id); }
      } else {
        BeginKeeps(s, id, explicit);
      }
    }
  }

  lemma CancelFrame(s: System, id: Backend)
    ensures Cancel(s, id) == s.(attempts := Cancel(s, id).attempts)
  {
  }

  /** A granted reservation appends an attempt and registers it. */
  lemma GrantKeeps(s: System)
    requires Valid(s) && s.queue.Reserving?
    ensures Valid(EndReserve(s, Granted))
  {
    hide BackoffOk, EffectsOk, ClientsOk, Matches, RecordsOk, NotNewer;
    var t := EndReserve(s, Granted);
    assert Evolves(s.attempts, t.attempts);
    EffectsKept(s.effects, s.attempts, t.attempts);
    ClientsKept(s.clients, s.attempts, t.attempts);
    NewClient(s.clients, t.attempts, |s.attempts|);
  }

  lemma NewClient(clients: seq<Client>, attempts: seq<Attempt>, n: nat)
    requires ClientsOk(clients, attempts) && n < |attempts|
    ensures ClientsOk(clients + [Awaiting(n)], attempts)
  {
  }

  lemma ReserveKeeps(s: System, result: Reservation)
    requires Valid(s)
    ensures Valid(EndReserve(s, result))
  {
    hide Valid, RecordFailure;
    if s.queue.Reserving? {
      var id, t := s.queue.backend, s.(queue := Free);
      QueueKeeps(s, Free);
      FailureKeeps(t, id, s.queue.definition.fingerprint);
      if result.Granted? { GrantKeeps(s); }
    }
  }

  lemma PhaseKeeps(s: System, step: Step)
    requires Valid(s) && (step.Complete? || step.CleanupEnds?)
    ensures Valid(Take(s, step))
  {
    hide Valid;
    if step.attempt < |s.attempts| {
      var n, a := step.attempt, s.attempts[step.attempt];
      AttemptIsOk(s, n);
      if step.Complete? && a.phase.Starting? {
        AttemptKeeps(s, n, a.(phase := Started(step.ok)));
      } else if step.CleanupEnds? && a.phase.Discarding? {
        AttemptKeeps(s, n, a.(phase := Discarded(a.phase.publicationFailed, step.failed)));
      }
    }
  }

  lemma TurnKeeps(s: System, n: nat)
    requires Valid(s)
    ensures Valid(Turn(s, n))
  {
    hide Valid, RecordFailure, IsCurrent;
    if s.queue.Free? && n < |s.attempts| && s.attempts[n].phase.Started? {
      var a := s.attempts[n];
      AttemptIsOk(s, n);
      if !Registered(s, n) || !IsCurrent(s, a) {
        AttemptKeeps(s, n, a.(phase := Discarding(false), discarded := true));
      } else if !a.phase.ok {
        FailureKeeps(s, a.backend, a.fingerprint);
        var r := RecordFailure(s, a.backend, a.fingerprint);
        UnregisterKeeps(r, a.backend);
        AttemptKeeps(Unregister(r, a.backend), n, a.(phase := Done(Failed)));
      } else {
        PublishKeeps(s, n);
      }
    }
  }

  lemma PublishKeeps(s: System, n: nat)
    requires Valid(s) && s.queue.Free?
    requires Registered(s, n) && s.attempts[n].phase.Started? && IsCurrent(s, s.attempts[n])
    ensures Valid(SetPhase(s, n, Publishing).(queue := InPublication(n, View(s.config, s.attempts[n]))))
  {
    hide BackoffOk, EffectsOk, ClientsOk, RecordsOk, NotNewer;
    var t := SetPhase(s, n, Publishing).(queue := InPublication(n, View(s.config, s.attempts[n])));
    assert Evolves(s.attempts, t.attempts);
    EffectsKept(s.effects, s.attempts, t.attempts);
    ClientsKept(s.clients, s.attempts, t.attempts);
  }

  lemma PublicationKeeps(s: System, ok: bool)
    requires Valid(s)
    ensures Valid(EndPublication(s, ok))
  {
    hide Valid, EndPublication;
    if s.queue.InPublication? {
      PublishingNow(s);
      if ok { PublicationApplies(s); } else { PublicationFails(s); }
    } else {
      NoPublication(s, ok);
    }
  }

  lemma NoPublication(s: System, ok: bool)
    requires !s.queue.InPublication?
    ensures EndPublication(s, ok) == s
  {
  }

  /** During a publication its attempt is the only one being published, and it has its place. */
  lemma PublishingNow(s: System)
    requires Valid(s) && s.queue.InPublication?
    ensures var n := s.queue.attempt;
            && Registered(s, n) && s.attempts[n].phase.Publishing? && !s.attempts[n].cancelled
            && Matches(s.queue.seen, s.attempts[n]) && AttemptOk(s.queue, n, s.attempts[n])
            && forall i :: 0 <= i < |s.attempts| && i != n ==> !s.attempts[i].phase.Publishing?
  {
    hide RegistryOk, BackoffOk, EffectsOk, ClientsOk, Matches, RecordsOk, AgesOk;
  }

  lemma PublicationApplies(s: System)
    requires Valid(s) && s.queue.InPublication?
    ensures Valid(EndPublication(s, true))
  {
    hide BackoffOk, EffectsOk, ClientsOk, Matches, RecordsOk, NotNewer;
    PublishingNow(s);
    var n := s.queue.attempt;
    ClientsKeptByEffect(s.clients, s.attempts, n);
    AppliedOnce(s.effects, s.attempts, n, s.queue.seen);
    ForgiveKeeps(s, s.attempts[n].backend);
  }

  lemma PublicationFails(s: System)
    requires Valid(s) && s.queue.InPublication?
    ensures Valid(EndPublication(s, false))
  {
    hide BackoffOk, EffectsOk, ClientsOk, Matches, RecordsOk, NotNewer;
    PublishingNow(s);
    var t := EndPublication(s, false);
    assert Evolves(s.attempts, t.attempts);
    EffectsKept(s.effects, s.attempts, t.attempts);
    ClientsKept(s.clients, s.attempts, t.attempts);
  }

  lemma ClientsKeptByEffect(clients: seq<Client>, attempts: seq<Attempt>, n: nat)
    requires ClientsOk(clients, attempts) && n < |attempts| && !attempts[n].phase.Done?
    ensures ClientsOk(clients, attempts[n := attempts[n].(phase := Done(Applied))])
  {
  }

  lemma AppliedOnce(effects: seq<Effect>, attempts: seq<Attempt>, n: nat, config: Config)
    requires EffectsOk(effects, attempts)
    requires n < |attempts| && attempts[n].phase.Publishing? && Matches(config, attempts[n])
    ensures EffectsOk(effects + [Effect(n, config)], attempts[n := attempts[n].(phase := Done(Applied))])
  {
    var more, b := effects + [Effect(n, config)], attempts[n := attempts[n].(phase := Done(Applied))];
    assert forall i :: 0 <= i < |effects| ==> more[i] == effects[i] && effects[i].attempt != n;
    forall m | 0 <= m < |b| && b[m].phase == Done(Applied)
      ensures Named(more, m)
    {
      if m == n {
        assert more[|effects|].attempt == n;
      } else {
        assert Named(effects, m);
        var i :| 0 <= i < |effects| && effects[i].attempt == m;
        assert more[i].attempt == m;
      }
    }
  }

  lemma LeaveKeeps(s: System, n: nat, publicationFailed: bool)
    requires Valid(s) && s.queue.Free? && n < |s.attempts|
    ensures var u := LeavePlace(s, n, publicationFailed);
            && Valid(u) && u == s.(registry := u.registry, backoff := u.backoff) && !Registered(u, n)
  {
    hide Valid, RecordFailure, IsCurrent;
    if Registered(s, n) {
      var a := s.attempts[n];
      FailureKeeps(s, a.backend, a.fingerprint);
      UnregisterKeeps(s, a.backend);
      UnregisterKeeps(RecordFailure(s, a.backend, a.fingerprint), a.backend);
    }
  }

  lemma SecondTurnKeeps(s: System, n: nat)
    requires Valid(s)
    ensures Valid(SecondTurn(s, n))
  {
    hide Valid, RecordFailure, LeavePlace;
    if s.queue.Free? && n < |s.attempts| && s.attempts[n].phase.Discarded? {
      var a, u := s.attempts[n], LeavePlace(s, n, s.attempts[n].phase.publicationFailed);
      AttemptIsOk(s, n);
      LeaveKeeps(s, n, a.phase.publicationFailed);
      FailureKeeps(u, a.backend, a.fingerprint);
      var v := if a.phase.cleanupFailed then RecordFailure(u, a.backend, a.fingerprint) else u;
      AttemptKeeps(v, n, a.(phase := Done(if a.phase.publicationFailed then Failed else Superseded)));
    }
  }

  lemma StaleKeeps(s: System)
    requires Valid(s)
    ensures Valid(CancelAllStale(s))
  {
    hide BackoffOk, EffectsOk, ClientsOk, IsCurrent, RecordsOk, NotNewer;
    var t := CancelAllStale(s);
    if s.queue.Free? {
      assert forall n :: 0 <= n < |s.attempts| ==>
        AttemptOk(Free, n, s.attempts[n]) && (s.attempts[n].phase.Done? ==> !Registered(s, n));
      assert Evolves(s.attempts, t.attempts);
      EffectsKept(s.effects, s.attempts, t.attempts);
      ClientsKept(s.clients, s.attempts, t.attempts);
    }
  }

  lemma RemoveKeeps(s: System, id: Backend, clear: bool)
    requires Valid(s)
    ensures Valid(Take(s, Remove(id, clear)))
  {
    hide Valid, Cancel;
    if s.queue.Free? {
      CancelKeeps(s, id);
      QueueKeeps(Cancel(s, id), Removing(id, clear));
    }
  }

  lemma RemovedKeeps(s: System, ok: bool)
    requires Valid(s)
    ensures Valid(EndRemove(s, ok))
  {
    hide Valid;
    if s.queue.Removing? {
      var u := Unregister(s, s.queue.backend);
      UnregisterKeeps(s, s.queue.backend);
      QueueKeeps(s, Free);
      QueueKeeps(u, Free);
      ForgiveKeeps(u.(queue := Free), s.queue.backend);
    }
  }

  lemma ReportKeeps(s: System, k: nat)
    requires Valid(s)
    ensures Valid(Report(s, k))
  {
    hide AttemptsOk, RegistryOk, BackoffOk, EffectsOk, Matches, RecordsOk, AgesOk;
  }

  /** A configuration whose revisions have only grown. */
  ghost predicate Later(c: Configuration, d: Configuration) {
    forall id :: id in c.saved ==> id in d.saved && c.saved[id].revision <= d.saved[id].revision
  }

  lemma ConfigurationKeeps(s: System, c: Configuration)
    requires Valid(s) && Later(s.config, c) && RecordsOk(c)
    ensures Valid(s.(config := c))
  {
    hide AttemptsOk, RegistryOk, EffectsOk, BackoffOk, ClientsOk, Matches, RecordsOk;
  }

  lemma ChangesAreLater(c: Configuration, changes: map<Backend, Definition>, id: Backend, automatic: bool)
    requires RecordsOk(c)
    ensures Later(c, SaveAll(c, changes)) && RecordsOk(SaveAll(c, changes))
    ensures Later(c, Admit(c, id, automatic)) && RecordsOk(Admit(c, id, automatic))
    ensures Later(c, LoadAll(c)) && RecordsOk(LoadAll(c))
  {
  }

  lemma ConfiguredIsLater(s: System, step: Step)
    requires RecordsOk(s.config)
    ensures Later(s.config, Configured(s.config, s.queue, step)) && RecordsOk(Configured(s.config, s.queue, step))
  {
    hide SaveAll, Admit, LoadAll;
    ChangesAreLater(s.config, if step.Save? then step.changes else map[],
                    if step.Command? then step.backend else "", step.Command? && step.automatic);
  }

  predicate Configures(step: Step) { step.Save? || step.Command? || step.Reload? || step.Replace? }

  lemma ConfiguringKeeps(s: System, step: Step)
    requires Valid(s) && Configures(step)
    ensures Valid(Take(s, step)) && Take(s, step) == s.(config := Configured(s.config, s.queue, step))
  {
    hide AttemptsOk, RegistryOk, EffectsOk, BackoffOk, ClientsOk, QueueOk, AgesOk, RecordsOk, Later;
    hide Configured;
    ConfiguredIsLater(s, step);
    ConfigurationKeeps(s, Configured(s.config, s.queue, step));
  }

  lemma OtherKeeps(s: System, step: Step)
    requires Valid(s) && (step.HolderEnds? || step.Shutdown? || step.Tick?)
    ensures Valid(Take(s, step))
  {
    hide AttemptsOk, RegistryOk, EffectsOk, ClientsOk, Matches, Delay, AgesOk, RecordsOk;
  }

  lemma StepKeeps(s: System, step: Step)
    requires Valid(s)
    ensures Valid(Take(s, step))
  {
    hide Valid, StartApply, EndReserve, Turn, EndPublication, SecondTurn;
    hide CancelAllStale, EndRemove, Cancel, SetPhase, Report;
    match step {
      case Apply(id, explicit) => ApplyKeeps(s, id, explicit);
      case Reserved(result) => ReserveKeeps(s, result);
      case TakeTurn(n) => TurnKeeps(s, n);
      case PublicationEnds(ok) => PublicationKeeps(s, ok);
      case DiscardTurn(n) => SecondTurnKeeps(s, n);
      case Answer(k) => ReportKeeps(s, k);
      case CancelStale => StaleKeeps(s);
      case Remove(id, clear) => RemoveKeeps(s, id, clear);
      case Removed(ok) => RemovedKeeps(s, ok);
      case Forgive(id) => ForgiveKeeps(s, id);
      case Complete(_, _) => PhaseKeeps(s, step);
      case CleanupEnds(_, _) => PhaseKeeps(s, step);
      case HolderEnds => OtherKeeps(s, step);
      case Shutdown => OtherKeeps(s, step);
      case Tick(_) => OtherKeeps(s, step);
      case _ => ConfiguringKeeps(s, step);
    }
  }

  lemma {:induction false} RunKeeps(s: System, steps: seq<Step>)
    requires Valid(s)
    ensures Valid(Run(s, steps))
    decreases |steps|
  {
    hide Valid, Take;
    if steps != [] {
      StepKeeps(s, steps[0]);
      RunKeeps(Take(s, steps[0]), steps[1..]);
    }
  }

  lemma ReachableIsValid(steps: seq<Step>)
    ensures Valid(Run(START, steps))
  {
    hide Run;
    assert Valid(START);
    RunKeeps(START, steps);
  }
}
