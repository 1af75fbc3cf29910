/**
 How long the server waits before it starts a backend again that failed to start
 (src/server/production-application.ts).
 */
module BackendDelay {
  import opened BackendStartup

  // ---- waiting before the next automatic start ----

  /** The steps that take a backend's delay away: an explicit start, a removal or other clearing, a success. */
  predicate Clears(s: System, step: Step, id: Backend) {
    match step
    case Apply(b, explicit) => explicit && b == id
    case Forgive(b) => b == id
    case Removed(ok) => s.queue.Removing? && s.queue.backend == id && s.queue.clear
    case PublicationEnds(ok) =>
      ok && s.queue.InPublication? && s.queue.attempt < |s.attempts| && s.attempts[s.queue.attempt].backend == id
    case _ => false
  }

  /** Nothing clears the delay, and failures are all of the same configuration. */
  predicate Undisturbed(s: System, steps: seq<Step>, id: Backend, fingerprint: Fingerprint)
    decreases |steps|
  {
    && id in s.backoff && s.backoff[id].fingerprint == fingerprint
    && (steps == [] || (!Clears(s, steps[0], id) && Undisturbed(Take(s, steps[0]), steps[1..], id, fingerprint)))
  }

  ghost predicate NoEarlier(b: Backoff, c: Backoff) {
    b.failures <= c.failures && b.failedAt <= c.failedAt && b.retryAt <= c.retryAt
  }

  lemma FailureIsLater(s: System, id: Backend, fingerprint: Fingerprint)
    requires BackoffOk(s.backoff, s.now) && id in s.backoff && s.backoff[id].fingerprint == fingerprint
    ensures NoEarlier(s.backoff[id], RecordFailure(s, id, fingerprint).backoff[id])
  {
    hide Delay;
    DelayIsMonotone(s.backoff[id].failures, s.backoff[id].failures + 1);
  }

  /** A delay is only replaced by a longer one, unless the configuration that failed is another one. */
  ghost predicate FailedAgain(s: System, t: System, id: Backend)
    requires id in s.backoff
  {
    && id in t.backoff
    && (t.backoff[id].fingerprint != s.backoff[id].fingerprint || NoEarlier(s.backoff[id], t.backoff[id]))
  }

  lemma RecordedOnce(s: System, id: Backend, other: Backend, fingerprint: Fingerprint)
    requires BackoffOk(s.backoff, s.now) && id in s.backoff
    ensures FailedAgain(s, RecordFailure(s, other, fingerprint), id)
  {
    hide RecordFailure, BackoffOk;
    RecordFailureAt(s, other, fingerprint);
    if other == id && s.backoff[id].fingerprint == fingerprint { FailureIsLater(s, id, fingerprint); }
  }

  lemma LeaveFailsAgain(s: System, n: nat, publicationFailed: bool, id: Backend)
    requires Valid(s) && n < |s.attempts| && id in s.backoff
    ensures FailedAgain(s, LeavePlace(s, n, publicationFailed), id)
    ensures var b := LeavePlace(s, n, publicationFailed).backoff[id];
            b == s.backoff[id] || (id == s.attempts[n].backend && b.fingerprint == s.attempts[n].fingerprint)
  {
    hide Valid, RecordFailure, NoEarlier, IsCurrent, Registered;
    ValidBackoff(s);
    EqualIsNoEarlier(s.backoff[id]);
    RecordedOnce(s, id, s.attempts[n].backend, s.attempts[n].fingerprint);
    RecordFailureAt(s, s.attempts[n].backend, s.attempts[n].fingerprint);
  }

  lemma SecondTurnFailsAgain(s: System, n: nat, id: Backend)
    requires Valid(s) && id in s.backoff
    ensures FailedAgain(s, SecondTurn(s, n), id)
  {
    hide Valid, RecordFailure, NoEarlier, LeavePlace;
    EqualIsNoEarlier(s.backoff[id]);
    if s.queue.Free? && n < |s.attempts| && s.attempts[n].phase.Discarded? {
      var a, u := s.attempts[n], LeavePlace(s, n, s.attempts[n].phase.publicationFailed);
      LeaveFailsAgain(s, n, a.phase.publicationFailed, id);
      LeaveKeeps(s, n, a.phase.publicationFailed);
      ValidBackoff(u);
      RecordedOnce(u, id, a.backend, a.fingerprint);
      RecordFailureAt(u, a.backend, a.fingerprint);
      NoEarlierChain(s.backoff[id], u.backoff[id], RecordFailure(u, a.backend, a.fingerprint).backoff[id]);
    }
  }

  lemma ValidBackoff(s: System)
    requires Valid(s)
    ensures BackoffOk(s.backoff, s.now)
  {
  }

  lemma EqualIsNoEarlier(b: Backoff)
    ensures NoEarlier(b, b)
  {
  }

  lemma NoEarlierChain(b: Backoff, c: Backoff, d: Backoff)
    ensures NoEarlier(b, c) && NoEarlier(c, d) ==> NoEarlier(b, d)
  {
  }

  lemma ApplyFailsAgain(s: System, other: Backend, explicit: bool, id: Backend)
    requires Valid(s) && id in s.backoff && !(explicit && other == id)
    ensures FailedAgain(s, StartApply(s, other, explicit), id)
  {
    hide Valid, RecordFailure, NoEarlier, IsCurrent, BackoffOk;
    ValidBackoff(s);
    EqualIsNoEarlier(s.backoff[id]);
    if other in s.config.loaded {
      var t := if explicit then s.(backoff := s.backoff - {other}) else s;
      ForgiveKeeps(s, other);
      ValidBackoff(t);
      RecordedOnce(t, id, other, s.config.loaded[other].fingerprint);
    }
  }

  lemma StepFailsAgain(s: System, step: Step, id: Backend)
    requires Valid(s) && id in s.backoff && !Clears(s, step, id)
    ensures FailedAgain(s, Take(s, step), id)
  {
    hide Valid, RecordFailure, NoEarlier, IsCurrent, Registered, SecondTurn, BackoffOk, StartApply;
    ValidBackoff(s);
    EqualIsNoEarlier(s.backoff[id]);
    if step.DiscardTurn? {
      SecondTurnFailsAgain(s, step.attempt, id);
    } else if step.TakeTurn? && step.attempt < |s.attempts| {
      RecordedOnce(s, id, s.attempts[step.attempt].backend, s.attempts[step.attempt].fingerprint);
    } else if step.Reserved? && s.queue.Reserving? {
      RecordedOnce(s.(queue := Free), id, s.queue.backend, s.queue.definition.fingerprint);
    } else if step.Apply? {
      ApplyFailsAgain(s, step.backend, step.explicit, id);
    }
  }

  lemma {:induction false} RunFailsAgain(s: System, steps: seq<Step>, id: Backend, fingerprint: Fingerprint)
    requires Valid(s) && Undisturbed(s, steps, id, fingerprint)
    ensures id in Run(s, steps).backoff && Run(s, steps).backoff[id].fingerprint == fingerprint
    ensures NoEarlier(s.backoff[id], Run(s, steps).backoff[id])
    decreases |steps|
  {
    hide Valid, Take, NoEarlier, Clears;
    EqualIsNoEarlier(s.backoff[id]);
    if steps != [] {
      var t := Take(s, steps[0]);
      StepKeeps(s, steps[0]);
      StepFailsAgain(s, steps[0], id);
      RunFailsAgain(t, steps[1..], id, fingerprint);
      NoEarlierChain(s.backoff[id], t.backoff[id], Run(s, steps).backoff[id]);
    }
  }

  /** However the run goes, an automatic start of the configuration that failed waits out the delay of that failure. */
  lemma RetryWaits(s: System, steps: seq<Step>, id: Backend, fingerprint: Fingerprint)
    requires Valid(s) && Undisturbed(s, steps, id, fingerprint)
    ensures var t := Run(s, steps);
            t.queue.Free? && Take(t, Apply(id, false)).queue.Reserving?
            && t.config.loaded[id].fingerprint == fingerprint ==>
              t.now >= s.backoff[id].failedAt + Delay(s.backoff[id].failures)
  {
    hide Run, Undisturbed, Delay, IsCurrent, AttemptsOk, RegistryOk, EffectsOk, ClientsOk, QueueOk;
    assert id in s.backoff by { UndisturbedHas(s, steps, id, fingerprint); }
    RunFailsAgain(s, steps, id, fingerprint);
  }

  lemma UndisturbedHas(s: System, steps: seq<Step>, id: Backend, fingerprint: Fingerprint)
    requires Undisturbed(s, steps, id, fingerprint)
    ensures id in s.backoff
  {
  }
}
