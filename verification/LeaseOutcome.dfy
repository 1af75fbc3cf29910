/**
 Who ends up with the runtime, told from the events alone: the first of settlement and expiry decides
 (`acquireThreadRuntimeWithDiagnostics` of src/server/normalized-app.ts and its caller).
 */
module LeaseOutcome {
  import opened RuntimeLease

  /** The settlement of the acquisition: its first one. */
  ghost function Settlement(events: seq<Event>): Acquisition {
    if events == [] then Unsettled
    else if events[0].Settle? then if events[0].ok then Fulfilled else Rejected
    else Settlement(events[1..])
  }

  /** The deadline or the cancellation came before the acquisition was settled. */
  ghost predicate TooLate(events: seq<Event>) {
    events != [] && !events[0].Settle? && (events[0].Expire? || TooLate(events[1..]))
  }

  /** How the state agrees with what has happened. */
  ghost predicate Agrees(l: Lease, settled: Acquisition, late: bool) { l.acquisition == settled && l.abandoned == late }

  /** The settlement and the lateness after more events. */
  ghost function SettledAfter(settled: Acquisition, events: seq<Event>): Acquisition {
    if settled == Unsettled then Settlement(events) else settled
  }

  ghost predicate LateAfter(settled: Acquisition, late: bool, events: seq<Event>) {
    late || (settled == Unsettled && TooLate(events))
  }

  lemma OneEvent(l: Lease, e: Event)
    requires Valid(l) && Allowed(l, e)
    ensures Happen(l, e).acquisition ==
              if l.acquisition.Unsettled? && e.Settle? then if e.ok then Fulfilled else Rejected else l.acquisition
    ensures Happen(l, e).abandoned == (l.abandoned || (l.acquisition.Unsettled? && e.Expire?))
  {
    hide Occurs;
  }

  lemma {:induction false} RunAgrees(l: Lease, events: seq<Event>)
    requires Valid(l) && Schedule(l, events)
    ensures Agrees(Run(l, events), SettledAfter(l.acquisition, events), LateAfter(l.acquisition, l.abandoned, events))
    decreases |events|
  {
    hide Valid, Happen;
    if events != [] {
      StepKeeps(l, events[0]);
      OneEvent(l, events[0]);
      RunAgrees(Happen(l, events[0]), events[1..]);
    }
  }

  /**
   In every schedule, once no microtask is waiting: without a settlement or an expiry the caller waits; if the
   acquisition succeeded in time, the caller holds the runtime and the handler released nothing; in every other case the
   caller has an error, and the handler released the runtime exactly if there was one.
   */
  lemma FirstDecides(aborted: bool, events: seq<Event>)
    requires Schedule(Start(aborted), events) && Run(Start(aborted), events).queue == []
    ensures var l := Run(Start(aborted), events);
            var settled, late := Settlement(events), aborted || TooLate(events);
            && (settled == Unsettled && !late ==> l.caller == Waiting && l.handlerReleases == 0)
            && (settled == Fulfilled && !late ==> l.caller.Holding? && l.handlerReleases == 0)
            && (late || settled == Rejected ==>
                  l.caller == Failed && l.handlerReleases == if late && settled == Fulfilled then 1 else 0)
            && l.callerReleases == (if l.caller == Holding(true) then 1 else 0)
            && (!late ==> l.armed == (settled == Unsettled)) && (late ==> !l.armed)
  {
    hide Run;
    var l := Start(aborted);
    assert Valid(l);
    RunAgrees(l, events);
    RunKeeps(l, events);
    NothingCounted(Run(l, events));
  }

  lemma NothingCounted(l: Lease)
    requires l.queue == []
    ensures forall task :: Count(l, task) == 0
  {
  }

  /** Calling release again is nothing; the first call releases what the caller holds. */
  lemma ReleaseOnce(l: Lease)
    ensures l.caller == Holding(false) ==>
              var t := Happen(l, CallerReleases);
              t.caller == Holding(true) && t.callerReleases == l.callerReleases + 1
    ensures l.caller != Holding(false) ==> Happen(l, CallerReleases) == l
  {
  }

  /** Every microtask that runs takes away more than it adds, so they come to an end. */
  lemma {:induction false} MicrotasksEnd(l: Lease)
    requires Valid(l) && l.queue != []
    ensures Weight(Happen(l, Microtask).queue) < Weight(l.queue)
  {
    hide Valid;
    if l.queue != [] {
      WeightConcat(l.queue[1..], [Resume]);
      WeightConcat(l.queue[1..], [CallerResume]);
      assert [Resume][1..] == [] && [CallerResume][1..] == [];
    }
  }

  function Weight(q: seq<Task>): nat {
    if q == [] then 0
    else (match q[0] { case AbandonHandler => 1 case RaceAcquired => 3 case RaceExpired => 3 case Resume => 2 case CallerResume => 1 })
         + Weight(q[1..])
  }

  lemma {:induction false} WeightConcat(a: seq<Task>, b: seq<Task>)
    ensures Weight(a + b) == Weight(a) + Weight(b)
  {
    if a == [] {
      assert a + b == b;
    } else {
      assert (a + b)[1..] == a[1..] + b;
      WeightConcat(a[1..], b);
    }
  }
}
