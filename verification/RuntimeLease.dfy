/**
 Acquiring a thread runtime against a deadline and a cancellation (`acquireThreadRuntimeWithDiagnostics`
 of src/server/normalized-app.ts and its caller), one microtask at a time.
 */
module RuntimeLease {

  datatype Acquisition = Unsettled | Fulfilled | Rejected

  datatype Race = Open | Won | Lost

  /** Reactions in the microtask queue. */
  datatype Task =
    | AbandonHandler   // releases a runtime that came too late
    | RaceAcquired     // the acquisition settles the race
    | RaceExpired      // the deadline or the cancellation settles it
    | Resume           // the awaiting function goes on: its timer and listener are removed
    | CallerResume     // the caller goes on with the runtime or the error

  datatype Caller = Waiting | Failed | Holding(released: bool)

  datatype Lease = Lease(acquisition: Acquisition, abandoned: bool, race: Race, armed: bool, caller: Caller,
                         queue: seq<Task>, handlerReleases: nat, callerReleases: nat)

  /** A signal that is already aborted abandons the acquisition at once. */
  function Start(aborted: bool): Lease {
    Lease(Unsettled, aborted, Open, true, Waiting, if aborted then [RaceExpired] else [], 0, 0)
  }

  datatype Event =
    | Settle(ok: bool)     // the acquisition ends
    | Expire               // the timer fires, or the response closes and aborts the acquisition
    | Microtask            // the next microtask runs
    | CallerReleases       // request close, response close or the end of serving calls `release`

  /** Both timer callback and abort listener abandon the acquisition and reject their promise. */
  function Expired(l: Lease): Lease { l.(abandoned := true, queue := l.queue + [RaceExpired]) }

  function RunTask(l: Lease, task: Task): Lease {
    match task
    case AbandonHandler =>
      if l.abandoned && l.acquisition.Fulfilled? then l.(handlerReleases := l.handlerReleases + 1) else l
    case RaceAcquired => if l.race.Open? then l.(race := Won, queue := l.queue + [Resume]) else l
    case RaceExpired => if l.race.Open? then l.(race := Lost, queue := l.queue + [Resume]) else l
    case Resume => l.(armed := false, queue := l.queue + [CallerResume])
    case CallerResume => l.(caller := if l.race.Won? && l.acquisition.Fulfilled? then Holding(false) else Failed)
  }

  function Happen(l: Lease, e: Event): Lease {
    match e
    case Settle(ok) =>
      if !l.acquisition.Unsettled? then l
      else l.(acquisition := if ok then Fulfilled else Rejected, queue := l.queue + [AbandonHandler, RaceAcquired])
    case Expire => if l.armed then Expired(l) else l
    case Microtask => if l.queue == [] then l else RunTask(l.(queue := l.queue[1..]), l.queue[0])
    case CallerReleases =>
      if l.caller == Holding(false) then l.(caller := Holding(true), callerReleases := l.callerReleases + 1) else l
  }

  /** Timers and close events run only when no microtask is waiting. */
  predicate Allowed(l: Lease, e: Event) { e.Expire? ==> l.queue == [] }

  ghost predicate Schedule(l: Lease, events: seq<Event>)
    decreases |events|
  {
    events == [] || (Allowed(l, events[0]) && Schedule(Happen(l, events[0]), events[1..]))
  }

  function Run(l: Lease, events: seq<Event>): Lease
    decreases |events|
  {
    if events == [] then l else Run(Happen(l, events[0]), events[1..])
  }

  // ---- the invariant ----

  function Count(l: Lease, task: Task): nat { Occurs(l.queue, task) }

  function Held(l: Lease): nat { if l.caller.Holding? then 1 else 0 }

  /** Not abandoned: nothing has happened, or the acquisition is on its way to the caller. */
  ghost predicate OnTheWay(l: Lease) {
    && l.handlerReleases == 0
    && match l.acquisition {
         case Unsettled => l.queue == [] && l.race.Open? && l.armed && l.caller.Waiting?
         case _ =>
           || (l.queue == [AbandonHandler, RaceAcquired] && l.race.Open? && l.armed && l.caller.Waiting?)
           || (l.queue == [RaceAcquired] && l.race.Open? && l.armed && l.caller.Waiting?)
           || (l.queue == [Resume] && l.race.Won? && l.armed && l.caller.Waiting?)
           || (l.queue == [CallerResume] && l.race.Won? && !l.armed && l.caller.Waiting?)
           || (l.queue == [] && l.race.Won? && !l.armed
               && (if l.acquisition.Fulfilled? then l.caller.Holding? else l.caller.Failed?))
       }
  }

  /** Abandoned: the race is lost or about to be, and a late runtime is released by the handler. */
  ghost predicate GivenUp(l: Lease) {
    && !l.race.Won? && !l.caller.Holding?
    && (l.race.Open? <==> Count(l, RaceExpired) == 1) && (l.race.Open? ==> l.queue[0] == RaceExpired)
    && Count(l, RaceExpired) <= 1
    && Count(l, Resume) + Count(l, CallerResume) + Count(l, RaceExpired) == (if l.caller.Waiting? then 1 else 0)
    && (l.armed <==> Count(l, RaceExpired) + Count(l, Resume) == 1)
    && Count(l, AbandonHandler) <= (if l.acquisition.Unsettled? then 0 else 1)
    && l.handlerReleases == (if l.acquisition.Fulfilled? && Count(l, AbandonHandler) == 0 then 1 else 0)
  }

  ghost predicate Valid(l: Lease) {
    && (if l.abandoned then GivenUp(l) else OnTheWay(l))
    && l.callerReleases == (if l.caller == Holding(true) then 1 else 0)
  }

  function Occurs(q: seq<Task>, t: Task): nat { multiset(q)[t] }

  lemma PopCounts(q: seq<Task>, t: Task)
    requires q != []
    ensures Occurs(q[1..], t) == Occurs(q, t) - (if q[0] == t then 1 else 0)
    ensures Occurs(q[1..] + [Resume], t) == Occurs(q[1..], t) + (if t == Resume then 1 else 0)
    ensures Occurs(q[1..] + [CallerResume], t) == Occurs(q[1..], t) + (if t == CallerResume then 1 else 0)
  {
    assert q == [q[0]] + q[1..];
  }

  lemma GivenUpRuns(l: Lease)
    requires GivenUp(l) && l.abandoned && l.queue != []
    ensures GivenUp(Happen(l, Microtask)) && Happen(l, Microtask).abandoned
  {
    hide Occurs;
    PopCounts(l.queue, AbandonHandler);
    PopCounts(l.queue, RaceExpired);
    PopCounts(l.queue, Resume);
    PopCounts(l.queue, CallerResume);
  }

  lemma OnTheWayRuns(l: Lease)
    requires OnTheWay(l) && !l.abandoned && l.queue != []
    ensures OnTheWay(Happen(l, Microtask)) && !Happen(l, Microtask).abandoned
  {
    var rest := l.queue[1..];
    assert l.queue[0] != AbandonHandler ==> rest == [];
    assert [] + [Resume] == [Resume] && [] + [CallerResume] == [CallerResume];
  }

  lemma SettleKeeps(l: Lease, ok: bool)
    requires Valid(l)
    ensures Valid(Happen(l, Settle(ok)))
  {
    if l.abandoned && l.acquisition.Unsettled? {
      assert multiset(l.queue + [AbandonHandler, RaceAcquired]) ==
             multiset(l.queue) + multiset{AbandonHandler, RaceAcquired};
    }
  }

  /** When a timer can fire, the acquisition is still under way. */
  lemma ExpireKeeps(l: Lease)
    requires Valid(l) && l.queue == []
    ensures Valid(Happen(l, Expire))
  {
    assert l.queue + [RaceExpired] == [RaceExpired];
  }

  lemma StepKeeps(l: Lease, e: Event)
    requires Valid(l) && Allowed(l, e)
    ensures Valid(Happen(l, e))
  {
    match e
    case Settle(ok) => SettleKeeps(l, ok);
    case Expire => ExpireKeeps(l);
    case Microtask => MicrotaskKeeps(l);
    case CallerReleases =>
  }

  lemma MicrotaskKeeps(l: Lease)
    requires Valid(l)
    ensures Valid(Happen(l, Microtask))
  {
    hide GivenUp;
    if l.queue != [] {
      if l.abandoned { GivenUpRuns(l); GivenUpWaits(l); } else { OnTheWayRuns(l); }
    }
  }

  lemma GivenUpWaits(l: Lease)
    requires GivenUp(l)
    ensures !l.race.Won? && !l.caller.Holding?
  {
  }

  lemma {:induction false} RunKeeps(l: Lease, events: seq<Event>)
    requires Valid(l) && Schedule(l, events)
    ensures Valid(Run(l, events))
    decreases |events|
  {
    if events != [] {
      hide Valid, Happen;
      StepKeeps(l, events[0]);
      RunKeeps(Happen(l, events[0]), events[1..]);
    }
  }

  // ---- exactly once ----

  /** Never both released by the handler and given to the caller, and never released twice. */
  ghost predicate NeverTwice(l: Lease) {
    l.handlerReleases + Held(l) <= 1 && l.handlerReleases + l.callerReleases <= 1
  }

  /** Once the microtasks have run, a runtime that was produced has exactly one owner. */
  ghost predicate HasOneOwner(l: Lease) {
    l.queue == [] && l.acquisition.Fulfilled? ==> l.handlerReleases + Held(l) == 1
  }

  /** And when the caller has called release, it was released exactly once. */
  ghost predicate ReleasedOnce(l: Lease) {
    l.queue == [] && l.acquisition.Fulfilled? && l.caller != Holding(false) ==>
      l.handlerReleases + l.callerReleases == 1
  }

  lemma ValidIsOnce(l: Lease)
    requires Valid(l)
    ensures NeverTwice(l) && HasOneOwner(l) && ReleasedOnce(l)
  {
  }

  lemma ExactlyOnce(aborted: bool, events: seq<Event>)
    requires Schedule(Start(aborted), events)
    ensures var l := Run(Start(aborted), events); NeverTwice(l) && HasOneOwner(l) && ReleasedOnce(l)
  {
    hide Run, NeverTwice, HasOneOwner, ReleasedOnce;
    assert Valid(Start(aborted));
    RunKeeps(Start(aborted), events);
    ValidIsOnce(Run(Start(aborted), events));
  }

  // ---- why the scheduling matters ----

  function Microtasks(l: Lease, n: nat): Lease
    decreases n
  {
    if n == 0 then l else Microtasks(Happen(l, Microtask), n - 1)
  }

  /** A timer that fired between two microtasks would give the caller a released runtime. */
  lemma InterruptedIsReleasedTwice()
    ensures var l := Microtasks(Happen(Happen(Start(false), Settle(true)), Expire), 5);
            l.handlerReleases == 1 && l.caller == Holding(false) && Happen(l, CallerReleases).callerReleases == 1
  {
    var a := Happen(Happen(Start(false), Settle(true)), Expire);
    assert a.queue == [AbandonHandler, RaceAcquired, RaceExpired];
    var b := Happen(a, Microtask);
    assert b == a.(queue := [RaceAcquired, RaceExpired], handlerReleases := 1);
    var c := Happen(b, Microtask);
    assert c == b.(queue := [RaceExpired, Resume], race := Won);
    var d := Happen(c, Microtask);
    assert d == c.(queue := [Resume]);
    var e := Happen(d, Microtask);
    assert e == d.(queue := [CallerResume], armed := false);
    var f := Happen(e, Microtask);
    assert f == e.(queue := [], caller := Holding(false));
    FiveMicrotasks(a);
  }

  lemma FiveMicrotasks(l: Lease)
    ensures Microtasks(l, 5) ==
            Happen(Happen(Happen(Happen(Happen(l, Microtask), Microtask), Microtask), Microtask), Microtask)
  {
    hide Happen;
    var m := Happen(Happen(l, Microtask), Microtask);
    assert Microtasks(l, 5) == Microtasks(m, 3);
    assert Microtasks(m, 3) == Microtasks(Happen(Happen(m, Microtask), Microtask), 1);
  }

  // ---- the callbacks and the variables they share ----

  class ThreadRuntimeLoad {
    var acquisition: Acquisition
    var abandoned: bool
    var race: Race
    var armed: bool
    var caller: Caller
    var microtasks: seq<Task>
    ghost var handlerReleases: nat
    ghost var callerReleases: nat

    ghost function State(): Lease
      reads this
    {
      Lease(acquisition, abandoned, race, armed, caller, microtasks, handlerReleases, callerReleases)
    }

    constructor (aborted: bool)
      ensures State() == Start(aborted) && Valid(State())
    {
      acquisition, abandoned, race, armed, caller := Unsettled, false, Open, true, Waiting;
      microtasks, handlerReleases, callerReleases := [], 0, 0;
      if aborted {
        abandoned := true;
        microtasks := [RaceExpired];
      }
    }

    method AcquisitionSettles(ok: bool)
      requires Valid(State()) && acquisition.Unsettled?
      modifies this`acquisition, this`microtasks
      ensures State() == Happen(old(State()), Settle(ok)) && Valid(State())
    {
      StepKeeps(State(), Settle(ok));
      acquisition := if ok then Fulfilled else Rejected;
      microtasks := microtasks + [AbandonHandler, RaceAcquired];
    }

    /** The timer callback, and the abort listener. */
    method Abandon()
      requires Valid(State()) && armed && microtasks == []
      modifies this`abandoned, this`microtasks
      ensures State() == Happen(old(State()), Expire) && Valid(State())
    {
      StepKeeps(State(), Expire);
      abandoned := true;
      microtasks := microtasks + [RaceExpired];
    }

    method RunMicrotask()
      requires Valid(State()) && microtasks != []
      modifies this
      ensures State() == Happen(old(State()), Microtask) && Valid(State())
    {
      hide Valid;
      StepKeeps(State(), Microtask);
      var task := microtasks[0];
      microtasks := microtasks[1..];
      match task {
        case AbandonHandler =>
          if abandoned && acquisition.Fulfilled? { handlerReleases := handlerReleases + 1; }
        case RaceAcquired =>
          if race.Open? { race, microtasks := Won, microtasks + [Resume]; }
        case RaceExpired =>
          if race.Open? { race, microtasks := Lost, microtasks + [Resume]; }
        case Resume =>
          armed := false;
          microtasks := microtasks + [CallerResume];
        case CallerResume =>
          caller := if race.Won? && acquisition.Fulfilled? then Holding(false) else Failed;
      }
    }

    /** The caller's guard: whichever of its events comes first releases, the others find it done. */
    method Release()
      requires Valid(State()) && caller.Holding?
      modifies this`caller, this`callerReleases
      ensures State() == Happen(old(State()), CallerReleases) && Valid(State())
      ensures caller == Holding(true) && callerReleases == 1 && handlerReleases == 0
    {
      StepKeeps(State(), CallerReleases);
      if caller.released { return; }
      caller := Holding(true);
      callerReleases := callerReleases + 1;
    }

    method Perform(e: Event)
      requires Valid(State()) && Allowed(State(), e)
      modifies this
      ensures State() == Happen(old(State()), e) && Valid(State())
    {
      hide Valid, RunTask;
      match e {
        case Settle(ok) => if acquisition.Unsettled? { AcquisitionSettles(ok); }
        case Expire => if armed { Abandon(); }
        case Microtask => if microtasks != [] { RunMicrotask(); }
        case CallerReleases => if caller.Holding? { Release(); }
      }
    }
  }

  /** A load driven through any schedule: one owner, and one release. */
  method Load(aborted: bool, events: seq<Event>) returns (l: ThreadRuntimeLoad)
    requires Schedule(Start(aborted), events)
    ensures fresh(l) && l.State() == Run(Start(aborted), events)
    ensures NeverTwice(l.State()) && HasOneOwner(l.State()) && ReleasedOnce(l.State())
  {
    hide Valid, Happen, Allowed, NeverTwice, HasOneOwner, ReleasedOnce, Start;
    l := new ThreadRuntimeLoad(aborted);
    var i := 0;
    assert events[0..] == events;
    while i < |events|
      invariant 0 <= i <= |events| && fresh(l) && Valid(l.State())
      invariant Schedule(l.State(), events[i..])
      invariant Run(l.State(), events[i..]) == Run(Start(aborted), events)
    {
      assert events[i..][0] == events[i] && events[i..][1..] == events[i + 1..];
      l.Perform(events[i]);
      i := i + 1;
    }
    assert events[i..] == [];
    ValidIsOnce(l.State());
  }
}
