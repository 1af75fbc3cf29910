/** The page-height stabilizer of src/shared/page-sizing.ts, alone and in the loop with a page. */
module PageSizing {
  import opened Wrappers

  // ---- one measurement ----

  /** A number as the page reports it. */
  datatype Measured = NotFinite | Finite(value: real)

  datatype Measurement = Measurement(width: Measured, viewportHeight: Measured, naturalHeight: Measured)

  function Known(m: Measured): real { if m.Finite? then m.value else 1.0 }

  function Round(x: real): int { (x + 0.5).Floor }

  function Ceiling(x: real): int { -((-x).Floor) }

  const MAX_HEIGHT := 8192

  function AtLeastOne(n: int): int { if n < 1 then 1 else n }

  function Height(m: Measured): (h: int)
    ensures 1 <= h <= MAX_HEIGHT
  {
    var n := Ceiling(Known(m));
    AtLeastOne(if n > MAX_HEIGHT then MAX_HEIGHT else n)
  }

  datatype Reading = Reading(width: int, viewport: int, natural: int)

  function Read(m: Measurement): Reading {
    Reading(AtLeastOne(Round(Known(m.width))), Height(m.viewportHeight), Height(m.naturalHeight))
  }

  // ---- the stabilizer ----

  datatype State = State(reading: Reading, accepted: int, frozen: bool, steps: nat)

  function Abs(n: int): nat { if n < 0 then -n else n }

  function Sign(n: int): int { if n < 0 then -1 else if n > 0 then 1 else 0 }

  function Reset(r: Reading): State { State(r, r.natural, false, 0) }

  /** The height follows the viewport and still does not fit: growing further is pointless. */
  predicate RunsAway(viewportDelta: int, naturalDelta: int, r: Reading) {
    && Sign(viewportDelta) == Sign(naturalDelta)
    && Abs(naturalDelta) >= Abs(viewportDelta) - 1
    && Abs(r.natural - r.viewport) > 1
  }

  function Stabilize(previous: Option<State>, r: Reading): State {
    if previous.None? || previous.value.reading.width != r.width then Reset(r)
    else
      var p := previous.value;
      var viewportDelta := r.viewport - p.reading.viewport;
      var naturalDelta := r.natural - p.reading.natural;
      if Abs(viewportDelta) <= 1 then if Abs(naturalDelta) <= 1 then p.(reading := r) else Reset(r)
      else if p.frozen then p.(reading := r)
      else
        var steps := p.steps + 1;
        if RunsAway(viewportDelta, naturalDelta, r) || steps >= 6 then State(r, p.accepted, true, steps)
        else State(r, r.natural, false, steps)
  }

  // ---- any sequence of measurements ----

  /** This measurement starts over: a new width, or new content in the same viewport. */
  predicate Restarts(p: State, r: Reading) {
    p.reading.width != r.width ||
    (Abs(r.viewport - p.reading.viewport) <= 1 && Abs(r.natural - p.reading.natural) > 1)
  }

  ghost predicate NoRestart(p: State, readings: seq<Reading>)
    decreases |readings|
  {
    readings == [] || (!Restarts(p, readings[0]) && NoRestart(Stabilize(Some(p), readings[0]), readings[1..]))
  }

  function Run(p: State, readings: seq<Reading>): State
    decreases |readings|
  {
    if readings == [] then p else Run(Stabilize(Some(p), readings[0]), readings[1..])
  }

  /** How often the accepted height changes. */
  function Changes(p: State, readings: seq<Reading>): nat
    decreases |readings|
  {
    if readings == [] then 0
    else
      var q := Stabilize(Some(p), readings[0]);
      (if q.accepted == p.accepted then 0 else 1) + Changes(q, readings[1..])
  }

  /** An unfrozen state has taken fewer than six steps. */
  predicate Ok(p: State) { !p.frozen ==> p.steps < 6 }

  function Budget(p: State): nat { if p.frozen || p.steps >= 5 then 0 else 5 - p.steps }

  lemma StepSpends(p: State, r: Reading)
    requires Ok(p) && !Restarts(p, r)
    ensures var q := Stabilize(Some(p), r);
            Ok(q) && Budget(q) + (if q.accepted == p.accepted then 0 else 1) <= Budget(p)
  {
  }

  /** Between restarts the accepted height changes at most five times, whatever is measured. */
  lemma {:induction false} FewChanges(p: State, readings: seq<Reading>)
    requires Ok(p) && NoRestart(p, readings)
    ensures Ok(Run(p, readings)) && Changes(p, readings) <= Budget(p) <= 5
    decreases |readings|
  {
    if readings != [] {
      hide Stabilize, Restarts;
      StepSpends(p, readings[0]);
      FewChanges(Stabilize(Some(p), readings[0]), readings[1..]);
    }
  }

  /** A restart gives the height that is measured, with the whole budget again. */
  lemma RestartBegins(p: State, r: Reading)
    requires Restarts(p, r)
    ensures Stabilize(Some(p), r) == Stabilize(None, r) == Reset(r) && Ok(Reset(r)) && Budget(Reset(r)) == 5
  {
  }

  /**
   Exactly when a new viewport, more than a pixel away, freezes the height: after five accepted ones, or when the page
   grew or shrank with it, by at least as much less one, and still does not fit. Otherwise the new height is accepted.
   */
  lemma FreezesExactly(p: State, r: Reading)
    requires !p.frozen && p.reading.width == r.width
    requires r.viewport > p.reading.viewport + 1 || r.viewport < p.reading.viewport - 1
    ensures var q := Stabilize(Some(p), r);
            var dv, dn := r.viewport - p.reading.viewport, r.natural - p.reading.natural;
            var follows := (dv > 0 && dn > 0 && dn >= dv - 1) || (dv < 0 && dn < 0 && dn <= dv + 1);
            var fits := r.viewport - 1 <= r.natural <= r.viewport + 1;
            && q.reading == r && q.steps == p.steps + 1
            && (q.frozen <==> p.steps >= 5 || (follows && !fits))
            && q.accepted == if q.frozen then p.accepted else r.natural
  {
  }

  /** A frozen height stays whatever the viewport does, until the width or the content changes. */
  lemma FrozenStays(p: State, r: Reading)
    requires p.frozen && p.reading.width == r.width
    requires r.viewport > p.reading.viewport + 1 || r.viewport < p.reading.viewport - 1
    ensures Stabilize(Some(p), r) == p.(reading := r)
  {
  }

  /** Heights are rounded up and kept within 1 and 8192; what is not finite counts as 1. */
  lemma HeightExactly(m: Measured)
    ensures m.NotFinite? ==> Height(m) == 1
    ensures m.Finite? && m.value <= 1.0 ==> Height(m) == 1
    ensures m.Finite? && m.value > 8191.0 ==> Height(m) == 8192
    ensures m.Finite? && 1.0 < m.value <= 8191.0 ==> (Height(m) - 1) as real < m.value <= Height(m) as real
  {
    if m.Finite? {
      var n := (-m.value).Floor;
      assert n as real <= -m.value < (n + 1) as real;
    }
  }

  /** Widths are rounded to the nearest number, halves up, and are at least 1. */
  lemma WidthExactly(m: Measured)
    ensures m.NotFinite? ==> Width(m) == 1
    ensures m.Finite? && m.value < 1.5 ==> Width(m) == 1
    ensures m.Finite? && m.value >= 1.5 ==> Width(m) as real - 0.5 <= m.value < Width(m) as real + 0.5
  {
    if m.Finite? {
      var n := (m.value + 0.5).Floor;
      assert n as real <= m.value + 0.5 < (n + 1) as real;
    }
  }

  /** Accepted heights stay in range, whatever numbers the page reports. */
  lemma {:induction false} AcceptedInRange(p: State, measurements: seq<Measurement>)
    requires 1 <= p.accepted <= 8192
    ensures 1 <= Measure(p, measurements).accepted <= 8192
    decreases |measurements|
  {
    if measurements != [] {
      AcceptedInRange(Stabilize(Some(p), Read(measurements[0])), measurements[1..]);
    }
  }

  function Measure(p: State, measurements: seq<Measurement>): State
    decreases |measurements|
  {
    if measurements == [] then p else Measure(Stabilize(Some(p), Read(measurements[0])), measurements[1..])
  }

  // ---- the loop: the viewport is set to the accepted height ----

  /** What a page reports as its height in a viewport; it need not be a whole or even a finite number. */
  type Page = int -> Measured

  function Natural(page: Page, viewport: int): int { Height(page(viewport)) }

  /** Moving the viewport by one pixel moves the page's height by at most one. */
  ghost predicate Gentle(page: Page) {
    forall v, w :: Abs(v - w) <= 1 ==> Abs(Natural(page, v) - Natural(page, w)) <= 1
  }

  function Distance(x: real, y: real): real { if x < y then y - x else x - y }

  /** Rounding and clamping do not disturb that. */
  lemma MeasuredIsGentle(page: Page)
    requires forall v :: page(v).Finite?
    requires forall v, w :: Abs(v - w) <= 1 ==> Distance(page(v).value, page(w).value) <= 1.0
    ensures Gentle(page)
  {
    forall v, w | Abs(v - w) <= 1 ensures Abs(Natural(page, v) - Natural(page, w)) <= 1 {
      assert Distance(page(v).value, page(w).value) <= 1.0;
      CeilingsAreClose(page(v).value, page(w).value);
    }
  }

  lemma CeilingsAreClose(x: real, y: real)
    requires Distance(x, y) <= 1.0
    ensures Abs(Ceiling(x) - Ceiling(y)) <= 1
  {
  }

  /** The measurement in the loop: the viewport is what was accepted. */
  function Next(page: Page, width: Measured, p: State): State {
    Stabilize(Some(p), Read(Measurement(width, Finite(p.accepted as real), page(p.accepted))))
  }

  /** The states of the loop from a first viewport. */
  function Loop(page: Page, width: Measured, first: Measured, n: nat): State {
    if n == 0 then Stabilize(None, Read(Measurement(width, first, page(Height(first)))))
    else Next(page, width, Loop(page, width, first, n - 1))
  }

  function Width(width: Measured): int { AtLeastOne(Round(Known(width))) }

  /** A height in range is read back as it was set. */
  lemma HeightIsRead(h: int)
    requires 1 <= h <= MAX_HEIGHT
    ensures Height(Finite(h as real)) == h
  {
    assert (-(h as real)).Floor == -h;
  }

  /** What the loop remembers is what the page showed in the viewport it had. */
  ghost predicate Faithful(page: Page, width: Measured, p: State) {
    && 1 <= p.accepted <= MAX_HEIGHT && p.reading.width == Width(width)
    && p.reading.natural == Natural(page, p.reading.viewport)
  }

  lemma NextReads(page: Page, width: Measured, p: State)
    requires Faithful(page, width, p)
    ensures Next(page, width, p) ==
            Stabilize(Some(p), Reading(p.reading.width, p.accepted, Natural(page, p.accepted)))
    ensures Faithful(page, width, Next(page, width, p)) && Next(page, width, p).reading.viewport == p.accepted
  {
    hide Round, Ceiling;
    HeightIsRead(p.accepted);
  }

  lemma {:induction false} LoopIsFaithful(page: Page, width: Measured, first: Measured, n: nat)
    ensures Faithful(page, width, Loop(page, width, first, n))
    ensures n > 0 ==> Loop(page, width, first, n).reading.viewport == Loop(page, width, first, n - 1).accepted
  {
    hide Next;
    if n > 0 {
      LoopIsFaithful(page, width, first, n - 1);
      NextReads(page, width, Loop(page, width, first, n - 1));
    }
  }

  // ---- when the loop settles ----

  /** The viewport is the accepted height: the page has what it asked for. */
  predicate AtRest(p: State) { p.accepted == p.reading.viewport }

  lemma RestIsKept(page: Page, width: Measured, p: State)
    requires Faithful(page, width, p) && AtRest(p)
    ensures Next(page, width, p) == p
  {
    hide Next, Faithful;
    NextReads(page, width, p);
    FaithfulReading(page, width, p);
  }

  lemma FaithfulReading(page: Page, width: Measured, p: State)
    requires Faithful(page, width, p)
    ensures p.reading == Reading(p.reading.width, p.reading.viewport, Natural(page, p.reading.viewport))
  {
  }

  lemma {:induction false} RestStays(page: Page, width: Measured, first: Measured, m: nat, n: nat)
    requires m <= n && AtRest(Loop(page, width, first, m))
    ensures Loop(page, width, first, n) == Loop(page, width, first, m)
    decreases n
  {
    hide Next, Faithful;
    if m < n {
      RestStays(page, width, first, m, n - 1);
      LoopIsFaithful(page, width, first, n - 1);
      RestIsKept(page, width, Loop(page, width, first, n - 1));
    }
  }

  ghost predicate ConstantFrom(page: Page, width: Measured, first: Measured, m: nat) {
    forall n :: n >= m ==> Loop(page, width, first, n).accepted == Loop(page, width, first, m).accepted
  }

  /** For every page: the accepted height is eventually constant exactly if some round comes to rest. */
  lemma SettlesExactly(page: Page, width: Measured, first: Measured)
    ensures (exists m: nat :: ConstantFrom(page, width, first, m)) <==>
            (exists m: nat :: AtRest(Loop(page, width, first, m)))
  {
    hide Loop;
    if m: nat :| ConstantFrom(page, width, first, m) {
      LoopIsFaithful(page, width, first, m + 1);
      assert AtRest(Loop(page, width, first, m + 1));
    }
    if m: nat :| AtRest(Loop(page, width, first, m)) {
      forall n | n >= m ensures Loop(page, width, first, n).accepted == Loop(page, width, first, m).accepted {
        RestStays(page, width, first, m, n);
      }
      assert ConstantFrom(page, width, first, m);
    }
  }

  // ---- gentle pages ----

  /** The next viewport differs by at most one pixel from the present one. */
  predicate Still(p: State) { Abs(p.accepted - p.reading.viewport) <= 1 }

  lemma LoopStep(page: Page, width: Measured, p: State)
    requires Gentle(page) && Faithful(page, width, p) && Ok(p)
    ensures var q := Next(page, width, p);
            && Ok(q) && (Still(p) || p.frozen || p.steps >= 5 ==> Still(q) && q.accepted == p.accepted)
            && (!Still(p) && !p.frozen ==> Still(q) || (!q.frozen && q.steps == p.steps + 1))
  {
    hide Natural, Next;
    NextReads(page, width, p);
    assert Still(p) ==> Abs(Natural(page, p.accepted) - Natural(page, p.reading.viewport)) <= 1;
  }

  lemma {:induction false} LoopInvariant(page: Page, width: Measured, first: Measured, n: nat)
    requires Gentle(page)
    ensures var p := Loop(page, width, first, n); Ok(p) && (Still(p) || (!p.frozen && p.steps == n))
  {
    hide Next, Gentle, Faithful;
    if n > 0 {
      LoopInvariant(page, width, first, n - 1);
      LoopIsFaithful(page, width, first, n - 1);
      LoopStep(page, width, Loop(page, width, first, n - 1));
    }
  }

  /** With a gentle page the loop settles: at most six heights are accepted, then always the same. */
  lemma {:induction false} LoopConverges(page: Page, width: Measured, first: Measured, n: nat)
    requires Gentle(page) && n >= 5
    ensures Loop(page, width, first, n).accepted == Loop(page, width, first, 5).accepted
    decreases n
  {
    hide Next, Gentle, Faithful;
    if n > 5 {
      LoopConverges(page, width, first, n - 1);
      LoopInvariant(page, width, first, n - 1);
      LoopIsFaithful(page, width, first, n - 1);
      LoopStep(page, width, Loop(page, width, first, n - 1));
    }
  }

  // ---- a page that grows with its viewport ----

  /** A page that is always `k` pixels higher than its viewport, at least two. */
  ghost predicate AlwaysHigher(page: Page, k: int) {
    k >= 2 && forall v :: page(v) == Finite((v + k) as real)
  }

  /** The loop accepts its height once and then stops following it. */
  lemma {:induction false} RunawayStops(page: Page, width: Measured, first: Measured, k: int, n: nat)
    requires AlwaysHigher(page, k) && Height(first) + 2 * k <= 8192
    ensures Loop(page, width, first, n).accepted == Height(first) + k
    ensures n > 0 ==> Loop(page, width, first, n).frozen
  {
    hide Next, Height;
    var h := Height(first);
    HigherNatural(page, k, h);
    HigherNatural(page, k, h + k);
    if n > 0 {
      RunawayStops(page, width, first, k, n - 1);
      LoopIsFaithful(page, width, first, n - 1);
      var p := Loop(page, width, first, n - 1);
      NextReads(page, width, p);
      if n > 1 {
        LoopIsFaithful(page, width, first, n - 2);
        RunawayStops(page, width, first, k, n - 2);
      } else {
        assert p == Reset(Reading(Width(width), h, h + k)) by { FirstRound(page, width, first); }
      }
    }
  }

  lemma FirstRound(page: Page, width: Measured, first: Measured)
    ensures Loop(page, width, first, 0) == Reset(Reading(Width(width), Height(first), Natural(page, Height(first))))
  {
  }

  lemma HigherNatural(page: Page, k: int, v: int)
    requires AlwaysHigher(page, k) && 1 <= v && v + k <= 8192
    ensures Natural(page, v) == v + k
  {
    HeightIsRead(v + k);
  }

  // ---- a page that never comes to rest ----

  const JUMPY: Page :=
    v => Finite(if v == 10 then 11.0 else if v == 11 then 20.0 else if v == 20 then 21.0 else 10.0)
  const ONE := Finite(1.0)
  const TEN := Finite(10.0)

  lemma JumpyNatural(v: int)
    ensures Natural(JUMPY, v) == if v == 10 then 11 else if v == 11 then 20 else if v == 20 then 21 else 10
  {
    HeightIsRead(11);
    HeightIsRead(20);
    HeightIsRead(21);
    HeightIsRead(10);
    assert 11 as real == 11.0 && 20 as real == 20.0 && 21 as real == 21.0 && 10 as real == 10.0;
  }

  lemma JumpyStart()
    ensures Loop(JUMPY, ONE, TEN, 0) == State(Reading(1, 10, 11), 11, false, 0)
  {
    HeightIsRead(10);
    assert 10 as real == 10.0;
    JumpyNatural(10);
    assert Round(1.0) == 1;
  }

  /** One round of the loop, from a state it is known to be in. */
  lemma JumpyNext(n: nat, p: State)
    requires Loop(JUMPY, ONE, TEN, n) == p
    ensures Loop(JUMPY, ONE, TEN, n + 1) ==
            Stabilize(Some(p), Reading(p.reading.width, p.accepted, Natural(JUMPY, p.accepted)))
  {
    hide Natural, Stabilize, Next;
    LoopIsFaithful(JUMPY, ONE, TEN, n);
    NextReads(JUMPY, ONE, p);
    assert Loop(JUMPY, ONE, TEN, n + 1) == Next(JUMPY, ONE, p);
  }

  lemma JumpyRound(n: nat)
    requires Loop(JUMPY, ONE, TEN, n) == State(Reading(1, 11, 20), 20, false, 0)
    ensures Loop(JUMPY, ONE, TEN, n + 1) == State(Reading(1, 20, 21), 21, false, 1)
    ensures Loop(JUMPY, ONE, TEN, n + 2) == State(Reading(1, 21, 10), 10, false, 0)
    ensures Loop(JUMPY, ONE, TEN, n + 3) == State(Reading(1, 10, 11), 11, false, 1)
    ensures Loop(JUMPY, ONE, TEN, n + 4) == State(Reading(1, 11, 20), 20, false, 0)
  {
    hide Loop, Natural;
    JumpyNatural(20);
    JumpyNatural(21);
    JumpyNatural(10);
    JumpyNatural(11);
    JumpyNext(n, State(Reading(1, 11, 20), 20, false, 0));
    JumpyNext(n + 1, State(Reading(1, 20, 21), 21, false, 1));
    JumpyNext(n + 2, State(Reading(1, 21, 10), 10, false, 0));
    JumpyNext(n + 3, State(Reading(1, 10, 11), 11, false, 1));
  }

  lemma {:induction false} JumpyState(k: nat)
    ensures Loop(JUMPY, ONE, TEN, 4 * k + 1) == State(Reading(1, 11, 20), 20, false, 0)
    decreases k
  {
    hide Loop, Natural;
    if k == 0 {
      JumpyStart();
      JumpyNatural(11);
      JumpyNext(0, State(Reading(1, 10, 11), 11, false, 0));
    } else {
      JumpyState(k - 1);
      JumpyRound(4 * (k - 1) + 1);
      assert 4 * (k - 1) + 1 + 4 == 4 * k + 1;
    }
  }

  /** A page that jumps makes the loop oscillate forever. */
  lemma JumpyOscillates(k: nat)
    ensures Loop(JUMPY, ONE, TEN, 4 * k + 1).accepted == 20 && Loop(JUMPY, ONE, TEN, 4 * k + 2).accepted == 21
    ensures Loop(JUMPY, ONE, TEN, 4 * k + 3).accepted == 10 && Loop(JUMPY, ONE, TEN, 4 * k + 4).accepted == 11
  {
    hide Loop;
    JumpyState(k);
    JumpyRound(4 * k + 1);
  }
}
