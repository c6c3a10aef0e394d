/** How the wheels tick each other, over every run in which an upper wheel is ticked by its drivers alone. */
module WheelClock {
  // Running an upper wheel puts a timer, its driver, on the wheel below; when the driver's callback runs
  // the wheel ticks and is run again. Only the millisecond wheel is ticked from outside. A driver expires
  // by the same law as any timer, so two ticks of a wheel are at least that many ticks of the wheel below
  // apart, and exactly that many if the work pool keeps up.

  import opened Words
  import opened Arith
  import opened TimerPlan
  import opened Wheel
  import opened WheelSafety
  import opened WheelTiming
  import opened WheelPlans

  // ---------------------------------------------------------------------------
  // What a step does to the visits of a timer
  // ---------------------------------------------------------------------------

  /** A new visit, made now. */
  predicate Opened(m: World, r: World, p: Id) {
    && |Visits(r, p)| == |Visits(m, p)| + 1 && Visits(r, p)[..|Visits(m, p)|] == Visits(m, p)
    && var v := Last(Visits(r, p));
       v.Open? && v.step.wheel < |m.wheels| && v.start == m.wheels[v.step.wheel].ticks && v.begun == Clock(m)
  }

  /** The last visit, on wheel w, ends with this tick. */
  predicate Ended(m: World, r: World, w: nat, p: Id) {
    && Visits(m, p) != [] && Last(Visits(m, p)).Open? && Last(Visits(m, p)).step.wheel == w < |r.wheels|
    && Visits(r, p) == Closed(Visits(m, p), r.wheels[w].ticks, Clock(r)) && p in r.flight
  }

  lemma PlacedOpens(m: World, p: Id)
    requires CanPlace(m, p)
    ensures Opened(m, PlaceTimer(m, p), p)
  {
  }

  lemma FireVisits(m: World, n: nat, k: nat, p: Id)
    requires PlanInv(m, n) && k < |m.flight|
    ensures if Moves(m, k, p) then Opened(m, Fire(m, k), p) else Visits(Fire(m, k), p) == Visits(m, p)
  {
    assert Fine(m, n, p);
    if Moves(m, k, p) {
      MoveEffect(m, n, k, p);
      PlacedOpens(Moved(m, k, p), p);
    } else if m.flight[k] != p {
      FireOtherSteady(m, k, p);
    }
  }

  lemma TickVisits(m: World, n: nat, w: nat, p: Id)
    requires PlanInv(m, n) && w < |m.wheels| && !m.wheels[w].stopped
    ensures var r := Tick(m, w);
            (Visits(r, p) == Visits(m, p) && (p in r.flight ==> p in m.flight)) || Ended(m, r, w, p)
  {
    if Due(m, w, p) {
      assert Fine(m, n, p);
      assert SlotGood(m, n, p, w, Upcoming(m, w));
      DueHandled(m, w, p);
    } else {
      MaintainFrame(Advance(m, w), w, 0, p);
    }
  }

  /** Any other step leaves the visits of a timer that it does not place. */
  lemma OtherVisits(m: World, n: nat, step: Step, p: Id)
    requires PlanInv(m, n) && !step.DoTick? && !step.DoFire?
    ensures Visits(Apply(m, step), p) == Visits(m, p)
         || (step == DoPlace(p) && p in m.pending && Visits(m, p) == [] && Opened(m, Apply(m, step), p))
  {
    assert Fine(m, n, p) && Good(m, p);
    match step
    case DoCreate(d) => if p != m.nextId { CreateSteady(m, d, p); }
    case DoRun(w) => if !(0 < w < |m.wheels| && p == m.nextId) { RunSteady(m, w, p); }
    case DoPlace(q) =>
      if p != q { PlaceSteady(m, q, p); } else if p in m.pending && CanPlace(m, p) { PlacedOpens(m, p); }
    case DoRelease(q) => ReleaseSteady(m, q, p);
    case DoCancel(q) => CancelSteady(m, q, p);
    case DoStopTimer(q) => StopTimerSteady(m, q, p);
    case DoDiscard(q) => DiscardSteady(m, q, p);
    case DoStopWheel(w) => StopWheelSteady(m, w, p);
    case DoDropHead(w, s) => DropHeadSteady(m, w, s, p);
    case DoAbortHead(w, s) => AbortHeadSteady(m, w, s, p);
  }

  // ---------------------------------------------------------------------------
  // What a step does to the clocks
  // ---------------------------------------------------------------------------

  lemma TickClocks(m: World, w: nat)
    requires Inv(m) && w < |m.wheels| && !m.wheels[w].stopped
    ensures var r, x := Tick(m, w), m.wheels[w];
            && |r.wheels| == |m.wheels| && r.wheels[w].ticks == x.ticks + 1
            && r.wheels[w].beats == x.beats + [if w == 0 then 0 else m.wheels[w - 1].ticks]
            && r.wheels[w].drivers == x.drivers
            && (forall v :: 0 <= v < |m.wheels| && v != w ==> r.wheels[v] == m.wheels[v])
            && r.fired == m.fired && r.past == m.past.(log := r.past.log) && r.nextId == m.nextId
  {
    assert Good(m, m.nextId);
    AdvanceInv(m, w);
    var a := Advance(m, w);
    assert Good(a, m.nextId);
    InNoSlot(a, m.nextId, w, a.wheels[w].position);
    MaintainFrame(a, w, 0, m.nextId);
  }

  /** The drivers of every wheel, with one more for wheel w if it is an upper one. */
  predicate MoreDrivers(m: World, r: World, w: nat) {
    |r.wheels| == |m.wheels| && forall v :: 0 <= v < |m.wheels| ==>
      r.wheels[v].drivers == if 0 < v == w then m.wheels[v].drivers + [m.nextId] else m.wheels[v].drivers
  }

  predicate SameDrivers(m: World, r: World) {
    |r.wheels| == |m.wheels| && forall v :: 0 <= v < |m.wheels| ==> r.wheels[v].drivers == m.wheels[v].drivers
  }

  lemma PlaceDrivers(m: World, p: Id)
    requires CanPlace(m, p)
    ensures SameDrivers(m, PlaceTimer(m, p))
  {
  }

  lemma FireDrivers(m: World, k: nat)
    requires k < |m.flight|
    ensures SameDrivers(m, Fire(m, k))
  {
    var p := m.flight[k];
    if p in m.heap && !m.heap[p].removed && HasNextStage(m.heap[p]) {
      var moved := Moved(m, k, p);
      if CanPlace(moved, p) { PlaceDrivers(moved, p); }
    }
  }

  lemma OtherDrivers(m: World, step: Step)
    requires Wf(m) && !step.DoTick?
    ensures if step.DoRun? then MoreDrivers(m, Apply(m, step), step.wheel) else SameDrivers(m, Apply(m, step))
  {
    match step
    case DoPlace(p) => if p in m.pending && CanPlace(m, p) { PlaceDrivers(m, p); }
    case DoFire(k) => if k < |m.flight| { FireDrivers(m, k); }
    case _ =>
  }

  predicate Remembers(m: World, r: World, p: Id) {
    && (p in m.fired ==> p in r.fired) && m.nextId <= r.nextId
    && (p in m.past.asked ==> p in r.past.asked && r.past.asked[p] == m.past.asked[p])
  }

  lemma FireRemembers(m: World, k: nat, p: Id)
    requires k < |m.flight|
    ensures Remembers(m, Fire(m, k), p)
  {
    var q := m.flight[k];
    var out := m.(flight := Remove(m.flight, k));
    if q !in m.heap || m.heap[q].removed {
      UnrefStage(out, q, p);
    } else if HasNextStage(m.heap[q]) {
      var moved := out.(heap := m.heap[q := m.heap[q].(current := Following(m.heap[q]))]);
      if CanPlace(moved, q) { UnrefStage(PlaceTimer(moved, q), q, p); }
    } else {
      UnrefStage(out.(heap := m.heap[q := m.heap[q].(current := Following(m.heap[q]))], fired := m.fired + [q]), q, p);
    }
  }

  lemma OwnersRemember(m: World, step: Step, p: Id)
    requires !step.DoTick? && !step.DoFire? && (p in m.past.asked ==> p < m.nextId)
    ensures Remembers(m, Apply(m, step), p)
  {
  }

  /** Histories only grow. */
  lemma StepRemembers(m: World, n: nat, step: Step, p: Id)
    requires PlanInv(m, n)
    ensures Remembers(m, Apply(m, step), p)
  {
    assert Fine(m, n, p);
    if step.DoTick? {
      if step.wheel < |m.wheels| && !m.wheels[step.wheel].stopped { TickClocks(m, step.wheel); }
    } else if step.DoFire? {
      if step.index < |m.flight| { FireRemembers(m, step.index, p); }
    } else {
      OwnersRemember(m, step, p);
    }
  }

  // ---------------------------------------------------------------------------
  // Drivers
  // ---------------------------------------------------------------------------

  /** Ticks of the wheel below between two ticks of an upper wheel, by the firing law. */
  function Every(n: nat, w: Upper): nat
    requires n > 0
  {
    FireTick(n, Interval(w))
  }

  /** One revolution less than the interval asked for, if that is longer than a revolution. */
  lemma EveryIs(n: nat, w: Upper)
    requires n > 0
    ensures Every(n, w) == (if Interval(w) <= n then Interval(w) else Interval(w) - n) && Every(n, w) > 0
  {
    DivModUnique(Interval(w) - 1, n, (Interval(w) - 1) / n, (Interval(w) - 1) % n);
    FiringLaw(n, Interval(w));
  }

  predicate Drives(m: World, w: Upper, p: Id) {
    p in m.past.asked && m.past.asked[p] == Drive(w)
  }

  /** A driver makes one visit, on the wheel below, which takes as long as the law says. */
  lemma DriverVisit(m: World, n: nat, w: Upper, p: Id)
    requires PlanInv(m, n) && 0 < n <= TWO64 - 1000 && Drives(m, w, p)
    ensures var v := Visits(m, p);
            && |v| <= 1 && (p in m.fired ==> v != [] && v[0].Taken?)
            && (v != [] ==> v[0].step == PlanStep(Interval(w), w - 1))
            && (v != [] && v[0].Taken? ==> v[0].end == v[0].start + Every(n, w))
  {
    assert Fine(m, n, p);
    var v := Visits(m, p);
    assert Stages(PlanFor(Drive(w)), 1) == [];
    assert Itinerary(Drive(w)) == [PlanStep(Interval(w), w - 1)];
    if v != [] {
      assert Route(v)[0] == v[0].step;
      SpanIsFireTick(n, v[0].position, Interval(w));
    }
  }

  /** The visit of a driver through one step. */
  lemma DriverStep(m: World, n: nat, step: Step, w: Upper, p: Id)
    requires PlanInv(m, n) && 0 < n <= TWO64 - 1000 && Drives(m, w, p) && Drives(Apply(m, step), w, p)
    ensures var r := Apply(m, step);
            || Visits(r, p) == Visits(m, p)
            || (step == DoPlace(p) && Visits(m, p) == [] && Opened(m, r, p))
            || (step == DoTick(w - 1) && !m.wheels[w - 1].stopped && Ended(m, r, w - 1, p))
  {
    DriverVisit(m, n, w, p);
    StepPlan(m, n, step);
    DriverVisit(Apply(m, step), n, w, p);
    if step.DoTick? {
      if step.wheel < |m.wheels| && !m.wheels[step.wheel].stopped { TickVisits(m, n, step.wheel, p); }
    } else if step.DoFire? {
      if step.index < |m.flight| {
        FireVisits(m, n, step.index, p);
        DriverDoesNotMove(m, n, w, step.index, p);
      }
    } else {
      OtherVisits(m, n, step, p);
    }
  }

  lemma DriverDoesNotMove(m: World, n: nat, w: Upper, k: nat, p: Id)
    requires PlanInv(m, n) && Drives(m, w, p)
    ensures !Moves(m, k, p)
  {
    assert Fine(m, n, p);
  }

  // ---------------------------------------------------------------------------
  // Runs driven from below
  // ---------------------------------------------------------------------------

  /** The callback of the wheel's last driver has run and the wheel has not ticked for it yet. */
  predicate DriverDone(m: World, w: nat)
    requires w < |m.wheels|
  {
    var x := m.wheels[w];
    |x.drivers| == x.ticks + 1 && x.drivers[x.ticks] in m.fired
  }

  /** An upper wheel ticks as the callback of a driver, and is run once before its first tick and after each. */
  predicate Driven(m: World, step: Step) {
    match step
    case DoTick(w) => 0 < w < |m.wheels| && !m.wheels[w].stopped ==> DriverDone(m, w)
    case DoRun(w) => 0 < w < |m.wheels| ==> |m.wheels[w].drivers| == m.wheels[w].ticks
    case _ => true
  }

  predicate DrivenRun(m: World, steps: seq<Step>)
    decreases |steps|
  {
    steps == [] || (Driven(m, steps[0]) && DrivenRun(Apply(m, steps[0]), steps[1..]))
  }

  /** Every visit began, and ended, at a tick that has been. */
  predicate Stamped(m: World, p: Id) {
    forall i :: 0 <= i < |Visits(m, p)| ==> StampGood(m, Visits(m, p)[i])
  }

  predicate StampGood(m: World, v: Visit) {
    && v.step.wheel < |m.wheels| && v.start <= m.wheels[v.step.wheel].ticks
    && (v.Taken? ==> v.end <= m.wheels[v.step.wheel].ticks)
  }

  /** Tick i of wheel w came after its driver i had expired and before driver i + 1 was placed. */
  predicate BeatGood(m: World, w: Upper, i: nat) {
    && w < |m.wheels| && i < |m.wheels[w].beats| && i < |m.wheels[w].drivers|
    && var x := m.wheels[w];
       var v := Visits(m, x.drivers[i]);
       && v != [] && v[0].Taken? && v[0].end <= x.beats[i] <= m.wheels[w - 1].ticks
       && (i + 1 < |x.drivers| ==> StartsFrom(m, x.drivers[i + 1], x.beats[i]))
  }

  /** The first visit of the timer, if it has been placed, began after t ticks or later. */
  predicate StartsFrom(m: World, p: Id, t: nat) {
    Visits(m, p) != [] ==> t <= Visits(m, p)[0].start
  }

  predicate DriversGood(m: World, w: Upper) {
    && w < |m.wheels|
    && var x := m.wheels[w];
       && |x.beats| == x.ticks <= |x.drivers| <= x.ticks + 1
       && (forall i :: 0 <= i < |x.drivers| ==> Drives(m, w, x.drivers[i]))
       && (forall i :: 0 <= i < x.ticks ==> BeatGood(m, w, i))
  }

  ghost predicate ClockInv(m: World, n: nat) {
    && 0 < n <= TWO64 - 1000 && PlanInv(m, n)
    && (forall p: Id :: Stamped(m, p)) && (forall w: Upper :: DriversGood(m, w))
  }

  predicate Later(m: World, r: World) {
    |r.wheels| == |m.wheels| && forall w :: 0 <= w < |m.wheels| ==> m.wheels[w].ticks <= r.wheels[w].ticks
  }

  lemma StepLater(m: World, step: Step)
    requires Inv(m)
    ensures Later(m, Apply(m, step))
  {
    if step.DoTick? {
      if step.wheel < |m.wheels| && !m.wheels[step.wheel].stopped { TickClocks(m, step.wheel); }
    } else {
      OtherStepShape(m, step);
    }
  }

  lemma VisitsCases(m: World, n: nat, step: Step, p: Id)
    requires PlanInv(m, n)
    ensures var r := Apply(m, step);
            || Visits(r, p) == Visits(m, p) || Opened(m, r, p)
            || (step.DoTick? && step.wheel < |m.wheels| && !m.wheels[step.wheel].stopped && Ended(m, r, step.wheel, p))
  {
    if step.DoTick? {
      if step.wheel < |m.wheels| && !m.wheels[step.wheel].stopped { TickVisits(m, n, step.wheel, p); }
    } else if step.DoFire? {
      if step.index < |m.flight| { FireVisits(m, n, step.index, p); }
    } else {
      OtherVisits(m, n, step, p);
    }
  }

  lemma StampLater(m: World, r: World, v: Visit)
    requires Later(m, r) && StampGood(m, v)
    ensures StampGood(r, v)
  {
  }

  lemma StampEnds(m: World, r: World, w: nat, p: Id, i: nat)
    requires Later(m, r) && Stamped(m, p) && Ended(m, r, w, p) && i < |Visits(r, p)|
    ensures StampGood(r, Visits(r, p)[i])
  {
    ClosedRoute(Visits(m, p), r.wheels[w].ticks, Clock(r));
    assert i < |Visits(m, p)| && StampGood(m, Visits(m, p)[i]);
    StampLater(m, r, Visits(m, p)[i]);
  }

  lemma StampOpens(m: World, r: World, p: Id, i: nat)
    requires Later(m, r) && Stamped(m, p) && Opened(m, r, p) && i < |Visits(r, p)|
    ensures StampGood(r, Visits(r, p)[i])
  {
    if i < |Visits(m, p)| {
      assert Visits(r, p)[i] == Visits(r, p)[..|Visits(m, p)|][i];
      StampLater(m, r, Visits(m, p)[i]);
    }
  }

  lemma StampedStep(m: World, n: nat, step: Step, p: Id)
    requires PlanInv(m, n) && Stamped(m, p)
    ensures Stamped(Apply(m, step), p)
  {
    var r := Apply(m, step);
    StepLater(m, step);
    VisitsCases(m, n, step, p);
    forall i | 0 <= i < |Visits(r, p)| ensures StampGood(r, Visits(r, p)[i]) {
      if Visits(r, p) == Visits(m, p) {
        StampLater(m, r, Visits(m, p)[i]);
      } else if Opened(m, r, p) {
        StampOpens(m, r, p, i);
      } else {
        StampEnds(m, r, step.wheel, p, i);
      }
    }
  }

  /** Ticks, beats and drivers of an upper wheel through one step. */
  lemma WheelStep(m: World, n: nat, step: Step, w: Upper)
    requires PlanInv(m, n)
    ensures var x, r := m.wheels[w], Apply(m, step);
            && w < |r.wheels|
            && if step == DoTick(w) && !x.stopped then
                 var y := r.wheels[w];
                 y.ticks == x.ticks + 1 && y.beats == x.beats + [m.wheels[w - 1].ticks] && y.drivers == x.drivers
                 && r.wheels[w - 1] == m.wheels[w - 1]
               else
                 r.wheels[w].ticks == x.ticks && r.wheels[w].beats == x.beats
                 && r.wheels[w].drivers == x.drivers + if step == DoRun(w) then [m.nextId] else []
  {
    if step.DoTick? {
      if step.wheel < |m.wheels| && !m.wheels[step.wheel].stopped { TickClocks(m, step.wheel); }
    } else {
      OtherStepShape(m, step);
      OtherDrivers(m, step);
    }
  }

  /** The drivers after a step still drive the wheel, and a new one has not been placed. */
  lemma DriversStep(m: World, n: nat, step: Step, w: Upper, j: nat)
    requires PlanInv(m, n) && DriversGood(m, w) && w < |Apply(m, step).wheels| && j < |Apply(m, step).wheels[w].drivers|
    ensures var r := Apply(m, step);
            && Drives(r, w, r.wheels[w].drivers[j])
            && (j >= |m.wheels[w].drivers| ==> Visits(r, r.wheels[w].drivers[j]) == [])
  {
    WheelStep(m, n, step, w);
    if j < |m.wheels[w].drivers| { StepRemembers(m, n, step, m.wheels[w].drivers[j]); }
  }

  /** A beat stays as it was, and the driver after it is placed later. */
  lemma BeatStep(m: World, n: nat, step: Step, w: Upper, i: nat)
    requires ClockInv(m, n) && i < m.wheels[w].ticks
    requires var r := Apply(m, step);
             w < |r.wheels| && m.wheels[w].beats <= r.wheels[w].beats && m.wheels[w].drivers <= r.wheels[w].drivers
    ensures BeatGood(Apply(m, step), w, i)
  {
    var r := Apply(m, step);
    assert DriversGood(m, w) && BeatGood(m, w, i);
    StepLater(m, step);
    EndedDriver(m, n, step, w, i);
    if i + 1 < |m.wheels[w].drivers| { SameNextDriver(m, n, step, w, i); }
    NewDrivers(m, n, step, w);
    BeatFrom(m, r, w, i);
  }

  lemma EndedDriver(m: World, n: nat, step: Step, w: Upper, i: nat)
    requires ClockInv(m, n) && BeatGood(m, w, i)
    ensures Visits(Apply(m, step), m.wheels[w].drivers[i]) == Visits(m, m.wheels[w].drivers[i])
  {
    assert DriversGood(m, w);
    StepRemembers(m, n, step, m.wheels[w].drivers[i]);
    TakenStays(m, n, step, w, m.wheels[w].drivers[i]);
  }

  lemma NewDrivers(m: World, n: nat, step: Step, w: Upper)
    requires PlanInv(m, n) && DriversGood(m, w) && w < |Apply(m, step).wheels|
    ensures var r := Apply(m, step);
            forall j :: |m.wheels[w].drivers| <= j < |r.wheels[w].drivers| ==> Visits(r, r.wheels[w].drivers[j]) == []
  {
    var r := Apply(m, step);
    forall j | |m.wheels[w].drivers| <= j < |r.wheels[w].drivers| ensures Visits(r, r.wheels[w].drivers[j]) == [] {
      DriversStep(m, n, step, w, j);
    }
  }

  /** The beat from what is known of the two drivers. */
  lemma BeatFrom(m: World, r: World, w: Upper, i: nat)
    requires BeatGood(m, w, i) && Later(m, r) && w < |r.wheels|
    requires m.wheels[w].beats <= r.wheels[w].beats && m.wheels[w].drivers <= r.wheels[w].drivers
    requires Visits(r, m.wheels[w].drivers[i]) == Visits(m, m.wheels[w].drivers[i])
    requires i + 1 < |m.wheels[w].drivers| ==> StartsFrom(r, m.wheels[w].drivers[i + 1], m.wheels[w].beats[i])
    requires forall j :: |m.wheels[w].drivers| <= j < |r.wheels[w].drivers| ==> Visits(r, r.wheels[w].drivers[j]) == []
    ensures BeatGood(r, w, i)
  {
  }

  lemma SameNextDriver(m: World, n: nat, step: Step, w: Upper, i: nat)
    requires ClockInv(m, n) && i < m.wheels[w].ticks && i + 1 < |m.wheels[w].drivers|
    ensures i < |m.wheels[w].beats|
    ensures StartsFrom(Apply(m, step), m.wheels[w].drivers[i + 1], m.wheels[w].beats[i])
  {
    var p := m.wheels[w].drivers[i + 1];
    assert DriversGood(m, w) && BeatGood(m, w, i);
    StepRemembers(m, n, step, p);
    StartLater(m, n, step, w, p, m.wheels[w].beats[i]);
  }

  lemma TakenStays(m: World, n: nat, step: Step, w: Upper, p: Id)
    requires PlanInv(m, n) && 0 < n <= TWO64 - 1000 && Drives(m, w, p) && Drives(Apply(m, step), w, p)
    requires Visits(m, p) != [] && Visits(m, p)[0].Taken?
    ensures Visits(Apply(m, step), p) == Visits(m, p)
  {
    DriverVisit(m, n, w, p);
    DriverStep(m, n, step, w, p);
  }

  lemma StartLater(m: World, n: nat, step: Step, w: Upper, p: Id, t: nat)
    requires PlanInv(m, n) && 0 < n <= TWO64 - 1000 && Drives(m, w, p) && Drives(Apply(m, step), w, p)
    requires t <= m.wheels[w - 1].ticks && StartsFrom(m, p, t)
    ensures StartsFrom(Apply(m, step), p, t)
  {
    StepPlan(m, n, step);
    DriverVisit(m, n, w, p);
    DriverVisit(Apply(m, step), n, w, p);
    DriverStep(m, n, step, w, p);
  }

  /** A tick of an upper wheel: its driver has expired by now. */
  lemma NewBeat(m: World, n: nat, w: Upper)
    requires ClockInv(m, n) && !m.wheels[w].stopped && DriverDone(m, w)
    ensures var r := Tick(m, w);
            BeatGood(r, w, m.wheels[w].ticks)
  {
    var x, p := m.wheels[w], m.wheels[w].drivers[m.wheels[w].ticks];
    assert DriversGood(m, w) && Stamped(m, p);
    WheelStep(m, n, DoTick(w), w);
    DriversStep(m, n, DoTick(w), w, x.ticks);
    DriverVisit(m, n, w, p);
    assert StampGood(m, Visits(m, p)[0]);
    TakenStays(m, n, DoTick(w), w, p);
  }

  lemma DriversGoodStep(m: World, n: nat, step: Step, w: Upper)
    requires ClockInv(m, n) && Driven(m, step)
    ensures DriversGood(Apply(m, step), w)
  {
    var x, r := m.wheels[w], Apply(m, step);
    assert DriversGood(m, w);
    WheelStep(m, n, step, w);
    forall j | 0 <= j < |r.wheels[w].drivers| ensures Drives(r, w, r.wheels[w].drivers[j]) {
      DriversStep(m, n, step, w, j);
    }
    forall i | 0 <= i < r.wheels[w].ticks ensures BeatGood(r, w, i) {
      if i < x.ticks { BeatStep(m, n, step, w, i); } else { NewBeat(m, n, w); }
    }
  }

  lemma ClockStep(m: World, n: nat, step: Step)
    requires ClockInv(m, n) && Driven(m, step)
    ensures ClockInv(Apply(m, step), n)
  {
    StepPlan(m, n, step);
    forall p: Id ensures Stamped(Apply(m, step), p) { StampedStep(m, n, step, p); }
    forall w: Upper ensures DriversGood(Apply(m, step), w) { DriversGoodStep(m, n, step, w); }
  }

  lemma {:induction false} ClockRun(m: World, n: nat, steps: seq<Step>)
    requires ClockInv(m, n) && DrivenRun(m, steps)
    ensures ClockInv(Run(m, steps), n)
    decreases |steps|
  {
    if steps != [] {
      ClockStep(m, n, steps[0]);
      ClockRun(Apply(m, steps[0]), n, steps[1..]);
    }
  }

  lemma ClockInit(n: nat)
    requires 0 < n <= TWO64 - 1000
    ensures ClockInv(Init(n), n)
  {
    ReachablePlan(n, []);
  }

  /**
   * Over every driven run, however late the work pool is: two ticks of an upper wheel are at least as many
   * ticks of the wheel below apart as the law gives for its interval.
   */
  lemma TicksApart(n: nat, steps: seq<Step>, w: Upper, i: nat)
    requires 0 < n <= TWO64 - 1000 && DrivenRun(Init(n), steps)
    requires var m := Run(Init(n), steps); w < |m.wheels| && i + 1 < m.wheels[w].ticks
    ensures var x := Run(Init(n), steps).wheels[w];
            |x.beats| == x.ticks && x.beats[i] + Every(n, w) <= x.beats[i + 1]
  {
    ClockInit(n);
    ClockRun(Init(n), n, steps);
    var m := Run(Init(n), steps);
    assert DriversGood(m, w) && BeatGood(m, w, i) && BeatGood(m, w, i + 1);
    DriverVisit(m, n, w, m.wheels[w].drivers[i + 1]);
  }
}
