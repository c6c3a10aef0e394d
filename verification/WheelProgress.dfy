/** Prompt runs go on for ever: after every tick of the millisecond wheel everything can settle again. */
module WheelProgress {
  import opened Words
  import opened Arith
  import opened TimerPlan
  import opened Wheel
  import opened WheelSafety
  import opened WheelTiming
  import opened WheelPlans
  import opened WheelTrips
  import opened WheelClock
  import opened WheelPace

  // ---------------------------------------------------------------------------
  // Runs
  // ---------------------------------------------------------------------------

  lemma {:induction false} PromptAppend(m: World, a: seq<Step>, b: seq<Step>)
    requires PromptRun(m, a) && PromptRun(Run(m, a), b)
    ensures PromptRun(m, a + b)
    decreases |a|
  {
    if a == [] {
      assert a + b == b;
    } else {
      assert (a + b)[1..] == a[1..] + b && (a + b)[0] == a[0];
      PromptAppend(Apply(m, a[0]), a[1..], b);
    }
  }

  lemma PromptConcat(m: World, a: seq<Step>, b: seq<Step>)
    requires PromptRun(m, a) && PromptRun(Run(m, a), b)
    ensures PromptRun(m, a + b) && Run(m, a + b) == Run(Run(m, a), b)
  {
    RunConcat(m, a, b);
    PromptAppend(m, a, b);
  }

  lemma PromptCons(m: World, s: Step, rest: seq<Step>)
    requires Prompt(m, s) && PromptRun(Apply(m, s), rest)
    ensures PromptRun(m, [s] + rest) && Run(m, [s] + rest) == Run(Apply(m, s), rest)
  {
    RunCons(m, s, rest);
    assert ([s] + rest)[1..] == rest;
  }

  // ---------------------------------------------------------------------------
  // What the upper wheels are waiting for
  // ---------------------------------------------------------------------------

  /** Everything that has expired is handled, and every wheel waits for its driver. */
  ghost predicate Settled(m: World) {
    Running(m) && m.flight == [] && forall v: Upper :: Armed(m, v)
  }

  /** The driver of the wheel has been collected and not yet handled. */
  predicate Flying(m: World, w: Upper) {
    && w < |m.wheels| && |m.wheels[w].drivers| == m.wheels[w].ticks + 1
    && m.wheels[w].drivers[m.wheels[w].ticks] in m.flight
  }

  ghost predicate Moving(m: World, w: Upper) {
    Armed(m, w) || Flying(m, w) || (w < |m.wheels| && DriverDone(m, w))
  }

  /** All wheels but w wait for their drivers. */
  ghost predicate Loose(m: World, n: nat, w: nat) {
    && PaceInv(m, n) && Running(m) && 1 <= w <= 5
    && (forall v: Upper :: v != w ==> Armed(m, v)) && (w <= 4 ==> Moving(m, w))
  }

  /** A step that concerns neither the wheel nor the one below leaves the driver in its slot. */
  lemma ArmedStays(m: World, n: nat, step: Step, v: Upper)
    requires PlanInv(m, n) && Running(m) && Armed(m, v)
    requires step != DoTick(v) && step != DoTick(v - 1) && step != DoRun(v)
    requires Engine(step)
    ensures Armed(Apply(m, step), v)
  {
    var p := m.wheels[v].drivers[m.wheels[v].ticks];
    var s: nat :| InSlot(m, v - 1, s, p);
    OtherStep(m, step, v - 1, s, p);
    WheelStep(m, n, step, v);
    assert InSlot(Apply(m, step), v - 1, s, p);
  }

  /** A tick of the wheel below leaves the driver in its slot or collects it. */
  lemma ArmedTicks(m: World, n: nat, v: Upper)
    requires PlanInv(m, n) && Running(m) && Armed(m, v)
    ensures Armed(Tick(m, v - 1), v) || Flying(Tick(m, v - 1), v)
  {
    var p := m.wheels[v].drivers[m.wheels[v].ticks];
    var s: nat :| InSlot(m, v - 1, s, p);
    DriverTicks(m, v, s, p);
    DriverKept(m, n, v);
  }

  lemma DriverTicks(m: World, v: Upper, s: nat, p: Id)
    requires Inv(m) && Waiting(m, v - 1, s, p)
    ensures Slotted(Tick(m, v - 1), v - 1, p) || p in Tick(m, v - 1).flight
  {
    TickCountsDown(m, v - 1, s, p);
    if TicksLeft(m, v - 1, s, p) > 1 { assert InSlot(Tick(m, v - 1), v - 1, s, p); }
  }

  lemma DriverKept(m: World, n: nat, v: Upper)
    requires PlanInv(m, n)
    ensures var r := Tick(m, v - 1);
            && v < |r.wheels| && r.wheels[v].drivers == m.wheels[v].drivers && r.wheels[v].ticks == m.wheels[v].ticks
  {
    WheelStep(m, n, DoTick(v - 1), v);
  }

  // ---------------------------------------------------------------------------
  // Handling what has expired
  // ---------------------------------------------------------------------------

  lemma FireMoving(m: World, n: nat, w: Upper)
    requires PaceInv(m, n) && Running(m) && m.flight != [] && Moving(m, w)
    ensures Moving(Fire(m, 0), w)
  {
    if Armed(m, w) {
      ArmedStays(m, n, DoFire(0), w);
    } else {
      FireFlying(m, n, w);
    }
  }

  lemma FireFlying(m: World, n: nat, w: Upper)
    requires ClockInv(m, n) && m.flight != [] && (Flying(m, w) || DriverDone(m, w))
    ensures var r := Fire(m, 0); Flying(r, w) || (w < |r.wheels| && DriverDone(r, w))
  {
    var p := m.wheels[w].drivers[m.wheels[w].ticks];
    assert DriversGood(m, w);
    FireKeepsDrivers(m, n, w);
    if Flying(m, w) { FlyingFired(m, n, w, p); } else { FireRemembers(m, 0, p); }
  }

  lemma FireKeepsDrivers(m: World, n: nat, w: Upper)
    requires PlanInv(m, n) && m.flight != []
    ensures var r := Fire(m, 0);
            && w < |r.wheels| && r.wheels[w].drivers == m.wheels[w].drivers && r.wheels[w].ticks == m.wheels[w].ticks
  {
    WheelStep(m, n, DoFire(0), w);
  }

  lemma FlyingFired(m: World, n: nat, w: Upper, p: Id)
    requires PlanInv(m, n) && Drives(m, w, p) && p in m.flight
    ensures p in Fire(m, 0).flight || p in Fire(m, 0).fired
  {
    if m.flight[0] == p {
      DriverRuns(m, n, w, p);
    } else {
      FireKeepsFlight(m, 0, p);
    }
  }

  /** A driver cannot be cancelled and has one stage, so handling it runs its callback. */
  lemma DriverRuns(m: World, n: nat, w: Upper, p: Id)
    requires PlanInv(m, n) && Drives(m, w, p) && m.flight != [] && m.flight[0] == p
    ensures p in Fire(m, 0).fired
  {
    assert Fine(m, n, p) && Good(m, p);
    CountPositive(m.flight, p);
    DriverDoesNotMove(m, n, w, 0, p);
  }

  lemma FlightShrinks(m: World)
    requires m.flight != []
    ensures Fire(m, 0).flight == m.flight[1..]
  {
    assert Remove(m.flight, 0) == m.flight[1..];
  }

  /** Steps the wheels make by themselves. */
  predicate Engine(step: Step) {
    step.DoTick? || step.DoFire? || step.DoRun? || step.DoPlace? || step.DoRelease?
  }

  predicate EngineRun(steps: seq<Step>) {
    forall i :: 0 <= i < |steps| ==> Engine(steps[i])
  }

  /** The expired timers handled one after the other. */
  lemma {:induction false} FireOut(m: World, n: nat, w: nat) returns (steps: seq<Step>)
    requires Loose(m, n, w)
    ensures EngineRun(steps) && PromptRun(m, steps)
    ensures var r := Run(m, steps); Loose(r, n, w) && r.flight == [] && Clock(r) == Clock(m)
    decreases |m.flight|
  {
    steps := [];
    if m.flight != [] {
      var r := Fire(m, 0);
      assert Prompt(m, DoFire(0));
      PaceStep(m, n, DoFire(0));
      FireRunning(m, 0);
      FireShape(m, 0);
      FlightShrinks(m);
      forall v: Upper | v != w ensures Armed(r, v) { ArmedStays(m, n, DoFire(0), v); }
      if w <= 4 { FireMoving(m, n, w); }
      var more := FireOut(r, n, w);
      PromptCons(m, DoFire(0), more);
      steps := [DoFire(0)] + more;
    }
  }

  // ---------------------------------------------------------------------------
  // A wheel ticks and is run again
  // ---------------------------------------------------------------------------

  /** The other wheels wait for their drivers; the wheel above may have lost its own to the flight. */
  ghost predicate OthersReady(m: World, n: nat, w: Upper) {
    && PaceInv(m, n) && Running(m)
    && (forall v: Upper :: v != w && v != w + 1 ==> Armed(m, v)) && (w < 4 ==> Armed(m, w + 1) || Flying(m, w + 1))
  }

  lemma TickLoose(m: World, n: nat, w: Upper)
    requires Loose(m, n, w) && m.flight == [] && DriverDone(m, w)
    ensures Prompt(m, DoTick(w)) && OthersReady(Tick(m, w), n, w) && Clock(Tick(m, w)) == Clock(m)
    ensures var x := Tick(m, w).wheels[w]; |x.drivers| == x.ticks
  {
    PaceStep(m, n, DoTick(w));
    TickRunning(m, w);
    WheelStep(m, n, DoTick(w), w);
    TickClocks(m, w);
    forall v: Upper | v != w && v != w + 1 ensures Armed(Tick(m, w), v) { ArmedStays(m, n, DoTick(w), v); }
    if w < 4 { ArmedTicks(m, n, w + 1); }
  }

  /** Making, placing and releasing the driver of a wheel leaves the other wheels as they are. */
  lemma OthersWait(m: World, n: nat, w: Upper, step: Step)
    requires OthersReady(m, n, w) && Driven(m, step) && (step == DoRun(w) || step.DoPlace? || step.DoRelease?)
    ensures OthersReady(Apply(m, step), n, w) && Clock(Apply(m, step)) == Clock(m) && Prompt(m, step)
  {
    var r := Apply(m, step);
    PaceStep(m, n, step);
    OtherStepShape(m, step);
    EngineRunning(m, step);
    forall v: Upper | v != w && v != w + 1 ensures Armed(r, v) { ArmedStays(m, n, step, v); }
    if w < 4 { AboveWaits(m, n, w + 1, step); }
  }

  lemma AboveWaits(m: World, n: nat, v: Upper, step: Step)
    requires PlanInv(m, n) && Running(m) && (Armed(m, v) || Flying(m, v))
    requires step != DoRun(v) && (step.DoRun? || step.DoPlace? || step.DoRelease?)
    ensures Armed(Apply(m, step), v) || Flying(Apply(m, step), v)
  {
    WheelStep(m, n, step, v);
    if Armed(m, v) { ArmedStays(m, n, step, v); }
  }

  /** timing_wheel_run: the driver is made, placed and released. */
  function ArmSteps(w: nat, p: Id): seq<Step> {
    [DoRun(w), DoPlace(p), DoRelease(p)]
  }

  lemma PromptThree(m: World, w: Upper, p: Id)
    requires var a := Apply(m, DoRun(w));
             Prompt(m, DoRun(w)) && Prompt(a, DoPlace(p)) && Prompt(Apply(a, DoPlace(p)), DoRelease(p))
    ensures EngineRun(ArmSteps(w, p)) && PromptRun(m, ArmSteps(w, p))
    ensures Run(m, ArmSteps(w, p)) == Apply(Apply(Apply(m, DoRun(w)), DoPlace(p)), DoRelease(p))
  {
    var a := Apply(m, DoRun(w));
    var b := Apply(a, DoPlace(p));
    PromptCons(b, DoRelease(p), []);
    PromptCons(a, DoPlace(p), [DoRelease(p)] + []);
    PromptCons(m, DoRun(w), [DoPlace(p)] + ([DoRelease(p)] + []));
    assert ArmSteps(w, p) == [DoRun(w)] + ([DoPlace(p)] + ([DoRelease(p)] + []));
  }

  lemma Rearm(m: World, n: nat, w: Upper)
    requires OthersReady(m, n, w) && |m.wheels[w].drivers| == m.wheels[w].ticks
    ensures var steps := ArmSteps(w, m.nextId);
            && EngineRun(steps) && PromptRun(m, steps)
            && Loose(Run(m, steps), n, w + 1) && Clock(Run(m, steps)) == Clock(m)
  {
    OthersThroughout(m, n, w);
    DriverStays(m, n, w);
    PromptThree(m, w, m.nextId);
    ReadyLoose(Apply(Apply(Apply(m, DoRun(w)), DoPlace(m.nextId)), DoRelease(m.nextId)), n, w);
  }

  lemma OthersThroughout(m: World, n: nat, w: Upper)
    requires OthersReady(m, n, w) && |m.wheels[w].drivers| == m.wheels[w].ticks
    ensures var p := m.nextId;
            var a := Apply(m, DoRun(w));
            var b := Apply(a, DoPlace(p));
            var c := Apply(b, DoRelease(p));
            && Prompt(m, DoRun(w)) && Prompt(a, DoPlace(p)) && Prompt(b, DoRelease(p))
            && OthersReady(b, n, w) && OthersReady(c, n, w) && Clock(c) == Clock(m)
  {
    var p := m.nextId;
    OthersWait(m, n, w, DoRun(w));
    var a := Apply(m, DoRun(w));
    OthersWait(a, n, w, DoPlace(p));
    OthersWait(Apply(a, DoPlace(p)), n, w, DoRelease(p));
  }

  lemma DriverStays(m: World, n: nat, w: Upper)
    requires PlanInv(m, n) && |m.wheels[w].drivers| == m.wheels[w].ticks
    requires var b := Apply(Apply(m, DoRun(w)), DoPlace(m.nextId)); PlanInv(b, n) && Running(b)
    ensures Armed(Apply(Apply(Apply(m, DoRun(w)), DoPlace(m.nextId)), DoRelease(m.nextId)), w)
  {
    DriverPlaced(m, n, w);
    ArmedStays(Apply(Apply(m, DoRun(w)), DoPlace(m.nextId)), n, DoRelease(m.nextId), w);
  }

  lemma ReadyLoose(m: World, n: nat, w: Upper)
    requires OthersReady(m, n, w) && Armed(m, w)
    ensures Loose(m, n, w + 1)
  {
  }

  lemma DriverPlaced(m: World, n: nat, w: Upper)
    requires PlanInv(m, n) && |m.wheels[w].drivers| == m.wheels[w].ticks
    ensures Armed(Place(Arm(m, w), m.nextId), w)
  {
    var a, p := Arm(m, w), m.nextId;
    assert CanPlace(a, p);
    PlacedCountdown(a, p);
    var wheel := a.wheels[w - 1];
    assert InSlot(Place(a, p), w - 1, SlotFor(wheel.position, Interval(w), |wheel.slots|), p);
    PlaceDrivers(a, p);
    PlaceShape(a, p);
  }

  // ---------------------------------------------------------------------------
  // From one tick of the millisecond wheel to the next
  // ---------------------------------------------------------------------------

  lemma {:induction false} Cascade(m: World, n: nat, w: nat) returns (steps: seq<Step>)
    requires Loose(m, n, w)
    ensures EngineRun(steps) && PromptRun(m, steps)
    ensures var r := Run(m, steps); PaceInv(r, n) && Settled(r) && Clock(r) == Clock(m)
    decreases 5 - w
  {
    steps := FireOut(m, n, w);
    var r := Run(m, steps);
    if w <= 4 && !Armed(r, w) {
      var rest := CascadeUp(r, n, w);
      PromptConcat(m, steps, rest);
      steps := steps + rest;
    } else {
      LooseSettled(r, n, w);
    }
  }

  lemma LooseSettled(m: World, n: nat, w: nat)
    requires Loose(m, n, w) && m.flight == [] && (w <= 4 ==> Armed(m, w))
    ensures Settled(m)
  {
  }

  lemma {:induction false} CascadeUp(m: World, n: nat, w: Upper) returns (steps: seq<Step>)
    requires Loose(m, n, w) && m.flight == [] && !Armed(m, w)
    ensures EngineRun(steps) && PromptRun(m, steps)
    ensures var r := Run(m, steps); PaceInv(r, n) && Settled(r) && Clock(r) == Clock(m)
    decreases 5 - w, 0
  {
    steps := TickUp(m, n, w);
    var rest := Cascade(Run(m, steps), n, w + 1);
    PromptConcat(m, steps, rest);
    steps := steps + rest;
  }

  lemma TickUp(m: World, n: nat, w: Upper) returns (steps: seq<Step>)
    requires Loose(m, n, w) && m.flight == [] && !Armed(m, w)
    ensures EngineRun(steps) && PromptRun(m, steps)
    ensures Loose(Run(m, steps), n, w + 1) && Clock(Run(m, steps)) == Clock(m)
  {
    TickLoose(m, n, w);
    Rearm(Tick(m, w), n, w);
    var more := ArmSteps(w, Tick(m, w).nextId);
    PromptCons(m, DoTick(w), more);
    steps := [DoTick(w)] + more;
  }

  /** From every settled state a tick of the millisecond wheel leads, through prompt steps, to a settled state. */
  lemma NextBeat(m: World, n: nat) returns (steps: seq<Step>)
    requires PaceInv(m, n) && Settled(m)
    ensures EngineRun(steps) && PromptRun(m, steps)
    ensures var r := Run(m, steps); PaceInv(r, n) && Settled(r) && Clock(r) == Clock(m) + 1
  {
    var t := Tick(m, 0);
    assert Prompt(m, DoTick(0));
    PaceStep(m, n, DoTick(0));
    TickRunning(m, 0);
    TickClocks(m, 0);
    forall v: Upper | v != 1 ensures Armed(t, v) { ArmedStays(m, n, DoTick(0), v); }
    ArmedTicks(m, n, 1);
    var rest := Cascade(t, n, 1);
    PromptCons(m, DoTick(0), rest);
    steps := [DoTick(0)] + rest;
  }

  // ---------------------------------------------------------------------------
  // hierarchical_timing_wheel_run
  // ---------------------------------------------------------------------------

  /** The wheels below w are running, the others have not been run. */
  ghost predicate Starting(m: World, n: nat, w: nat) {
    && PaceInv(m, n) && Running(m) && m.flight == [] && 1 <= w <= 5
    && (forall v: Upper :: v < w ==> Armed(m, v))
    && (forall v: Upper :: v >= w ==> |m.wheels[v].drivers| == m.wheels[v].ticks)
  }

  lemma StartStep(m: World, n: nat, w: Upper, step: Step)
    requires PaceInv(m, n) && Running(m) && Driven(m, step) && (step == DoRun(w) || step.DoPlace? || step.DoRelease?)
    requires m.flight == [] && (forall v: Upper :: v < w ==> Armed(m, v))
    requires forall v: Upper :: v > w ==> |m.wheels[v].drivers| == m.wheels[v].ticks
    ensures var r := Apply(m, step);
            && PaceInv(r, n) && Running(r) && Clock(r) == Clock(m) && Prompt(m, step) && r.flight == []
            && (forall v: Upper :: v < w ==> Armed(r, v))
            && (forall v: Upper :: v > w ==> |r.wheels[v].drivers| == r.wheels[v].ticks)
  {
    var r := Apply(m, step);
    PaceStep(m, n, step);
    OtherStepShape(m, step);
    forall v: Upper | v < w ensures Armed(r, v) { ArmedStays(m, n, step, v); }
    forall v: Upper | v > w ensures |r.wheels[v].drivers| == r.wheels[v].ticks { WheelStep(m, n, step, v); }
  }

  /** One upper wheel is run: its driver is made, placed and released. */
  lemma StartWheel(m: World, n: nat, w: Upper) returns (steps: seq<Step>)
    requires Starting(m, n, w)
    ensures EngineRun(steps) && PromptRun(m, steps)
    ensures Starting(Run(m, steps), n, w + 1) && Clock(Run(m, steps)) == Clock(m)
  {
    var p := m.nextId;
    StartStep(m, n, w, DoRun(w));
    var a := Apply(m, DoRun(w));
    StartStep(a, n, w, DoPlace(p));
    var b := Apply(a, DoPlace(p));
    DriverPlaced(m, n, w);
    StartStep(b, n, w, DoRelease(p));
    ArmedStays(b, n, DoRelease(p), w);
    PromptThree(m, w, p);
    steps := ArmSteps(w, p);
  }

  lemma {:induction false} StartFrom(m: World, n: nat, w: nat) returns (steps: seq<Step>)
    requires Starting(m, n, w)
    ensures EngineRun(steps) && PromptRun(m, steps)
    ensures var r := Run(m, steps); PaceInv(r, n) && Settled(r) && Clock(r) == Clock(m)
    decreases 5 - w
  {
    steps := [];
    if w <= 4 {
      steps := StartWheel(m, n, w);
      var rest := StartFrom(Run(m, steps), n, w + 1);
      PromptConcat(m, steps, rest);
      steps := steps + rest;
    }
  }

  /** For every number k of milliseconds there is a prompt run that is settled after k of them. */
  lemma {:induction false} ReachesTime(n: nat, k: nat) returns (steps: seq<Step>)
    requires 0 < n <= TWO64 - 1000
    ensures PromptRun(Init(n), steps)
    ensures var m := Run(Init(n), steps); PaceInv(m, n) && Settled(m) && Clock(m) == k
  {
    if k == 0 {
      PaceInit(n);
      steps := StartFrom(Init(n), n, 1);
    } else {
      steps := ReachesTime(n, k - 1);
      var more := NextBeat(Run(Init(n), steps), n);
      PromptConcat(Init(n), steps, more);
      steps := steps + more;
    }
  }

  // ---------------------------------------------------------------------------
  // A timer on its way
  // ---------------------------------------------------------------------------

  ghost predicate Going(m: World, p: Id) {
    p in m.fired || UnderWay(m, p)
  }

  lemma FlightGoing(m: World, p: Id)
    requires Inv(m) && p in m.flight && p !in m.cancelled
    ensures UnderWay(m, p)
  {
    assert Good(m, p);
    CountPositive(m.flight, p);
  }

  lemma TickGoing(m: World, n: nat, w: nat, p: Id)
    requires PlanInv(m, n) && Running(m) && UnderWay(m, p) && w < |m.wheels|
    ensures UnderWay(Tick(m, w), p)
  {
    var r := Tick(m, w);
    StepPlan(m, n, DoTick(w));
    assert Good(m, p);
    if p in m.flight {
      InNoSlot(m, p, w, Upcoming(m, w));
      MaintainFrame(Advance(m, w), w, 0, p);
      FlightGoing(r, p);
    } else {
      var v: nat, s: nat :| InSlot(m, v, s, p);
      if v == w { TickNext(m, n, w, s, p); } else { OtherTick(m, w, v, s, p); }
    }
  }

  lemma FireGoing(m: World, n: nat, k: nat, p: Id)
    requires PlanInv(m, n) && Running(m) && UnderWay(m, p) && k < |m.flight|
    ensures Going(Fire(m, k), p)
  {
    assert Good(m, p);
    if m.flight[k] == p {
      HandledNext(m, n, k, p);
    } else if p in m.flight {
      StepInv(m, DoFire(k));
      FireKeepsFlight(m, k, p);
      FlightGoing(Fire(m, k), p);
    } else {
      var v: nat, s: nat :| InSlot(m, v, s, p);
      OtherFire(m, k, v, s, p);
    }
  }

  lemma FireKeepsFlight(m: World, k: nat, p: Id)
    requires k < |m.flight| && p in m.flight && m.flight[k] != p
    ensures p in Fire(m, k).flight && Fire(m, k).cancelled == m.cancelled
  {
    assert m.flight == m.flight[..k] + [m.flight[k]] + m.flight[k + 1..];
    assert p in Remove(m.flight, k);
  }

  lemma OtherGoing(m: World, n: nat, step: Step, p: Id)
    requires PlanInv(m, n) && Running(m) && UnderWay(m, p) && (step.DoRun? || step.DoPlace? || step.DoRelease?)
    ensures UnderWay(Apply(m, step), p)
  {
    var r := Apply(m, step);
    assert Good(m, p);
    if p in m.flight {
      StepInv(m, step);
      assert r.flight == m.flight && r.cancelled == m.cancelled;
      FlightGoing(r, p);
    } else {
      var v: nat, s: nat :| InSlot(m, v, s, p);
      OtherStep(m, step, v, s, p);
    }
  }

  lemma GoingStep(m: World, n: nat, step: Step, p: Id)
    requires PlanInv(m, n) && Running(m) && Going(m, p) && Engine(step)
    ensures Going(Apply(m, step), p)
  {
    if p in m.fired {
      StepRemembers(m, n, step, p);
    } else if step.DoTick? {
      if step.wheel < |m.wheels| { TickGoing(m, n, step.wheel, p); }
    } else if step.DoFire? {
      if step.index < |m.flight| { FireGoing(m, n, step.index, p); }
    } else {
      OtherGoing(m, n, step, p);
    }
  }

  lemma EngineRunning(m: World, step: Step)
    requires Inv(m) && Running(m) && Engine(step)
    ensures Running(Apply(m, step))
  {
    if step.DoTick? && step.wheel < |m.wheels| { TickRunning(m, step.wheel); }
    if step.DoFire? && step.index < |m.flight| { FireRunning(m, step.index); }
  }

  /** The same visit, perhaps ended since. */
  predicate SameStart(u: Visit, v: Visit) {
    u.step == v.step && u.position == v.position && u.start == v.start && u.begun == v.begun
  }

  predicate Extends(had: seq<Visit>, has: seq<Visit>) {
    |had| <= |has| && forall i :: 0 <= i < |had| ==> SameStart(had[i], has[i])
  }

  /** The visits of a timer are never taken back. */
  lemma VisitsGrow(m: World, n: nat, step: Step, p: Id)
    requires PlanInv(m, n)
    ensures Extends(Visits(m, p), Visits(Apply(m, step), p))
  {
    var had, has := Visits(m, p), Visits(Apply(m, step), p);
    VisitsCases(m, n, step, p);
    if Opened(m, Apply(m, step), p) {
      assert forall i :: 0 <= i < |had| ==> has[i] == has[..|had|][i];
    }
  }

  lemma {:induction false} GoingRun(m: World, n: nat, steps: seq<Step>, p: Id)
    requires PlanInv(m, n) && Running(m) && Going(m, p) && EngineRun(steps)
    ensures var r := Run(m, steps); Going(r, p) && Extends(Visits(m, p), Visits(r, p)) && Remembers(m, r, p)
    decreases |steps|
  {
    if steps != [] {
      var r := Apply(m, steps[0]);
      StepPlan(m, n, steps[0]);
      GoingStep(m, n, steps[0], p);
      EngineRunning(m, steps[0]);
      VisitsGrow(m, n, steps[0], p);
      StepRemembers(m, n, steps[0], p);
      GoingRun(r, n, steps[1..], p);
      ExtendsTrans(Visits(m, p), Visits(r, p), Visits(Run(m, steps), p));
    }
  }

  lemma ExtendsTrans(a: seq<Visit>, b: seq<Visit>, c: seq<Visit>)
    requires Extends(a, b) && Extends(b, c)
    ensures Extends(a, c)
  {
  }

  /** The last millisecond of the current visit. */
  function Deadline(n: nat, v: Visit): int
    requires n > 0 && v.step.wheel <= 4 && v.position < n
  {
    Real(n, v.step.wheel) * (v.start + Span(n, v.position, v.step.delay))
  }

  /** In a settled state a timer under way is in a slot, and its deadline has not passed. */
  lemma BeforeDeadline(m: World, n: nat, p: Id)
    requires PaceInv(m, n) && Settled(m) && UnderWay(m, p)
    ensures var v := Visits(m, p);
            && p in m.past.asked && v != [] && |v| <= |Itinerary(m.past.asked[p])|
            && Last(v).Open? && Last(v).step.wheel <= 4 && Last(v).position < n && Clock(m) <= Deadline(n, Last(v))
  {
    var w: nat, s: nat :| InSlot(m, w, s, p);
    ClockBounds(m, n, w);
    SlotDeadline(m, n, w, s, p);
    assert Fine(m, n, p);
  }

  lemma SlotDeadline(m: World, n: nat, w: nat, s: nat, p: Id)
    requires PlanInv(m, n) && n > 0 && InSlot(m, w, s, p) && w <= 4
    ensures var v := Visits(m, p);
            && v != [] && Last(v).Open? && Last(v).step.wheel == w && Last(v).position < n
            && Real(n, w) * (m.wheels[w].ticks + 1) <= Deadline(n, Last(v))
  {
    StillWaits(m, n, w, s, p);
    DeadlineAfter(n, Last(Visits(m, p)), m.wheels[w].ticks + 1);
  }

  lemma StillWaits(m: World, n: nat, w: nat, s: nat, p: Id)
    requires PlanInv(m, n) && InSlot(m, w, s, p)
    ensures var v := Visits(m, p);
            && v != [] && Last(v).Open? && Last(v).step.wheel == w && Last(v).position < n
            && m.wheels[w].ticks + 1 <= Last(v).start + Span(n, Last(v).position, Last(v).step.delay)
  {
    assert Fine(m, n, p);
    assert SlotGood(m, n, p, w, s);
  }

  lemma DeadlineAfter(n: nat, v: Visit, t: nat)
    requires v.step.wheel <= 4 && v.position < n && t <= v.start + Span(n, v.position, v.step.delay)
    ensures Real(n, v.step.wheel) * t <= Deadline(n, v)
  {
    MulUp(Real(n, v.step.wheel), t, v.start + Span(n, v.position, v.step.delay));
  }

  ghost function StagesLeft(m: World, n: nat, p: Id): nat
    requires PaceInv(m, n) && Settled(m) && UnderWay(m, p)
  {
    BeforeDeadline(m, n, p);
    |Itinerary(m.past.asked[p])| - |Visits(m, p)|
  }

  ghost function TimeLeft(m: World, n: nat, p: Id): nat
    requires PaceInv(m, n) && Settled(m) && UnderWay(m, p)
  {
    BeforeDeadline(m, n, p);
    Deadline(n, Last(Visits(m, p))) - Clock(m)
  }

  /** A millisecond later the timer is at a later stage or nearer to its deadline. */
  lemma LessLeft(m: World, r: World, n: nat, p: Id)
    requires PaceInv(m, n) && Settled(m) && UnderWay(m, p) && PaceInv(r, n) && Settled(r) && UnderWay(r, p)
    requires Clock(r) == Clock(m) + 1 && Extends(Visits(m, p), Visits(r, p)) && Remembers(m, r, p)
    ensures StagesLeft(r, n, p) < StagesLeft(m, n, p)
         || (StagesLeft(r, n, p) == StagesLeft(m, n, p) && TimeLeft(r, n, p) < TimeLeft(m, n, p))
  {
    BeforeDeadline(m, n, p);
    BeforeDeadline(r, n, p);
    if |Visits(r, p)| == |Visits(m, p)| { assert SameStart(Last(Visits(m, p)), Last(Visits(r, p))); }
  }

  /** Left alone, a timer under way reaches its callback in a prompt run. */
  lemma {:induction false} RunsOut(m: World, n: nat, p: Id) returns (steps: seq<Step>)
    requires PaceInv(m, n) && Settled(m) && UnderWay(m, p)
    ensures EngineRun(steps) && PromptRun(m, steps) && p in Run(m, steps).fired
    decreases StagesLeft(m, n, p), TimeLeft(m, n, p)
  {
    steps := NextBeat(m, n);
    var r := Run(m, steps);
    GoingRun(m, n, steps, p);
    if p !in r.fired {
      LessLeft(m, r, n, p);
      var more := RunsOut(r, n, p);
      PromptConcat(m, steps, more);
      steps := steps + more;
    }
  }
}
