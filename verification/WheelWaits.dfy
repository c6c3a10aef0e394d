/** A timer set at a given millisecond: for every moment and every delay a run in which it has run, and its wait. */
module WheelWaits {
  import opened Words
  import opened Arith
  import opened TimerPlan
  import opened Wheel
  import opened WheelSafety
  import opened WheelTiming
  import opened WheelPlans
  import opened WheelTrips
  import opened WheelClock
  import opened WheelPace
  import opened WheelDelays
  import opened WheelProgress

  /** In a settled state every wheel has made exactly the ticks whose time has come. */
  lemma {:induction false} SettledTicks(m: World, n: nat, w: nat)
    requires PaceInv(m, n) && Settled(m) && w <= 4
    ensures InMs(m, n, w) <= Clock(m) < Real(n, w) * (m.wheels[w].ticks + 1)
  {
    ClockBounds(m, n, w);
    if w > 0 {
      SettledTicks(m, n, w - 1);
      SettledBelow(m, n, w);
      NextTick(Real(n, w - 1), Every(n, w), m.wheels[w].ticks + 1, m.wheels[w - 1].ticks + 1);
    }
  }

  lemma NextTick(unit: nat, every: nat, t: nat, below: nat)
    requires below <= every * t
    ensures unit * below <= every * unit * t
  {
    MulMonotone(below, every * t, unit, unit);
    MulAssoc(unit, every, t);
  }

  lemma SettledBelow(m: World, n: nat, w: Upper)
    requires PaceInv(m, n) && Settled(m)
    ensures m.wheels[w - 1].ticks + 1 <= Every(n, w) * (m.wheels[w].ticks + 1)
  {
    assert Armed(m, w) && PhaseGood(m, n, w);
    var s: nat :| InSlot(m, w - 1, s, m.wheels[w].drivers[m.wheels[w].ticks]);
    ArmedVisit(m, n, w, s);
  }

  lemma Remainder(x: nat, u: nat, q: nat)
    requires u * q <= x < u * (q + 1)
    ensures x - u * q == x % u
  {
    NextMultiple(u, q);
    DivModUnique(x, u, q, x - u * q);
  }

  // ---------------------------------------------------------------------------
  // upTotimer in a settled state
  // ---------------------------------------------------------------------------

  lemma SettledStays(m: World, n: nat, step: Step)
    requires PaceInv(m, n) && Settled(m) && (step.DoCreate? || step.DoPlace? || step.DoRelease?)
    ensures var r := Apply(m, step);
            Prompt(m, step) && PaceInv(r, n) && Settled(r) && SameSlotting(m.wheels, r.wheels) && Clock(r) == Clock(m)
  {
    var r := Apply(m, step);
    PaceStep(m, n, step);
    OtherStepShape(m, step);
    KeepsRunning(m, step);
    forall v: Upper ensures Armed(r, v) { ArmedThrough(m, n, step, v); }
  }

  lemma KeepsRunning(m: World, step: Step)
    requires Inv(m) && Running(m) && m.flight == [] && (step.DoCreate? || step.DoPlace? || step.DoRelease?)
    ensures Running(Apply(m, step)) && Apply(m, step).flight == []
  {
    if !step.DoCreate? { EngineRunning(m, step); }
  }

  lemma ArmedThrough(m: World, n: nat, step: Step, v: Upper)
    requires PlanInv(m, n) && Running(m) && Armed(m, v) && (step.DoCreate? || step.DoPlace? || step.DoRelease?)
    ensures Armed(Apply(m, step), v)
  {
    var p := m.wheels[v].drivers[m.wheels[v].ticks];
    var s: nat :| InSlot(m, v - 1, s, p);
    OtherStep(m, step, v - 1, s, p);
    WheelStep(m, n, step, v);
    assert InSlot(Apply(m, step), v - 1, s, p);
  }

  function SetSteps(d: Duration, p: Id): seq<Step> {
    [DoCreate(d), DoPlace(p), DoRelease(p)]
  }

  /** upTotimer in a settled state: the timer is under way, and its first visit begins now. */
  lemma SetSettled(m: World, n: nat, d: Duration)
    requires PaceInv(m, n) && Settled(m)
    ensures var p := m.nextId;
            var r := Run(m, SetSteps(d, p));
            && PromptRun(m, SetSteps(d, p)) && PaceInv(r, n) && Settled(r) && UnderWay(r, p)
            && p in r.past.asked && r.past.asked[p] == After(d)
            && |Visits(r, p)| == 1 && Visits(r, p)[0].begun == Clock(m)
            && var w := Visits(r, p)[0].step.wheel; w <= 4 && Visits(r, p)[0].start == m.wheels[w].ticks
  {
    var p := m.nextId;
    SettledStays(m, n, DoCreate(d));
    var a := Create(m, d);
    SettledStays(a, n, DoPlace(p));
    var b := Place(a, p);
    PlanIsGood(After(d));
    FirstVisit(a, n, p);
    SettledStays(b, n, DoRelease(p));
    OtherGoing(b, n, DoRelease(p), p);
    OtherVisits(b, n, DoRelease(p), p);
    StepRemembers(a, n, DoPlace(p), p);
    StepRemembers(b, n, DoRelease(p), p);
    PromptSet(m, d, p);
  }

  /** A timer placed for the first time is in a slot, and its visit begins now. */
  lemma FirstVisit(m: World, n: nat, p: Id)
    requires PlanInv(m, n) && p in m.pending && p in m.heap && !m.heap[p].removed
    ensures UnderWay(Place(m, p), p) && p !in Place(m, p).pending
    ensures var v := Visits(Place(m, p), p);
            && |v| == 1 && v[0].begun == Clock(m)
            && v[0].step.wheel < |m.wheels| && v[0].start == m.wheels[v[0].step.wheel].ticks
  {
    assert Good(m, p) && Fine(m, n, p);
    assert CanPlace(m, p);
    PlacedCountdown(m, p);
    PlacedOpens(m, p);
    var step := m.heap[p].steps[m.heap[p].current];
    var wheel := m.wheels[step.wheel];
    assert InSlot(Place(m, p), step.wheel, SlotFor(wheel.position, step.delay, |wheel.slots|), p);
  }

  lemma PromptSet(m: World, d: Duration, p: Id)
    requires var a := Create(m, d);
             Prompt(m, DoCreate(d)) && Prompt(a, DoPlace(p)) && Prompt(Place(a, p), DoRelease(p))
    ensures PromptRun(m, SetSteps(d, p)) && Run(m, SetSteps(d, p)) == Release(Place(Create(m, d), p), p)
  {
    var a := Create(m, d);
    var b := Place(a, p);
    PromptCons(b, DoRelease(p), []);
    PromptCons(a, DoPlace(p), [DoRelease(p)] + []);
    PromptCons(m, DoCreate(d), [DoPlace(p)] + ([DoRelease(p)] + []));
    assert SetSteps(d, p) == [DoCreate(d)] + ([DoPlace(p)] + ([DoRelease(p)] + []));
  }

  // ---------------------------------------------------------------------------
  // The wait
  // ---------------------------------------------------------------------------

  /** The timer set with delay d at millisecond k has run, and waited the length of d less k modulo a tick. */
  ghost predicate WaitedFrom(n: nat, steps: seq<Step>, p: Id, d: Duration, k: nat)
    requires n > 0
  {
    var m := Run(Init(n), steps);
    var v := Visits(m, p);
    && p in m.fired && OfUser(m, p) && m.past.asked[p] == After(d)
    && v != [] && Last(v).Taken? && v[0].step.wheel <= 4 && v[0].begun == k
    && Waited(v) == Length(n, Fields(Rectified(d))) - k % Real(n, v[0].step.wheel)
  }

  /** A timer set with delay d at millisecond k, in a prompt run that goes on until its callback. */
  lemma SetAndWait(n: nat, k: nat, d: Duration) returns (steps: seq<Step>, p: Id)
    requires 0 < n <= TWO64 - 1000
    ensures PromptRun(Init(n), steps)
    ensures var m := Run(Init(n), steps);
            var v := Visits(m, p);
            && p in m.fired && OfUser(m, p) && m.past.asked[p] == After(d)
            && v != [] && v[0].step.wheel <= 4 && v[0].begun == k && Offset(n, v[0]) == k % Real(n, v[0].step.wheel)
  {
    var before := ReachesTime(n, k);
    var m := Run(Init(n), before);
    p := m.nextId;
    SetSettled(m, n, d);
    PromptConcat(Init(n), before, SetSteps(d, p));
    var placed := Run(m, SetSteps(d, p));
    var after := RunsOut(placed, n, p);
    GoingRun(placed, n, after, p);
    PromptConcat(Init(n), before + SetSteps(d, p), after);
    steps := before + SetSteps(d, p) + after;
    var v := Visits(placed, p)[0];
    SettledOffset(m, n, v);
    assert SameStart(v, Visits(Run(Init(n), steps), p)[0]);
  }

  /** A visit that begins in a settled state. */
  lemma SettledOffset(m: World, n: nat, v: Visit)
    requires PaceInv(m, n) && Settled(m) && v.step.wheel <= 4
    requires v.begun == Clock(m) && v.start == m.wheels[v.step.wheel].ticks
    ensures Offset(n, v) == Clock(m) % Real(n, v.step.wheel)
  {
    SettledTicks(m, n, v.step.wheel);
    Remainder(Clock(m), Real(n, v.step.wheel), v.start);
  }

  /** For every moment and every delay there is a prompt run in which it comes to this. */
  lemma SetAt(n: nat, k: nat, d: Duration) returns (steps: seq<Step>, p: Id)
    requires 0 < n <= TWO64 - 1000 && TotalMs(Rectified(d)) > 0 && Unwrapped(n, Rectified(d))
    ensures PromptRun(Init(n), steps) && WaitedFrom(n, steps, p, d, k)
  {
    steps, p := SetAndWait(n, k, d);
    WaitedIs(n, steps, p);
  }

  /** A timer of one second set one millisecond before the second wheel ticks waits one millisecond. */
  lemma SecondInAMillisecond(n: nat) returns (steps: seq<Step>, p: Id)
    requires 0 < n <= TWO64 - 1000
    ensures PromptRun(Init(n), steps)
    ensures var m := Run(Init(n), steps);
            && p in m.fired && OfUser(m, p) && m.past.asked[p] == After(Duration(0, 0, 0, 1, 0))
            && Visits(m, p) != [] && Last(Visits(m, p)).Taken? && Waited(Visits(m, p)) == 1
  {
    var d, k := Duration(0, 0, 0, 1, 0), Real(n, 1) - 1;
    steps, p := SetAt(n, k, d);
    SecondLength(n);
    VisitsInOrder(n, steps, p);
    OneSecond();
    assert Route(Visits(Run(Init(n), steps), p))[0] == PlanStep(1, 1);
    DivModUnique(k, Real(n, 1), 0, k);
  }

  lemma OneSecond()
    ensures var d := Duration(0, 0, 0, 1, 0);
            Rectified(d) == d && TotalMs(d) == 1000 && Nonzero(Fields(d)) == [PlanStep(1, 1)]
  {
    var f := Fields(Duration(0, 0, 0, 1, 0));
    assert f[4..][1..] == [] && f[3..][1..] == f[4..] && f[2..][1..] == f[3..] && f[1..][1..] == f[2..];
    assert Nonzero(f[4..]) == [] && Nonzero(f[3..]) == [PlanStep(1, 1)];
  }

  lemma SecondLength(n: nat)
    requires n > 0
    ensures Length(n, Fields(Duration(0, 0, 0, 1, 0))) == Real(n, 1)
  {
    OneSecond();
    NonzeroLength(n, Fields(Duration(0, 0, 0, 1, 0)));
    OnTimeIff(n, 1);
    assert [PlanStep(1, 1)][1..] == [];
    assert StageLength(n, PlanStep(1, 1)) == Real(n, 1);
  }
}
