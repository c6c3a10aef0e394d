/** How long timers really wait, in ticks of the millisecond wheel, when the work pool keeps up. */
module WheelPace {
  // In a prompt run a wheel ticks only when the drivers of the wheels above it are in their slots, and the
  // millisecond wheel only when in addition every expired timer has been handled. Then the clocks of the
  // wheels are in step, tick k of wheel w falls on millisecond tick k * Real(n, w), and the stages of a
  // timer follow each other without a gap.

  import opened Words
  import opened Arith
  import opened TimerPlan
  import opened Wheel
  import opened WheelSafety
  import opened WheelTiming
  import opened WheelPlans
  import opened WheelClock

  /** Ticks of the millisecond wheel in one tick of wheel w. */
  function Real(n: nat, w: nat): (u: nat)
    requires n > 0 && w <= 4
    ensures u > 0
  {
    if w == 0 then 1
    else
      EveryIs(n, w);
      MulAtLeast(Every(n, w), Real(n, w - 1));
      Every(n, w) * Real(n, w - 1)
  }

  ghost predicate Slotted(m: World, v: nat, p: Id) {
    exists s: nat :: InSlot(m, v, s, p)
  }

  /** The driver of the wheel's next tick is in its slot. */
  ghost predicate Armed(m: World, w: Upper) {
    && w < |m.wheels| && |m.wheels[w].drivers| == m.wheels[w].ticks + 1
    && Slotted(m, w - 1, m.wheels[w].drivers[m.wheels[w].ticks])
  }

  ghost predicate Prompt(m: World, step: Step) {
    && Driven(m, step)
    && (step.DoTick? && step.wheel < |m.wheels| && !m.wheels[step.wheel].stopped ==>
          (forall v: Upper :: step.wheel < v ==> Armed(m, v)) && (step.wheel == 0 ==> m.flight == []))
  }

  ghost predicate PromptRun(m: World, steps: seq<Step>)
    decreases |steps|
  {
    steps == [] || (Prompt(m, steps[0]) && PromptRun(Apply(m, steps[0]), steps[1..]))
  }

  // ---------------------------------------------------------------------------
  // The clocks in step
  // ---------------------------------------------------------------------------

  /** The visit of the driver of the wheel's next tick, if there is one. */
  function Current(m: World, w: Upper): seq<Visit>
    requires w < |m.wheels|
  {
    var x := m.wheels[w];
    if x.ticks < |x.drivers| then Visits(m, x.drivers[x.ticks]) else []
  }

  /** Where the wheel below stands between two ticks of wheel w: at the last one, between them, or at the next. */
  predicate InStep(below: nat, t: nat, every: nat, visit: seq<Visit>, now: nat, unit: nat) {
    if visit == [] then below == every * t && now == unit * below
    else if visit[0].Open? then visit[0].start == every * t && every * t <= below < every * (t + 1)
    else below == every * (t + 1) && now == unit * below
  }

  predicate PhaseGood(m: World, n: nat, w: Upper)
    requires n > 0
  {
    && w < |m.wheels|
    && (forall i :: 0 <= i < |m.wheels[w].beats| ==> m.wheels[w].beats[i] == Every(n, w) * (i + 1))
    && InStep(m.wheels[w - 1].ticks, m.wheels[w].ticks, Every(n, w), Current(m, w), Clock(m), Real(n, w - 1))
  }

  ghost predicate PaceInv(m: World, n: nat) {
    ClockInv(m, n) && forall w: Upper :: PhaseGood(m, n, w)
  }

  lemma NextMultiple(a: nat, t: nat)
    ensures a * (t + 1) == a * t + a
  {
  }

  /** The visit of the next driver through a step that is not a tick of wheel w. */
  lemma CurrentStep(m: World, n: nat, step: Step, w: Upper)
    requires ClockInv(m, n) && Driven(m, step) && !(step == DoTick(w) && !m.wheels[w].stopped)
    ensures var r := Apply(m, step);
            && w < |r.wheels| && r.wheels[w].ticks == m.wheels[w].ticks && r.wheels[w].beats == m.wheels[w].beats
            && (|| Current(r, w) == Current(m, w)
                || (step.DoPlace? && Current(m, w) == [] && Current(r, w) != [] && Current(r, w)[0].Open?
                    && Current(r, w)[0].start == m.wheels[w - 1].ticks)
                || (step == DoTick(w - 1) && !m.wheels[w - 1].stopped && Current(m, w) != [] && Current(m, w)[0].Open?
                    && Current(r, w) != [] && Current(r, w)[0].Taken?
                    && Current(r, w)[0].start == Current(m, w)[0].start))
  {
    var r, x := Apply(m, step), m.wheels[w];
    assert DriversGood(m, w);
    WheelStep(m, n, step, w);
    if x.ticks < |r.wheels[w].drivers| {
      DriversStep(m, n, step, w, x.ticks);
      if x.ticks < |x.drivers| { CurrentVisit(m, n, step, w, x.drivers[x.ticks]); }
    }
  }

  lemma CurrentVisit(m: World, n: nat, step: Step, w: Upper, p: Id)
    requires PlanInv(m, n) && 0 < n <= TWO64 - 1000 && Drives(m, w, p) && Drives(Apply(m, step), w, p)
    ensures var u, v := Visits(m, p), Visits(Apply(m, step), p);
            || u == v
            || (step == DoPlace(p) && u == [] && v != [] && v[0].Open? && v[0].start == m.wheels[w - 1].ticks)
            || (step == DoTick(w - 1) && !m.wheels[w - 1].stopped && u != [] && u[0].Open?
                && v != [] && v[0].Taken? && v[0].start == u[0].start)
  {
    StepPlan(m, n, step);
    DriverVisit(m, n, w, p);
    DriverVisit(Apply(m, step), n, w, p);
    DriverStep(m, n, step, w, p);
  }

  /** A driver in its slot: the visit is open and has not run out. */
  lemma ArmedVisit(m: World, n: nat, w: Upper, s: nat)
    requires ClockInv(m, n) && |m.wheels[w].drivers| == m.wheels[w].ticks + 1
    requires InSlot(m, w - 1, s, m.wheels[w].drivers[m.wheels[w].ticks])
    ensures var p := m.wheels[w].drivers[m.wheels[w].ticks];
            && Current(m, w) != [] && Current(m, w)[0].Open?
            && m.wheels[w - 1].ticks + TicksLeft(m, w - 1, s, p) == Current(m, w)[0].start + Every(n, w)
  {
    var p := m.wheels[w].drivers[m.wheels[w].ticks];
    assert DriversGood(m, w);
    DriverVisit(m, n, w, p);
    assert Fine(m, n, p);
    assert SlotGood(m, n, p, w - 1, s);
    SpanIsFireTick(n, Visits(m, p)[0].position, Interval(w));
  }

  /** The wheel below ticks while the driver is in its slot. */
  lemma BelowTicks(m: World, n: nat, w: Upper)
    requires ClockInv(m, n) && Driven(m, DoTick(w - 1)) && !m.wheels[w - 1].stopped && Armed(m, w)
    ensures var r := Tick(m, w - 1);
            && Current(m, w) != [] && Current(m, w)[0].Open? && w < |r.wheels| && Current(r, w) != []
            && Current(r, w)[0].start == Current(m, w)[0].start
            && r.wheels[w - 1].ticks == m.wheels[w - 1].ticks + 1
            && var next := Current(m, w)[0].start + Every(n, w);
               if Current(r, w)[0].Open? then r.wheels[w - 1].ticks < next else r.wheels[w - 1].ticks == next
  {
    var p := m.wheels[w].drivers[m.wheels[w].ticks];
    var s: nat :| InSlot(m, w - 1, s, p);
    ArmedVisit(m, n, w, s);
    SameDriver(m, n, w);
    if TicksLeft(m, w - 1, s, p) == 1 { DriverExpires(m, n, w, s); } else { DriverWaits(m, n, w, s); }
  }

  lemma SameDriver(m: World, n: nat, w: Upper)
    requires ClockInv(m, n) && Driven(m, DoTick(w - 1)) && !m.wheels[w - 1].stopped
    ensures var r := Tick(m, w - 1);
            && w < |r.wheels| && r.wheels[w - 1].ticks == m.wheels[w - 1].ticks + 1
            && (Current(m, w) != [] ==> Current(r, w) != [] && Current(r, w)[0].start == Current(m, w)[0].start)
  {
    TickClocks(m, w - 1);
    CurrentStep(m, n, DoTick(w - 1), w);
  }

  lemma DriverExpires(m: World, n: nat, w: Upper, s: nat)
    requires ClockInv(m, n) && !m.wheels[w - 1].stopped && |m.wheels[w].drivers| == m.wheels[w].ticks + 1
    requires var p := m.wheels[w].drivers[m.wheels[w].ticks];
             InSlot(m, w - 1, s, p) && TicksLeft(m, w - 1, s, p) == 1
    ensures var r := Tick(m, w - 1); w < |r.wheels| && Current(r, w) != [] && Current(r, w)[0].Taken?
  {
    var r, p := Tick(m, w - 1), m.wheels[w].drivers[m.wheels[w].ticks];
    assert DriversGood(m, w);
    TickCountsDown(m, w - 1, s, p);
    StepPlan(m, n, DoTick(w - 1));
    WheelStep(m, n, DoTick(w - 1), w);
    StepRemembers(m, n, DoTick(w - 1), p);
    DriverVisit(r, n, w, p);
    assert Fine(r, n, p);
  }

  lemma DriverWaits(m: World, n: nat, w: Upper, s: nat)
    requires ClockInv(m, n) && Driven(m, DoTick(w - 1)) && !m.wheels[w - 1].stopped
    requires |m.wheels[w].drivers| == m.wheels[w].ticks + 1
    requires var p := m.wheels[w].drivers[m.wheels[w].ticks];
             InSlot(m, w - 1, s, p) && TicksLeft(m, w - 1, s, p) > 1
    ensures var r := Tick(m, w - 1);
            && w < |r.wheels| && Current(r, w) != [] && Current(r, w)[0].Open?
            && r.wheels[w - 1].ticks < Current(r, w)[0].start + Every(n, w)
  {
    var p := m.wheels[w].drivers[m.wheels[w].ticks];
    TickCountsDown(m, w - 1, s, p);
    WheelStep(m, n, DoTick(w - 1), w);
    ClockStep(m, n, DoTick(w - 1));
    ArmedVisit(Tick(m, w - 1), n, w, s);
  }

  /** A tick of any wheel falls on a multiple of its real length. */
  lemma TickOnTime(m: World, n: nat, w: nat)
    requires PaceInv(m, n) && Prompt(m, DoTick(w)) && w < |m.wheels| && !m.wheels[w].stopped
    ensures Clock(Tick(m, w)) == Real(n, w) * (m.wheels[w].ticks + 1)
  {
    TickClocks(m, w);
    if w > 0 {
      var p := m.wheels[w].drivers[m.wheels[w].ticks];
      assert PhaseGood(m, n, w) && DriversGood(m, w);
      DriverVisit(m, n, w, p);
      MulAssoc(Real(n, w - 1), Every(n, w), m.wheels[w].ticks + 1);
    }
  }

  lemma OwnTick(m: World, n: nat, w: Upper)
    requires PaceInv(m, n) && Prompt(m, DoTick(w)) && !m.wheels[w].stopped
    ensures PhaseGood(Tick(m, w), n, w)
  {
    assert PhaseGood(m, n, w) && DriversGood(m, w);
    DriverVisit(m, n, w, m.wheels[w].drivers[m.wheels[w].ticks]);
    WheelStep(m, n, DoTick(w), w);
    TickClocks(m, w);
  }

  /** The phase after a tick below, from the facts about its clocks. */
  lemma TickedInStep(below: nat, t: nat, every: nat, was: seq<Visit>, visit: seq<Visit>, now: nat, unit: nat)
    requires was != [] && visit != [] && was[0].Open?
    requires was[0].start == visit[0].start == every * t <= below
    requires if visit[0].Open? then below < every * t + every else below == every * t + every && now == unit * below
    ensures InStep(below, t, every, visit, now, unit)
  {
    NextMultiple(every, t);
  }

  lemma TickBelow(m: World, n: nat, w: Upper)
    requires PaceInv(m, n) && Prompt(m, DoTick(w - 1)) && !m.wheels[w - 1].stopped
    ensures PhaseGood(Tick(m, w - 1), n, w)
  {
    var r := Tick(m, w - 1);
    assert PhaseGood(m, n, w) && Armed(m, w);
    BelowTicks(m, n, w);
    TickOnTime(m, n, w - 1);
    WheelStep(m, n, DoTick(w - 1), w);
    TickedInStep(r.wheels[w - 1].ticks, m.wheels[w].ticks, Every(n, w), Current(m, w), Current(r, w), Clock(r),
                 Real(n, w - 1));
  }

  lemma OtherTickPhase(m: World, n: nat, w: Upper, v: nat)
    requires PaceInv(m, n) && Prompt(m, DoTick(v)) && v < |m.wheels| && !m.wheels[v].stopped && v != w && v != w - 1
    ensures PhaseGood(Tick(m, v), n, w)
  {
    assert PhaseGood(m, n, w);
    CurrentStep(m, n, DoTick(v), w);
    TickClocks(m, v);
    if v == 0 {
      assert Armed(m, w);
      var s: nat :| InSlot(m, w - 1, s, m.wheels[w].drivers[m.wheels[w].ticks]);
      ArmedVisit(m, n, w, s);
    }
  }

  lemma OtherPhase(m: World, n: nat, step: Step, w: Upper)
    requires PaceInv(m, n) && Driven(m, step) && !step.DoTick?
    ensures PhaseGood(Apply(m, step), n, w)
  {
    assert PhaseGood(m, n, w);
    CurrentStep(m, n, step, w);
    OtherStepShape(m, step);
    EveryIs(n, w);
    NextMultiple(Every(n, w), m.wheels[w].ticks);
  }

  lemma PhaseStep(m: World, n: nat, step: Step, w: Upper)
    requires PaceInv(m, n) && Prompt(m, step)
    ensures PhaseGood(Apply(m, step), n, w)
  {
    assert PhaseGood(m, n, w);
    if !step.DoTick? {
      OtherPhase(m, n, step, w);
    } else if step.wheel < |m.wheels| && !m.wheels[step.wheel].stopped {
      if step.wheel == w {
        OwnTick(m, n, w);
      } else if step.wheel == w - 1 {
        TickBelow(m, n, w);
      } else {
        OtherTickPhase(m, n, w, step.wheel);
      }
    }
  }

  lemma PaceStep(m: World, n: nat, step: Step)
    requires PaceInv(m, n) && Prompt(m, step)
    ensures PaceInv(Apply(m, step), n)
  {
    ClockStep(m, n, step);
    forall w: Upper ensures PhaseGood(Apply(m, step), n, w) { PhaseStep(m, n, step, w); }
  }

  lemma PaceInit(n: nat)
    requires 0 < n <= TWO64 - 1000
    ensures PaceInv(Init(n), n)
  {
    ClockInit(n);
  }

  // ---------------------------------------------------------------------------
  // Milliseconds and the ticks of a wheel
  // ---------------------------------------------------------------------------

  function InMs(m: World, n: nat, w: nat): nat
    requires n > 0 && w <= 4 && w < |m.wheels|
  {
    Real(n, w) * m.wheels[w].ticks
  }

  /** What one phase says of the clocks of two neighbouring wheels. */
  lemma Neighbours(below: nat, t: nat, every: nat, visit: seq<Visit>, now: nat, unit: nat)
    requires every > 0 && unit > 0 && InStep(below, t, every, visit, now, unit)
    requires unit * below <= now <= unit * (below + 1)
    ensures every * unit * t <= unit * below && now <= every * unit * (t + 1)
  {
    MulAssoc(unit, every, t);
    MulAssoc(unit, every, t + 1);
    if visit != [] && visit[0].Open? {
      MulMonotone(every * t, below, unit, unit);
      MulMonotone(below + 1, every * (t + 1), unit, unit);
    } else if visit != [] {
      MulMonotone(every * t, every * (t + 1), unit, unit);
      NextMultiple(every, t);
    } else {
      NextMultiple(every * unit, t);
    }
  }

  /** The time of an upper wheel's last tick is not after that of the wheel below, and its next is not yet past. */
  lemma {:induction false} ClockBounds(m: World, n: nat, w: nat)
    requires PaceInv(m, n) && w <= 4
    ensures InMs(m, n, w) <= Clock(m) <= Real(n, w) * (m.wheels[w].ticks + 1)
    ensures w > 0 ==> InMs(m, n, w) <= InMs(m, n, w - 1)
  {
    if w > 0 {
      ClockBounds(m, n, w - 1);
      assert PhaseGood(m, n, w);
      EveryIs(n, w);
      Neighbours(m.wheels[w - 1].ticks, m.wheels[w].ticks, Every(n, w), Current(m, w), Clock(m), Real(n, w - 1));
    }
  }

  lemma {:induction false} LowerInStep(m: World, n: nat, w: nat, v: nat)
    requires PaceInv(m, n) && v <= w <= 4
    ensures InMs(m, n, w) <= InMs(m, n, v)
    decreases w - v
  {
    if v < w {
      ClockBounds(m, n, w);
      LowerInStep(m, n, w - 1, v);
    }
  }

  // ---------------------------------------------------------------------------
  // The visits of a timer in milliseconds
  // ---------------------------------------------------------------------------

  /** A visit begins between two ticks of its wheel, or at one of them, and ends at a tick. */
  predicate LegGood(n: nat, v: Visit)
    requires n > 0
  {
    && v.step.wheel <= 4
    && var unit := Real(n, v.step.wheel);
       unit * v.start <= v.begun <= unit * (v.start + 1) && (v.Taken? ==> v.ended == unit * v.end)
  }

  /** A later visit begins when the one before ends, and at a tick of its wheel. */
  predicate Joins(n: nat, u: Visit, v: Visit)
    requires n > 0
  {
    u.Taken? && v.step.wheel <= 4 && v.begun == u.ended == Real(n, v.step.wheel) * v.start
  }

  predicate TripGood(m: World, n: nat, p: Id)
    requires n > 0
  {
    var v := Visits(m, p);
    && (forall i :: 0 <= i < |v| ==> LegGood(n, v[i]))
    && (forall i :: 0 < i < |v| ==> Joins(n, v[i - 1], v[i]))
    && (p in m.flight ==> v != [] && Last(v).Taken? && Last(v).ended == Clock(m))
  }

  lemma {:induction false} PlanDescends(r: Request, i: nat, j: nat)
    requires i < j < |PlanFor(r)|
    ensures PlanFor(r)[j].wheel < PlanFor(r)[i].wheel <= 4
  {
  }

  /** A visit opened now by placing the timer. */
  lemma OpenedLeg(m: World, n: nat, r: World, p: Id)
    requires PaceInv(m, n) && Opened(m, r, p)
    ensures LegGood(n, Last(Visits(r, p)))
  {
    ClockBounds(m, n, Last(Visits(r, p)).step.wheel);
  }

  /** Moving on: the clock of the lower wheel is in step, so the visit begins at a tick. */
  lemma MovedLeg(m: World, n: nat, k: nat, p: Id)
    requires PaceInv(m, n) && TripGood(m, n, p) && Moves(m, k, p)
    ensures var v := Visits(Fire(m, k), p);
            |v| == |Visits(m, p)| + 1 && v[..|Visits(m, p)|] == Visits(m, p) && Visits(m, p) != []
            && LegGood(n, Last(v)) && Joins(n, Last(Visits(m, p)), Last(v))
  {
    FireVisits(m, n, k, p);
    var r, u := Fire(m, k), Last(Visits(m, p));
    OpenedLeg(m, n, r, p);
    var v := Last(Visits(r, p));
    MovedDown(m, n, k, p);
    assert Stamped(m, p) && StampGood(m, u) && LegGood(n, u);
    AllInStep(m, n, u.step.wheel, v.step.wheel, u.end);
  }

  /** At the time of a tick of wheel w all wheels below it are in step. */
  lemma AllInStep(m: World, n: nat, w: nat, x: nat, t: nat)
    requires PaceInv(m, n) && x <= w <= 4 && t <= m.wheels[w].ticks && Clock(m) == Real(n, w) * t
    ensures InMs(m, n, x) == Clock(m)
  {
    MulUp(Real(n, w), t, m.wheels[w].ticks);
    ClockBounds(m, n, w);
    LowerInStep(m, n, w, x);
    ClockBounds(m, n, x);
  }

  lemma MovedDown(m: World, n: nat, k: nat, p: Id)
    requires PlanInv(m, n) && Moves(m, k, p)
    ensures Visits(m, p) != [] && Visits(Fire(m, k), p) != []
    ensures Last(Visits(Fire(m, k), p)).step.wheel < Last(Visits(m, p)).step.wheel
  {
    assert Fine(m, n, p) && Good(m, p);
    CountPositive(m.flight, p);
    MovedRoute(m, n, k, p);
    var t := m.heap[p];
    PlanDescends(m.past.asked[p], t.current, Following(t));
  }

  lemma TickTrip(m: World, n: nat, w: nat, p: Id)
    requires PaceInv(m, n) && Prompt(m, DoTick(w)) && w < |m.wheels| && !m.wheels[w].stopped && TripGood(m, n, p)
    ensures TripGood(Tick(m, w), n, p)
  {
    var r := Tick(m, w);
    TickVisits(m, n, w, p);
    StepPlan(m, n, DoTick(w));
    assert Fine(r, n, p);
    TickClocks(m, w);
    if Ended(m, r, w, p) {
      TickOnTime(m, n, w);
      ClosedTrip(Visits(m, p), n, r.wheels[w].ticks, Clock(r));
    }
  }

  lemma ClosedTrip(visits: seq<Visit>, n: nat, t: nat, now: nat)
    requires n > 0 && visits != [] && (forall i :: 0 <= i < |visits| ==> LegGood(n, visits[i]))
    requires (forall i :: 0 < i < |visits| ==> Joins(n, visits[i - 1], visits[i]))
    requires Last(visits).step.wheel <= 4 && now == Real(n, Last(visits).step.wheel) * t
    ensures var c := Closed(visits, t, now);
            && c != [] && Last(c).Taken? && Last(c).ended == now
            && (forall i :: 0 <= i < |c| ==> LegGood(n, c[i])) && (forall i :: 0 < i < |c| ==> Joins(n, c[i - 1], c[i]))
  {
    var c := Closed(visits, t, now);
    forall i | 0 <= i < |c| ensures LegGood(n, c[i]) { assert LegGood(n, visits[i]); }
    forall i | 0 < i < |c| ensures Joins(n, c[i - 1], c[i]) { assert Joins(n, visits[i - 1], visits[i]); }
  }

  lemma GrownTrip(had: seq<Visit>, v: seq<Visit>, n: nat)
    requires n > 0 && |v| == |had| + 1 && v[..|had|] == had && LegGood(n, Last(v))
    requires (forall i :: 0 <= i < |had| ==> LegGood(n, had[i])) && (had != [] ==> Joins(n, Last(had), Last(v)))
    requires (forall i :: 0 < i < |had| ==> Joins(n, had[i - 1], had[i]))
    ensures (forall i :: 0 <= i < |v| ==> LegGood(n, v[i])) && (forall i :: 0 < i < |v| ==> Joins(n, v[i - 1], v[i]))
  {
    assert forall i :: 0 <= i < |had| ==> v[i] == v[..|had|][i];
  }

  lemma FireTrip(m: World, n: nat, k: nat, p: Id)
    requires PaceInv(m, n) && k < |m.flight| && TripGood(m, n, p)
    ensures TripGood(Fire(m, k), n, p)
  {
    var r := Fire(m, k);
    FireShape(m, k);
    FireVisits(m, n, k, p);
    if Moves(m, k, p) {
      MovedLeg(m, n, k, p);
      MoveEffect(m, n, k, p);
      GrownTrip(Visits(m, p), Visits(r, p), n);
    } else {
      FireFlight(m, k, p);
    }
  }

  lemma FireFlight(m: World, k: nat, p: Id)
    requires k < |m.flight|
    ensures p in Fire(m, k).flight ==> p in m.flight
  {
    assert p in Remove(m.flight, k) ==> p in m.flight;
  }

  lemma OtherTrip(m: World, n: nat, step: Step, p: Id)
    requires PaceInv(m, n) && !step.DoTick? && !step.DoFire? && TripGood(m, n, p)
    ensures TripGood(Apply(m, step), n, p)
  {
    var r := Apply(m, step);
    OtherStepShape(m, step);
    OtherVisits(m, n, step, p);
    assert r.flight == m.flight;
    if Visits(r, p) != Visits(m, p) {
      assert Fine(m, n, p) && Good(m, p);
      CountPositive(m.flight, p);
      OpenedLeg(m, n, r, p);
      GrownTrip(Visits(m, p), Visits(r, p), n);
    }
  }

  lemma TripStep(m: World, n: nat, step: Step, p: Id)
    requires PaceInv(m, n) && Prompt(m, step) && TripGood(m, n, p)
    ensures TripGood(Apply(m, step), n, p)
  {
    if step.DoTick? {
      if step.wheel < |m.wheels| && !m.wheels[step.wheel].stopped { TickTrip(m, n, step.wheel, p); }
    } else if step.DoFire? {
      if step.index < |m.flight| { FireTrip(m, n, step.index, p); }
    } else {
      OtherTrip(m, n, step, p);
    }
  }

  lemma {:induction false} PaceRun(m: World, n: nat, steps: seq<Step>, p: Id)
    requires PaceInv(m, n) && PromptRun(m, steps) && TripGood(m, n, p)
    ensures PaceInv(Run(m, steps), n) && TripGood(Run(m, steps), n, p)
    decreases |steps|
  {
    if steps != [] {
      PaceStep(m, n, steps[0]);
      TripStep(m, n, steps[0], p);
      PaceRun(Apply(m, steps[0]), n, steps[1..], p);
    }
  }

  lemma PacedRun(n: nat, steps: seq<Step>, p: Id)
    requires 0 < n <= TWO64 - 1000 && PromptRun(Init(n), steps)
    ensures PaceInv(Run(Init(n), steps), n) && TripGood(Run(Init(n), steps), n, p)
  {
    PaceInit(n);
    PaceRun(Init(n), n, steps, p);
  }
}
