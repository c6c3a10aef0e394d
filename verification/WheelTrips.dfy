/** What the invariants of the timing wheel mean for its users. */
module WheelTrips {
  import opened Words
  import opened Sequences
  import opened TimerPlan
  import opened Wheel
  import opened WheelSafety
  import opened WheelTiming
  import opened WheelPlans

  // ---------------------------------------------------------------------------
  // From set_timer to the callback
  // ---------------------------------------------------------------------------

  /** The nonzero fields of the rectified delay, days first; a zero delay waits once, on the millisecond wheel. */
  lemma ItineraryIs(d: Duration)
    ensures Itinerary(After(d)) == if TotalMs(Rectified(d)) > 0 then Nonzero(Fields(Rectified(d))) else [PlanStep(0, 0)]
  {
    var r := Rectified(d);
    if TotalMs(r) > 0 {
      PlanCoversDuration(r);
    } else {
      assert PlanOf(r) == [PlanStep(0, 0)];
      assert Stages(PlanOf(r), 1) == [];
    }
  }

  /**
   * In every reachable state: a timer has visited the wheels of the first nonzero fields of its delay, in
   * order; once its callback has run it has visited all of them, and the callback has run once.
   */
  lemma VisitsInOrder(n: nat, steps: seq<Step>, p: Id)
    requires n > 0 && OfUser(Run(Init(n), steps), p)
    requires TotalMs(Rectified(Run(Init(n), steps).past.asked[p].delay)) > 0
    ensures var m := Run(Init(n), steps);
            var fields := Nonzero(Fields(Rectified(m.past.asked[p].delay)));
            && Route(Visits(m, p)) <= fields
            && (p in m.fired ==> Route(Visits(m, p)) == fields && CountIn(m.fired, p) == 1)
  {
    var m := Run(Init(n), steps);
    ReachablePlan(n, steps);
    assert Fine(m, n, p) && Good(m, p);
    ItineraryIs(m.past.asked[p].delay);
  }

  /** In every reachable state: every ended visit took exactly its span, and before a callback all have ended. */
  lemma VisitsTakeTheirSpan(n: nat, steps: seq<Step>, p: Id, i: nat)
    requires n > 0 && i < |Visits(Run(Init(n), steps), p)|
    ensures var m := Run(Init(n), steps);
            var v := Visits(m, p)[i];
            && v.position < n && (v.Taken? ==> v.end == v.start + Span(n, v.position, v.step.delay))
            && (p in m.fired || i + 1 < |Visits(m, p)| ==> v.Taken?)
  {
    ReachablePlan(n, steps);
    assert Fine(Run(Init(n), steps), n, p);
  }

  /** So a visit is on time exactly when its delay fits one revolution. */
  lemma VisitOnTimeIff(n: nat, steps: seq<Step>, p: Id, i: nat)
    requires n > 0 && i < |Visits(Run(Init(n), steps), p)|
    requires var v := Visits(Run(Init(n), steps), p)[i];
             v.Taken? && 0 < v.step.delay && v.position + v.step.delay < TWO64
    ensures var v := Visits(Run(Init(n), steps), p)[i]; v.end == v.start + v.step.delay <==> v.step.delay <= n
  {
    var v := Visits(Run(Init(n), steps), p)[i];
    VisitsTakeTheirSpan(n, steps, p, i);
    SpanIsFireTick(n, v.position, v.step.delay);
    OnTimeIff(n, v.step.delay);
  }

  /** A timer set with no delay at all waits once, on the millisecond wheel, and not for no time. */
  lemma ZeroDelayWaits(n: nat, steps: seq<Step>, p: Id)
    requires 0 < n <= TWO64 && p in Run(Init(n), steps).fired && OfUser(Run(Init(n), steps), p)
    requires TotalMs(Rectified(Run(Init(n), steps).past.asked[p].delay)) == 0
    ensures var v := Visits(Run(Init(n), steps), p);
            |v| == 1 && v[0].step.wheel == 0 && v[0].Taken? && v[0].end == v[0].start + ZeroSpan(n)
  {
    var m := Run(Init(n), steps);
    ReachablePlan(n, steps);
    assert Fine(m, n, p);
    ItineraryIs(m.past.asked[p].delay);
    VisitsTakeTheirSpan(n, steps, p, 0);
    assert Route(Visits(m, p))[0] == PlanStep(0, 0);
    SpanOfZero(n, Visits(m, p)[0].position);
  }

  lemma {:induction false} NonzeroFrom(steps: seq<PlanStep>, i: nat)
    requires i < |Nonzero(steps)|
    ensures Nonzero(steps)[i].delay != 0 && Nonzero(steps)[i] in steps
  {
    if steps[0].delay == 0 {
      NonzeroFrom(steps[1..], i);
    } else if i > 0 {
      NonzeroFrom(steps[1..], i - 1);
    }
  }

  /**
   * At every stage: however the remaining ticks are mixed with other steps that leave the timer alone, it
   * is collected by exactly the tick at which the span of the stage ends.
   */
  lemma StageExpires(m: World, n: nat, w: nat, s: nat, p: Id, steps: seq<Step>)
    requires PlanInv(m, n) && Waiting(m, w, s, p)
    requires forall i :: 0 <= i < |steps| ==> Leaves(steps[i], w, s, p)
    requires Visits(m, p) != [] && Last(Visits(m, p)).position < n
    requires var v := Last(Visits(m, p));
             m.wheels[w].ticks + Ticks(steps, w) + 1 == v.start + Span(n, v.position, v.step.delay)
    ensures Waiting(Run(m, steps), w, s, p) && p !in Run(m, steps).flight
    ensures p in Apply(Run(m, steps), DoTick(w)).flight
  {
    assert Fine(m, n, p);
    assert SlotGood(m, n, p, w, s);
    CollectedExactly(m, steps, w, s, p);
  }

  // ---------------------------------------------------------------------------
  // The callback is reached
  // ---------------------------------------------------------------------------

  predicate Running(m: World) {
    forall w :: 0 <= w < |m.wheels| ==> !m.wheels[w].stopped
  }

  /** Not cancelled, and in a slot or collected and not yet handled. */
  ghost predicate UnderWay(m: World, p: Id) {
    p in m.heap && !m.heap[p].removed && (p in m.flight || exists w: nat, s: nat :: InSlot(m, w, s, p))
  }

  predicate Passive(steps: seq<Step>) {
    forall i :: 0 <= i < |steps| ==> steps[i].DoTick? || steps[i].DoFire?
  }

  lemma TickRunning(m: World, w: nat)
    requires Inv(m) && Running(m) && w < |m.wheels|
    ensures Running(Tick(m, w))
  {
    assert Good(m, m.nextId);
    AdvanceInv(m, w);
    var a := Advance(m, w);
    assert Good(a, m.nextId);
    InNoSlot(a, m.nextId, w, a.wheels[w].position);
    MaintainFrame(a, w, 0, m.nextId);
  }

  /** A tick moves a waiting timer nowhere but out of its slot. */
  lemma TickKeepsStage(m: World, w: nat, s: nat, p: Id)
    requires Inv(m) && Waiting(m, w, s, p)
    ensures p in Tick(m, w).heap
    ensures var t := Tick(m, w).heap[p];
            t.steps == m.heap[p].steps && t.current == m.heap[p].current && !t.removed
  {
    StepInv(m, DoTick(w));
    TickCountsDown(m, w, s, p);
    assert Good(Tick(m, w), p);
    CountPositive(Tick(m, w).flight, p);
    if Due(m, w, p) {
      DueHandled(m, w, p);
    } else {
      MaintainFrame(Advance(m, w), w, 0, p);
    }
  }

  /** A stage left over: the timer is put into a slot of its wheel. */
  lemma FirePlaces(m: World, n: nat, k: nat, p: Id)
    requires PlanInv(m, n) && Moves(m, k, p)
    ensures UnderWay(Fire(m, k), p)
    ensures var t, u := m.heap[p], Fire(m, k).heap[p];
            u.steps == t.steps && t.current < u.current == Following(t) < |t.steps|
  {
    assert Good(m, p);
    CountPositive(m.flight, p);
    MoveEffect(m, n, k, p);
    var moved := Moved(m, k, p);
    PlacedCountdown(moved, p);
    var step := moved.heap[p].steps[moved.heap[p].current];
    var s := SlotFor(moved.wheels[step.wheel].position, step.delay, |moved.wheels[step.wheel].slots|);
    assert InSlot(Fire(m, k), step.wheel, s, p);
  }

  lemma FireRunning(m: World, k: nat)
    requires Running(m) && k < |m.flight|
    ensures Running(Fire(m, k))
  {
  }

  /** A tick of its wheel brings a waiting timer closer or into flight. */
  lemma TickNext(m: World, n: nat, w: nat, s: nat, p: Id)
    requires PlanInv(m, n) && Running(m) && InSlot(m, w, s, p)
    ensures var r := Tick(m, w);
            PlanInv(r, n) && Running(r) && UnderWay(r, p) && (p in r.flight || InSlot(r, w, s, p))
            && r.heap[p].steps == m.heap[p].steps && r.heap[p].current == m.heap[p].current
    ensures InSlot(Tick(m, w), w, s, p) && p !in Tick(m, w).flight ==>
              TicksLeft(Tick(m, w), w, s, p) < TicksLeft(m, w, s, p)
  {
    StepPlan(m, n, DoTick(w));
    TickRunning(m, w);
    TickKeepsStage(m, w, s, p);
    TickCountsDown(m, w, s, p);
  }

  /** Left alone, a timer gets from its slot into flight by ticks of its wheel. */
  lemma {:induction false} GetsCollected(m: World, n: nat, w: nat, s: nat, p: Id) returns (steps: seq<Step>)
    requires PlanInv(m, n) && Running(m) && InSlot(m, w, s, p)
    ensures Passive(steps)
    ensures var r := Run(m, steps);
            PlanInv(r, n) && Running(r) && UnderWay(r, p) && p in r.flight
            && r.heap[p].steps == m.heap[p].steps && r.heap[p].current == m.heap[p].current
    decreases TicksLeft(m, w, s, p)
  {
    TickNext(m, n, w, s, p);
    var r := Tick(m, w);
    var more: seq<Step> := [];
    if p !in r.flight { more := GetsCollected(r, n, w, s, p); }
    steps := [DoTick(w)] + more;
    assert Run(m, steps) == Run(r, more);
  }

  /** An expired timer: handled, it has run or is under way to a later stage. */
  lemma HandledNext(m: World, n: nat, k: nat, p: Id)
    requires PlanInv(m, n) && Running(m) && UnderWay(m, p) && k < |m.flight| && m.flight[k] == p
    ensures var r := Fire(m, k);
            PlanInv(r, n) && Running(r)
            && (p in r.fired || (UnderWay(r, p) && m.heap[p].current < r.heap[p].current < |r.heap[p].steps|
                                 && r.heap[p].steps == m.heap[p].steps))
  {
    StepPlan(m, n, DoFire(k));
    FireRunning(m, k);
    if HasNextStage(m.heap[p]) { FirePlaces(m, n, k, p); }
  }

  /** Left alone, a timer that is under way reaches its callback by ticks and the handling of expired timers. */
  lemma {:induction false} ReachesCallback(m: World, n: nat, p: Id) returns (steps: seq<Step>)
    requires PlanInv(m, n) && Running(m) && UnderWay(m, p)
    ensures Passive(steps) && p in Run(m, steps).fired
    decreases |m.heap[p].steps| - m.heap[p].current
  {
    if p in m.flight {
      steps := FliesOn(m, n, p);
    } else {
      var w: nat, s: nat :| InSlot(m, w, s, p);
      var first := GetsCollected(m, n, w, s, p);
      var more := FliesOn(Run(m, first), n, p);
      RunConcat(m, first, more);
      steps := first + more;
    }
  }

  lemma {:induction false} FliesOn(m: World, n: nat, p: Id) returns (steps: seq<Step>)
    requires PlanInv(m, n) && Running(m) && UnderWay(m, p) && p in m.flight
    ensures Passive(steps) && p in Run(m, steps).fired
    decreases |m.heap[p].steps| - m.heap[p].current, 0
  {
    var k :| 0 <= k < |m.flight| && m.flight[k] == p;
    HandledNext(m, n, k, p);
    var more: seq<Step> := [];
    if p !in Fire(m, k).fired { more := ReachesCallback(Fire(m, k), n, p); }
    RunCons(m, DoFire(k), more);
    steps := [DoFire(k)] + more;
  }

  lemma RunCons(m: World, s: Step, rest: seq<Step>)
    ensures Run(m, [s] + rest) == Run(Apply(m, s), rest)
  {
    assert ([s] + rest)[1..] == rest;
  }

  lemma Uncons<T>(a: seq<T>, b: seq<T>)
    requires a != []
    ensures a == [a[0]] + a[1..] && a + b == [a[0]] + (a[1..] + b)
  {
  }

  lemma {:induction false} RunConcat(m: World, a: seq<Step>, b: seq<Step>)
    ensures Run(m, a + b) == Run(Run(m, a), b)
    decreases |a|
  {
    if a == [] {
      assert a + b == b;
    } else {
      Uncons(a, b);
      RunCons(m, a[0], a[1..]);
      RunCons(m, a[0], a[1..] + b);
      RunConcat(Apply(m, a[0]), a[1..], b);
    }
  }

  // ---------------------------------------------------------------------------
  // Cancellation
  // ---------------------------------------------------------------------------

  /** In every reachable state the map holds exactly the timers never collected, cancelled or discarded. */
  lemma MappedIff(n: nat, steps: seq<Step>, p: Id)
    requires n > 0
    ensures var m := Run(Init(n), steps);
            p in m.table <==>
            OfUser(m, p) && p !in m.cancelled && p !in m.past.unmapped && !Collected(m, p)
  {
    ReachablePlan(n, steps);
    assert Fine(Run(Init(n), steps), n, p);
  }

  lemma MaintainOneKeeps(m: World, w: nat, k: nat)
    requires w < |m.wheels| && WfWheel(m.wheels[w]) && k < |Slot(m, w)|
    ensures MaintainOne(m, w, k).cancelled == m.cancelled
  {
  }

  lemma {:induction false} MaintainKeepsCancelled(m: World, w: nat, k: nat)
    requires w < |m.wheels| && WfWheel(m.wheels[w]) && k <= |Slot(m, w)|
    ensures MaintainFrom(m, w, k).cancelled == m.cancelled
    decreases |Slot(m, w)| - k
  {
    if k < |Slot(m, w)| {
      MaintainOneKeeps(m, w, k);
      var r := MaintainOne(m, w, k);
      if |Slot(r, w)| == |Slot(m, w)| { MaintainKeepsCancelled(r, w, k + 1); } else { MaintainKeepsCancelled(r, w, k); }
    }
  }

  lemma StepKeepsCancelled(m: World, step: Step)
    requires Wf(m)
    ensures m.cancelled <= Apply(m, step).cancelled
  {
    if step.DoTick? && step.wheel < |m.wheels| && !m.wheels[step.wheel].stopped {
      MaintainKeepsCancelled(Advance(m, step.wheel), step.wheel, 0);
    }
  }

  lemma {:induction false} StaysCancelled(m: World, steps: seq<Step>, p: Id)
    requires Inv(m) && p in m.cancelled
    ensures p in Run(m, steps).cancelled && p !in Run(m, steps).fired
    decreases |steps|
  {
    if steps == [] {
      assert Good(m, p);
    } else {
      StepInv(m, steps[0]);
      StepKeepsCancelled(m, steps[0]);
      StaysCancelled(Apply(m, steps[0]), steps[1..], p);
    }
  }

  /**
   * A call of cancel_timer keeps the callback of a timer that is under way from running, whatever happens
   * afterwards, if and only if the timer is still in the map, that is, has not yet been collected once.
   */
  lemma CancelWorksIff(m: World, n: nat, p: Id)
    requires PlanInv(m, n) && Running(m) && UnderWay(m, p)
    ensures (forall steps: seq<Step> :: p !in Run(Cancel(m, p), steps).fired) <==> p in m.table
  {
    if p in m.table {
      StepInv(m, DoCancel(p));
      forall steps: seq<Step> ensures p !in Run(Cancel(m, p), steps).fired { StaysCancelled(Cancel(m, p), steps, p); }
    } else {
      var steps := ReachesCallback(m, n, p);
      assert p in Run(Cancel(m, p), steps).fired;
    }
  }

  /** One second and one millisecond. */
  const TWO_STAGES := Duration(0, 0, 0, 1, 1)

  lemma TwoStagePlan()
    ensures PlanOf(Rectified(TWO_STAGES)) == [PlanStep(1, 1), PlanStep(1, 0)]
  {
  }

  /** A timer with a stage left, in flight: its first visit has ended, so it is not in the map. */
  lemma MovesOnUnmapped(m: World, n: nat, p: Id) returns (k: nat)
    requires PlanInv(m, n) && UnderWay(m, p) && p in m.flight && HasNextStage(m.heap[p])
    ensures k < |m.flight| && UnderWay(Fire(m, k), p) && p !in Fire(m, k).table && p !in Fire(m, k).flight
    ensures PlanInv(Fire(m, k), n)
  {
    assert Good(m, p);
    CountPositive(m.flight, p);
    k :| 0 <= k < |m.flight| && m.flight[k] == p;
    FirePlaces(m, n, k, p);
    StepPlan(m, n, DoFire(k));
    MoveEffect(m, n, k, p);
  }

  /** set_timer up to its last line, on a new wheel. */
  function Set(n: nat, d: Duration): World
    requires n > 0
  {
    Place(Create(Init(n), d), 1)
  }

  lemma SetIsUnderWay(n: nat, d: Duration)
    requires n > 0
    ensures var m := Set(n, d);
            PlanInv(m, n) && Running(m) && UnderWay(m, 1) && 1 in m.leaving && 1 !in m.flight
            && m.heap[1].steps == PlanOf(Rectified(d)) && m.heap[1].current == 0
  {
    ReachablePlan(n, []);
    PlanIsGood(After(d));
    var m := Init(n);
    StepPlan(m, n, DoCreate(d));
    var c := Create(m, d);
    assert CanPlace(c, 1);
    StepPlan(c, n, DoPlace(1));
    PlacedCountdown(c, 1);
    var step := c.heap[1].steps[0];
    var wheel := c.wheels[step.wheel];
    assert InSlot(Place(c, 1), step.wheel, SlotFor(wheel.position, step.delay, |wheel.slots|), 1);
  }

  lemma RunSet(n: nat, d: Duration, steps: seq<Step>)
    requires n > 0
    ensures Run(Init(n), [DoCreate(d), DoPlace(1)] + steps) == Run(Set(n, d), steps)
  {
    RunTwo(Init(n), DoCreate(d), DoPlace(1));
    RunConcat(Init(n), [DoCreate(d), DoPlace(1)], steps);
  }

  lemma TwoStagesCollected(n: nat) returns (ticks: seq<Step>)
    requires n > 0
    ensures var m := Run(Set(n, TWO_STAGES), ticks);
            PlanInv(m, n) && Running(m) && UnderWay(m, 1) && 1 in m.flight && HasNextStage(m.heap[1])
  {
    SetIsUnderWay(n, TWO_STAGES);
    TwoStagePlan();
    var placed := Set(n, TWO_STAGES);
    var w: nat, s: nat :| InSlot(placed, w, s, 1);
    ticks := GetsCollected(placed, n, w, s, 1);
  }

  /** A timer of two stages waiting for the second one. */
  lemma InSecondStage(n: nat) returns (steps: seq<Step>)
    requires n > 0
    ensures var m := Run(Init(n), steps);
            PlanInv(m, n) && Running(m) && UnderWay(m, 1) && 1 !in m.flight && 1 !in m.table
  {
    var ticks := TwoStagesCollected(n);
    var taken := Run(Set(n, TWO_STAGES), ticks);
    var k := MovesOnUnmapped(taken, n, 1);
    FireRunning(taken, k);
    RunSnoc(Set(n, TWO_STAGES), ticks, DoFire(k));
    RunSet(n, TWO_STAGES, ticks + [DoFire(k)]);
    steps := [DoCreate(TWO_STAGES), DoPlace(1)] + (ticks + [DoFire(k)]);
  }

  lemma RunSnoc(m: World, a: seq<Step>, s: Step)
    ensures Run(m, a + [s]) == Apply(Run(m, a), s)
  {
    RunConcat(m, a, [s]);
    RunCons(Run(m, a), s, []);
    assert [s] + [] == [s];
  }

  /**
   * A timer of two stages waits for its second stage when cancel_timer is called; the call changes nothing,
   * and the callback runs.
   */
  lemma LateCancel(n: nat) returns (before: seq<Step>, after: seq<Step>)
    requires n > 0
    ensures var m := Run(Init(n), before);
            UnderWay(m, 1) && 1 !in m.flight && Apply(m, DoCancel(1)) == m && 1 in Run(m, after).fired
  {
    before := InSecondStage(n);
    after := ReachesCallback(Run(Init(n), before), n, 1);
  }

  lemma RunTwo(m: World, a: Step, b: Step)
    ensures Run(m, [a, b]) == Apply(Apply(m, a), b)
  {
    RunCons(m, a, [b]);
    RunCons(Apply(m, a), b, []);
    assert [a] + [b] == [a, b] && [b] + [] == [b];
  }

  // ---------------------------------------------------------------------------
  // The creator's reference
  // ---------------------------------------------------------------------------

  /**
   * set_timer reads the identifier out of the record after giving up its reference. The record is gone by
   * then exactly when the timer is neither in the map nor waiting any more.
   */
  lemma ReleaseFreesIff(n: nat, steps: seq<Step>, p: Id)
    requires n > 0 && p in Run(Init(n), steps).leaving
    ensures var m := Run(Init(n), steps); p !in Release(m, p).heap <==> p !in m.table && Stage(m, p) == 0
  {
    ReachableInv(n, steps);
    assert Good(Run(Init(n), steps), p);
  }

  lemma PassiveKeepsLeaving(m: World, step: Step)
    requires Inv(m) && (step.DoTick? || step.DoFire?)
    ensures Apply(m, step).leaving == m.leaving
  {
    if step.DoTick? && step.wheel < |m.wheels| && !m.wheels[step.wheel].stopped {
      var w := step.wheel;
      assert Good(m, m.nextId);
      AdvanceInv(m, w);
      var a := Advance(m, w);
      assert Good(a, m.nextId);
      InNoSlot(a, m.nextId, w, a.wheels[w].position);
      MaintainFrame(a, w, 0, m.nextId);
    }
  }

  lemma {:induction false} PassiveRunKeepsLeaving(m: World, steps: seq<Step>)
    requires Inv(m) && Passive(steps)
    ensures Run(m, steps).leaving == m.leaving
    decreases |steps|
  {
    if steps != [] {
      StepInv(m, steps[0]);
      PassiveKeepsLeaving(m, steps[0]);
      PassiveRunKeepsLeaving(Apply(m, steps[0]), steps[1..]);
    }
  }

  /** For every delay there is a run in which the callback has run and the record is gone before set_timer reads it. */
  lemma FreedBeforeRead(n: nat, d: Duration) returns (steps: seq<Step>)
    requires n > 0
    ensures var m := Run(Init(n), steps); 1 in m.leaving && 1 in m.fired && 1 !in Release(m, 1).heap
  {
    SetIsUnderWay(n, d);
    var more := ReachesCallback(Set(n, d), n, 1);
    PassiveRunKeepsLeaving(Set(n, d), more);
    RunSet(n, d, more);
    steps := [DoCreate(d), DoPlace(1)] + more;
    ReachableInv(n, steps);
    assert Good(Run(Init(n), steps), 1);
    ReleaseFreesIff(n, steps, 1);
  }
}
