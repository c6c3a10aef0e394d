/** The abort callbacks of timers, called when a wheel is aborted and when the hierarchy is stopped. */
module WheelAborts {
  import opened Sequences
  import opened TimerPlan
  import opened Wheel
  import opened WheelSafety
  import opened WheelTiming
  import opened WheelPlans
  import opened WheelTrips

  ghost predicate Present(m: World, p: Id) {
    || p in m.pending || p in m.flight
    || exists w: nat, s: nat :: w < |m.wheels| && s < |m.wheels[w].slots| && p in m.wheels[w].slots[s]
  }

  ghost predicate Active(m: World, p: Id) {
    p in m.heap && !m.heap[p].removed && Present(m, p)
  }

  /** How often the abort callback of the timer has been called. */
  function Aborts(m: World, p: Id): nat {
    CountIn(m.past.aborted, p)
  }

  ghost predicate AbortGood(m: World, p: Id) {
    && (Active(m, p) ==> Aborts(m, p) == 0) && (p in m.table ==> Aborts(m, p) <= 1) && Aborts(m, p) <= 2
    && (p in m.fired ==> Aborts(m, p) == 0) && (p in m.past.aborted ==> p < m.nextId)
  }

  /** A step without abort callbacks that neither revives the timer nor runs it. */
  ghost predicate Calm(m: World, r: World, p: Id) {
    && r.past.aborted == m.past.aborted && (Active(r, p) ==> Active(m, p)) && (p in r.table ==> p in m.table)
    && (p in r.fired ==> p in m.fired) && m.nextId <= r.nextId
  }

  lemma CalmGood(m: World, r: World, p: Id)
    requires AbortGood(m, p) && Calm(m, r, p)
    ensures AbortGood(r, p)
  {
  }

  lemma SteadyCalm(m: World, r: World, p: Id)
    requires Steady(m, r, p) && r.past.aborted == m.past.aborted
    ensures Calm(m, r, p)
  {
  }

  lemma TickCalm(m: World, n: nat, w: nat, p: Id)
    requires PlanInv(m, n) && w < |m.wheels| && !m.wheels[w].stopped
    ensures Calm(m, Tick(m, w), p)
  {
    var a, r := Advance(m, w), Tick(m, w);
    if Due(m, w, p) {
      DueHandled(m, w, p);
      assert Present(m, p);
    } else {
      MaintainFrame(a, w, 0, p);
      assert Slot(r, w)[0..] == Slot(r, w) && Slot(a, w)[0..] == Slot(a, w);
      if Active(r, p) && p !in r.pending && p !in r.flight {
        var v: nat, s: nat :| v < |r.wheels| && s < |r.wheels[v].slots| && p in r.wheels[v].slots[s];
        assert p in m.wheels[v].slots[s];
      }
    }
  }

  /** Handling an expired timer: one that runs has not been aborted. */
  lemma FireAborts(m: World, n: nat, k: nat, p: Id)
    requires PlanInv(m, n) && AbortGood(m, p) && k < |m.flight|
    ensures AbortGood(Fire(m, k), p)
  {
    assert Fine(m, n, p);
    var r := Fire(m, k);
    assert r.past.aborted == m.past.aborted && r.table == m.table;
    if m.flight[k] != p {
      FireOtherSteady(m, k, p);
      SteadyCalm(m, r, p);
      CalmGood(m, r, p);
    } else {
      assert Present(m, p);
    }
  }

  lemma SteadyActive(m: World, r: World, p: Id)
    requires Steady(m, r, p)
    ensures Active(r, p) ==> Active(m, p)
  {
  }

  /** Stopping calls the abort callback of a timer in the map, once more if a wheel's abort had called it. */
  lemma StopTimerAborts(m: World, n: nat, q: Id, p: Id)
    requires PlanInv(m, n) && AbortGood(m, p)
    ensures AbortGood(StopTimer(m, q), p)
    ensures p == q && p in m.table ==> Aborts(StopTimer(m, q), p) == Aborts(m, p) + 1
  {
    assert Good(m, p) && Fine(m, n, p);
    if q in m.table {
      AppendCount(m.past.aborted, q, p);
      if p == q { StoppedTimer(m, p); } else { OtherStopped(m, q, p); }
    }
  }

  lemma OtherStopped(m: World, q: Id, p: Id)
    requires AbortGood(m, p) && Mapped(m, p) && p != q && q in m.table
    ensures AbortGood(StopTimer(m, q), p)
  {
    StopTimerSteady(m, q, p);
    SteadyActive(m, StopTimer(m, q), p);
    AppendCount(m.past.aborted, q, p);
  }

  lemma StoppedTimer(m: World, p: Id)
    requires p in m.table && Good(m, p)
    ensures var r := StopTimer(m, p); !Active(r, p) && p !in r.table && p !in r.fired && p < r.nextId
  {
  }

  /** A wheel's abort calls the callback of the first timer of a slot, which is then in no slot. */
  lemma AbortHeadAborts(m: World, n: nat, w: nat, s: nat, p: Id)
    requires PlanInv(m, n) && AbortGood(m, p)
    ensures AbortGood(AbortHead(m, w, s), p)
  {
    assert Fine(m, n, p);
    AbortHeadSteady(m, w, s, p);
    var r := AbortHead(m, w, s);
    SteadyActive(m, r, p);
    if HasHead(m, w, s) {
      var q := m.wheels[w].slots[s][0];
      AppendCount(m.past.aborted, q, p);
      if p == q { HeadLeaves(m, w, s); }
    }
  }

  lemma HeadLeaves(m: World, w: nat, s: nat)
    requires Inv(m) && HasHead(m, w, s)
    ensures var p := m.wheels[w].slots[s][0];
            !Present(AbortHead(m, w, s), p) && Present(m, p) && p in m.heap && p < m.nextId && p !in m.fired
  {
    var list := m.wheels[w].slots[s];
    var p, r := list[0], AbortHead(m, w, s);
    InSlotCounts(m, w, s, 0);
    assert Good(m, p);
    CountPositive(m.flight, p);
    forall v: nat, u: nat | v < |r.wheels| && u < |r.wheels[v].slots| ensures p !in r.wheels[v].slots[u] {
      if v == w && u == s {
        forall k | 0 < k < |list| ensures list[k] != p { OnceInSlot(m, w, s, 0, k); }
      } else {
        OneSlot(m, w, s, v, u, p);
      }
    }
  }

  lemma HeadAborted(m: World, w: nat, s: nat)
    requires HasHead(m, w, s)
    requires var p := m.wheels[w].slots[s][0]; p in m.heap && !m.heap[p].removed && p in m.table
    ensures var p, r := m.wheels[w].slots[s][0], AbortHead(m, w, s); Aborts(r, p) == Aborts(m, p) + 1 && p in r.table
  {
    var p := m.wheels[w].slots[s][0];
    AppendCount(m.past.aborted, p, p);
  }

  lemma CreateAborts(m: World, n: nat, d: Duration, p: Id)
    requires PlanInv(m, n) && AbortGood(m, p)
    ensures AbortGood(Create(m, d), p)
  {
    assert Fine(m, n, p) && Good(m, p);
    if p != m.nextId {
      CreateSteady(m, d, p);
      SteadyCalm(m, Create(m, d), p);
      CalmGood(m, Create(m, d), p);
    } else {
      CountPositive(m.past.aborted, p);
    }
  }

  lemma RunWheelAborts(m: World, n: nat, w: nat, p: Id)
    requires PlanInv(m, n) && AbortGood(m, p)
    ensures AbortGood(Apply(m, DoRun(w)), p)
  {
    var r := Apply(m, DoRun(w));
    assert Fine(m, n, p) && Good(m, p);
    if 0 < w < |m.wheels| && p == m.nextId {
      CountPositive(m.past.aborted, p);
    } else {
      RunSteady(m, w, p);
      SteadyCalm(m, r, p);
      CalmGood(m, r, p);
    }
  }

  lemma PlaceCalm(m: World, n: nat, q: Id, p: Id)
    requires PlanInv(m, n)
    ensures Calm(m, Place(m, q), p)
  {
    assert Fine(m, n, p);
    if p != q {
      PlaceSteady(m, q, p);
      SteadyCalm(m, Place(m, q), p);
    } else if p in m.pending && CanPlace(m, p) {
      assert Present(m, p);
    }
  }

  lemma OwnersCalm(m: World, n: nat, q: Id, p: Id)
    requires PlanInv(m, n)
    ensures Calm(m, Release(m, q), p) && Calm(m, Cancel(m, q), p) && Calm(m, Discard(m, q), p)
  {
    assert Fine(m, n, p);
    ReleaseSteady(m, q, p);
    SteadyCalm(m, Release(m, q), p);
    CancelSteady(m, q, p);
    SteadyCalm(m, Cancel(m, q), p);
    DiscardSteady(m, q, p);
    SteadyCalm(m, Discard(m, q), p);
  }

  lemma WheelsCalm(m: World, n: nat, w: nat, s: nat, p: Id)
    requires PlanInv(m, n)
    ensures Calm(m, StopWheel(m, w), p) && Calm(m, DropHead(m, w, s), p)
  {
    assert Fine(m, n, p);
    StopWheelSteady(m, w, p);
    SteadyCalm(m, StopWheel(m, w), p);
    DropHeadSteady(m, w, s, p);
    SteadyCalm(m, DropHead(m, w, s), p);
  }

  lemma StepAborts(m: World, n: nat, step: Step, p: Id)
    requires PlanInv(m, n) && AbortGood(m, p)
    ensures AbortGood(Apply(m, step), p)
  {
    var r := Apply(m, step);
    match step
    case DoCreate(d) => CreateAborts(m, n, d, p);
    case DoRun(w) => RunWheelAborts(m, n, w, p);
    case DoPlace(q) => PlaceCalm(m, n, q, p); CalmGood(m, r, p);
    case DoRelease(q) => OwnersCalm(m, n, q, p); CalmGood(m, r, p);
    case DoTick(w) => if w < |m.wheels| && !m.wheels[w].stopped { TickCalm(m, n, w, p); CalmGood(m, r, p); }
    case DoFire(k) => if k < |m.flight| { FireAborts(m, n, k, p); }
    case DoCancel(q) => OwnersCalm(m, n, q, p); CalmGood(m, r, p);
    case DoStopTimer(q) => StopTimerAborts(m, n, q, p);
    case DoDiscard(q) => OwnersCalm(m, n, q, p); CalmGood(m, r, p);
    case DoStopWheel(w) => WheelsCalm(m, n, w, 0, p); CalmGood(m, r, p);
    case DoDropHead(w, s) => WheelsCalm(m, n, w, s, p); CalmGood(m, r, p);
    case DoAbortHead(w, s) => AbortHeadAborts(m, n, w, s, p);
  }

  lemma {:induction false} RunAborts(m: World, n: nat, steps: seq<Step>, p: Id)
    requires PlanInv(m, n) && AbortGood(m, p)
    ensures AbortGood(Run(m, steps), p)
    decreases |steps|
  {
    if steps != [] {
      StepPlan(m, n, steps[0]);
      StepAborts(m, n, steps[0], p);
      RunAborts(Apply(m, steps[0]), n, steps[1..], p);
    }
  }

  /** Over every run: no timer both runs its callback and is aborted, and none is aborted more than twice. */
  lemma AbortsExcludeCallback(n: nat, steps: seq<Step>, p: Id)
    requires n > 0
    ensures var m := Run(Init(n), steps); Aborts(m, p) <= 2 && (p in m.fired ==> Aborts(m, p) == 0)
  {
    ReachableAborts(n, steps, p);
  }

  // ---------------------------------------------------------------------------
  // Once or twice
  // ---------------------------------------------------------------------------

  /** Out of the map and not waiting any more: nothing calls the abort callback again. */
  ghost predicate Done(m: World, p: Id, k: nat) {
    p !in m.table && p < m.nextId && !Active(m, p) && Aborts(m, p) == k
  }

  lemma CalmDone(m: World, r: World, p: Id, k: nat)
    requires Done(m, p, k) && Calm(m, r, p)
    ensures Done(r, p, k)
  {
  }

  lemma SteadyDone(m: World, r: World, p: Id, k: nat)
    requires Done(m, p, k) && Steady(m, r, p) && Aborts(r, p) == Aborts(m, p)
    ensures Done(r, p, k)
  {
    SteadyActive(m, r, p);
  }

  lemma FireDone(m: World, n: nat, i: nat, p: Id, k: nat)
    requires PlanInv(m, n) && Done(m, p, k) && i < |m.flight|
    ensures Done(Fire(m, i), p, k)
  {
    assert Fine(m, n, p);
    if m.flight[i] != p {
      FireOtherSteady(m, i, p);
    } else {
      assert Present(m, p);
      FireRemovedSteady(m, i, p);
    }
    FireQuiet(m, i);
    SteadyDone(m, Fire(m, i), p, k);
  }

  lemma FireQuiet(m: World, i: nat)
    requires i < |m.flight|
    ensures Fire(m, i).past.aborted == m.past.aborted
  {
  }

  lemma HeadDone(m: World, n: nat, w: nat, s: nat, p: Id, k: nat)
    requires PlanInv(m, n) && Done(m, p, k)
    ensures Done(AbortHead(m, w, s), p, k)
  {
    assert Fine(m, n, p);
    AbortHeadSteady(m, w, s, p);
    if HasHead(m, w, s) {
      var q := m.wheels[w].slots[s][0];
      AppendCount(m.past.aborted, q, p);
      if p == q { assert Present(m, p); }
    }
    SteadyDone(m, AbortHead(m, w, s), p, k);
  }

  lemma StopDone(m: World, n: nat, q: Id, p: Id, k: nat)
    requires PlanInv(m, n) && Done(m, p, k)
    ensures Done(StopTimer(m, q), p, k)
  {
    assert Fine(m, n, p);
    StopTimerSteady(m, q, p);
    AppendCount(m.past.aborted, q, p);
    SteadyDone(m, StopTimer(m, q), p, k);
  }

  lemma StepDone(m: World, n: nat, step: Step, p: Id, k: nat)
    requires PlanInv(m, n) && Done(m, p, k)
    ensures Done(Apply(m, step), p, k)
  {
    var r := Apply(m, step);
    assert Fine(m, n, p);
    match step
    case DoCreate(d) => CreateSteady(m, d, p); SteadyDone(m, r, p, k);
    case DoRun(w) => RunSteady(m, w, p); SteadyDone(m, r, p, k);
    case DoPlace(q) => PlaceCalm(m, n, q, p); CalmDone(m, r, p, k);
    case DoRelease(q) => OwnersCalm(m, n, q, p); CalmDone(m, r, p, k);
    case DoTick(w) => if w < |m.wheels| && !m.wheels[w].stopped { TickCalm(m, n, w, p); CalmDone(m, r, p, k); }
    case DoFire(i) => if i < |m.flight| { FireDone(m, n, i, p, k); }
    case DoCancel(q) => OwnersCalm(m, n, q, p); CalmDone(m, r, p, k);
    case DoStopTimer(q) => StopDone(m, n, q, p, k);
    case DoDiscard(q) => OwnersCalm(m, n, q, p); CalmDone(m, r, p, k);
    case DoStopWheel(w) => WheelsCalm(m, n, w, 0, p); CalmDone(m, r, p, k);
    case DoDropHead(w, s) => WheelsCalm(m, n, w, s, p); CalmDone(m, r, p, k);
    case DoAbortHead(w, s) => HeadDone(m, n, w, s, p, k);
  }

  lemma {:induction false} RunDone(m: World, n: nat, steps: seq<Step>, p: Id, k: nat)
    requires PlanInv(m, n) && Done(m, p, k)
    ensures Done(Run(m, steps), p, k)
    decreases |steps|
  {
    if steps != [] {
      StepPlan(m, n, steps[0]);
      StepDone(m, n, steps[0], p, k);
      RunDone(Apply(m, steps[0]), n, steps[1..], p, k);
    }
  }

  /** A wheel is aborted while the timer is in the map, and then the hierarchy is stopped. */
  lemma AbortedTwice(m: World, n: nat, w: nat, s: nat)
    requires PlanInv(m, n) && HasHead(m, w, s)
    requires var p := m.wheels[w].slots[s][0]; AbortGood(m, p) && p in m.table
    ensures var p := m.wheels[w].slots[s][0]; Aborts(StopTimer(AbortHead(m, w, s), p), p) == 2
  {
    var p := m.wheels[w].slots[s][0];
    MappedHead(m, n, w, s);
    AbortHeadAborts(m, n, w, s, p);
    StepPlan(m, n, DoAbortHead(w, s));
    StopTimerAborts(AbortHead(m, w, s), n, p, p);
  }

  lemma MappedHead(m: World, n: nat, w: nat, s: nat)
    requires PlanInv(m, n) && HasHead(m, w, s)
    requires var p := m.wheels[w].slots[s][0]; AbortGood(m, p) && p in m.table
    ensures var p, r := m.wheels[w].slots[s][0], AbortHead(m, w, s); Aborts(r, p) == 1 && p in r.table
  {
    var p := m.wheels[w].slots[s][0];
    assert Good(m, p) && Fine(m, n, p);
    HeadLeaves(m, w, s);
    HeadAborted(m, w, s);
  }

  /** Aborted in its slot while out of the map: once and for all. */
  lemma AbortedOnce(m: World, n: nat, w: nat, s: nat)
    requires PlanInv(m, n) && HasHead(m, w, s)
    requires var p := m.wheels[w].slots[s][0]; AbortGood(m, p) && p !in m.table && p in m.heap && !m.heap[p].removed
    ensures Done(AbortHead(m, w, s), m.wheels[w].slots[s][0], 1)
  {
    var p := m.wheels[w].slots[s][0];
    assert Fine(m, n, p);
    FirstAbort(m, n, w, s);
    HeadLeaves(m, w, s);
    AbortHeadSteady(m, w, s, p);
  }

  /**
   * In every reachable state: when the abort of a wheel calls the callback of a timer, it is called no second
   * time in any continuation if and only if the timer is no longer in the map.
   */
  lemma AbortedOnceIff(n: nat, steps: seq<Step>, w: nat, s: nat)
    requires n > 0 && HasHead(Run(Init(n), steps), w, s)
    requires var m := Run(Init(n), steps); var p := m.wheels[w].slots[s][0]; p in m.heap && !m.heap[p].removed
    ensures var m := Run(Init(n), steps);
            var p := m.wheels[w].slots[s][0];
            && Aborts(m, p) == 0 && Aborts(AbortHead(m, w, s), p) == 1
            && ((forall more: seq<Step> :: Aborts(Run(AbortHead(m, w, s), more), p) == 1) <==> p !in m.table)
  {
    var m := Run(Init(n), steps);
    var p, r := m.wheels[w].slots[s][0], AbortHead(m, w, s);
    ReachablePlan(n, steps);
    ReachableAborts(n, steps, p);
    FirstAbort(m, n, w, s);
    if p in m.table {
      AbortedTwice(m, n, w, s);
      StopNow(r, p);
    } else {
      StepPlan(m, n, DoAbortHead(w, s));
      AbortedOnce(m, n, w, s);
      forall more: seq<Step> ensures Aborts(Run(r, more), p) == 1 { RunDone(r, n, more, p, 1); }
    }
  }

  /** In every continuation of every reachable state, a cancelled timer is not aborted again. */
  lemma CancelledStaysQuiet(n: nat, steps: seq<Step>, more: seq<Step>, p: Id)
    requires n > 0 && p in Run(Init(n), steps).cancelled
    ensures Aborts(Run(Run(Init(n), steps), more), p) == Aborts(Run(Init(n), steps), p)
  {
    var m := Run(Init(n), steps);
    ReachablePlan(n, steps);
    assert Good(m, p);
    RunDone(m, n, more, p, Aborts(m, p));
  }

  lemma FirstAbort(m: World, n: nat, w: nat, s: nat)
    requires PlanInv(m, n) && HasHead(m, w, s)
    requires var p := m.wheels[w].slots[s][0]; AbortGood(m, p) && p in m.heap && !m.heap[p].removed
    ensures var p := m.wheels[w].slots[s][0]; Aborts(m, p) == 0 && Aborts(AbortHead(m, w, s), p) == 1
  {
    var p := m.wheels[w].slots[s][0];
    HeadLeaves(m, w, s);
    AppendCount(m.past.aborted, p, p);
  }

  lemma StopNow(m: World, p: Id)
    ensures Run(m, [DoStopTimer(p)]) == StopTimer(m, p)
  {
    assert [DoStopTimer(p)][1..] == [];
  }

  lemma ReachableAborts(n: nat, steps: seq<Step>, p: Id)
    requires n > 0
    ensures AbortGood(Run(Init(n), steps), p)
  {
    ReachablePlan(n, []);
    assert AbortGood(Init(n), p);
    RunAborts(Init(n), n, steps, p);
  }

  /** Set, abort of its wheel, stop: for every delay the abort callback of a timer is called twice. */
  lemma TwiceAborted(n: nat, d: Duration) returns (w: nat, s: nat)
    requires n > 0
    ensures Aborts(Run(Init(n), [DoCreate(d), DoPlace(1)] + [DoAbortHead(w, s), DoStopTimer(1)]), 1) == 2
  {
    SetIsUnderWay(n, d);
    SetAborts(n, d);
    w, s := FirstSlot(n, d);
    AbortedTwice(Set(n, d), n, w, s);
    RunSet(n, d, [DoAbortHead(w, s), DoStopTimer(1)]);
    RunTwo(Set(n, d), DoAbortHead(w, s), DoStopTimer(1));
  }

  lemma SetAborts(n: nat, d: Duration)
    requires n > 0
    ensures AbortGood(Set(n, d), 1)
  {
    RunTwo(Init(n), DoCreate(d), DoPlace(1));
    ReachableAborts(n, [DoCreate(d), DoPlace(1)], 1);
  }

  lemma FirstSlot(n: nat, d: Duration) returns (w: nat, s: nat)
    requires n > 0
    ensures var m := Set(n, d); HasHead(m, w, s) && m.wheels[w].slots[s][0] == 1 && 1 in m.table
  {
    var c := Create(Init(n), d);
    PlanIsGood(After(d));
    var step := c.heap[1].steps[0];
    assert CanPlace(c, 1);
    var wheel := c.wheels[step.wheel];
    w, s := step.wheel, SlotFor(wheel.position, step.delay, |wheel.slots|);
    assert Set(n, d).wheels[w].slots[s] == [] + [1];
  }
}
