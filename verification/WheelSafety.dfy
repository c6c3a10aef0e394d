/**
 * Ownership of timers over every run: the count of a record is the number of its holders, so it is
 * freed exactly when nobody holds it; a timer is at one stage at a time, runs at most once, and
 * never runs once cancelled.
 */
module WheelSafety {
  import opened Sequences
  import opened TimerPlan
  import opened Wheel

  function SlotsCount(slots: seq<seq<Id>>, p: Id): nat {
    if slots == [] then 0 else SlotsCount(slots[..|slots| - 1], p) + CountIn(slots[|slots| - 1], p)
  }

  function WheelsCount(ws: seq<SubWheel>, p: Id): nat {
    if ws == [] then 0 else WheelsCount(ws[..|ws| - 1], p) + SlotsCount(ws[|ws| - 1].slots, p)
  }

  /** How often the timer is waiting: for its first placement, in a slot, or in flight. */
  function Stage(m: World, p: Id): nat {
    B(p in m.pending) + WheelsCount(m.wheels, p) + CountIn(m.flight, p)
  }

  function Holders(m: World, p: Id): nat {
    Stage(m, p) + B(p in m.table) + B(p in m.leaving)
  }

  function Refs(m: World, p: Id): nat {
    if p in m.heap then m.heap[p].refs else 0
  }

  predicate Wf(m: World) {
    |m.wheels| == 5 && forall w :: 0 <= w < |m.wheels| ==> WfWheel(m.wheels[w])
  }

  /** What holds of one timer. */
  predicate Good(m: World, p: Id) {
    && Holders(m, p) == Refs(m, p)
    && Stage(m, p) <= 1 && !(p in m.pending && p in m.leaving)
    && (p in m.heap ==> m.heap[p].refs > 0 && GoodPlan(m.heap[p].steps, |m.wheels|) && p < m.nextId)
    && (p in m.heap && Stage(m, p) > 0 ==> m.heap[p].current < |m.heap[p].steps|)
    && (p in m.table ==> p !in m.flight && p !in m.fired)
    && (p in m.fired ==> Stage(m, p) == 0 && CountIn(m.fired, p) == 1 && p < m.nextId)
    && (p in m.cancelled ==> p !in m.table && p !in m.fired && p < m.nextId)
    && (p in m.heap ==> (m.heap[p].removed <==> p in m.cancelled))
  }

  ghost predicate Inv(m: World) {
    Wf(m) && forall p: Id :: Good(m, p)
  }

  // ---------------------------------------------------------------------------
  // Counting
  // ---------------------------------------------------------------------------

  lemma {:induction false} SlotsCountUpdate(slots: seq<seq<Id>>, s: nat, list: seq<Id>, p: Id)
    requires s < |slots|
    ensures SlotsCount(slots[s := list], p) + CountIn(slots[s], p) == SlotsCount(slots, p) + CountIn(list, p)
  {
    var n := |slots| - 1;
    if s == n {
      assert slots[s := list][..n] == slots[..n];
    } else {
      SlotsCountUpdate(slots[..n], s, list, p);
      assert slots[s := list][..n] == slots[..n][s := list];
    }
  }

  lemma {:induction false} WheelsCountUpdate(ws: seq<SubWheel>, w: nat, x: SubWheel, p: Id)
    requires w < |ws|
    ensures WheelsCount(ws[w := x], p) + SlotsCount(ws[w].slots, p) == WheelsCount(ws, p) + SlotsCount(x.slots, p)
  {
    var n := |ws| - 1;
    if w == n {
      assert ws[w := x][..n] == ws[..n];
    } else {
      WheelsCountUpdate(ws[..n], w, x, p);
      assert ws[w := x][..n] == ws[..n][w := x];
    }
  }

  lemma SetSlotCount(m: World, w: nat, s: nat, list: seq<Id>, p: Id)
    requires w < |m.wheels| && s < |m.wheels[w].slots|
    ensures WheelsCount(SetSlot(m, w, s, list).wheels, p) + CountIn(m.wheels[w].slots[s], p)
         == WheelsCount(m.wheels, p) + CountIn(list, p)
  {
    SlotsCountUpdate(m.wheels[w].slots, s, list, p);
    WheelsCountUpdate(m.wheels, w, m.wheels[w].(slots := m.wheels[w].slots[s := list]), p);
  }

  lemma RemoveCount(list: seq<Id>, k: nat, p: Id)
    requires k < |list|
    ensures CountIn(Remove(list, k), p) + B(p == list[k]) == CountIn(list, p)
  {
    assert list == list[..k] + [list[k]] + list[k + 1..];
  }

  lemma AppendCount(list: seq<Id>, q: Id, p: Id)
    ensures CountIn(list + [q], p) == CountIn(list, p) + B(p == q)
  {
  }

  lemma CountPositive(list: seq<Id>, p: Id)
    ensures p in list <==> CountIn(list, p) > 0
  {
  }

  /** A timer found in a slot is waiting. */
  lemma InSlotCounts(m: World, w: nat, s: nat, k: nat)
    requires w < |m.wheels| && s < |m.wheels[w].slots| && k < |m.wheels[w].slots[s]|
    ensures WheelsCount(m.wheels, m.wheels[w].slots[s][k]) > 0
  {
    var p := m.wheels[w].slots[s][k];
    SetSlotCount(m, w, s, Remove(m.wheels[w].slots[s], k), p);
    RemoveCount(m.wheels[w].slots[s], k, p);
  }

  // ---------------------------------------------------------------------------
  // Steps
  // ---------------------------------------------------------------------------

  lemma CreateGood(m: World, d: Duration, p: Id)
    requires Inv(m)
    ensures Good(Create(m, d), p)
  {
    PlanIsGood(After(d));
    assert Good(m, p) && Good(m, m.nextId);
    CountPositive(m.flight, p);
    CountPositive(m.fired, p);
  }

  lemma ArmGood(m: World, w: Upper, p: Id)
    requires Inv(m)
    ensures Good(Arm(m, w), p)
  {
    PlanIsGood(Drive(w));
    assert Good(m, p) && Good(m, m.nextId);
    CountPositive(m.flight, p);
    CountPositive(m.fired, p);
    WheelsCountUpdate(m.wheels, w, Arm(m, w).wheels[w], p);
  }

  lemma ResumeGood(m: World, p: Id)
    requires Inv(m)
    ensures Good(Resume(m), p)
  {
    assert Good(m, p);
    WheelsCountUpdate(m.wheels, 0, m.wheels[0].(stopped := false), p);
  }

  lemma PlaceTimerGood(m: World, q: Id, p: Id)
    requires CanPlace(m, q)
    ensures WheelsCount(PlaceTimer(m, q).wheels, p) == WheelsCount(m.wheels, p) + B(p == q)
    ensures Refs(PlaceTimer(m, q), p) == Refs(m, p) + B(p == q)
  {
    var step := m.heap[q].steps[m.heap[q].current];
    var wheel := m.wheels[step.wheel];
    var s := SlotFor(wheel.position, step.delay, |wheel.slots|);
    var m1 := m.(heap := PlaceTimer(m, q).heap, past := PlaceTimer(m, q).past);
    SetSlotCount(m1, step.wheel, s, wheel.slots[s] + [q], p);
    AppendCount(wheel.slots[s], q, p);
  }

  lemma PlaceGood(m: World, q: Id, p: Id)
    requires Inv(m)
    ensures Good(Place(m, q), p)
  {
    assert Good(m, p) && Good(m, q);
    if q in m.pending && CanPlace(m, q) {
      PlaceTimerGood(m, q, p);
    }
  }

  /** Ownership does not depend on the history of visits and callbacks. */
  lemma PastApart(m: World, past: Past, p: Id)
    requires Good(m, p)
    ensures Good(m.(past := past), p)
  {
  }

  lemma ReleaseGood(m: World, q: Id, p: Id)
    requires Inv(m)
    ensures Good(Release(m, q), p)
  {
    assert Good(m, p) && Good(m, q);
  }

  lemma DiscardedGood(m: World, q: Id, p: Id)
    requires Inv(m)
    ensures Good(Discard(m, q), p)
  {
    assert Good(m, p) && Good(m, q);
  }

  lemma CancelGood(m: World, q: Id, p: Id)
    requires Inv(m)
    ensures Good(Cancel(m, q), p) && Good(StopTimer(m, q), p)
  {
    assert Good(m, p) && Good(m, q);
    assert Good(Cancel(m, q), p);
    PastApart(Cancel(m, q), StopTimer(m, q).past, p);
  }

  lemma DropHeadGood(m: World, w: nat, s: nat, p: Id)
    requires Inv(m)
    ensures Good(DropHead(m, w, s), p)
  {
    if HasHead(m, w, s) {
      var list := m.wheels[w].slots[s];
      var q := list[0];
      assert Good(m, p) && Good(m, q);
      assert Remove(list, 0) == list[1..];
      RemoveCount(list, 0, p);
      SetSlotCount(m, w, s, list[1..], p);
      InSlotCounts(m, w, s, 0);
    }
  }

  lemma AbortHeadGood(m: World, w: nat, s: nat, p: Id)
    requires Inv(m)
    ensures Good(AbortHead(m, w, s), p)
  {
    DropHeadGood(m, w, s, p);
    PastApart(DropHead(m, w, s), AbortHead(m, w, s).past, p);
  }

  lemma StopGood(m: World, w: nat, p: Id)
    requires Inv(m)
    ensures Good(StopWheel(m, w), p)
  {
    assert Good(m, p);
    if w < |m.wheels| {
      WheelsCountUpdate(m.wheels, w, m.wheels[w].(stopped := true), p);
    }
  }

  /** Dropping the reference of a timer just taken out of flight. */
  lemma LandGood(m: World, k: nat, p: Id)
    requires Inv(m) && k < |m.flight|
    ensures Good(Unref(m.(flight := Remove(m.flight, k)), m.flight[k]), p)
  {
    var q := m.flight[k];
    assert Good(m, p) && Good(m, q);
    RemoveCount(m.flight, k, p);
    CountPositive(m.flight, q);
    CountPositive(m.flight, p);
    CountPositive(Remove(m.flight, k), p);
  }

  lemma FireRunGood(m: World, k: nat, p: Id)
    requires Inv(m) && k < |m.flight|
    requires m.flight[k] in m.heap && !m.heap[m.flight[k]].removed && !HasNextStage(m.heap[m.flight[k]])
    ensures Good(Fire(m, k), p)
  {
    var q := m.flight[k];
    LandGood(m, k, p);
    assert Good(m, p) && Good(m, q);
    AppendCount(m.fired, q, p);
    CountPositive(m.fired, p);
    CountPositive(m.flight, q);
    RemoveCount(m.flight, k, p);
  }

  lemma MoveOnCounts(m: World, q: Id, p: Id)
    requires q in m.heap && Wf(m) && GoodPlan(m.heap[q].steps, |m.wheels|) && m.heap[q].refs > 0
    requires HasNextStage(m.heap[q])
    ensures var r := MoveOn(m, q);
            r == m.(wheels := r.wheels, heap := r.heap, past := r.past) && |r.wheels| == |m.wheels|
    ensures WheelsCount(MoveOn(m, q).wheels, p) == WheelsCount(m.wheels, p) + B(p == q)
    ensures p in MoveOn(m, q).heap <==> p in m.heap
    ensures p in m.heap && p != q ==> MoveOn(m, q).heap[p] == m.heap[p]
    ensures var t := MoveOn(m, q).heap[q];
            && t.refs == m.heap[q].refs && t.steps == m.heap[q].steps
            && t.current < |t.steps| && t.removed == m.heap[q].removed
  {
    var moved := m.(heap := m.heap[q := m.heap[q].(current := Following(m.heap[q]))]);
    assert CanPlace(moved, q);
    PlaceTimerGood(moved, q, p);
  }

  lemma FireMoveGood(m: World, k: nat, p: Id)
    requires Inv(m) && k < |m.flight|
    requires m.flight[k] in m.heap && !m.heap[m.flight[k]].removed && HasNextStage(m.heap[m.flight[k]])
    ensures Good(Fire(m, k), p)
  {
    var q := m.flight[k];
    assert Good(m, p) && Good(m, q);
    RemoveCount(m.flight, k, p);
    CountPositive(m.flight, q);
    CountPositive(m.flight, p);
    CountPositive(Remove(m.flight, k), p);
    MoveOnCounts(m.(flight := Remove(m.flight, k)), q, p);
  }

  lemma FireGood(m: World, k: nat, p: Id)
    requires Inv(m) && k < |m.flight|
    ensures Good(Fire(m, k), p)
  {
    var q := m.flight[k];
    if q !in m.heap || m.heap[q].removed {
      LandGood(m, k, p);
    } else if HasNextStage(m.heap[q]) {
      FireMoveGood(m, k, p);
    } else {
      FireRunGood(m, k, p);
    }
  }

  lemma UnlinkedCounts(m: World, w: nat, k: nat, p: Id)
    requires Wf(m) && w < |m.wheels| && k < |Slot(m, w)|
    ensures WheelsCount(Unlinked(m, w, k).wheels, p) + B(p == Slot(m, w)[k]) == WheelsCount(m.wheels, p)
  {
    RemoveCount(Slot(m, w), k, p);
    SetSlotCount(m, w, m.wheels[w].position, Remove(Slot(m, w), k), p);
  }

  lemma DiscardGood(m: World, w: nat, k: nat, p: Id)
    requires Inv(m) && w < |m.wheels| && k < |Slot(m, w)|
    ensures Good(Unref(Unlinked(m, w, k), Slot(m, w)[k]), p)
  {
    assert Good(m, p) && Good(m, Slot(m, w)[k]);
    UnlinkedCounts(m, w, k, p);
  }

  /** Collecting entry k: out of the slot, into the flight, out of the map. */
  lemma CollectEffect(m: World, w: nat, k: nat)
    requires w < |m.wheels| && WfWheel(m.wheels[w]) && k < |Slot(m, w)| && Slot(m, w)[k] in m.heap
    ensures var p, r := Slot(m, w)[k], Collect(m, w, k);
            && r == m.(wheels := Unlinked(m, w, k).wheels, flight := m.flight + [p], table := m.table - {p},
                       heap := r.heap, past := WithVisits(m, p, Closed(Visits(m, p), m.wheels[w].ticks, Clock(m))))
            && (forall q :: q in r.heap ==> q in m.heap)
            && (forall q :: q in m.heap && q != p ==> q in r.heap && r.heap[q] == m.heap[q])
            && Refs(r, p) == (if m.heap[p].refs > B(p in m.table) then m.heap[p].refs - B(p in m.table) else 0)
            && (p in r.heap ==> r.heap[p].steps == m.heap[p].steps && r.heap[p].current == m.heap[p].current
                                && r.heap[p].removed == m.heap[p].removed && r.heap[p].refs > 0)
  {
  }

  lemma CollectGood(m: World, w: nat, k: nat, p: Id)
    requires Inv(m) && w < |m.wheels| && k < |Slot(m, w)|
    requires Slot(m, w)[k] in m.heap && !m.heap[Slot(m, w)[k]].removed
    ensures Good(Collect(m, w, k), p)
  {
    var q := Slot(m, w)[k];
    assert Good(m, p) && Good(m, q);
    CollectEffect(m, w, k);
    UnlinkedCounts(m, w, k, p);
    AppendCount(m.flight, q, p);
    CountPositive(m.flight, p);
    CountPositive(m.flight + [q], p);
    if p == q {
      CountPositive(m.fired, p);
    }
  }

  lemma MaintainOneGood(m: World, w: nat, k: nat, p: Id)
    requires Inv(m) && w < |m.wheels| && k < |Slot(m, w)|
    ensures Good(MaintainOne(m, w, k), p)
  {
    var q := Slot(m, w)[k];
    if q !in m.heap || m.heap[q].removed {
      DiscardGood(m, w, k, p);
    } else if Stays(m.heap[q]) {
      assert Good(m, p);
    } else {
      CollectGood(m, w, k, p);
    }
  }

  lemma {:induction false} MaintainInv(m: World, w: nat, k: nat)
    requires Inv(m) && w < |m.wheels| && k <= |Slot(m, w)|
    ensures Inv(MaintainFrom(m, w, k))
    decreases |Slot(m, w)| - k
  {
    if k == |Slot(m, w)| {
    } else {
      var r := MaintainOne(m, w, k);
      forall p: Id ensures Good(r, p) { MaintainOneGood(m, w, k, p); }
      if |Slot(r, w)| == |Slot(m, w)| {
        MaintainInv(r, w, k + 1);
      } else {
        MaintainInv(r, w, k);
      }
    }
  }

  lemma AdvanceInv(m: World, w: nat)
    requires Inv(m) && w < |m.wheels|
    ensures Inv(Advance(m, w))
  {
    var x := Advance(m, w).wheels[w];
    forall p: Id ensures Good(Advance(m, w), p) {
      assert Good(m, p);
      WheelsCountUpdate(m.wheels, w, x, p);
    }
  }

  /** Every step keeps the invariant. */
  lemma StepInv(m: World, s: Step)
    requires Inv(m)
    ensures Inv(Apply(m, s))
  {
    match s
    case DoTick(w) =>
      if w < |m.wheels| && !m.wheels[w].stopped {
        AdvanceInv(m, w);
        MaintainInv(Advance(m, w), w, 0);
      }
    case _ =>
      OtherStepShape(m, s);
      forall p: Id ensures Good(Apply(m, s), p) { OtherStepGood(m, s, p); }
  }

  /** Wheels keep their number, their size, their position and their ticks. */
  predicate SameSlotting(ws: seq<SubWheel>, vs: seq<SubWheel>) {
    |vs| == |ws| && forall w :: 0 <= w < |ws| ==>
      |vs[w].slots| == |ws[w].slots| && vs[w].position == ws[w].position
      && vs[w].ticks == ws[w].ticks && vs[w].beats == ws[w].beats
  }

  lemma PlaceShape(m: World, p: Id)
    requires CanPlace(m, p)
    ensures SameSlotting(m.wheels, PlaceTimer(m, p).wheels)
  {
  }

  lemma FireShape(m: World, k: nat)
    requires k < |m.flight|
    ensures SameSlotting(m.wheels, Fire(m, k).wheels)
  {
    var p := m.flight[k];
    if p in m.heap && !m.heap[p].removed && HasNextStage(m.heap[p]) {
      var moved := m.(flight := Remove(m.flight, k), heap := m.heap[p := m.heap[p].(current := Following(m.heap[p]))]);
      if CanPlace(moved, p) { PlaceShape(moved, p); }
    }
  }

  lemma OtherStepShape(m: World, s: Step)
    requires !s.DoTick?
    ensures SameSlotting(m.wheels, Apply(m, s).wheels)
  {
    match s
    case DoPlace(p) => if p in m.pending && CanPlace(m, p) { PlaceShape(m, p); }
    case DoFire(k) => if k < |m.flight| { FireShape(m, k); }
    case _ =>
  }

  lemma OtherStepGood(m: World, s: Step, p: Id)
    requires Inv(m) && !s.DoTick?
    ensures Good(Apply(m, s), p)
  {
    match s
    case DoCreate(d) => CreateGood(m, d, p);
    case DoRun(w) => if w == 0 { ResumeGood(m, p); } else if w < |m.wheels| { ArmGood(m, w, p); }
    case DoPlace(q) => PlaceGood(m, q, p);
    case DoRelease(q) => ReleaseGood(m, q, p);
    case DoFire(k) => if k < |m.flight| { FireGood(m, k, p); }
    case DoCancel(q) => CancelGood(m, q, p);
    case DoStopTimer(q) => CancelGood(m, q, p);
    case DoDiscard(q) => DiscardedGood(m, q, p);
    case DoStopWheel(w) => StopGood(m, w, p);
    case DoDropHead(w, s) => DropHeadGood(m, w, s, p);
    case DoAbortHead(w, s) => AbortHeadGood(m, w, s, p);
  }

  lemma {:induction false} RunInv(m: World, steps: seq<Step>)
    requires Inv(m)
    ensures Inv(Run(m, steps))
    decreases |steps|
  {
    if steps == [] {
    } else {
      StepInv(m, steps[0]);
      RunInv(Apply(m, steps[0]), steps[1..]);
    }
  }

  lemma {:induction false} EmptySlots(n: nat, p: Id)
    ensures SlotsCount(EmptyLists(n), p) == 0
  {
    if n == 0 {
    } else {
      EmptySlots(n - 1, p);
      assert EmptyLists(n)[..n - 1] == EmptyLists(n - 1);
    }
  }

  lemma {:induction false} EmptyWheels(k: nat, n: nat, p: Id)
    requires n > 0
    ensures WheelsCount(FreshWheels(k, n), p) == 0
  {
    if k == 0 {
    } else {
      EmptySlots(n, p);
      EmptyWheels(k - 1, n, p);
      assert FreshWheels(k, n)[..k - 1] == FreshWheels(k - 1, n);
    }
  }

  /** The invariant holds in every reachable state. */
  lemma ReachableInv(n: nat, steps: seq<Step>)
    requires n > 0
    ensures Inv(Run(Init(n), steps))
  {
    forall p: Id ensures Good(Init(n), p) { EmptyWheels(5, n, p); }
    RunInv(Init(n), steps);
  }

  // ---------------------------------------------------------------------------
  // What it means
  // ---------------------------------------------------------------------------

  /** A record is live exactly while somebody holds it, and at most three do. */
  lemma LiveIffHeld(n: nat, steps: seq<Step>, p: Id)
    requires n > 0
    ensures var m := Run(Init(n), steps);
            (p in m.heap <==> Holders(m, p) > 0) && Refs(m, p) == Holders(m, p) <= 3
  {
    ReachableInv(n, steps);
    assert Good(Run(Init(n), steps), p);
  }

  /** No timer runs twice, and none that was cancelled runs at all. */
  lemma RunsAtMostOnce(n: nat, steps: seq<Step>, p: Id)
    requires n > 0
    ensures var m := Run(Init(n), steps);
            CountIn(m.fired, p) <= 1 && (p in m.cancelled ==> CountIn(m.fired, p) == 0)
  {
    ReachableInv(n, steps);
    var m := Run(Init(n), steps);
    assert Good(m, p);
    CountPositive(m.fired, p);
  }

  lemma {:induction false} MaintainAdds(m: World, w: nat, k: nat, p: Id)
    requires w < |m.wheels| && WfWheel(m.wheels[w]) && k <= |Slot(m, w)| && p !in m.heap
    ensures p !in MaintainFrom(m, w, k).heap && MaintainFrom(m, w, k).nextId == m.nextId
    decreases |Slot(m, w)| - k
  {
    if k == |Slot(m, w)| {
    } else {
      var r := MaintainOne(m, w, k);
      if |Slot(r, w)| == |Slot(m, w)| {
        MaintainAdds(r, w, k + 1, p);
      } else {
        MaintainAdds(r, w, k, p);
      }
    }
  }

  lemma StepAdds(m: World, s: Step, p: Id)
    requires p < m.nextId && p !in m.heap
    ensures p !in Apply(m, s).heap && p < Apply(m, s).nextId
  {
    if s.DoTick? && s.wheel < |m.wheels| && WfWheel(m.wheels[s.wheel]) && !m.wheels[s.wheel].stopped {
      MaintainAdds(Advance(m, s.wheel), s.wheel, 0, p);
    }
  }

  /** A freed record stays freed: it is freed once. */
  lemma {:induction false} FreedOnce(m: World, steps: seq<Step>, p: Id)
    requires p < m.nextId && p !in m.heap
    ensures p !in Run(m, steps).heap
    decreases |steps|
  {
    if steps == [] {
    } else {
      StepAdds(m, steps[0], p);
      FreedOnce(Apply(m, steps[0]), steps[1..], p);
    }
  }
}
