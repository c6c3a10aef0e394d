/** What a timer goes through from set_timer to its callback, over every run. */
module WheelPlans {
  // In every reachable state the visits of a timer are the beginning of the stages of its delay, days
  // first; all of them once its callback has run; and every visit that has ended took exactly the
  // span of its delay in ticks of its wheel.

  import opened TimerPlan
  import opened Wheel
  import opened WheelSafety
  import opened WheelTiming

  /** The stages of a timer made for r. */
  function Itinerary(r: Request): seq<PlanStep> {
    Stages(PlanFor(r), 0)
  }

  function Route(visits: seq<Visit>): (r: seq<PlanStep>)
    ensures |r| == |visits| && forall i :: 0 <= i < |r| ==> r[i] == visits[i].step
  {
    if visits == [] then [] else Route(visits[..|visits| - 1]) + [visits[|visits| - 1].step]
  }

  /** The stages left after the current one. */
  function Rest(t: Timer): seq<PlanStep>
    requires t.current < |t.steps|
  {
    Stages(t.steps, NextStage(t.steps, t.current + 1))
  }

  function Last(visits: seq<Visit>): Visit
    requires visits != []
  {
    visits[|visits| - 1]
  }

  // ---------------------------------------------------------------------------
  // The invariant
  // ---------------------------------------------------------------------------

  /** Under way: visits made, then the stage the record is at, then the stages left, are the itinerary. */
  predicate OnRoute(m: World, p: Id)
    requires p in m.heap && p in m.past.asked
  {
    var t, v := m.heap[p], Visits(m, p);
    && t.current < |t.steps|
    && if p in m.pending then v == [] && t.current == 0
       else v != [] && Last(v).step == t.steps[t.current] && Route(v) + Rest(t) == Itinerary(m.past.asked[p])
  }

  predicate PlanGood(m: World, p: Id) {
    && (p in m.past.asked <==> p in m.past.log) && (p in m.past.asked ==> p < m.nextId)
    && (p in m.heap ==> p in m.past.asked && m.heap[p].steps == PlanFor(m.past.asked[p]))
    && (p in m.heap && p !in m.fired ==> OnRoute(m, p))
    && (p in m.past.asked ==> Route(Visits(m, p)) <= Itinerary(m.past.asked[p]))
    && (p in m.fired ==> p in m.past.asked && Route(Visits(m, p)) == Itinerary(m.past.asked[p]))
  }

  /** The timer has been collected at least once. */
  predicate Collected(m: World, p: Id) {
    Visits(m, p) != [] && Visits(m, p)[0].Taken?
  }

  /** The timer was set by a user. */
  predicate OfUser(m: World, p: Id) {
    p in m.past.asked && m.past.asked[p].After?
  }

  predicate TakenGood(m: World, p: Id) {
    var v := Visits(m, p);
    && (forall i :: 0 <= i < |v| - 1 ==> v[i].Taken?)
    && (p in m.flight || p in m.fired ==> v != [] && Last(v).Taken?)
    && (p in m.table <==> OfUser(m, p) && p !in m.cancelled && p !in m.past.unmapped && !Collected(m, p))
    && (p in m.past.unmapped || p in m.cancelled ==> OfUser(m, p))
  }

  predicate VisitGood(n: nat, v: Visit) {
    v.position < n && (v.Taken? ==> v.end == v.start + Span(n, v.position, v.step.delay))
  }

  predicate TimeGood(m: World, n: nat, p: Id) {
    forall i :: 0 <= i < |Visits(m, p)| ==> VisitGood(n, Visits(m, p)[i])
  }

  /** In a slot: the last visit is open, and its countdown stands where its span ends. */
  predicate SlotGood(m: World, n: nat, p: Id, w: nat, s: nat) {
    w < |m.wheels| && s < |m.wheels[w].slots| && p in m.wheels[w].slots[s] ==>
      && Visits(m, p) != [] && Last(Visits(m, p)).Open?
      && Last(Visits(m, p)).step.wheel == w
      && (InSlot(m, w, s, p) ==>
            var v := Last(Visits(m, p));
            v.position < n && m.wheels[w].ticks + TicksLeft(m, w, s, p) == v.start + Span(n, v.position, v.step.delay))
  }

  predicate Sized(m: World, n: nat) {
    forall w :: 0 <= w < |m.wheels| ==> |m.wheels[w].slots| == n
  }

  ghost predicate Fine(m: World, n: nat, p: Id) {
    PlanGood(m, p) && TakenGood(m, p) && TimeGood(m, n, p) && forall w: nat, s: nat :: SlotGood(m, n, p, w, s)
  }

  ghost predicate PlanInv(m: World, n: nat) {
    Inv(m) && Sized(m, n) && forall p: Id :: Fine(m, n, p)
  }

  // ---------------------------------------------------------------------------
  // Steps that do not move the timer
  // ---------------------------------------------------------------------------

  /** Wheels are of the same size and stand where they stood, and the timer is in no new slot. */
  ghost predicate SameWheels(m: World, r: World, p: Id) {
    && |r.wheels| == |m.wheels|
    && (forall w :: 0 <= w < |m.wheels| ==>
          |r.wheels[w].slots| == |m.wheels[w].slots| && r.wheels[w].position == m.wheels[w].position
          && r.wheels[w].ticks == m.wheels[w].ticks)
    && (forall w, s :: 0 <= w < |m.wheels| && 0 <= s < |m.wheels[w].slots| && p in r.wheels[w].slots[s] ==>
          p in m.wheels[w].slots[s])
  }

  /** The record may be gone or marked and the map entry given up; the rest is as it was for the timer. */
  ghost predicate Steady(m: World, r: World, p: Id) {
    && SameWheels(m, r, p) && SameStage(m, r, p)
    && (p in r.heap && !r.heap[p].removed ==> r.heap[p].circle == m.heap[p].circle)
    && (p in r.pending <==> p in m.pending) && (p in r.fired <==> p in m.fired) && (p in r.flight ==> p in m.flight)
    && (p in r.past.asked <==> p in m.past.asked) && (p in m.past.asked ==> r.past.asked[p] == m.past.asked[p])
    && (p in r.past.log <==> p in m.past.log) && Visits(r, p) == Visits(m, p)
    && m.nextId <= r.nextId && m.cancelled <= r.cancelled && m.past.unmapped <= r.past.unmapped
    && (p in r.table <==> p in m.table && p !in r.cancelled && p !in r.past.unmapped)
    && (p in r.past.unmapped ==> p in m.past.unmapped || p in m.table)
    && (p in r.cancelled ==> p in m.cancelled || p in m.table)
  }

  /** What every step needs of the map. */
  predicate Mapped(m: World, p: Id) {
    p in m.table ==> p !in m.cancelled && p !in m.past.unmapped
  }

  lemma SteadySlot(m: World, r: World, n: nat, p: Id, w: nat, s: nat)
    requires Wf(m) && Steady(m, r, p) && SlotGood(m, n, p, w, s)
    ensures SlotGood(r, n, p, w, s)
  {
  }

  lemma SteadyPlan(m: World, r: World, p: Id)
    requires Steady(m, r, p) && PlanGood(m, p) && TakenGood(m, p)
    ensures PlanGood(r, p) && TakenGood(r, p)
  {
  }

  lemma SteadyFine(m: World, r: World, n: nat, p: Id)
    requires Wf(m) && Fine(m, n, p) && Steady(m, r, p)
    ensures Fine(r, n, p)
  {
    SteadyPlan(m, r, p);
    forall w: nat, s: nat ensures SlotGood(r, n, p, w, s) { SteadySlot(m, r, n, p, w, s); }
  }

  lemma SameWheelsSet(m: World, r: World, w: nat, s: nat, list: seq<Id>, p: Id)
    requires w < |m.wheels| && s < |m.wheels[w].slots| && r.wheels == SetSlot(m, w, s, list).wheels
    requires p in list ==> p in m.wheels[w].slots[s]
    ensures SameWheels(m, r, p)
  {
  }

  /** A reference given up leaves the record as it is, or frees it. */
  lemma UnrefStage(m: World, q: Id, p: Id)
    ensures var r := Unref(m, q);
            && r == m.(heap := r.heap) && SameStage(m, r, p)
            && (p in r.heap ==> r.heap[p].circle == m.heap[p].circle && r.heap[p].removed == m.heap[p].removed)
  {
  }

  lemma ReleaseSteady(m: World, q: Id, p: Id)
    requires Mapped(m, p)
    ensures Steady(m, Release(m, q), p)
  {
    UnrefStage(m.(leaving := m.leaving - {q}), q, p);
  }

  lemma DiscardSteady(m: World, q: Id, p: Id)
    requires Mapped(m, p)
    ensures Steady(m, Discard(m, q), p)
  {
    var past := m.past.(unmapped := m.past.unmapped + {q});
    UnrefStage(m.(past := past, table := m.table - {q}), q, p);
  }

  lemma CancelSteady(m: World, q: Id, p: Id)
    requires Mapped(m, p)
    ensures Steady(m, Cancel(m, q), p)
  {
    UnrefStage(Mark(m, q).(table := m.table - {q}, cancelled := m.cancelled + {q}), q, p);
  }

  lemma StopTimerSteady(m: World, q: Id, p: Id)
    requires Mapped(m, p)
    ensures Steady(m, StopTimer(m, q), p)
  {
    CancelSteady(m, q, p);
  }

  lemma DropHeadSteady(m: World, w: nat, s: nat, p: Id)
    requires Mapped(m, p)
    ensures Steady(m, DropHead(m, w, s), p)
  {
    if HasHead(m, w, s) {
      var list := m.wheels[w].slots[s];
      SameWheelsSet(m, DropHead(m, w, s), w, s, list[1..], p);
      UnrefStage(SetSlot(m, w, s, list[1..]), list[0], p);
    }
  }

  lemma AbortHeadSteady(m: World, w: nat, s: nat, p: Id)
    requires Mapped(m, p)
    ensures Steady(m, AbortHead(m, w, s), p)
  {
    DropHeadSteady(m, w, s, p);
  }

  lemma StopWheelSteady(m: World, w: nat, p: Id)
    requires Mapped(m, p)
    ensures Steady(m, StopWheel(m, w), p)
  {
  }

  lemma CreateSteady(m: World, d: Duration, p: Id)
    requires Inv(m) && Mapped(m, p) && p != m.nextId
    ensures Steady(m, Create(m, d), p)
  {
  }

  lemma RunSteady(m: World, w: nat, p: Id)
    requires Inv(m) && Mapped(m, p) && (0 < w < |m.wheels| ==> p != m.nextId)
    ensures Steady(m, Apply(m, DoRun(w)), p)
  {
  }

  lemma PlaceOtherWheels(m: World, q: Id, p: Id)
    requires CanPlace(m, q) && p != q
    ensures SameWheels(m, PlaceTimer(m, q), p)
  {
    var t := m.heap[q];
    var step := t.steps[t.current];
    var wheel := m.wheels[step.wheel];
    var s := SlotFor(wheel.position, step.delay, |wheel.slots|);
    SameWheelsSet(m, PlaceTimer(m, q), step.wheel, s, wheel.slots[s] + [q], p);
  }

  lemma PlaceSteady(m: World, q: Id, p: Id)
    requires Mapped(m, p) && p != q
    ensures Steady(m, Place(m, q), p)
  {
    if q in m.pending && CanPlace(m, q) { PlaceOtherWheels(m, q, p); }
  }

  lemma MoveOtherSteady(m: World, q: Id, p: Id)
    requires Mapped(m, p) && q in m.heap && p != q
    ensures Steady(m, MoveOn(m, q), p)
  {
    var moved := m.(heap := m.heap[q := m.heap[q].(current := Following(m.heap[q]))]);
    if CanPlace(moved, q) {
      PlaceOtherWheels(moved, q, p);
      UnrefStage(PlaceTimer(moved, q), q, p);
    }
  }

  lemma FireOtherSteady(m: World, k: nat, p: Id)
    requires Mapped(m, p) && k < |m.flight| && m.flight[k] != p
    ensures Steady(m, Fire(m, k), p)
  {
    var q := m.flight[k];
    var out := m.(flight := Remove(m.flight, k));
    assert p in Remove(m.flight, k) ==> p in m.flight;
    if q !in m.heap || m.heap[q].removed {
      UnrefStage(out, q, p);
    } else if HasNextStage(m.heap[q]) {
      MoveOtherSteady(out, q, p);
    } else {
      UnrefStage(out.(heap := m.heap[q := m.heap[q].(current := Following(m.heap[q]))], fired := m.fired + [q]), q, p);
    }
  }

  lemma FireRemovedSteady(m: World, k: nat, p: Id)
    requires Mapped(m, p) && k < |m.flight| && m.flight[k] == p && (p !in m.heap || m.heap[p].removed)
    ensures Steady(m, Fire(m, k), p)
  {
    assert p in Remove(m.flight, k) ==> p in m.flight;
  }

  // ---------------------------------------------------------------------------
  // Steps that move the timer
  // ---------------------------------------------------------------------------

  /** A waiting timer is counted, so one that is not waiting is in no slot. */
  lemma InNoSlot(m: World, p: Id, w: nat, s: nat)
    requires Inv(m) && (p in m.pending || p in m.flight || p !in m.heap)
    ensures w < |m.wheels| && s < |m.wheels[w].slots| ==> p !in m.wheels[w].slots[s]
  {
    assert Good(m, p);
    CountPositive(m.flight, p);
    if w < |m.wheels| && s < |m.wheels[w].slots| && p in m.wheels[w].slots[s] {
      var k :| 0 <= k < |m.wheels[w].slots[s]| && m.wheels[w].slots[s][k] == p;
      InSlotCounts(m, w, s, k);
    }
  }

  lemma CreateFine(m: World, n: nat, d: Duration)
    requires PlanInv(m, n)
    ensures Fine(Create(m, d), n, m.nextId)
  {
    var p, r := m.nextId, Create(m, d);
    assert Good(m, p) && Fine(m, n, p);
    PlanIsGood(After(d));
    forall w: nat, s: nat ensures SlotGood(r, n, p, w, s) { InNoSlot(m, p, w, s); }
    CountPositive(m.flight, p);
  }

  lemma ArmFine(m: World, n: nat, w: Upper)
    requires PlanInv(m, n)
    ensures Fine(Arm(m, w), n, m.nextId)
  {
    var p, r := m.nextId, Arm(m, w);
    assert Good(m, p) && Fine(m, n, p);
    forall v: nat, s: nat ensures SlotGood(r, n, p, v, s) { InNoSlot(m, p, v, s); }
    CountPositive(m.flight, p);
  }

  /** Placing a timer that is in no slot: one more visit, open, in exactly one slot. */
  lemma PlacedSlots(m: World, n: nat, p: Id, w: nat, s: nat)
    requires Wf(m) && Sized(m, n) && CanPlace(m, p)
    requires w < |m.wheels| && s < |m.wheels[w].slots| ==> p !in m.wheels[w].slots[s]
    ensures SlotGood(PlaceTimer(m, p), n, p, w, s)
  {
    var step := m.heap[p].steps[m.heap[p].current];
    var r := PlaceTimer(m, p);
    if w < |r.wheels| && s < |r.wheels[w].slots| && p in r.wheels[w].slots[s] {
      assert w == step.wheel && s == SlotFor(m.wheels[w].position, step.delay, n);
      if !m.heap[p].removed { PlacedCountdown(m, p); }
    }
  }

  lemma UnrefSlots(m: World, n: nat, p: Id, w: nat, s: nat)
    requires Wf(m) && SlotGood(m, n, p, w, s)
    ensures SlotGood(Unref(m, p), n, p, w, s)
  {
  }

  lemma RouteGrows(visits: seq<Visit>, v: Visit)
    ensures Route(visits + [v]) == Route(visits) + [v.step]
  {
    assert (visits + [v])[..|visits|] == visits;
  }

  /** The route of a placement: the stage the record is at is added. */
  lemma PlacedVisits(m: World, n: nat, p: Id)
    requires Wf(m) && Sized(m, n) && CanPlace(m, p) && TimeGood(m, n, p)
    ensures TimeGood(PlaceTimer(m, p), n, p)
    ensures var v := Visits(PlaceTimer(m, p), p);
            && |v| == |Visits(m, p)| + 1 && v[..|Visits(m, p)|] == Visits(m, p) && Last(v).Open?
            && Last(v).step == m.heap[p].steps[m.heap[p].current] && Route(v) == Route(Visits(m, p)) + [Last(v).step]
  {
    var v := Visits(PlaceTimer(m, p), p);
    RouteGrows(Visits(m, p), Last(v));
    assert forall i :: 0 <= i < |Visits(m, p)| ==> v[i] == Visits(m, p)[i];
  }

  lemma FirstStage(t: Timer)
    requires t.current == 0 < |t.steps|
    ensures [t.steps[0]] + Rest(t) == Stages(t.steps, 0)
  {
  }

  /** One stage moves from those left to those visited. */
  lemma RouteSplit(route: seq<PlanStep>, step: PlanStep, rest: seq<PlanStep>, all: seq<PlanStep>)
    requires route + ([step] + rest) == all
    ensures (route + [step]) + rest == all && route + [step] <= all
  {
    assert (route + [step]) + rest == route + ([step] + rest);
  }

  lemma PlacePlan(m: World, n: nat, p: Id)
    requires PlanInv(m, n) && p in m.pending && CanPlace(m, p)
    ensures PlanGood(Place(m, p), p) && TakenGood(Place(m, p), p)
  {
    assert Good(m, p) && Fine(m, n, p);
    PlacedVisits(m, n, p);
    var t := m.heap[p];
    FirstStage(t);
    RouteSplit([], t.steps[0], Rest(t), Itinerary(m.past.asked[p]));
    CountPositive(m.flight, p);
  }

  lemma PlaceSlots(m: World, n: nat, p: Id, w: nat, s: nat)
    requires Inv(m) && Sized(m, n) && p in m.pending && CanPlace(m, p)
    ensures SlotGood(Place(m, p), n, p, w, s)
  {
    InNoSlot(m, p, w, s);
    PlacedSlots(m, n, p, w, s);
    SameSlots(PlaceTimer(m, p), Place(m, p), n, p, w, s);
  }

  lemma PlaceTimes(m: World, n: nat, p: Id)
    requires Wf(m) && Sized(m, n) && TimeGood(m, n, p) && CanPlace(m, p) && p in m.pending
    ensures TimeGood(Place(m, p), n, p)
  {
    PlacedVisits(m, n, p);
  }

  lemma PlaceFine(m: World, n: nat, p: Id)
    requires PlanInv(m, n) && p in m.pending && CanPlace(m, p)
    ensures Fine(Place(m, p), n, p)
  {
    assert Fine(m, n, p);
    PlacePlan(m, n, p);
    PlaceTimes(m, n, p);
    forall w: nat, s: nat ensures SlotGood(Place(m, p), n, p, w, s) { PlaceSlots(m, n, p, w, s); }
  }

  lemma SameSlots(m: World, r: World, n: nat, p: Id, w: nat, s: nat)
    requires Wf(m) && SlotGood(m, n, p, w, s) && r.wheels == m.wheels && r.heap == m.heap && r.past == m.past
    ensures SlotGood(r, n, p, w, s)
  {
  }

  lemma NextOfRest(t: Timer)
    requires t.current < |t.steps|
    ensures HasNextStage(t) <==> Rest(t) != []
    ensures HasNextStage(t) ==>
              Rest(t) == [t.steps[Following(t)]] + Rest(t.(current := Following(t)))
  {
  }

  /** Handling the expired timer k, which has a stage left. */
  predicate Moves(m: World, k: nat, p: Id) {
    k < |m.flight| && m.flight[k] == p && p in m.heap && !m.heap[p].removed && HasNextStage(m.heap[p])
  }

  function Moved(m: World, k: nat, p: Id): World
    requires Moves(m, k, p)
  {
    m.(flight := Remove(m.flight, k), heap := m.heap[p := m.heap[p].(current := Following(m.heap[p]))])
  }

  /** The record is at the next stage and has one visit more. */
  lemma MoveEffect(m: World, n: nat, k: nat, p: Id)
    requires PlanInv(m, n) && Moves(m, k, p)
    ensures CanPlace(Moved(m, k, p), p) && Fire(m, k) == Unref(PlaceTimer(Moved(m, k, p), p), p)
    ensures var r, u := Fire(m, k), PlaceTimer(Moved(m, k, p), p);
            && r == u.(heap := r.heap) && SameStage(u, r, p) && p !in r.flight
            && r.past == u.past && r.past.asked == m.past.asked && p in r.past.log
  {
    assert Good(m, p);
    CountPositive(m.flight, p);
    RemoveCount(m.flight, k, p);
    CountPositive(Remove(m.flight, k), p);
    UnrefStage(PlaceTimer(Moved(m, k, p), p), p, p);
  }

  /** The stages left depend on the plan and the stage alone. */
  lemma SameRest(t: Timer, u: Timer)
    requires t.current < |t.steps| && u.steps == t.steps && u.current == t.current
    ensures Rest(u) == Rest(t)
  {
  }

  /** The visits and stages left after moving on, from those before. */
  lemma MovedRoute(m: World, n: nat, k: nat, p: Id)
    requires PlanInv(m, n) && Moves(m, k, p)
    ensures p in m.past.asked && p !in m.pending && p !in m.fired && m.heap[p].current < |m.heap[p].steps|
    ensures var t := m.heap[p].(current := Following(m.heap[p]));
            var v, all := Visits(Fire(m, k), p), Itinerary(m.past.asked[p]);
            v != [] && Last(v).step == t.steps[t.current] && Route(v) <= all && Route(v) + Rest(t) == all
  {
    assert Good(m, p) && Fine(m, n, p);
    CountPositive(m.flight, p);
    var t := m.heap[p];
    MoveEffect(m, n, k, p);
    PlacedVisits(Moved(m, k, p), n, p);
    NextOfRest(t);
    var next := t.(current := Following(t));
    RouteSplit(Route(Visits(m, p)), t.steps[Following(t)], Rest(next), Itinerary(m.past.asked[p]));
  }

  lemma MovedPlan(m: World, n: nat, k: nat, p: Id)
    requires PlanInv(m, n) && Moves(m, k, p)
    ensures PlanGood(Fire(m, k), p)
  {
    assert Fine(m, n, p);
    MoveEffect(m, n, k, p);
    MovedRoute(m, n, k, p);
    var t, r := m.heap[p].(current := Following(m.heap[p])), Fire(m, k);
    if p in r.heap { SameRest(t, r.heap[p]); }
  }

  lemma GrownTaken(had: seq<Visit>, v: seq<Visit>)
    requires |v| == |had| + 1 && v[..|had|] == had && forall i :: 0 <= i < |had| ==> had[i].Taken?
    ensures forall i :: 0 <= i < |v| - 1 ==> v[i].Taken?
    ensures had != [] ==> v[0] == had[0]
  {
    assert forall i :: 0 <= i < |had| ==> v[i] == v[..|had|][i];
  }

  lemma MovedTaken(m: World, n: nat, k: nat, p: Id)
    requires PlanInv(m, n) && Moves(m, k, p)
    ensures TakenGood(Fire(m, k), p)
  {
    assert Good(m, p) && Fine(m, n, p);
    CountPositive(m.flight, p);
    MoveEffect(m, n, k, p);
    PlacedVisits(Moved(m, k, p), n, p);
    GrownTaken(Visits(m, p), Visits(Fire(m, k), p));
  }

  lemma MoveOnFine(m: World, n: nat, k: nat, p: Id)
    requires PlanInv(m, n) && Moves(m, k, p)
    ensures Fine(Fire(m, k), n, p)
  {
    assert Fine(m, n, p);
    MoveEffect(m, n, k, p);
    MovedPlan(m, n, k, p);
    MovedTaken(m, n, k, p);
    PlacedVisits(Moved(m, k, p), n, p);
    forall w: nat, s: nat ensures SlotGood(Fire(m, k), n, p, w, s) {
      InNoSlot(m, p, w, s);
      PlacedSlots(Moved(m, k, p), n, p, w, s);
      UnrefSlots(PlaceTimer(Moved(m, k, p), p), n, p, w, s);
    }
  }

  /** The callback runs: no stage is left, so the visits are the whole itinerary. */
  lemma FireRunFine(m: World, n: nat, k: nat, p: Id)
    requires PlanInv(m, n) && k < |m.flight| && m.flight[k] == p && p in m.heap
    requires !m.heap[p].removed && !HasNextStage(m.heap[p])
    ensures Fine(Fire(m, k), n, p)
  {
    assert Good(m, p) && Fine(m, n, p);
    CountPositive(m.flight, p);
    NextOfRest(m.heap[p]);
    var ran := m.(flight := Remove(m.flight, k), fired := m.fired + [p],
                  heap := m.heap[p := m.heap[p].(current := Following(m.heap[p]))]);
    UnrefStage(ran, p, p);
    assert Route(Visits(m, p)) + [] == Route(Visits(m, p));
    forall w: nat, s: nat ensures SlotGood(Fire(m, k), n, p, w, s) { InNoSlot(m, p, w, s); }
  }

  lemma FireFine(m: World, n: nat, k: nat, p: Id)
    requires PlanInv(m, n) && k < |m.flight|
    ensures Fine(Fire(m, k), n, p)
  {
    assert Fine(m, n, p);
    if m.flight[k] != p {
      FireOtherSteady(m, k, p);
      SteadyFine(m, Fire(m, k), n, p);
    } else if p !in m.heap || m.heap[p].removed {
      FireRemovedSteady(m, k, p);
      SteadyFine(m, Fire(m, k), n, p);
    } else if HasNextStage(m.heap[p]) {
      MoveOnFine(m, n, k, p);
    } else {
      FireRunFine(m, n, k, p);
    }
  }

  // ---------------------------------------------------------------------------
  // Ticks
  // ---------------------------------------------------------------------------

  lemma TickElsewhere(m: World, n: nat, w: nat, p: Id)
    requires PlanInv(m, n) && w < |m.wheels| && !m.wheels[w].stopped && p !in Slot(Advance(m, w), w)
    ensures Fine(Tick(m, w), n, p)
  {
    var a := Advance(m, w);
    assert Fine(m, n, p);
    MaintainFrame(a, w, 0, p);
    var r := MaintainFrom(a, w, 0);
    SameForFine(m, r, p);
    assert Slot(r, w)[0..] == Slot(r, w) && Slot(a, w)[0..] == Slot(a, w);
    forall v: nat, s: nat ensures SlotGood(r, n, p, v, s) { TickSlotElsewhere(m, r, n, w, p, v, s); }
  }

  lemma SameForFine(m: World, r: World, p: Id)
    requires PlanGood(m, p) && TakenGood(m, p) && Quiet(m, r) && SameFor(m, r, p) && (p in r.flight ==> p in m.flight)
    ensures PlanGood(r, p) && TakenGood(r, p)
  {
  }

  lemma TickSlotElsewhere(m: World, r: World, n: nat, w: nat, p: Id, v: nat, s: nat)
    requires Wf(m) && Sized(m, n) && w < |m.wheels| && SlotGood(m, n, p, v, s)
    requires var a := Advance(m, w); SlotOnly(a, r, w) && SameFor(a, r, p) && p !in Slot(r, w)
    ensures SlotGood(r, n, p, v, s)
  {
    var a := Advance(m, w);
    if v < |r.wheels| && s < |r.wheels[v].slots| && p in r.wheels[v].slots[s] {
      assert v != w || s != a.wheels[w].position;
      assert p in m.wheels[v].slots[s];
      if v == w { DistNext(m.wheels[w].position, s, n); }
    }
  }

  lemma ClosedRoute(visits: seq<Visit>, t: nat, now: nat)
    ensures var c := Closed(visits, t, now);
            && Route(c) == Route(visits) && |c| == |visits| && (forall i :: 0 <= i < |visits| - 1 ==> c[i] == visits[i])
            && (visits != [] ==> var v := Last(visits); Last(c) == Taken(v.step, v.position, v.start, v.begun, t, now))
  {
  }

  lemma GatheredPlan(m: World, r: World, w: nat, p: Id)
    requires PlanGood(m, p) && TakenGood(m, p) && p in m.heap && p !in m.pending && p !in m.fired
    requires w < |r.wheels| && WfWheel(r.wheels[w]) && Quiet(m, r) && Gathered(m, r, w, p)
    ensures PlanGood(r, p) && TakenGood(r, p)
  {
    ClosedRoute(Visits(m, p), r.wheels[w].ticks, Clock(r));
    if p in r.heap { SameRest(m.heap[p], r.heap[p]); }
  }

  /** Dropped or kept, the timer has the visits it had. */
  lemma DroppedPlan(m: World, r: World, w: nat, p: Id)
    requires PlanGood(m, p) && TakenGood(m, p) && p in m.heap
    requires w < |r.wheels| && WfWheel(r.wheels[w]) && Quiet(m, r) && Dropped(m, r, w, p)
    ensures PlanGood(r, p) && TakenGood(r, p)
  {
    if p in r.heap && p !in r.fired && p !in r.pending { SameRest(m.heap[p], r.heap[p]); }
  }

  lemma KeptPlan(m: World, r: World, w: nat, p: Id)
    requires PlanGood(m, p) && TakenGood(m, p) && p in m.heap
    requires w < |r.wheels| && WfWheel(r.wheels[w]) && Quiet(m, r) && Kept(m, r, w, p)
    ensures PlanGood(r, p) && TakenGood(r, p)
  {
    if p !in r.fired && p !in r.pending { SameRest(m.heap[p], r.heap[p]); }
  }

  /** The slot the next tick comes to. */
  function Upcoming(m: World, w: nat): (s: nat)
    requires w < |m.wheels| && WfWheel(m.wheels[w])
    ensures s < |m.wheels[w].slots|
  {
    Advance(m, w).wheels[w].position
  }

  /** The timer is in that slot, and the wheel is running. */
  predicate Due(m: World, w: nat, p: Id) {
    && w < |m.wheels| && WfWheel(m.wheels[w]) && !m.wheels[w].stopped && p in m.wheels[w].slots[Upcoming(m, w)]
  }

  lemma DueRecord(m: World, w: nat, p: Id)
    requires Inv(m) && Due(m, w, p)
    ensures p in m.heap && p !in m.pending && p !in m.fired
  {
    var s := Upcoming(m, w);
    var j :| 0 <= j < |m.wheels[w].slots[s]| && m.wheels[w].slots[s][j] == p;
    InSlotCounts(m, w, s, j);
    assert Good(m, p);
  }

  lemma DueHandled(m: World, w: nat, p: Id)
    requires Inv(m) && Due(m, w, p)
    ensures p in m.heap && Handled(Advance(m, w), Tick(m, w), w, p)
  {
    var a := Advance(m, w);
    DueRecord(m, w, p);
    AdvanceInv(m, w);
    var j :| 0 <= j < |Slot(a, w)| && Slot(a, w)[j] == p;
    MaintainHandles(a, w, 0, j, p);
  }

  /** With no lap left, the visit ends on time. */
  lemma DueOnTime(m: World, n: nat, w: nat, p: Id)
    requires PlanInv(m, n) && Due(m, w, p) && p in m.heap && !m.heap[p].removed
    ensures Visits(m, p) != []
    ensures var v := Last(Visits(m, p));
            && v.position < n
            && m.wheels[w].ticks + 1 + Laps(m.heap[p].circle) * n == v.start + Span(n, v.position, v.step.delay)
  {
    var s := Upcoming(m, w);
    assert Fine(m, n, p);
    assert SlotGood(m, n, p, w, s) && InSlot(m, w, s, p);
    DistNext(m.wheels[w].position, s, n);
  }

  lemma KeptSlot(m: World, n: nat, w: nat, p: Id)
    requires PlanInv(m, n) && Due(m, w, p) && p in m.heap && Stays(m.heap[p])
    requires Handled(Advance(m, w), Tick(m, w), w, p)
    ensures SlotGood(Tick(m, w), n, p, w, Upcoming(m, w))
  {
    assert Fine(m, n, p) && SlotGood(m, n, p, w, Upcoming(m, w));
    DueOnTime(m, n, w, p);
    LapDown(m.heap[p].circle, n);
  }

  lemma DueSlots(m: World, n: nat, w: nat, p: Id, v: nat, s: nat)
    requires PlanInv(m, n) && Due(m, w, p)
    ensures SlotGood(Tick(m, w), n, p, v, s)
  {
    var a, r, at := Advance(m, w), Tick(m, w), Upcoming(m, w);
    DueHandled(m, w, p);
    if v < |r.wheels| && s < |r.wheels[v].slots| && p in r.wheels[v].slots[s] {
      AdvanceInv(m, w);
      if v != w || s != at {
        OneSlot(a, w, at, v, s, p);
      } else {
        KeptSlot(m, n, w, p);
      }
    }
  }

  lemma ClosedTimes(visits: seq<Visit>, n: nat, t: nat, now: nat)
    requires visits != [] && forall i :: 0 <= i < |visits| ==> VisitGood(n, visits[i])
    requires var v := Last(visits); v.position < n && t == v.start + Span(n, v.position, v.step.delay)
    ensures forall i :: 0 <= i < |visits| ==> VisitGood(n, Closed(visits, t, now)[i])
  {
  }

  lemma DueTimes(m: World, n: nat, w: nat, p: Id)
    requires PlanInv(m, n) && Due(m, w, p)
    ensures TimeGood(Tick(m, w), n, p)
  {
    assert Fine(m, n, p);
    DueHandled(m, w, p);
    if !m.heap[p].removed && !Stays(m.heap[p]) {
      DueOnTime(m, n, w, p);
      NoLaps(m.heap[p].circle, n);
      ClosedTimes(Visits(m, p), n, m.wheels[w].ticks + 1, Clock(Tick(m, w)));
      assert Visits(Tick(m, w), p) == Closed(Visits(m, p), m.wheels[w].ticks + 1, Clock(Tick(m, w)));
    }
  }

  lemma NoLaps(circle: int, n: nat)
    requires circle <= 1
    ensures Laps(circle) * n == 0
  {
  }

  lemma TickFine(m: World, n: nat, w: nat, p: Id)
    requires PlanInv(m, n) && w < |m.wheels| && !m.wheels[w].stopped
    ensures Fine(Tick(m, w), n, p)
  {
    if !Due(m, w, p) {
      TickElsewhere(m, n, w, p);
    } else {
      DuePlan(m, n, w, p);
      DueTimes(m, n, w, p);
      forall v: nat, s: nat ensures SlotGood(Tick(m, w), n, p, v, s) { DueSlots(m, n, w, p, v, s); }
    }
  }

  lemma DuePlan(m: World, n: nat, w: nat, p: Id)
    requires PlanInv(m, n) && Due(m, w, p)
    ensures PlanGood(Tick(m, w), p) && TakenGood(Tick(m, w), p)
  {
    assert Fine(m, n, p);
    var a, r := Advance(m, w), Tick(m, w);
    DueRecord(m, w, p);
    DueHandled(m, w, p);
    if m.heap[p].removed {
      DroppedPlan(a, r, w, p);
    } else if Stays(m.heap[p]) {
      KeptPlan(a, r, w, p);
    } else {
      GatheredPlan(a, r, w, p);
    }
  }

  // ---------------------------------------------------------------------------
  // Runs
  // ---------------------------------------------------------------------------

  lemma OtherStepFine(m: World, n: nat, step: Step, p: Id)
    requires PlanInv(m, n) && !step.DoTick?
    ensures Fine(Apply(m, step), n, p)
  {
    var r := Apply(m, step);
    assert Fine(m, n, p);
    match step
    case DoCreate(d) =>
      if p == m.nextId { CreateFine(m, n, d); } else { CreateSteady(m, d, p); SteadyFine(m, r, n, p); }
    case DoRun(w) =>
      if 0 < w < |m.wheels| && p == m.nextId { ArmFine(m, n, w); } else { RunSteady(m, w, p); SteadyFine(m, r, n, p); }
    case DoPlace(q) =>
      if p == q && p in m.pending && CanPlace(m, p) { PlaceFine(m, n, p); }
      else if p != q { PlaceSteady(m, q, p); SteadyFine(m, r, n, p); }
    case DoRelease(q) => ReleaseSteady(m, q, p); SteadyFine(m, r, n, p);
    case DoFire(k) => if k < |m.flight| { FireFine(m, n, k, p); }
    case DoCancel(q) => CancelSteady(m, q, p); SteadyFine(m, r, n, p);
    case DoStopTimer(q) => StopTimerSteady(m, q, p); SteadyFine(m, r, n, p);
    case DoDiscard(q) => DiscardSteady(m, q, p); SteadyFine(m, r, n, p);
    case DoStopWheel(w) => StopWheelSteady(m, w, p); SteadyFine(m, r, n, p);
    case DoDropHead(w, s) => DropHeadSteady(m, w, s, p); SteadyFine(m, r, n, p);
    case DoAbortHead(w, s) => AbortHeadSteady(m, w, s, p); SteadyFine(m, r, n, p);
  }

  lemma TickSized(m: World, n: nat, w: nat)
    requires Inv(m) && Sized(m, n) && w < |m.wheels|
    ensures Sized(Tick(m, w), n)
  {
    if !m.wheels[w].stopped {
      assert Good(m, m.nextId) && m.nextId !in m.heap;
      var a := Advance(m, w);
      AdvanceInv(m, w);
      assert Good(a, m.nextId);
      InNoSlot(a, m.nextId, w, a.wheels[w].position);
      MaintainFrame(a, w, 0, m.nextId);
    }
  }

  /** Every step keeps the invariant of plans and times. */
  lemma StepPlan(m: World, n: nat, step: Step)
    requires PlanInv(m, n)
    ensures PlanInv(Apply(m, step), n)
  {
    StepInv(m, step);
    if step.DoTick? {
      if step.wheel < |m.wheels| && !m.wheels[step.wheel].stopped {
        TickSized(m, n, step.wheel);
        forall p: Id ensures Fine(Apply(m, step), n, p) { TickFine(m, n, step.wheel, p); }
      }
    } else {
      OtherStepShape(m, step);
      forall p: Id ensures Fine(Apply(m, step), n, p) { OtherStepFine(m, n, step, p); }
    }
  }

  lemma {:induction false} RunPlan(m: World, n: nat, steps: seq<Step>)
    requires PlanInv(m, n)
    ensures PlanInv(Run(m, steps), n)
    decreases |steps|
  {
    if steps != [] {
      StepPlan(m, n, steps[0]);
      RunPlan(Apply(m, steps[0]), n, steps[1..]);
    }
  }

  lemma ReachablePlan(n: nat, steps: seq<Step>)
    requires n > 0
    ensures PlanInv(Run(Init(n), steps), n)
  {
    ReachableInv(n, []);
    forall p: Id ensures Fine(Init(n), n, p) { }
    RunPlan(Init(n), n, steps);
  }
}
