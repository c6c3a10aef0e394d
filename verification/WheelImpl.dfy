/**
 * The timing wheel in place: slot lists, the timer map and reference counts changed step by step.
 *
 * The lists are walked as the C code walks them: entries are unlinked on the way, expired timers are
 * gathered and then handled one by one.
 *
 * Every method moves State by one step of Wheel or by a run of them, and keeps the invariant.
 */
module WheelImpl {
  import opened TimerPlan
  import opened Wheel
  import opened WheelSafety

  class Hierarchy {
    var wheels: seq<SubWheel>
    var heap: map<Id, Timer>
    var table: set<Id>
    var pending: set<Id>
    var leaving: set<Id>
    var flight: seq<Id>
    var fired: seq<Id>
    var cancelled: set<Id>
    var nextId: Id
    /** What has happened to the timers; the C code keeps no record of it. */
    ghost var past: Past

    ghost function State(): World
      reads this
    {
      World(wheels, heap, table, pending, leaving, flight, fired, cancelled, past, nextId)
    }

    constructor (slotCount: nat)
      requires slotCount > 0
      ensures State() == Init(slotCount) && Inv(State())
    {
      wheels := FreshWheels(5, slotCount);
      heap, table, pending, leaving, flight, fired, cancelled, nextId := map[], {}, {}, {}, [], [], {}, 1;
      past := Past(map[], map[], {}, []);
      new;
      ReachableInv(slotCount, []);
    }

    method UnrefTimer(p: Id)
      modifies this`heap
      ensures State() == Unref(old(State()), p)
    {
      if p in heap {
        var count := heap[p].refs;
        if count <= 1 {
          heap := heap - {p};
        } else {
          heap := heap[p := heap[p].(refs := count - 1)];
        }
      }
    }

    method Enqueue(p: Id)
      requires CanPlace(State(), p)
      modifies this`heap, this`wheels, this`past
      ensures State() == PlaceTimer(old(State()), p)
    {
      var step := heap[p].steps[heap[p].current];
      var wheel := wheels[step.wheel];
      var n := |wheel.slots|;
      var s := SlotFor(wheel.position, step.delay, n);
      past := WithVisits(State(), p, Visits(State(), p) + [Open(step, wheel.position, wheel.ticks, Clock(State()))]);
      heap := heap[p := heap[p].(circle := CircleFor(step.delay, n), refs := heap[p].refs + 1)];
      wheels := wheels[step.wheel := wheel.(slots := wheel.slots[s := wheel.slots[s] + [p]])];
    }

    /** Takes entry k out of the current slot list of wheel w. */
    method Unlink(w: nat, k: nat)
      requires w < |wheels| && WfWheel(wheels[w]) && k < |Slot(State(), w)|
      modifies this`wheels
      ensures State() == Unlinked(old(State()), w, k)
    {
      var wheel := wheels[w];
      var list := wheel.slots[wheel.position];
      wheels := wheels[w := wheel.(slots := wheel.slots[wheel.position := list[..k] + list[k + 1..]])];
    }

    method CollectEntry(w: nat, k: nat)
      requires w < |wheels| && WfWheel(wheels[w]) && k < |Slot(State(), w)| && Slot(State(), w)[k] in heap
      modifies this`heap, this`wheels, this`flight, this`table, this`past
      ensures State() == Collect(old(State()), w, k)
    {
      var p := wheels[w].slots[wheels[w].position][k];
      var t := heap[p];
      Unlink(w, k);
      var circle := if t.circle > 0 then t.circle - 1 else t.circle;
      heap := heap[p := t.(circle := circle, refs := t.refs + 1)];
      flight := flight + [p];
      past := WithVisits(State(), p, Closed(Visits(State(), p), wheels[w].ticks, Clock(State())));
      UnmapTimer(p);
      UnrefTimer(p);
    }

    method UnmapTimer(p: Id)
      modifies this`heap, this`table
      ensures State() == Unmap(old(State()), p)
    {
      if p in table {
        table := table - {p};
        UnrefTimer(p);
      }
    }

    /** Drops, counts down or collects entry k of the current slot; says whether it stays. */
    method MaintainEntry(w: nat, k: nat) returns (stays: bool)
      requires w < |wheels| && WfWheel(wheels[w]) && k < |Slot(State(), w)|
      modifies this`heap, this`wheels, this`flight, this`table, this`past
      ensures State() == MaintainOne(old(State()), w, k)
      ensures w < |wheels| && WfWheel(wheels[w])
      ensures |Slot(State(), w)| == if stays then |Slot(old(State()), w)| else |Slot(old(State()), w)| - 1
    {
      var p := wheels[w].slots[wheels[w].position][k];
      if p !in heap || heap[p].removed {
        Unlink(w, k);
        UnrefTimer(p);
        return false;
      }
      if heap[p].circle > 1 {
        heap := heap[p := heap[p].(circle := heap[p].circle - 1)];
        return true;
      }
      CollectEntry(w, k);
      return false;
    }

    /** timing_wheel_maintenance: walks the current slot list, dropping, counting down and collecting. */
    method Maintenance(w: nat)
      requires w < |wheels| && WfWheel(wheels[w])
      modifies this`heap, this`wheels, this`flight, this`table, this`past
      ensures State() == MaintainFrom(old(State()), w, 0)
    {
      var k := 0;
      while k < |wheels[w].slots[wheels[w].position]|
        invariant w < |wheels| && WfWheel(wheels[w]) && 0 <= k <= |Slot(State(), w)|
        invariant MaintainFrom(State(), w, k) == MaintainFrom(old(State()), w, 0)
        decreases |Slot(State(), w)| - k
      {
        k := MaintainOn(w, k);
      }
    }

    /** One entry of the walk; the place of the next one. */
    method MaintainOn(w: nat, k: nat) returns (next: nat)
      requires w < |wheels| && WfWheel(wheels[w]) && k < |Slot(State(), w)|
      modifies this`heap, this`wheels, this`flight, this`table, this`past
      ensures w < |wheels| && WfWheel(wheels[w]) && next <= |Slot(State(), w)|
      ensures MaintainFrom(State(), w, next) == MaintainFrom(old(State()), w, k)
      ensures |Slot(State(), w)| - next == |Slot(old(State()), w)| - k - 1
    {
      MaintainNext(State(), w, k);
      var stays := MaintainEntry(w, k);
      next := if stays then k + 1 else k;
    }

    /** timing_wheel_on_tick up to the point where the expired timers are handled. */
    method OnTick(w: nat)
      requires w < |wheels| && WfWheel(wheels[w])
      modifies this`heap, this`wheels, this`flight, this`table, this`past
      ensures State() == Tick(old(State()), w)
      ensures Inv(old(State())) ==> Inv(State())
    {
      ghost var m := State();
      if Inv(m) { StepInv(m, DoTick(w)); }
      if wheels[w].stopped { return; }
      var wheel := wheels[w];
      wheels := wheels[w := wheel.(position := (wheel.position + 1) % |wheel.slots|, ticks := wheel.ticks + 1,
                                   beats := wheel.beats + [if w == 0 then 0 else wheels[w - 1].ticks])];
      Maintenance(w);
    }

    /** The stage after the current one; steps without a delay are skipped. */
    method FindStage(t: Timer) returns (next: nat)
      ensures next == Following(t)
    {
      next := t.current;
      if t.current + 1 < |t.steps| {
        next := t.current + 1;
        while next < |t.steps| && t.steps[next].delay == 0
          invariant t.current + 1 <= next <= |t.steps|
          invariant NextStage(t.steps, t.current + 1) == NextStage(t.steps, next)
        {
          next := next + 1;
        }
      }
    }

    /** The body of the fire loop for the first expired timer. */
    method FireFirst()
      requires flight != []
      modifies this`heap, this`wheels, this`flight, this`fired, this`past
      ensures State() == Fire(old(State()), 0)
    {
      var p := flight[0];
      assert Remove(flight, 0) == flight[1..];
      flight := flight[1..];
      if p !in heap || heap[p].removed {
        UnrefTimer(p);
        return;
      }
      var t := heap[p];
      var next := FindStage(t);
      heap := heap[p := t.(current := next)];
      if t.current + 1 < |t.steps| && next < |t.steps| {
        var step := t.steps[next];
        if step.wheel < |wheels| && WfWheel(wheels[step.wheel]) {
          Enqueue(p);
          UnrefTimer(p);
        }
        return;
      }
      fired := fired + [p];
      UnrefTimer(p);
    }

    /** timing_wheel_fire_expired: each expired timer is handled once, in order. */
    method FireExpired()
      requires Inv(State())
      modifies this`heap, this`wheels, this`flight, this`fired, this`past
      ensures Inv(State()) && flight == []
      ensures State() == FireAll(old(State()))
    {
      while flight != []
        invariant Inv(State()) && FireAll(State()) == FireAll(old(State()))
        decreases |flight|
      {
        FireOne();
      }
    }

    method FireOne()
      requires Inv(State()) && flight != []
      modifies this`heap, this`wheels, this`flight, this`fired, this`past
      ensures Inv(State()) && FireAll(State()) == FireAll(old(State())) && |flight| + 1 == old(|flight|)
    {
      StepInv(State(), DoFire(0));
      FireNext(State());
      FireFirst();
    }

    /** The steps from the largest unit in use down, each with its wheel. */
    method BuildPlan(delay: Duration) returns (steps: seq<PlanStep>)
      ensures steps == PlanOf(delay)
    {
      if delay.days > 0 {
        steps := [PlanStep(delay.days, 4), PlanStep(delay.hours, 3), PlanStep(delay.minutes, 2),
                  PlanStep(delay.seconds, 1), PlanStep(delay.milliseconds, 0)];
      } else if delay.hours > 0 {
        steps := [PlanStep(delay.hours, 3), PlanStep(delay.minutes, 2), PlanStep(delay.seconds, 1),
                  PlanStep(delay.milliseconds, 0)];
      } else if delay.minutes > 0 {
        steps := [PlanStep(delay.minutes, 2), PlanStep(delay.seconds, 1), PlanStep(delay.milliseconds, 0)];
      } else if delay.seconds > 0 {
        steps := [PlanStep(delay.seconds, 1), PlanStep(delay.milliseconds, 0)];
      } else {
        steps := [PlanStep(delay.milliseconds, 0)];
      }
    }

    /** The record and its entry in the map. */
    method CreateTimer(delay: Duration) returns (id: Id)
      modifies this`heap, this`table, this`pending, this`nextId, this`past
      ensures id == old(nextId) && State() == Create(old(State()), delay)
    {
      var copy := new Delay(delay);
      copy.Rectify();
      var steps := BuildPlan(copy.value);
      id := nextId;
      heap := heap[id := Timer(steps, 0, 0, false, 2)];
      past := Asked(State(), After(delay));
      table, pending, nextId := table + {id}, pending + {id}, id + 1;
    }

    /** hierarchical_timing_wheel_set_timer. */
    method SetTimer(delay: Duration) returns (id: Id)
      requires Inv(State())
      modifies this
      ensures Inv(State()) && id == old(nextId)
      ensures State() == Run(old(State()), [DoCreate(delay), DoPlace(id), DoRelease(id)])
    {
      ghost var m := State();
      ghost var run := [DoCreate(delay), DoPlace(nextId), DoRelease(nextId)];
      RunInv(m, run);
      RunThree(m, run[0], run[1], run[2]);
      id := CreateTimer(delay);
      StepInv(m, DoCreate(delay));
      PlaceNew(id);
    }

    /** The first placement; then the creator gives up its reference. */
    method PlaceNew(id: Id)
      requires Inv(State()) && id in pending && id in heap
      modifies this`heap, this`wheels, this`pending, this`leaving, this`past
      ensures State() == Release(Place(old(State()), id), id)
    {
      assert Good(State(), id);
      Enqueue(id);
      pending, leaving := pending - {id}, leaving + {id};
      leaving := leaving - {id};
      UnrefTimer(id);
    }

    /** timing_wheel_run: the millisecond wheel goes on; an upper wheel gets a driver on the wheel below. */
    method RunWheel(w: nat)
      requires Inv(State()) && w < |wheels|
      modifies this
      ensures Inv(State())
      ensures w == 0 ==> State() == Apply(old(State()), DoRun(0))
      ensures w > 0 ==> State() == Run(old(State()), [DoRun(w), DoPlace(old(nextId)), DoRelease(old(nextId))])
    {
      ghost var m := State();
      StepInv(m, DoRun(w));
      if w == 0 {
        wheels := wheels[0 := wheels[0].(stopped := false)];
      } else {
        ghost var run := [DoRun(w), DoPlace(nextId), DoRelease(nextId)];
        RunInv(m, run);
        RunThree(m, run[0], run[1], run[2]);
        var id := MakeDriver(w);
        PlaceNew(id);
      }
    }

    /** A timer that is in no map: its plan is one step, the interval of the wheel it ticks. */
    method MakeDriver(w: Upper) returns (id: Id)
      requires w < |wheels|
      modifies this`heap, this`wheels, this`pending, this`nextId, this`past
      ensures id == old(nextId) && State() == Arm(old(State()), w)
    {
      id := nextId;
      heap := heap[id := Timer([PlanStep(Interval(w), w - 1)], 0, 0, false, 1)];
      past := Asked(State(), Drive(w));
      wheels := wheels[w := wheels[w].(drivers := wheels[w].drivers + [id])];
      pending, nextId := pending + {id}, id + 1;
    }

    method CancelTimer(p: Id)
      modifies this`heap, this`table, this`cancelled
      ensures State() == Cancel(old(State()), p)
    {
      if p in table {
        if p in heap { heap := heap[p := heap[p].(removed := true)]; }
        table, cancelled := table - {p}, cancelled + {p};
        UnrefTimer(p);
      }
    }

    method StopWheels()
      requires Inv(State())
      modifies this`wheels
      ensures Inv(State()) && State() == StopAll(old(State()), old(|wheels|))
      ensures forall i :: 0 <= i < |wheels| ==> wheels[i].stopped
    {
      ghost var m := State();
      var i := 0;
      while i < |wheels|
        invariant 0 <= i <= |wheels| == |m.wheels| && Inv(State()) && State() == StopAll(m, i)
        invariant forall j :: 0 <= j < i ==> wheels[j].stopped
      {
        StepInv(State(), DoStopWheel(i));
        wheels := wheels[i := wheels[i].(stopped := true)];
        i := i + 1;
      }
    }

    /** A timer still in the map is cancelled and its abort callback is called. */
    method StopTimerAt(p: Id)
      requires p in table
      modifies this`heap, this`table, this`cancelled, this`past
      ensures State() == StopTimer(old(State()), p)
    {
      CancelTimer(p);
      past := past.(aborted := past.aborted + [p]);
    }

    /** Stops every timer in the map, in some order. */
    method StopTimers() returns (ghost order: seq<Id>)
      requires Inv(State())
      modifies this`heap, this`table, this`cancelled, this`past
      ensures Inv(State()) && State() == StopEach(old(State()), order) && table == {}
      ensures (set p | p in order) == old(table) && cancelled == old(cancelled) + old(table)
      ensures past.aborted == old(past.aborted) + order
    {
      ghost var m := State();
      order := [];
      while table != {}
        invariant Inv(State()) && State() == StopEach(m, order) && past.aborted == m.past.aborted + order
        invariant (set p | p in order) + table == m.table && cancelled + table == m.cancelled + m.table
        decreases table
      {
        var p :| p in table;
        StopNext(m, order, State(), p);
        StopTimerAt(p);
        order := order + [p];
      }
    }

    /**
     * hierarchical_timing_wheel_stop: no wheel runs on, and every timer still in the map is cancelled and
     * its abort callback called once.
     */
    method Stop() returns (ghost order: seq<Id>)
      requires Inv(State())
      modifies this`wheels, this`heap, this`table, this`cancelled, this`past
      ensures Inv(State()) && State() == StopEach(StopAll(old(State()), old(|wheels|)), order)
      ensures (set p | p in order) == old(table) && table == {} && cancelled == old(cancelled) + old(table)
      ensures past.aborted == old(past.aborted) + order
      ensures forall i :: 0 <= i < |wheels| ==> wheels[i].stopped
    {
      StopWheels();
      order := StopTimers();
    }

    /** Takes the first timer off a slot list, calling its abort callback unless it was cancelled. */
    method AbortFirst(w: nat, s: nat)
      requires HasHead(State(), w, s)
      modifies this`wheels, this`heap, this`past
      ensures State() == AbortHead(old(State()), w, s)
    {
      var list := wheels[w].slots[s];
      var p := list[0];
      if p in heap && !heap[p].removed {
        past := past.(aborted := past.aborted + [p]);
      }
      wheels := wheels[w := wheels[w].(slots := wheels[w].slots[s := list[1..]])];
      UnrefTimer(p);
    }

    /** timing_wheel_worker_abort: the wheel stops and its slots are emptied in order. */
    method AbortWheel(w: nat)
      requires Inv(State()) && w < |wheels|
      modifies this`wheels, this`heap, this`past
      ensures Inv(State()) && State() == AbortFrom(StopWheel(old(State()), w), w, 0)
    {
      StepInv(State(), DoStopWheel(w));
      wheels := wheels[w := wheels[w].(stopped := true)];
      ghost var m := State();
      var s := 0;
      while s < |wheels[w].slots|
        invariant w < |wheels| && s <= |wheels[w].slots| == |m.wheels[w].slots| && Inv(State())
        invariant AbortFrom(State(), w, s) == AbortFrom(m, w, 0)
        decreases |wheels[w].slots| - s, if s < |wheels[w].slots| then |wheels[w].slots[s]| else 0
      {
        if wheels[w].slots[s] == [] {
          s := s + 1;
        } else {
          AbortNext(State(), w, s);
          AbortFirst(w, s);
        }
      }
    }
  }

  lemma MaintainNext(m: World, w: nat, k: nat)
    requires w < |m.wheels| && WfWheel(m.wheels[w]) && k < |Slot(m, w)|
    ensures var r := MaintainOne(m, w, k);
            MaintainFrom(m, w, k) == MaintainFrom(r, w, if |Slot(r, w)| == |Slot(m, w)| then k + 1 else k)
  {
  }

  /** Emptying the slots of wheel w from slot s on. */
  ghost function AbortFrom(m: World, w: nat, s: nat): World
    requires w < |m.wheels| && s <= |m.wheels[w].slots|
    decreases |m.wheels[w].slots| - s, if s < |m.wheels[w].slots| then |m.wheels[w].slots[s]| else 0
  {
    if s == |m.wheels[w].slots| then m
    else if m.wheels[w].slots[s] == [] then AbortFrom(m, w, s + 1)
    else AbortFrom(AbortHead(m, w, s), w, s)
  }

  lemma AbortNext(m: World, w: nat, s: nat)
    requires Inv(m) && HasHead(m, w, s)
    ensures var r := AbortHead(m, w, s);
            && Inv(r) && |r.wheels| == |m.wheels| && |r.wheels[w].slots| == |m.wheels[w].slots|
            && |r.wheels[w].slots[s]| == |m.wheels[w].slots[s]| - 1 && AbortFrom(r, w, s) == AbortFrom(m, w, s)
  {
    StepInv(m, DoAbortHead(w, s));
  }

  ghost function StopAll(m: World, n: nat): World {
    if n == 0 then m else Apply(StopAll(m, n - 1), DoStopWheel(n - 1))
  }

  ghost function StopEach(m: World, order: seq<Id>): World {
    if order == [] then m else StopTimer(StopEach(m, order[..|order| - 1]), order[|order| - 1])
  }

  lemma StopNext(m: World, order: seq<Id>, u: World, p: Id)
    requires Inv(u) && u == StopEach(m, order) && p in u.table
    ensures var r := StopTimer(u, p);
            && Inv(r) && r == StopEach(m, order + [p]) && r.past.aborted == u.past.aborted + [p]
            && r.table == u.table - {p} && r.cancelled == u.cancelled + {p}
    ensures (set q | q in order + [p]) == (set q | q in order) + {p}
  {
    StepInv(u, DoStopTimer(p));
    assert (order + [p])[..|order|] == order;
  }

  /** The first expired timer handled, until there is none. */
  ghost function FireAll(m: World): World
    decreases |m.flight|
  {
    if m.flight == [] then m
    else
      FireShortens(m);
      FireAll(Fire(m, 0))
  }

  lemma FireShortens(m: World)
    requires m.flight != []
    ensures |Fire(m, 0).flight| + 1 == |m.flight|
  {
  }

  lemma FireNext(m: World)
    requires m.flight != []
    ensures FireAll(Fire(m, 0)) == FireAll(m) && |Fire(m, 0).flight| + 1 == |m.flight|
  {
    FireShortens(m);
  }

  lemma RunThree(m: World, a: Step, b: Step, c: Step)
    ensures Run(m, [a, b, c]) == Apply(Apply(Apply(m, a), b), c)
  {
    assert [a, b, c][1..] == [b, c] && [b, c][1..] == [c] && [c][1..] == [];
    assert Run(Apply(Apply(m, a), b), [c]) == Apply(Apply(Apply(m, a), b), c);
  }
}
