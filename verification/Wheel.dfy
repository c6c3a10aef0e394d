/**
 * The hierarchical timing wheel as a state machine. Each step is one lock-held section of the C
 * code, or the handling of one expired timer, so a run is an arbitrary interleaving of them. Timers
 * live on a heap of records named by their id; a record is freed when its count drops to zero.
 */
module Wheel {
  import opened Words
  import opened TimerPlan

  type Id = nat

  datatype Timer = Timer(steps: seq<PlanStep>, current: nat, circle: int, removed: bool, refs: nat)

  /**
   * ticks, beats and drivers are history: the ticks the wheel has made, what the wheel below had made at
   * each of them, and the timers made to tick it.
   */
  datatype SubWheel = SubWheel(position: nat, slots: seq<seq<Id>>, stopped: bool, ticks: nat, beats: seq<nat>,
                               drivers: seq<Id>)

  /**
   * A stay in a slot: the position and the ticks of the wheel when it began and the ticks when the timer was
   * taken, with the ticks of the millisecond wheel at both moments.
   */
  datatype Visit =
    | Open(step: PlanStep, position: nat, start: nat, begun: nat)
    | Taken(step: PlanStep, position: nat, start: nat, begun: nat, end: nat, ended: nat)

  /**
   * History. asked: what every timer was made for. log: its visits. unmapped: timers dropped from the map
   * by destruction. aborted: calls of abort callbacks.
   */
  datatype Past = Past(asked: map<Id, Request>, log: map<Id, seq<Visit>>, unmapped: set<Id>, aborted: seq<Id>)

  /**
   * heap: the live records. table: the map of user timers. pending and leaving: timers whose creator
   * still holds its reference, before and after the first placement. flight: expired timers taken
   * off a slot and not yet handled. fired, cancelled and past are history; fired lists the timers whose
   * callback has been handed to the work pool.
   */
  datatype World =
    World(wheels: seq<SubWheel>, heap: map<Id, Timer>, table: set<Id>, pending: set<Id>, leaving: set<Id>,
          flight: seq<Id>, fired: seq<Id>, cancelled: set<Id>, past: Past, nextId: Id)

  /** Ticks of the millisecond wheel so far. */
  function Clock(m: World): nat {
    if m.wheels == [] then 0 else m.wheels[0].ticks
  }

  /** The visits of a timer so far. */
  function Visits(m: World, p: Id): seq<Visit> {
    if p in m.past.log then m.past.log[p] else []
  }

  function WithVisits(m: World, p: Id, visits: seq<Visit>): Past {
    m.past.(log := m.past.log[p := visits])
  }

  // ---------------------------------------------------------------------------
  // References
  // ---------------------------------------------------------------------------

  /** Drops a reference and frees the record at zero. */
  function Unref(m: World, p: Id): World {
    if p !in m.heap then m
    else if m.heap[p].refs <= 1 then m.(heap := m.heap - {p})
    else m.(heap := m.heap[p := m.heap[p].(refs := m.heap[p].refs - 1)])
  }

  /** The map drops a timer without marking it, as when it expires or on destruction. */
  function Unmap(m: World, p: Id): World {
    if p in m.table then Unref(m.(table := m.table - {p}), p) else m
  }

  // ---------------------------------------------------------------------------
  // Slots
  // ---------------------------------------------------------------------------

  predicate WfWheel(w: SubWheel) {
    |w.slots| > 0 && w.position < |w.slots|
  }

  /** Conversion of an unsigned 64-bit value to int32_t. */
  function ToInt32(x: nat): int {
    if x % TWO32 < 0x8000_0000 then x % TWO32 else x % TWO32 - TWO32
  }

  function SlotFor(position: nat, delay: U64, n: nat): (s: nat)
    requires n > 0
    ensures s < n
  {
    (position + delay) % TWO64 % n
  }

  function CircleFor(delay: U64, n: nat): int
    requires n > 0
  {
    ToInt32((if delay == 0 then TWO64 - 1 else delay - 1) / n)
  }

  function SetSlot(m: World, w: nat, s: nat, list: seq<Id>): World
    requires w < |m.wheels| && s < |m.wheels[w].slots|
  {
    m.(wheels := m.wheels[w := m.wheels[w].(slots := m.wheels[w].slots[s := list])])
  }

  predicate CanPlace(m: World, p: Id) {
    p in m.heap && m.heap[p].current < |m.heap[p].steps|
    && m.heap[p].steps[m.heap[p].current].wheel < |m.wheels|
    && WfWheel(m.wheels[m.heap[p].steps[m.heap[p].current].wheel])
  }

  /** timing_wheel_set_timer: the slot list takes a reference. */
  function PlaceTimer(m: World, p: Id): World
    requires CanPlace(m, p)
  {
    var t := m.heap[p];
    var step := t.steps[t.current];
    var wheel := m.wheels[step.wheel];
    var s := SlotFor(wheel.position, step.delay, |wheel.slots|);
    var m1 := m.(heap := m.heap[p := t.(circle := CircleFor(step.delay, |wheel.slots|), refs := t.refs + 1)],
                 past := WithVisits(m, p, Visits(m, p) + [Open(step, wheel.position, wheel.ticks, Clock(m))]));
    SetSlot(m1, step.wheel, s, wheel.slots[s] + [p])
  }

  // ---------------------------------------------------------------------------
  // One tick of a wheel
  // ---------------------------------------------------------------------------

  /** The timer stays in its slot for another revolution. */
  predicate Stays(t: Timer) {
    !t.removed && t.circle > 1
  }

  function Remove<T>(s: seq<T>, k: nat): seq<T>
    requires k < |s|
  {
    s[..k] + s[k + 1..]
  }

  function Slot(m: World, w: nat): seq<Id>
    requires w < |m.wheels| && WfWheel(m.wheels[w])
  {
    m.wheels[w].slots[m.wheels[w].position]
  }

  /** The current slot of wheel w without its entry k. */
  function Unlinked(m: World, w: nat, k: nat): World
    requires w < |m.wheels| && WfWheel(m.wheels[w]) && k < |Slot(m, w)|
  {
    SetSlot(m, w, m.wheels[w].position, Remove(Slot(m, w), k))
  }

  /** The last visit ends after t ticks of its wheel. */
  function Closed(visits: seq<Visit>, t: nat, now: nat): seq<Visit> {
    if visits == [] then visits
    else
      var n := |visits| - 1;
      var v := visits[n];
      visits[..n] + [Taken(v.step, v.position, v.start, v.begun, t, now)]
  }

  /** Entry k expires: the local list takes a reference, the map and the slot give theirs up. */
  function Collect(m: World, w: nat, k: nat): World
    requires w < |m.wheels| && WfWheel(m.wheels[w]) && k < |Slot(m, w)| && Slot(m, w)[k] in m.heap
  {
    var p := Slot(m, w)[k];
    var t := m.heap[p];
    var circle := if t.circle > 0 then t.circle - 1 else t.circle;
    var taken := Unlinked(m, w, k).(heap := m.heap[p := t.(circle := circle, refs := t.refs + 1)],
                                    flight := m.flight + [p],
                                    past := WithVisits(m, p, Closed(Visits(m, p), m.wheels[w].ticks, Clock(m))));
    Unref(Unmap(taken, p), p)
  }

  /** What maintenance does with entry k of the current slot: drop it, count it down, or collect it. */
  function MaintainOne(m: World, w: nat, k: nat): (r: World)
    requires w < |m.wheels| && WfWheel(m.wheels[w]) && k < |Slot(m, w)|
    ensures |r.wheels| == |m.wheels| && WfWheel(r.wheels[w])
    ensures r.wheels[w].position == m.wheels[w].position
    ensures Slot(r, w) == Slot(m, w) || Slot(r, w) == Remove(Slot(m, w), k)
  {
    var p := Slot(m, w)[k];
    if p !in m.heap || m.heap[p].removed then Unref(Unlinked(m, w, k), p)
    else if Stays(m.heap[p]) then m.(heap := m.heap[p := m.heap[p].(circle := m.heap[p].circle - 1)])
    else Collect(m, w, k)
  }

  /** Maintenance walks the slot list from entry k on. */
  function MaintainFrom(m: World, w: nat, k: nat): (r: World)
    requires w < |m.wheels| && WfWheel(m.wheels[w]) && k <= |Slot(m, w)|
    decreases |Slot(m, w)| - k
  {
    if k == |Slot(m, w)| then m
    else
      var r := MaintainOne(m, w, k);
      if |Slot(r, w)| == |Slot(m, w)| then MaintainFrom(r, w, k + 1) else MaintainFrom(r, w, k)
  }

  function Advance(m: World, w: nat): (r: World)
    requires w < |m.wheels| && WfWheel(m.wheels[w])
    ensures |r.wheels| == |m.wheels| && WfWheel(r.wheels[w])
  {
    var wheel := m.wheels[w];
    m.(wheels := m.wheels[w := wheel.(position := (wheel.position + 1) % |wheel.slots|, ticks := wheel.ticks + 1,
                                      beats := wheel.beats + [if w == 0 then 0 else m.wheels[w - 1].ticks])])
  }

  function Tick(m: World, w: nat): World
    requires w < |m.wheels| && WfWheel(m.wheels[w])
  {
    if m.wheels[w].stopped then m else MaintainFrom(Advance(m, w), w, 0)
  }

  // ---------------------------------------------------------------------------
  // Expired timers
  // ---------------------------------------------------------------------------

  /** The stage after the current one, or the end of the plan. */
  function Following(t: Timer): (r: nat)
    ensures r <= |t.steps| || r == t.current
  {
    if t.current + 1 < |t.steps| then NextStage(t.steps, t.current + 1) else t.current
  }

  /** The timer moves on in its plan and goes into a slot of the wheel of that stage. */
  function MoveOn(m: World, p: Id): World
    requires p in m.heap
  {
    var moved := m.(heap := m.heap[p := m.heap[p].(current := Following(m.heap[p]))]);
    if CanPlace(moved, p) then Unref(PlaceTimer(moved, p), p) else moved
  }

  predicate HasNextStage(t: Timer) {
    t.current + 1 < |t.steps| && Following(t) < |t.steps|
  }

  /** The body of fire_expired for one timer: skip it, move it to its next stage, or run it. */
  function Fire(m: World, k: nat): World
    requires k < |m.flight|
  {
    var p := m.flight[k];
    var out := m.(flight := Remove(m.flight, k));
    if p !in m.heap || m.heap[p].removed then Unref(out, p)
    else if HasNextStage(m.heap[p]) then MoveOn(out, p)
    else Unref(out.(heap := m.heap[p := m.heap[p].(current := Following(m.heap[p]))], fired := m.fired + [p]), p)
  }

  // ---------------------------------------------------------------------------
  // User operations
  // ---------------------------------------------------------------------------

  /**
   * set_timer up to the first placement: a new record, held by its creator and by the map, with the
   * plan of the rectified delay.
   */
  function Create(m: World, d: Duration): World {
    var p := m.nextId;
    m.(heap := m.heap[p := Timer(PlanFor(After(d)), 0, 0, false, 2)], table := m.table + {p},
       pending := m.pending + {p}, past := Asked(m, After(d)), nextId := p + 1)
  }

  function Asked(m: World, r: Request): Past {
    m.past.(asked := m.past.asked[m.nextId := r], log := m.past.log[m.nextId := []])
  }

  /** timing_wheel_run on an upper wheel up to the placement: a driver, held by its creator alone. */
  function Arm(m: World, w: Upper): World
    requires w < |m.wheels|
  {
    var p := m.nextId;
    m.(heap := m.heap[p := Timer(PlanFor(Drive(w)), 0, 0, false, 1)], pending := m.pending + {p},
       wheels := m.wheels[w := m.wheels[w].(drivers := m.wheels[w].drivers + [p])], past := Asked(m, Drive(w)),
       nextId := p + 1)
  }

  /** timing_wheel_run on the millisecond wheel, which clears the mark of a stop. */
  function Resume(m: World): World {
    if m.wheels == [] then m else m.(wheels := m.wheels[0 := m.wheels[0].(stopped := false)])
  }

  /** The first placement, by the creator. */
  function Place(m: World, p: Id): World {
    if p in m.pending && CanPlace(m, p) then
      var m1 := PlaceTimer(m, p);
      m1.(pending := m.pending - {p}, leaving := m.leaving + {p})
    else m
  }

  function Release(m: World, p: Id): World {
    if p in m.leaving then Unref(m.(leaving := m.leaving - {p}), p) else m
  }

  function Mark(m: World, p: Id): World {
    if p in m.heap then m.(heap := m.heap[p := m.heap[p].(removed := true)]) else m
  }

  /** cancel_timer: only a timer still in the map. */
  function Cancel(m: World, p: Id): World {
    if p in m.table then Unref(Mark(m, p).(table := m.table - {p}, cancelled := m.cancelled + {p}), p) else m
  }

  /** What stop does with a timer still in the map: it is cancelled and its abort callback is called. */
  function StopTimer(m: World, p: Id): World {
    if p in m.table then
      var r := Cancel(m, p);
      r.(past := r.past.(aborted := r.past.aborted + [p]))
    else m
  }

  /** What destruction does with a timer still in the map. */
  function Discard(m: World, p: Id): World {
    if p in m.table then Unmap(m.(past := m.past.(unmapped := m.past.unmapped + {p})), p) else m
  }

  function StopWheel(m: World, w: nat): World {
    if w < |m.wheels| then m.(wheels := m.wheels[w := m.wheels[w].(stopped := true)]) else m
  }

  predicate HasHead(m: World, w: nat, s: nat) {
    w < |m.wheels| && s < |m.wheels[w].slots| && m.wheels[w].slots[s] != []
  }

  /** A slot list loses its first timer, as when a wheel is destroyed. */
  function DropHead(m: World, w: nat, s: nat): World {
    if HasHead(m, w, s) then Unref(SetSlot(m, w, s, m.wheels[w].slots[s][1..]), m.wheels[w].slots[s][0]) else m
  }

  /** The same when a wheel is aborted: the abort callback of a timer that is not cancelled is called. */
  function AbortHead(m: World, w: nat, s: nat): World {
    if !HasHead(m, w, s) then m
    else
      var p := m.wheels[w].slots[s][0];
      if p in m.heap && !m.heap[p].removed then DropHead(m.(past := m.past.(aborted := m.past.aborted + [p])), w, s)
      else DropHead(m, w, s)
  }

  // ---------------------------------------------------------------------------
  // Runs
  // ---------------------------------------------------------------------------

  /**
   * Stopping the hierarchy is StopWheel on every wheel and StopTimer on every timer; aborting a wheel
   * is StopWheel and AbortHead until its slots are empty; destruction is Discard and DropHead. Running a
   * wheel is DoRun, followed by DoPlace and DoRelease of the driver.
   */
  datatype Step =
    | DoCreate(delay: Duration)
    | DoRun(wheel: nat)
    | DoPlace(id: Id)
    | DoRelease(id: Id)
    | DoTick(wheel: nat)
    | DoFire(index: nat)
    | DoCancel(id: Id)
    | DoStopTimer(id: Id)
    | DoDiscard(id: Id)
    | DoStopWheel(wheel: nat)
    | DoDropHead(wheel: nat, slot: nat)
    | DoAbortHead(wheel: nat, slot: nat)

  function Apply(m: World, s: Step): World {
    match s
    case DoCreate(d) => Create(m, d)
    case DoRun(w) => if w == 0 then Resume(m) else if w <= 4 && w < |m.wheels| then Arm(m, w) else m
    case DoPlace(p) => Place(m, p)
    case DoRelease(p) => Release(m, p)
    case DoTick(w) => if w < |m.wheels| && WfWheel(m.wheels[w]) then Tick(m, w) else m
    case DoFire(k) => if k < |m.flight| then Fire(m, k) else m
    case DoCancel(p) => Cancel(m, p)
    case DoStopTimer(p) => StopTimer(m, p)
    case DoDiscard(p) => Discard(m, p)
    case DoStopWheel(w) => StopWheel(m, w)
    case DoDropHead(w, s) => DropHead(m, w, s)
    case DoAbortHead(w, s) => AbortHead(m, w, s)
  }

  function Run(m: World, steps: seq<Step>): World
    decreases |steps|
  {
    if steps == [] then m else Run(Apply(m, steps[0]), steps[1..])
  }

  function EmptyLists(n: nat): (r: seq<seq<Id>>)
    ensures |r| == n
  {
    seq(n, i => [])
  }

  function FreshWheels(k: nat, n: nat): (r: seq<SubWheel>)
    requires n > 0
    ensures |r| == k
  {
    seq(k, i => SubWheel(n - 1, EmptyLists(n), false, 0, [], []))
  }

  /** Five wheels of n slots: milliseconds, seconds, minutes, hours, days. */
  function Init(n: nat): World
    requires n > 0
  {
    World(FreshWheels(5, n), map[], {}, {}, {}, [], [], {}, Past(map[], map[], {}, []), 1)
  }
}
