/**
 * When a timer expires. A timer in a slot has a countdown, read off its slot and its circle count;
 * every tick of its wheel lowers the countdown by one and collects the timer at one, whatever else
 * happens to other timers in between.
 */
module WheelTiming {
  import opened Words
  import opened Sequences
  import opened Arith
  import opened Wheel
  import opened WheelSafety

  /** Ticks until slot s is visited next. */
  function Dist(position: nat, s: nat, n: nat): (d: nat)
    requires position < n && s < n
    ensures 1 <= d <= n
  {
    if s > position then s - position else s + n - position
  }

  /** The decrement comes before the test, so the last revolution counted is not waited for. */
  function Laps(circle: int): nat {
    if circle > 1 then circle - 1 else 0
  }

  /** The timer is in slot s of wheel w and not cancelled. */
  predicate InSlot(m: World, w: nat, s: nat, p: Id) {
    && w < |m.wheels| && WfWheel(m.wheels[w]) && s < |m.wheels[w].slots|
    && p in m.wheels[w].slots[s] && p in m.heap && !m.heap[p].removed
  }

  /** And the wheel is running. */
  predicate Waiting(m: World, w: nat, s: nat, p: Id) {
    InSlot(m, w, s, p) && !m.wheels[w].stopped
  }

  function TicksLeft(m: World, w: nat, s: nat, p: Id): (d: nat)
    requires InSlot(m, w, s, p)
    ensures d >= 1
  {
    var n := |m.wheels[w].slots|;
    assert Laps(m.heap[p].circle) * n >= 0;
    Dist(m.wheels[w].position, s, n) + Laps(m.heap[p].circle) * n
  }

  // ---------------------------------------------------------------------------
  // Where a timer is
  // ---------------------------------------------------------------------------

  /** A timer in a slot is nowhere else. */
  lemma OneSlot(m: World, w: nat, s: nat, v: nat, r: nat, p: Id)
    requires Inv(m) && w < |m.wheels| && s < |m.wheels[w].slots| && p in m.wheels[w].slots[s]
    requires v < |m.wheels| && r < |m.wheels[v].slots| && (v != w || r != s)
    ensures p !in m.wheels[v].slots[r] && p !in m.flight && p !in m.pending
  {
    assert Good(m, p);
    SetSlotCount(m, w, s, [], p);
    CountPositive(m.wheels[w].slots[s], p);
    CountPositive(m.flight, p);
    if p in m.wheels[v].slots[r] {
      CountPositive(m.wheels[v].slots[r], p);
      SetSlotCount(SetSlot(m, w, s, []), v, r, [], p);
    }
  }

  lemma OnceInSlot(m: World, w: nat, s: nat, i: nat, j: nat)
    requires Inv(m) && w < |m.wheels| && s < |m.wheels[w].slots| && i < j < |m.wheels[w].slots[s]|
    ensures m.wheels[w].slots[s][i] != m.wheels[w].slots[s][j]
  {
    var list := m.wheels[w].slots[s];
    var p := list[i];
    if p == list[j] {
      assert Good(m, p);
      SetSlotCount(m, w, s, [], p);
      RemoveCount(list, j, p);
      assert Remove(list, j)[i] == p;
      CountPositive(Remove(list, j), p);
    }
  }

  lemma NotInFlight(m: World, w: nat, s: nat, p: Id)
    requires Inv(m) && InSlot(m, w, s, p)
    ensures p !in m.flight && p !in m.pending && m.heap[p].refs == 1 + B(p in m.table) + B(p in m.leaving)
  {
    assert Good(m, p);
    SetSlotCount(m, w, s, [], p);
    CountPositive(m.wheels[w].slots[s], p);
    CountPositive(m.flight, p);
  }

  // ---------------------------------------------------------------------------
  // Maintenance
  // ---------------------------------------------------------------------------

  /** Only the slot lists, the flight and the visits have changed beside records and the map. */
  predicate Quiet(m: World, r: World) {
    && r.pending == m.pending && r.leaving == m.leaving && r.fired == m.fired && r.cancelled == m.cancelled
    && r.nextId == m.nextId && r.past == m.past.(log := r.past.log)
  }

  /** The record, the visits and the map entry of the timer are as they were. */
  predicate SameFor(m: World, r: World, p: Id) {
    && (p in m.heap <==> p in r.heap) && (p in m.heap ==> r.heap[p] == m.heap[p])
    && (p in m.past.log <==> p in r.past.log) && Visits(r, p) == Visits(m, p)
    && (p in m.table <==> p in r.table)
  }

  /** Of the wheels, only the current slot of w has changed. */
  predicate SlotOnly(m: World, r: World, w: nat)
    requires w < |m.wheels| && WfWheel(m.wheels[w])
  {
    && |r.wheels| == |m.wheels| && WfWheel(r.wheels[w])
    && r.wheels == m.wheels[w := m.wheels[w].(slots := m.wheels[w].slots[m.wheels[w].position := Slot(r, w)])]
  }

  /** r differs from m in the current slot of w from entry k on, in other timers, and by more in flight. */
  predicate Framed(m: World, r: World, w: nat, k: nat, p: Id)
    requires w < |m.wheels| && WfWheel(m.wheels[w]) && k <= |Slot(m, w)|
  {
    && SlotOnly(m, r, w) && Quiet(m, r) && SameFor(m, r, p)
    && k <= |Slot(r, w)| && Slot(r, w)[..k] == Slot(m, w)[..k]
    && (p in Slot(r, w)[k..] ==> p in Slot(m, w)[k..])
    && m.flight <= r.flight && (p in r.flight ==> p in m.flight)
  }

  /** Entry k, another timer's, taken out of the slot. */
  lemma UnlinkFrame(m: World, r: World, w: nat, k: nat, p: Id)
    requires w < |m.wheels| && WfWheel(m.wheels[w]) && k < |Slot(m, w)| && Slot(m, w)[k] != p
    requires r.wheels == Unlinked(m, w, k).wheels && Quiet(m, r) && SameFor(m, r, p)
    requires r.flight == m.flight || r.flight == m.flight + [Slot(m, w)[k]]
    ensures Framed(m, r, w, k, p) && Slot(r, w) == Remove(Slot(m, w), k)
  {
    var list := Slot(m, w);
    assert list[k..] == [list[k]] + list[k + 1..];
    assert Slot(r, w) == Remove(list, k);
    assert Slot(r, w)[k..] == list[k + 1..] && Slot(r, w)[..k] == list[..k];
  }

  lemma MaintainOneFrame(m: World, w: nat, k: nat, p: Id)
    requires w < |m.wheels| && WfWheel(m.wheels[w]) && k < |Slot(m, w)| && Slot(m, w)[k] != p
    ensures Framed(m, MaintainOne(m, w, k), w, k, p)
    ensures Slot(MaintainOne(m, w, k), w) == Slot(m, w) || Slot(MaintainOne(m, w, k), w) == Remove(Slot(m, w), k)
  {
    var q, r := Slot(m, w)[k], MaintainOne(m, w, k);
    if q !in m.heap || m.heap[q].removed {
      UnlinkFrame(m, r, w, k, p);
    } else if Stays(m.heap[q]) {
      assert m.wheels[w].slots[m.wheels[w].position := Slot(m, w)] == m.wheels[w].slots;
      assert m.wheels == m.wheels[w := m.wheels[w]];
    } else {
      CollectEffect(m, w, k);
      UnlinkFrame(m, r, w, k, p);
    }
  }

  lemma FramedTrans(m: World, r: World, u: World, w: nat, k: nat, l: nat, p: Id)
    requires w < |m.wheels| && WfWheel(m.wheels[w]) && k <= |Slot(m, w)|
    requires Framed(m, r, w, k, p) && k <= l <= |Slot(r, w)| && Framed(r, u, w, l, p)
    ensures Framed(m, u, w, k, p)
  {
    assert Slot(u, w)[..k] == Slot(u, w)[..l][..k] == Slot(r, w)[..l][..k] == Slot(r, w)[..k];
    SlotOnlyTrans(m, r, u, w);
    LaterEntries(Slot(r, w), Slot(u, w), k, l, p);
  }

  lemma SlotOnlyTrans(m: World, r: World, u: World, w: nat)
    requires w < |m.wheels| && WfWheel(m.wheels[w]) && SlotOnly(m, r, w) && SlotOnly(r, u, w)
    ensures SlotOnly(m, u, w)
  {
    var slots, position := m.wheels[w].slots, m.wheels[w].position;
    assert slots[position := Slot(r, w)][position := Slot(u, w)] == slots[position := Slot(u, w)];
    var x, y := r.wheels[w], u.wheels[w];
    assert m.wheels[w := x][w := y] == m.wheels[w := y];
  }

  lemma LaterEntries(x: seq<Id>, y: seq<Id>, k: nat, l: nat, p: Id)
    requires k <= l <= |x| && l <= |y| && y[..l] == x[..l] && (p in y[l..] ==> p in x[l..])
    ensures p in y[k..] ==> p in x[k..]
  {
    assert y[k..] == y[..l][k..] + y[l..] && x[k..] == x[..l][k..] + x[l..];
  }

  /** Maintenance from entry k on leaves alone a timer that is not among those entries. */
  lemma {:induction false} MaintainFrame(m: World, w: nat, k: nat, p: Id)
    requires w < |m.wheels| && WfWheel(m.wheels[w]) && k <= |Slot(m, w)| && p !in Slot(m, w)[k..]
    ensures Framed(m, MaintainFrom(m, w, k), w, k, p)
    decreases |Slot(m, w)| - k
  {
    if k == |Slot(m, w)| {
      assert m.wheels[w].slots[m.wheels[w].position := Slot(m, w)] == m.wheels[w].slots;
    } else {
      assert Slot(m, w)[k] == Slot(m, w)[k..][0];
      MaintainOneFrame(m, w, k, p);
      var r := MaintainOne(m, w, k);
      assert Slot(m, w)[k + 1..] == Slot(m, w)[k..][1..];
      if |Slot(r, w)| == |Slot(m, w)| {
        MaintainFrame(r, w, k + 1, p);
        FramedTrans(m, r, MaintainFrom(r, w, k + 1), w, k, k + 1, p);
      } else {
        assert Slot(r, w)[k..] == Slot(m, w)[k + 1..];
        MaintainFrame(r, w, k, p);
        FramedTrans(m, r, MaintainFrom(r, w, k), w, k, k, p);
      }
    }
  }

  /** The record, if it is still there, is at the same stage of the same plan. */
  predicate SameStage(m: World, r: World, p: Id) {
    p in r.heap ==>
      p in m.heap && r.heap[p].steps == m.heap[p].steps && r.heap[p].current == m.heap[p].current
      && (m.heap[p].removed ==> r.heap[p].removed)
  }

  predicate Dropped(m: World, r: World, w: nat, p: Id)
    requires w < |r.wheels| && WfWheel(r.wheels[w])
  {
    && p !in Slot(r, w) && SameStage(m, r, p) && (p in r.flight ==> p in m.flight)
    && (p in m.past.log <==> p in r.past.log) && Visits(r, p) == Visits(m, p) && (p in m.table <==> p in r.table)
  }

  predicate Kept(m: World, r: World, w: nat, p: Id)
    requires w < |r.wheels| && WfWheel(r.wheels[w]) && p in m.heap
  {
    && p in Slot(r, w) && p in r.heap && r.heap[p] == m.heap[p].(circle := m.heap[p].circle - 1)
    && (p in m.past.log <==> p in r.past.log) && Visits(r, p) == Visits(m, p) && (p in m.table <==> p in r.table)
    && (p in r.flight ==> p in m.flight)
  }

  predicate Gathered(m: World, r: World, w: nat, p: Id)
    requires w < |r.wheels| && WfWheel(r.wheels[w])
  {
    && p !in Slot(r, w) && p in r.flight && p !in r.table && SameStage(m, r, p)
    && (p in r.heap ==> p in m.heap && r.heap[p].removed == m.heap[p].removed)
    && p in r.past.log && Visits(r, p) == Closed(Visits(m, p), r.wheels[w].ticks, Clock(r))
  }

  /** What maintenance has done to a timer of the current slot: dropped it, kept it a lap less, or collected it. */
  predicate Handled(m: World, r: World, w: nat, p: Id)
    requires w < |m.wheels| && WfWheel(m.wheels[w]) && p in m.heap
  {
    && SlotOnly(m, r, w) && Quiet(m, r)
    && if m.heap[p].removed then Dropped(m, r, w, p)
       else if Stays(m.heap[p]) then Kept(m, r, w, p)
       else Gathered(m, r, w, p)
  }

  /** p is the entry k of the current slot and no other. */
  predicate OnlyEntry(m: World, w: nat, k: nat, p: Id) {
    && w < |m.wheels| && WfWheel(m.wheels[w]) && k < |Slot(m, w)| && Slot(m, w)[k] == p && p in m.heap
    && p !in Slot(m, w)[..k] && p !in Slot(m, w)[k + 1..]
  }

  lemma StayTurn(m: World, w: nat, k: nat, p: Id)
    requires OnlyEntry(m, w, k, p) && Stays(m.heap[p])
    ensures Handled(m, MaintainFrom(m, w, k), w, p)
  {
    var r := m.(heap := m.heap[p := m.heap[p].(circle := m.heap[p].circle - 1)]);
    assert MaintainOne(m, w, k) == r && Slot(r, w) == Slot(m, w);
    MaintainFrame(r, w, k + 1, p);
    assert Slot(MaintainFrom(r, w, k + 1), w)[..k + 1][k] == p;
  }

  /** The rest of the walk after the timer has left the slot. */
  lemma AfterUnlink(m: World, r: World, w: nat, k: nat, p: Id)
    requires OnlyEntry(m, w, k, p) && |r.wheels| == |m.wheels| && r.wheels == Unlinked(m, w, k).wheels
    ensures Slot(r, w) == Remove(Slot(m, w), k) && SlotOnly(m, r, w)
    ensures var u := MaintainFrom(r, w, k);
            SlotOnly(m, u, w) && Quiet(r, u) && SameFor(r, u, p) && p !in Slot(u, w)
            && r.flight <= u.flight && (p in u.flight ==> p in r.flight)
  {
    var list := Slot(m, w);
    assert Slot(r, w)[k..] == list[k + 1..] && Slot(r, w)[..k] == list[..k];
    MaintainFrame(r, w, k, p);
    var u := MaintainFrom(r, w, k);
    SlotOnlyTrans(m, r, u, w);
    assert Slot(u, w) == Slot(u, w)[..k] + Slot(u, w)[k..];
  }

  lemma CollectTurn(m: World, w: nat, k: nat, p: Id)
    requires OnlyEntry(m, w, k, p) && !m.heap[p].removed && !Stays(m.heap[p])
    ensures Handled(m, MaintainFrom(m, w, k), w, p)
  {
    var r := Collect(m, w, k);
    assert MaintainOne(m, w, k) == r;
    CollectEffect(m, w, k);
    AfterUnlink(m, r, w, k, p);
    assert r.flight[|m.flight|] == p;
  }

  lemma DropTurn(m: World, w: nat, k: nat, p: Id)
    requires OnlyEntry(m, w, k, p) && m.heap[p].removed
    ensures Handled(m, MaintainFrom(m, w, k), w, p)
  {
    var r := Unref(Unlinked(m, w, k), p);
    assert MaintainOne(m, w, k) == r;
    AfterUnlink(m, r, w, k, p);
  }

  /** The timer's own turn. */
  lemma MaintainTurn(m: World, w: nat, k: nat, p: Id)
    requires Inv(m) && w < |m.wheels| && k < |Slot(m, w)| && Slot(m, w)[k] == p && p in m.heap
    ensures Handled(m, MaintainFrom(m, w, k), w, p)
  {
    var list := Slot(m, w);
    forall i | k < i < |list| ensures list[i] != p { OnceInSlot(m, w, m.wheels[w].position, k, i); }
    forall i | 0 <= i < k ensures list[i] != p { OnceInSlot(m, w, m.wheels[w].position, i, k); }
    if m.heap[p].removed {
      DropTurn(m, w, k, p);
    } else if Stays(m.heap[p]) {
      StayTurn(m, w, k, p);
    } else {
      CollectTurn(m, w, k, p);
    }
  }

  lemma HandledAfter(m: World, r: World, u: World, w: nat, k: nat, p: Id)
    requires w < |m.wheels| && WfWheel(m.wheels[w]) && k <= |Slot(m, w)| && p in m.heap
    requires Framed(m, r, w, k, p) && Handled(r, u, w, p)
    ensures Handled(m, u, w, p)
  {
    SlotOnlyTrans(m, r, u, w);
  }

  lemma {:induction false} MaintainHandles(m: World, w: nat, k: nat, j: nat, p: Id)
    requires Inv(m) && w < |m.wheels| && k <= j < |Slot(m, w)| && Slot(m, w)[j] == p && p in m.heap
    ensures Handled(m, MaintainFrom(m, w, k), w, p)
    decreases j - k
  {
    if k == j {
      MaintainTurn(m, w, k, p);
    } else {
      OnceInSlot(m, w, m.wheels[w].position, k, j);
      MaintainOneFrame(m, w, k, p);
      var r := MaintainOne(m, w, k);
      forall q: Id ensures Good(r, q) { MaintainOneGood(m, w, k, q); }
      if |Slot(r, w)| == |Slot(m, w)| {
        MaintainHandles(r, w, k + 1, j, p);
      } else {
        assert Slot(r, w)[j - 1] == p;
        MaintainHandles(r, w, k, j - 1, p);
      }
      HandledAfter(m, r, MaintainFrom(m, w, k), w, k, p);
    }
  }

  // ---------------------------------------------------------------------------
  // One tick
  // ---------------------------------------------------------------------------

  lemma DistNext(position: nat, s: nat, n: nat)
    requires position < n && s < n
    ensures (position + 1) % n < n
    ensures Dist(position, s, n) == 1 <==> (position + 1) % n == s
    ensures Dist(position, s, n) > 1 ==> Dist((position + 1) % n, s, n) == Dist(position, s, n) - 1
    ensures Dist(position, s, n) == 1 ==> Dist((position + 1) % n, s, n) == n
  {
    if position + 1 == n {
      DivModUnique(n, n, 1, 0);
    } else {
      DivModUnique(position + 1, n, 0, position + 1);
    }
  }

  lemma LapDown(circle: int, n: nat)
    requires circle > 1
    ensures 1 + Laps(circle) * n - 1 == n + Laps(circle - 1) * n
  {
  }

  lemma LapsApart(circle: int, n: nat)
    requires n > 0
    ensures Laps(circle) * n == 0 <==> circle <= 1
  {
    if circle > 1 { MulAtLeast(circle - 1, n); }
  }

  /** A tick lowers the countdown by one, and collects the timer when it stands at one. */
  lemma TickCountsDown(m: World, w: nat, s: nat, p: Id)
    requires Inv(m) && Waiting(m, w, s, p)
    ensures TicksLeft(m, w, s, p) == 1 ==> p in Tick(m, w).flight
    ensures TicksLeft(m, w, s, p) > 1 ==>
              Waiting(Tick(m, w), w, s, p) && TicksLeft(Tick(m, w), w, s, p) == TicksLeft(m, w, s, p) - 1
  {
    var n, position := |m.wheels[w].slots|, m.wheels[w].position;
    var a := Advance(m, w);
    AdvanceInv(m, w);
    DistNext(position, s, n);
    LapsApart(m.heap[p].circle, n);
    if a.wheels[w].position == s {
      var j :| 0 <= j < |Slot(a, w)| && Slot(a, w)[j] == p;
      MaintainHandles(a, w, 0, j, p);
      if m.heap[p].circle > 1 { LapDown(m.heap[p].circle, n); }
    } else {
      OneSlot(a, w, s, w, a.wheels[w].position, p);
      MaintainFrame(a, w, 0, p);
    }
  }

  // ---------------------------------------------------------------------------
  // Other steps and runs
  // ---------------------------------------------------------------------------

  /** Not a cancellation of the timer, a stop of its wheel or a drop from its slot. */
  predicate Leaves(s: Step, w: nat, slot: nat, p: Id) {
    && s != DoCancel(p) && s != DoStopTimer(p) && s != DoStopWheel(w)
    && s != DoDropHead(w, slot) && s != DoAbortHead(w, slot)
  }

  /** The timer is where it was and counts as it did. */
  predicate Unmoved(m: World, r: World, w: nat, s: nat, p: Id)
    requires Waiting(m, w, s, p)
  {
    && Waiting(r, w, s, p) && r.heap[p].circle == m.heap[p].circle
    && r.wheels[w].position == m.wheels[w].position && |r.wheels[w].slots| == |m.wheels[w].slots|
    && r.wheels[w].ticks == m.wheels[w].ticks
  }

  lemma OtherTick(m: World, v: nat, w: nat, s: nat, p: Id)
    requires Inv(m) && Waiting(m, w, s, p) && v != w && v < |m.wheels|
    ensures Unmoved(m, Tick(m, v), w, s, p)
  {
    if !m.wheels[v].stopped {
      var a := Advance(m, v);
      AdvanceInv(m, v);
      OneSlot(a, w, s, v, a.wheels[v].position, p);
      MaintainFrame(a, v, 0, p);
    }
  }

  /** Another timer put into a slot. */
  lemma OtherPlaced(m: World, q: Id, w: nat, s: nat, p: Id)
    requires Waiting(m, w, s, p) && CanPlace(m, q) && q != p
    ensures Unmoved(m, PlaceTimer(m, q), w, s, p)
  {
  }

  lemma OtherFire(m: World, k: nat, w: nat, s: nat, p: Id)
    requires Inv(m) && Waiting(m, w, s, p) && k < |m.flight|
    ensures Unmoved(m, Fire(m, k), w, s, p)
  {
    NotInFlight(m, w, s, p);
    var q := m.flight[k];
    if q in m.heap && !m.heap[q].removed && HasNextStage(m.heap[q]) {
      var moved := m.(flight := Remove(m.flight, k), heap := m.heap[q := m.heap[q].(current := Following(m.heap[q]))]);
      if CanPlace(moved, q) { OtherPlaced(moved, q, w, s, p); }
    }
  }

  lemma OtherPlace(m: World, q: Id, w: nat, s: nat, p: Id)
    requires Inv(m) && Waiting(m, w, s, p)
    ensures Unmoved(m, Place(m, q), w, s, p)
  {
    NotInFlight(m, w, s, p);
    if q in m.pending && CanPlace(m, q) { OtherPlaced(m, q, w, s, p); }
  }

  /** References given up by others, and by the creator and the map. */
  lemma OtherOwner(m: World, q: Id, w: nat, s: nat, p: Id)
    requires Inv(m) && Waiting(m, w, s, p)
    ensures Unmoved(m, Release(m, q), w, s, p) && Unmoved(m, Discard(m, q), w, s, p)
    ensures q != p ==> Unmoved(m, Cancel(m, q), w, s, p) && Unmoved(m, StopTimer(m, q), w, s, p)
  {
    NotInFlight(m, w, s, p);
  }

  lemma OtherHead(m: World, v: nat, r: nat, w: nat, s: nat, p: Id)
    requires Inv(m) && Waiting(m, w, s, p) && (v != w || r != s)
    ensures Unmoved(m, DropHead(m, v, r), w, s, p) && Unmoved(m, AbortHead(m, v, r), w, s, p)
  {
    if HasHead(m, v, r) { OneSlot(m, w, s, v, r, p); }
  }

  lemma OtherMade(m: World, step: Step, w: nat, s: nat, p: Id)
    requires Inv(m) && Waiting(m, w, s, p) && (step.DoCreate? || step.DoRun?)
    ensures Unmoved(m, Apply(m, step), w, s, p)
  {
    assert Good(m, p);
  }

  lemma OtherStep(m: World, step: Step, w: nat, s: nat, p: Id)
    requires Inv(m) && Waiting(m, w, s, p) && Leaves(step, w, s, p) && step != DoTick(w)
    ensures Unmoved(m, Apply(m, step), w, s, p)
  {
    match step
    case DoCreate(_) => OtherMade(m, step, w, s, p);
    case DoRun(_) => OtherMade(m, step, w, s, p);
    case DoPlace(q) => OtherPlace(m, q, w, s, p);
    case DoRelease(q) => OtherOwner(m, q, w, s, p);
    case DoTick(v) => if v < |m.wheels| { OtherTick(m, v, w, s, p); }
    case DoFire(k) => if k < |m.flight| { OtherFire(m, k, w, s, p); }
    case DoCancel(q) => OtherOwner(m, q, w, s, p);
    case DoStopTimer(q) => OtherOwner(m, q, w, s, p);
    case DoDiscard(q) => OtherOwner(m, q, w, s, p);
    case DoStopWheel(_) =>
    case DoDropHead(v, r) => OtherHead(m, v, r, w, s, p);
    case DoAbortHead(v, r) => OtherHead(m, v, r, w, s, p);
  }

  function Ticks(steps: seq<Step>, w: nat): nat {
    if steps == [] then 0 else (if steps[0] == DoTick(w) then 1 else 0) + Ticks(steps[1..], w)
  }

  /** Over any run that leaves the timer alone, the countdown falls by the ticks of its wheel. */
  lemma {:induction false} CountdownRun(m: World, steps: seq<Step>, w: nat, s: nat, p: Id)
    requires Inv(m) && Waiting(m, w, s, p)
    requires forall i :: 0 <= i < |steps| ==> Leaves(steps[i], w, s, p)
    requires Ticks(steps, w) < TicksLeft(m, w, s, p)
    ensures Waiting(Run(m, steps), w, s, p)
    ensures TicksLeft(Run(m, steps), w, s, p) == TicksLeft(m, w, s, p) - Ticks(steps, w)
    decreases |steps|
  {
    if steps == [] {
    } else {
      var r := Apply(m, steps[0]);
      StepInv(m, steps[0]);
      if steps[0] == DoTick(w) {
        TickCountsDown(m, w, s, p);
      } else {
        OtherStep(m, steps[0], w, s, p);
      }
      CountdownRun(r, steps[1..], w, s, p);
    }
  }

  /**
   * The firing law: however its ticks are mixed with other steps, a timer is still in its slot
   * after fewer ticks than its countdown, and is collected by exactly that tick.
   */
  lemma CollectedExactly(m: World, steps: seq<Step>, w: nat, s: nat, p: Id)
    requires Inv(m) && Waiting(m, w, s, p)
    requires forall i :: 0 <= i < |steps| ==> Leaves(steps[i], w, s, p)
    requires Ticks(steps, w) + 1 == TicksLeft(m, w, s, p)
    ensures Waiting(Run(m, steps), w, s, p) && p !in Run(m, steps).flight
    ensures p in Apply(Run(m, steps), DoTick(w)).flight
  {
    CountdownRun(m, steps, w, s, p);
    RunInv(m, steps);
    NotInFlight(Run(m, steps), w, s, p);
    TickCountsDown(Run(m, steps), w, s, p);
  }

  // ---------------------------------------------------------------------------
  // The countdown of a new timer
  // ---------------------------------------------------------------------------

  /** Ticks from placement with delay d to collection, on a wheel of n slots. */
  function FireTick(n: nat, d: U64): nat
    requires n > 0 && d > 0
  {
    (d - 1) % n + 1 + Laps(ToInt32((d - 1) / n)) * n
  }

  lemma DistOfDelay(position: nat, d: nat, n: nat)
    requires position < n && d > 0
    ensures Dist(position, (position + d) % n, n) == (d - 1) % n + 1
  {
    var q, r := DivModIdentity(d - 1, n);
    var x := position + r + 1;
    if x < n {
      DivModUnique(position + d, n, q, x);
    } else {
      DivModUnique(position + d, n, q + 1, x - n);
    }
  }

  /** The same for any delay and any position, with 64-bit wrap-around of their sum. */
  function Span(n: nat, position: nat, d: U64): nat
    requires position < n
  {
    assert Laps(CircleFor(d, n)) * n >= 0;
    Dist(position, SlotFor(position, d, n), n) + Laps(CircleFor(d, n)) * n
  }

  lemma SpanIsFireTick(n: nat, position: nat, d: U64)
    requires position < n && 0 < d && position + d < TWO64
    ensures Span(n, position, d) == FireTick(n, d)
  {
    DistOfDelay(position, d, n);
    DivModUnique(position + d, TWO64, 0, position + d);
  }

  /** What a delay of 0 takes on n slots: the subtraction of 1 wraps, and the laps are cut to 32 bits. */
  function ZeroSpan(n: nat): nat
    requires n > 0
  {
    assert Laps(ToInt32((TWO64 - 1) / n)) * n >= 0;
    n + Laps(ToInt32((TWO64 - 1) / n)) * n
  }

  lemma SpanOfZero(n: nat, position: nat)
    requires position < n <= TWO64
    ensures Span(n, position, 0) == ZeroSpan(n)
  {
    DivModUnique(position, TWO64, 0, position);
    DivModUnique(position, n, 0, position);
  }

  /** A delay of 0 ends within one revolution exactly when the wrapped number of laps is cut to at most 1. */
  lemma ZeroWithinRevolutionIff(n: nat)
    requires n > 0
    ensures ZeroSpan(n) == n <==> ToInt32((TWO64 - 1) / n) <= 1
  {
    LapsApart(ToInt32((TWO64 - 1) / n), n);
  }

  /** On 8 slots that is one revolution, on 12 and on 1000 it is months or years of milliseconds. */
  lemma ZeroSpans()
    ensures ZeroSpan(8) == 8 && ZeroSpan(12) == 17_179_869_180 && ZeroSpan(1000) == 1_271_310_319_000
  {
    DivModUnique(TWO64 - 1, 8, 2_305_843_009_213_693_951, 7);
    DivModUnique(TWO64 - 1, 12, 1_537_228_672_809_129_301, 3);
    DivModUnique(TWO64 - 1, 1000, 18_446_744_073_709_551, 615);
  }

  /** A placed timer counts down from the span of its delay. */
  lemma PlacedCountdown(m: World, p: Id)
    requires CanPlace(m, p) && !m.heap[p].removed
    ensures var step := m.heap[p].steps[m.heap[p].current];
            var wheel := m.wheels[step.wheel];
            var s := SlotFor(wheel.position, step.delay, |wheel.slots|);
            InSlot(PlaceTimer(m, p), step.wheel, s, p)
            && TicksLeft(PlaceTimer(m, p), step.wheel, s, p) == Span(|wheel.slots|, wheel.position, step.delay)
  {
  }

  lemma LapsTimes(q: nat, n: nat)
    requires q >= 1
    ensures Laps(q) * n == q * n - n
  {
    assert q == 1 || Laps(q) == q - 1;
    assert (q - 1) * n == q * n - n;
  }

  lemma SeveralLaps(d: nat, n: nat) returns (q: nat)
    requires d > n > 0
    ensures q == (d - 1) / n && q >= 1 && d - 1 == q * n + (d - 1) % n
  {
    var r;
    q, r := DivModIdentity(d - 1, n);
    assert q == 0 ==> q * n == 0;
  }

  /** Delays up to the slot count are exact; longer ones expire one revolution early. */
  lemma FiringLaw(n: nat, d: U64)
    requires n > 0 && d > 0 && (d - 1) / n < 0x8000_0000
    ensures FireTick(n, d) == if d <= n then d else d - n
  {
    if d <= n {
      DivModUnique(d - 1, n, 0, d - 1);
    } else {
      var q := SeveralLaps(d, n);
      LapsTimes(q, n);
      assert ToInt32(q) == q;
    }
  }

  /** A timer is collected at the tick it was set for if and only if its delay fits one revolution. */
  lemma OnTimeIff(n: nat, d: U64)
    requires n > 0 && d > 0
    ensures FireTick(n, d) == d <==> d <= n
  {
    if d <= n {
      DivModUnique(d - 1, n, 0, d - 1);
    } else {
      var q := SeveralLaps(d, n);
      LapsTimes(q, n);
      MulMonotone(Laps(ToInt32(q)), Laps(q), n, n);
    }
  }
}
