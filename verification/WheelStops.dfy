/** A wheel that is stopped makes no tick until it is run again. */
module WheelStops {
  import opened Wheel

  /** Mark, position and ticks of a wheel. */
  predicate SameTicks(m: World, r: World, w: nat) {
    && |r.wheels| == |m.wheels|
    && (w < |m.wheels| ==>
          && r.wheels[w].stopped == m.wheels[w].stopped && r.wheels[w].position == m.wheels[w].position
          && r.wheels[w].ticks == m.wheels[w].ticks && |r.wheels[w].slots| == |m.wheels[w].slots|)
  }

  lemma PlaceSame(m: World, p: Id, w: nat)
    requires CanPlace(m, p)
    ensures SameTicks(m, PlaceTimer(m, p), w)
  {
  }

  lemma CollectSame(m: World, v: nat, k: nat, w: nat)
    requires v < |m.wheels| && WfWheel(m.wheels[v]) && k < |Slot(m, v)| && Slot(m, v)[k] in m.heap
    ensures SameTicks(m, Collect(m, v, k), w)
  {
  }

  lemma MaintainOneSame(m: World, v: nat, k: nat, w: nat)
    requires v < |m.wheels| && WfWheel(m.wheels[v]) && k < |Slot(m, v)|
    ensures SameTicks(m, MaintainOne(m, v, k), w)
  {
    var p := Slot(m, v)[k];
    if p in m.heap && !m.heap[p].removed && !Stays(m.heap[p]) { CollectSame(m, v, k, w); }
  }

  lemma {:induction false} MaintainSame(m: World, v: nat, k: nat, w: nat)
    requires v < |m.wheels| && WfWheel(m.wheels[v]) && k <= |Slot(m, v)|
    ensures SameTicks(m, MaintainFrom(m, v, k), w)
    decreases |Slot(m, v)| - k
  {
    if k < |Slot(m, v)| {
      var r := MaintainOne(m, v, k);
      MaintainOneSame(m, v, k, w);
      if |Slot(r, v)| == |Slot(m, v)| { MaintainSame(r, v, k + 1, w); } else { MaintainSame(r, v, k, w); }
    }
  }

  /** A tick moves a running wheel by one slot and no other wheel. */
  lemma TickMoves(m: World, v: nat, w: nat)
    requires v < |m.wheels| && w < |m.wheels| && WfWheel(m.wheels[v])
    ensures |Tick(m, v).wheels| == |m.wheels| && Tick(m, v).wheels[w].stopped == m.wheels[w].stopped
    ensures v == w && !m.wheels[w].stopped ==>
              && Tick(m, v).wheels[w].ticks == m.wheels[w].ticks + 1
              && Tick(m, v).wheels[w].position == (m.wheels[w].position + 1) % |m.wheels[w].slots|
    ensures v != w || m.wheels[w].stopped ==> SameTicks(m, Tick(m, v), w)
  {
    if !m.wheels[v].stopped { MaintainSame(Advance(m, v), v, 0, w); }
  }

  lemma FireSame(m: World, k: nat, w: nat)
    requires k < |m.flight|
    ensures SameTicks(m, Fire(m, k), w)
  {
  }

  lemma CreatorSame(m: World, p: Id, w: nat)
    ensures SameTicks(m, Place(m, p), w) && SameTicks(m, Release(m, p), w)
  {
    if p in m.pending && CanPlace(m, p) { PlaceSame(m, p, w); }
  }

  lemma MapSame(m: World, p: Id, w: nat)
    ensures SameTicks(m, Cancel(m, p), w) && SameTicks(m, StopTimer(m, p), w) && SameTicks(m, Discard(m, p), w)
  {
  }

  lemma HeadSame(m: World, v: nat, s: nat, w: nat)
    ensures SameTicks(m, DropHead(m, v, s), w) && SameTicks(m, AbortHead(m, v, s), w)
  {
  }

  /** The step does not run the wheel again; an upper wheel is never unmarked. */
  predicate NotRun(step: Step, w: nat) {
    w == 0 ==> step != DoRun(0)
  }

  lemma StepStopped(m: World, step: Step, w: nat)
    requires w < |m.wheels| && m.wheels[w].stopped && NotRun(step, w)
    ensures SameTicks(m, Apply(m, step), w)
  {
    match step
    case DoCreate(_) =>
    case DoRun(_) =>
    case DoPlace(p) => CreatorSame(m, p, w);
    case DoRelease(p) => CreatorSame(m, p, w);
    case DoTick(v) => if v < |m.wheels| && WfWheel(m.wheels[v]) { TickMoves(m, v, w); }
    case DoFire(k) => if k < |m.flight| { FireSame(m, k, w); }
    case DoCancel(p) => MapSame(m, p, w);
    case DoStopTimer(p) => MapSame(m, p, w);
    case DoDiscard(p) => MapSame(m, p, w);
    case DoStopWheel(_) =>
    case DoDropHead(v, s) => HeadSame(m, v, s, w);
    case DoAbortHead(v, s) => HeadSame(m, v, s, w);
  }

  /** Over every run that does not run it again, a stopped wheel makes no tick. */
  lemma {:induction false} StoppedMakesNoTick(m: World, steps: seq<Step>, w: nat)
    requires w < |m.wheels| && m.wheels[w].stopped && forall i :: 0 <= i < |steps| ==> NotRun(steps[i], w)
    ensures SameTicks(m, Run(m, steps), w)
    decreases |steps|
  {
    if steps != [] {
      StepStopped(m, steps[0], w);
      StoppedMakesNoTick(Apply(m, steps[0]), steps[1..], w);
    }
  }

  /** Run again, the millisecond wheel ticks; a stop in between is undone. */
  lemma RunAgainTicks(m: World)
    requires m.wheels != [] && WfWheel(m.wheels[0])
    ensures var r := Apply(Apply(StopWheel(m, 0), DoRun(0)), DoTick(0));
            |r.wheels| == |m.wheels| && r.wheels[0].ticks == m.wheels[0].ticks + 1
  {
    TickMoves(Apply(StopWheel(m, 0), DoRun(0)), 0, 0);
  }
}
