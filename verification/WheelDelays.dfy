/** What a delay amounts to in milliseconds: the real length of ticks, visits and whole delays. */
module WheelDelays {
  import opened Words
  import opened Arith
  import opened TimerPlan
  import opened Wheel
  import opened WheelTiming
  import opened WheelPlans
  import opened WheelTrips
  import opened WheelClock
  import opened WheelPace

  // ---------------------------------------------------------------------------
  // Ticks
  // ---------------------------------------------------------------------------

  /** Over every prompt run: tick i of an upper wheel comes with tick Every * (i + 1) of the wheel below. */
  lemma TickTimes(n: nat, steps: seq<Step>, w: Upper, i: nat)
    requires 0 < n <= TWO64 - 1000 && PromptRun(Init(n), steps)
    requires var m := Run(Init(n), steps); w < |m.wheels| && i < |m.wheels[w].beats|
    ensures Run(Init(n), steps).wheels[w].beats[i] == Every(n, w) * (i + 1)
  {
    PacedRun(n, steps, 0);
    assert PhaseGood(Run(Init(n), steps), n, w);
  }

  /** And in milliseconds: the ticks made are those whose time has come, one at most not yet made. */
  lemma TicksMade(n: nat, steps: seq<Step>, w: nat)
    requires 0 < n <= TWO64 - 1000 && PromptRun(Init(n), steps) && w <= 4 && w < |Run(Init(n), steps).wheels|
    ensures var m := Run(Init(n), steps);
            Real(n, w) * m.wheels[w].ticks <= Clock(m) <= Real(n, w) * (m.wheels[w].ticks + 1)
  {
    PacedRun(n, steps, 0);
    ClockBounds(Run(Init(n), steps), n, w);
  }

  lemma EveryAtMost(n: nat, w: Upper)
    requires n > 0
    ensures Every(n, w) <= Interval(w) && (Every(n, w) == Interval(w) <==> Interval(w) <= n)
  {
    EveryIs(n, w);
  }

  /** No tick is longer than its unit, and upper wheels keep to it exactly when 1000 slots fit a revolution. */
  lemma {:induction false} RealIsUnitIff(n: nat, w: nat)
    requires n > 0 && w <= 4
    ensures Real(n, w) <= Unit(w)
    ensures Real(n, w) == Unit(w) <==> w == 0 || n >= 1000
  {
    if w > 0 {
      RealIsUnitIff(n, w - 1);
      EveryAtMost(n, w);
      RealNext(n, w);
    }
  }

  lemma RealNext(n: nat, w: Upper)
    requires n > 0 && Real(n, w - 1) <= Unit(w - 1)
    ensures Real(n, w) <= Unit(w)
    ensures Real(n, w) == Unit(w) <==> Every(n, w) == Interval(w) && Real(n, w - 1) == Unit(w - 1)
  {
    EveryIs(n, w);
    UnitIs(w);
    ProductIs(Every(n, w), Real(n, w - 1), Interval(w), Unit(w - 1));
  }

  lemma UnitIs(w: Upper)
    ensures Unit(w) == Interval(w) * Unit(w - 1) && Unit(w - 1) > 0
  {
  }

  lemma ProductIs(a: nat, b: nat, x: nat, y: nat)
    requires 0 < a <= x && 0 < b <= y
    ensures a * b <= x * y && (a * b == x * y <==> a == x && b == y)
  {
    assert x * y == a * b + a * (y - b) + (x - a) * y;
    if a < x { MulAtLeast(x - a, y); }
    if b < y { MulAtLeast(y - b, a); }
  }

  /** The slot count of the daemon: a second lasts 992 ms, a minute 52 of those, a day 16 hours. */
  lemma EightSlots()
    ensures Every(8, 1) == 992 && Every(8, 2) == 52 && Every(8, 3) == 52 && Every(8, 4) == 16
    ensures Real(8, 1) == 992 && Real(8, 2) == 51_584 && Real(8, 3) == 2_682_368 && Real(8, 4) == 42_917_888
  {
    EveryIs(8, 1);
    EveryIs(8, 2);
    EveryIs(8, 3);
    EveryIs(8, 4);
    assert Real(8, 0) == 1;
  }

  // ---------------------------------------------------------------------------
  // Visits
  // ---------------------------------------------------------------------------

  /** How far into a tick of its wheel a visit began. */
  function Offset(n: nat, v: Visit): int
    requires n > 0 && v.step.wheel <= 4
  {
    v.begun - Real(n, v.step.wheel) * v.start
  }

  /** Over every prompt run: an ended visit lasted its ticks, less the part of a tick that was over when it began. */
  lemma VisitLength(n: nat, steps: seq<Step>, p: Id, i: nat)
    requires 0 < n <= TWO64 - 1000 && PromptRun(Init(n), steps) && i < |Visits(Run(Init(n), steps), p)|
    ensures var v := Visits(Run(Init(n), steps), p)[i];
            && v.step.wheel <= 4 && 0 <= Offset(n, v) <= Real(n, v.step.wheel) && v.position < n
            && (i > 0 ==> Offset(n, v) == 0)
            && (v.Taken? ==>
                  v.ended - v.begun == Span(n, v.position, v.step.delay) * Real(n, v.step.wheel) - Offset(n, v))
  {
    var m := Run(Init(n), steps);
    PacedRun(n, steps, p);
    VisitsTakeTheirSpan(n, steps, p, i);
    var v := Visits(m, p)[i];
    assert LegGood(n, v) && (i > 0 ==> Joins(n, Visits(m, p)[i - 1], v));
    LegLength(n, v);
  }

  lemma LegLength(n: nat, v: Visit)
    requires n > 0 && LegGood(n, v) && VisitGood(n, v)
    ensures 0 <= Offset(n, v) <= Real(n, v.step.wheel)
    ensures v.Taken? ==> v.ended - v.begun == Span(n, v.position, v.step.delay) * Real(n, v.step.wheel) - Offset(n, v)
  {
    Distribute(Real(n, v.step.wheel), v.start, Span(n, v.position, v.step.delay));
    NextMultiple(Real(n, v.step.wheel), v.start);
  }

  lemma Distribute(u: int, x: int, y: int)
    ensures u * (x + y) == u * x + y * u
  {
  }

  // ---------------------------------------------------------------------------
  // Whole delays
  // ---------------------------------------------------------------------------

  /** Milliseconds that a stage takes on wheels of n slots, from a tick of its wheel on. */
  function StageLength(n: nat, s: PlanStep): nat
    requires n > 0
  {
    if s.delay == 0 || s.wheel > 4 then 0 else FireTick(n, s.delay) * Real(n, s.wheel)
  }

  function Length(n: nat, stages: seq<PlanStep>): nat
    requires n > 0
  {
    if stages == [] then 0 else StageLength(n, stages[0]) + Length(n, stages[1..])
  }

  lemma {:induction false} NonzeroLength(n: nat, stages: seq<PlanStep>)
    requires n > 0
    ensures Length(n, Nonzero(stages)) == Length(n, stages)
  {
    if stages != [] {
      NonzeroLength(n, stages[1..]);
      var rest := Nonzero(stages[1..]);
      assert [] + rest == rest && ([stages[0]] + rest)[1..] == rest;
    }
  }

  /** From the first placement to the last collection. */
  function Waited(visits: seq<Visit>): int
    requires visits != [] && Last(visits).Taken?
  {
    Last(visits).ended - visits[0].begun
  }

  /** Stages that follow each other without a gap add up. */
  lemma {:induction false} LegsAddUp(n: nat, visits: seq<Visit>)
    requires n > 0 && visits != [] && forall i :: 0 <= i < |visits| ==> Leg(n, visits[i])
    requires forall i :: 0 < i < |visits| ==> Joins(n, visits[i - 1], visits[i])
    ensures Last(visits).Taken? && visits[0].step.wheel <= 4
    ensures Waited(visits) == Length(n, Route(visits)) - Offset(n, visits[0])
  {
    assert Leg(n, Last(visits)) && Leg(n, visits[0]);
    RouteHead(visits);
    var v := visits[0];
    Distribute(Real(n, v.step.wheel), v.start, FireTick(n, v.step.delay));
    if |visits| > 1 {
      assert Joins(n, visits[0], visits[1]);
      LegsAddUp(n, visits[1..]);
    } else {
      assert Length(n, Route(visits[1..])) == 0;
    }
  }

  /** An ended visit of the length the law gives. */
  predicate Leg(n: nat, v: Visit)
    requires n > 0
  {
    && v.Taken? && v.step.wheel <= 4 && v.step.delay > 0
    && v.end == v.start + FireTick(n, v.step.delay) && v.ended == Real(n, v.step.wheel) * v.end
  }

  lemma RouteHead(visits: seq<Visit>)
    requires visits != []
    ensures Route(visits)[0] == visits[0].step && Route(visits)[1..] == Route(visits[1..])
  {
  }

  /** No sum of position and delay wraps around 64 bits. */
  predicate Unwrapped(n: nat, d: Duration) {
    forall i :: 0 <= i < 5 ==> Fields(d)[i].delay + n <= TWO64
  }

  /**
   * Over every prompt run: when the callback of a timer runs it has waited the length of its rectified delay,
   * less the part of a tick of its first wheel that was over when it was placed.
   */
  lemma WaitedIs(n: nat, steps: seq<Step>, p: Id)
    requires 0 < n <= TWO64 - 1000 && PromptRun(Init(n), steps)
    requires var m := Run(Init(n), steps);
             && p in m.fired && OfUser(m, p)
             && TotalMs(Rectified(m.past.asked[p].delay)) > 0 && Unwrapped(n, Rectified(m.past.asked[p].delay))
    ensures var m := Run(Init(n), steps);
            var visits := Visits(m, p);
            && visits != [] && Last(visits).Taken? && visits[0].step.wheel <= 4
            && 0 <= Offset(n, visits[0]) <= Real(n, visits[0].step.wheel)
            && Waited(visits) == Length(n, Fields(Rectified(m.past.asked[p].delay))) - Offset(n, visits[0])
  {
    var m := Run(Init(n), steps);
    var d, visits := Rectified(m.past.asked[p].delay), Visits(m, p);
    VisitsInOrder(n, steps, p);
    StagesNonempty(d);
    PacedRun(n, steps, p);
    forall i | 0 <= i < |visits| ensures Leg(n, visits[i]) {
      StageLeg(n, steps, p, i, d);
    }
    VisitLength(n, steps, p, 0);
    LegsAddUp(n, visits);
    NonzeroLength(n, Fields(d));
  }

  lemma StagesNonempty(d: Duration)
    requires TotalMs(d) > 0
    ensures Nonzero(Fields(d)) != []
  {
    PlanCoversDuration(d);
  }

  lemma StageLeg(n: nat, steps: seq<Step>, p: Id, i: nat, d: Duration)
    requires 0 < n <= TWO64 - 1000 && PromptRun(Init(n), steps)
    requires var m := Run(Init(n), steps);
             p in m.fired && i < |Visits(m, p)| && Route(Visits(m, p)) == Nonzero(Fields(d)) && Unwrapped(n, d)
    ensures Leg(n, Visits(Run(Init(n), steps), p)[i])
  {
    var m := Run(Init(n), steps);
    var v := Visits(m, p)[i];
    PacedRun(n, steps, p);
    assert LegGood(n, v);
    VisitsTakeTheirSpan(n, steps, p, i);
    NonzeroFrom(Fields(d), i);
    assert Route(Visits(m, p))[i] == v.step;
    SpanIsFireTick(n, v.position, v.step.delay);
  }

  lemma FireTickAtMost(n: nat, d: U64)
    requires n > 0 && d > 0
    ensures 0 < FireTick(n, d) <= d
  {
    var q, r := DivModIdentity(d - 1, n);
    MulMonotone(Laps(ToInt32(q)), q, n, n);
  }

  predicate Nominal(n: nat, s: PlanStep) {
    s.delay == 0 || (s.delay <= n && (s.wheel == 0 || n >= 1000))
  }

  lemma StageIs(n: nat, s: PlanStep)
    requires n > 0 && s.wheel <= 4
    ensures StageLength(n, s) <= s.delay * Unit(s.wheel)
    ensures StageLength(n, s) == s.delay * Unit(s.wheel) <==> Nominal(n, s)
  {
    if s.delay > 0 {
      FireTickAtMost(n, s.delay);
      OnTimeIff(n, s.delay);
      RealIsUnitIff(n, s.wheel);
      ProductIs(FireTick(n, s.delay), Real(n, s.wheel), s.delay, Unit(s.wheel));
    }
  }

  /** Stage by stage no more than asked for, and in all the same exactly when every stage is. */
  lemma {:induction false} LengthIs(n: nat, stages: seq<PlanStep>)
    requires n > 0 && forall i :: 0 <= i < |stages| ==> stages[i].wheel <= 4
    ensures Length(n, stages) <= Weight(stages)
    ensures Length(n, stages) == Weight(stages) <==> forall i :: 0 <= i < |stages| ==> Nominal(n, stages[i])
  {
    if stages != [] {
      LengthIs(n, stages[1..]);
      StageIs(n, stages[0]);
      assert forall i :: 1 <= i < |stages| ==> stages[i] == stages[1..][i - 1];
    }
  }

  /** Every field fits one revolution, and upper wheels are used only if their ticks have their nominal length. */
  predicate Fits(n: nat, d: Duration) {
    && d.days <= n && d.hours <= n && d.minutes <= n && d.seconds <= n && d.milliseconds <= n
    && (n >= 1000 || d == Duration(0, 0, 0, 0, d.milliseconds))
  }

  /** A delay takes no longer than asked for, and exactly as long if and only if it fits. */
  lemma LengthIsTotalIff(n: nat, d: Duration)
    requires n > 0
    ensures Length(n, Fields(d)) <= TotalMs(d)
    ensures Length(n, Fields(d)) == TotalMs(d) <==> Fits(n, d)
  {
    var f := Fields(d);
    assert f[0..] == f;
    FieldsWeight(d, 0);
    LengthIs(n, f);
    assert f[0].wheel == 4 && f[1].wheel == 3 && f[2].wheel == 2 && f[3].wheel == 1 && f[4].wheel == 0;
  }

  /**
   * So over every prompt run a timer that was placed at a tick of its first wheel has waited exactly its
   * rectified delay when its callback runs if and only if the delay fits; in general it has waited less, by
   * the part of a tick that was over.
   */
  lemma WaitsWholeDelay(n: nat, steps: seq<Step>, p: Id)
    requires 0 < n <= TWO64 - 1000 && PromptRun(Init(n), steps)
    requires var m := Run(Init(n), steps);
             && p in m.fired && OfUser(m, p)
             && TotalMs(Rectified(m.past.asked[p].delay)) > 0 && Unwrapped(n, Rectified(m.past.asked[p].delay))
    ensures var m := Run(Init(n), steps);
            var d, visits := Rectified(m.past.asked[p].delay), Visits(m, p);
            && visits != [] && Last(visits).Taken? && visits[0].step.wheel <= 4
            && Waited(visits) <= TotalMs(d)
            && (Waited(visits) == TotalMs(d) <==> Fits(n, d) && Offset(n, visits[0]) == 0)
  {
    WaitedIs(n, steps, p);
    LengthIsTotalIff(n, Rectified(Run(Init(n), steps).past.asked[p].delay));
  }
}
