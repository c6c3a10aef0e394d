/** Durations, and the plan of wheels a timer goes through. */
module TimerPlan {
  import opened Words
  import opened Arith

  datatype PlanStep = PlanStep(delay: U64, wheel: nat)

  datatype Duration = Duration(days: U64, hours: U64, minutes: U64, seconds: U64, milliseconds: U64)

  function TotalMs(d: Duration): nat {
    (((d.days * 24 + d.hours) * 60 + d.minutes) * 60 + d.seconds) * 1000 + d.milliseconds
  }

  // ---------------------------------------------------------------------------
  // Rectification
  // ---------------------------------------------------------------------------

  /** A field after the whole units of the field below are carried into it; additions are modulo 2^64. */
  function Up(high: U64, low: U64, limit: nat): U64
    requires limit > 0
  {
    (high + low / limit) % TWO64
  }

  /** What is left in the field below. */
  function Down(low: U64, limit: nat): (r: U64)
    requires limit > 0
    ensures r < limit
  {
    low % limit
  }

  /** Whole units move up when a field exceeds (not reaches) its limit. */
  function CarryMs(d: Duration): Duration {
    if d.milliseconds > 1000
    then d.(seconds := Up(d.seconds, d.milliseconds, 1000), milliseconds := Down(d.milliseconds, 1000)) else d
  }

  function CarrySeconds(d: Duration): Duration {
    if d.seconds > 60 then d.(minutes := Up(d.minutes, d.seconds, 60), seconds := Down(d.seconds, 60)) else d
  }

  function CarryMinutes(d: Duration): Duration {
    if d.minutes > 60 then d.(hours := Up(d.hours, d.minutes, 60), minutes := Down(d.minutes, 60)) else d
  }

  function CarryHours(d: Duration): Duration {
    if d.hours > 24 then d.(days := Up(d.days, d.hours, 24), hours := Down(d.hours, 24)) else d
  }

  function Rectified(d: Duration): Duration {
    CarryHours(CarryMinutes(CarrySeconds(CarryMs(d))))
  }

  /** Units carried out of a field. */
  function Over(x: nat, limit: nat): nat
    requires limit > 0
  {
    if x > limit then x / limit else 0
  }

  /** Each field stays below 2^64 when the units carried into it are added. */
  predicate NoWrap(d: Duration) {
    var s := d.seconds + Over(d.milliseconds, 1000);
    var m := d.minutes + Over(s, 60);
    var h := d.hours + Over(m, 60);
    s < TWO64 && m < TWO64 && h < TWO64 && d.days + Over(h, 24) < TWO64
  }

  /** One carry, in units of the lower field: nothing is lost unless the upper field wraps around. */
  lemma CarryTotal(high: U64, low: U64, limit: nat)
    requires 0 < limit
    ensures high + low / limit < TWO64 ==> Up(high, low, limit) * limit + Down(low, limit) == high * limit + low
    ensures high + low / limit >= TWO64 ==> Up(high, low, limit) * limit + Down(low, limit) < high * limit + low
  {
    var q, r := DivModIdentity(low, limit);
    var up := Up(high, low, limit);
    if high + q < TWO64 {
      DivModUnique(high + q, TWO64, 0, high + q);
    } else {
      DivModUnique(high + q, TWO64, 1, high + q - TWO64);
      MulMonotone(up + 1, high + q, limit, limit);
      assert (up + 1) * limit == up * limit + limit;
    }
    assert (high + q) * limit == high * limit + q * limit;
  }

  lemma CarryMsTotal(d: Duration)
    ensures TotalMs(CarryMs(d)) <= TotalMs(d)
    ensures TotalMs(CarryMs(d)) == TotalMs(d) <==> d.seconds + Over(d.milliseconds, 1000) < TWO64
  {
    if d.milliseconds > 1000 { CarryTotal(d.seconds, d.milliseconds, 1000); }
  }

  lemma CarrySecondsTotal(d: Duration)
    ensures TotalMs(CarrySeconds(d)) <= TotalMs(d)
    ensures TotalMs(CarrySeconds(d)) == TotalMs(d) <==> d.minutes + Over(d.seconds, 60) < TWO64
  {
    if d.seconds > 60 { CarryTotal(d.minutes, d.seconds, 60); }
  }

  lemma CarryMinutesTotal(d: Duration)
    ensures TotalMs(CarryMinutes(d)) <= TotalMs(d)
    ensures TotalMs(CarryMinutes(d)) == TotalMs(d) <==> d.hours + Over(d.minutes, 60) < TWO64
  {
    if d.minutes > 60 { CarryTotal(d.hours, d.minutes, 60); }
  }

  lemma CarryHoursTotal(d: Duration)
    ensures TotalMs(CarryHours(d)) <= TotalMs(d)
    ensures TotalMs(CarryHours(d)) == TotalMs(d) <==> d.days + Over(d.hours, 24) < TWO64
  {
    if d.hours > 24 { CarryTotal(d.days, d.hours, 24); }
  }

  /** A carry that does not wrap is the plain sum. */
  lemma UpIsPlain(high: U64, low: U64, limit: nat)
    requires 0 < limit && high + low / limit < TWO64
    ensures Up(high, low, limit) == high + low / limit
  {
    DivModUnique(high + low / limit, TWO64, 0, high + low / limit);
  }

  lemma PlainMs(d: Duration)
    requires d.seconds + Over(d.milliseconds, 1000) < TWO64
    ensures CarryMs(d).seconds == d.seconds + Over(d.milliseconds, 1000)
    ensures CarryMs(d).minutes == d.minutes && CarryMs(d).hours == d.hours && CarryMs(d).days == d.days
  {
    if d.milliseconds > 1000 { UpIsPlain(d.seconds, d.milliseconds, 1000); }
  }

  lemma PlainSeconds(d: Duration)
    requires d.minutes + Over(d.seconds, 60) < TWO64
    ensures CarrySeconds(d).minutes == d.minutes + Over(d.seconds, 60)
    ensures CarrySeconds(d).hours == d.hours && CarrySeconds(d).days == d.days
  {
    if d.seconds > 60 { UpIsPlain(d.minutes, d.seconds, 60); }
  }

  lemma PlainMinutes(d: Duration)
    requires d.hours + Over(d.minutes, 60) < TWO64
    ensures CarryMinutes(d).hours == d.hours + Over(d.minutes, 60) && CarryMinutes(d).days == d.days
  {
    if d.minutes > 60 { UpIsPlain(d.hours, d.minutes, 60); }
  }

  /** Rectification keeps the total exactly when no carry wraps around, and never raises it. */
  lemma RectifyTotal(d: Duration)
    ensures TotalMs(Rectified(d)) == TotalMs(d) <==> NoWrap(d)
    ensures TotalMs(Rectified(d)) <= TotalMs(d)
  {
    var a := CarryMs(d);
    CarryMsTotal(d);
    RectifyFromSeconds(a);
    if d.seconds + Over(d.milliseconds, 1000) < TWO64 { PlainMs(d); }
  }

  lemma RectifyFromSeconds(a: Duration)
    ensures var r := CarryHours(CarryMinutes(CarrySeconds(a)));
            TotalMs(r) <= TotalMs(a)
            && (TotalMs(r) == TotalMs(a) <==>
                var m := a.minutes + Over(a.seconds, 60);
                var h := a.hours + Over(m, 60);
                m < TWO64 && h < TWO64 && a.days + Over(h, 24) < TWO64)
  {
    var b := CarrySeconds(a);
    CarrySecondsTotal(a);
    RectifyFromMinutes(b);
    if a.minutes + Over(a.seconds, 60) < TWO64 { PlainSeconds(a); }
  }

  lemma RectifyFromMinutes(b: Duration)
    ensures var r := CarryHours(CarryMinutes(b));
            TotalMs(r) <= TotalMs(b)
            && (TotalMs(r) == TotalMs(b) <==>
                var h := b.hours + Over(b.minutes, 60); h < TWO64 && b.days + Over(h, 24) < TWO64)
  {
    CarryMinutesTotal(b);
    CarryHoursTotal(CarryMinutes(b));
    if b.hours + Over(b.minutes, 60) < TWO64 { PlainMinutes(b); }
  }

  /** The lower fields end up within their limits, the limits included. */
  predicate InLimits(d: Duration) {
    d.milliseconds <= 1000 && d.seconds <= 60 && d.minutes <= 60 && d.hours <= 24
  }

  /** Rectified means within limits, and rectifying changes nothing exactly there. */
  lemma RectifyLimits(d: Duration)
    ensures InLimits(Rectified(d))
    ensures Rectified(d) == d <==> InLimits(d)
    ensures Rectified(Rectified(d)) == Rectified(d)
  {
  }

  class Delay {
    var value: Duration

    constructor (d: Duration)
      ensures value == d
    {
      value := d;
    }

    /** timer_duration_rectify. */
    method Rectify()
      modifies this
      ensures value == Rectified(old(value))
    {
      ghost var d := value;
      if value.milliseconds > 1000 {
        value := value.(seconds := Up(value.seconds, value.milliseconds, 1000),
                        milliseconds := Down(value.milliseconds, 1000));
      }
      assert value == CarryMs(d);
      if value.seconds > 60 {
        value := value.(minutes := Up(value.minutes, value.seconds, 60), seconds := Down(value.seconds, 60));
      }
      assert value == CarrySeconds(CarryMs(d));
      if value.minutes > 60 {
        value := value.(hours := Up(value.hours, value.minutes, 60), minutes := Down(value.minutes, 60));
      }
      assert value == CarryMinutes(CarrySeconds(CarryMs(d)));
      if value.hours > 24 {
        value := value.(days := Up(value.days, value.hours, 24), hours := Down(value.hours, 24));
      }
    }
  }

  // ---------------------------------------------------------------------------
  // Plans
  // ---------------------------------------------------------------------------

  /** Milliseconds that one tick of each wheel is meant to last. */
  function Unit(wheel: nat): nat {
    if wheel == 0 then 1 else if wheel == 1 then 1000 else if wheel == 2 then 60000
    else if wheel == 3 then 3600000 else 86400000
  }

  /** All five fields, days first. */
  function Fields(d: Duration): seq<PlanStep> {
    [PlanStep(d.days, 4), PlanStep(d.hours, 3), PlanStep(d.minutes, 2), PlanStep(d.seconds, 1),
     PlanStep(d.milliseconds, 0)]
  }

  /** The plan starts at the largest unit in use. */
  function PlanOf(d: Duration): seq<PlanStep> {
    if d.days > 0 then Fields(d)
    else if d.hours > 0 then Fields(d)[1..]
    else if d.minutes > 0 then Fields(d)[2..]
    else if d.seconds > 0 then Fields(d)[3..]
    else Fields(d)[4..]
  }

  /** The wheels above the millisecond wheel. */
  type Upper = w: int | 1 <= w <= 4 witness 1

  /** Ticks of the wheel below that the code asks for between two ticks of an upper wheel. */
  function Interval(w: Upper): (d: U64)
    ensures 0 < d <= 1000
  {
    if w == 1 then 1000 else if w == 2 then 60 else if w == 3 then 60 else 24
  }

  /** What a timer is for: a user's delay, or the next tick of an upper wheel. */
  datatype Request = After(delay: Duration) | Drive(wheel: Upper)

  /** A driver waits once, on the wheel below the one it ticks. */
  function PlanFor(r: Request): (steps: seq<PlanStep>) {
    match r
    case After(d) => PlanOf(Rectified(d))
    case Drive(w) => [PlanStep(Interval(w), w - 1)]
  }

  /** A plan has a step, and its wheels exist. */
  predicate GoodPlan(steps: seq<PlanStep>, wheels: nat) {
    steps != [] && forall i :: 0 <= i < |steps| ==> steps[i].wheel < wheels
  }

  lemma PlanIsGood(r: Request)
    ensures GoodPlan(PlanFor(r), 5)
  {
  }

  /** The first plan step from k on with a delay, or the end of the plan. */
  function NextStage(steps: seq<PlanStep>, k: nat): (r: nat)
    requires k <= |steps|
    ensures k <= r <= |steps|
    ensures forall i :: k <= i < r ==> steps[i].delay == 0
    ensures r < |steps| ==> steps[r].delay != 0
    decreases |steps| - k
  {
    if k == |steps| || steps[k].delay != 0 then k else NextStage(steps, k + 1)
  }

  /** The stages a timer at stage k goes through from there. */
  function Stages(steps: seq<PlanStep>, k: nat): seq<PlanStep>
    requires k <= |steps|
    decreases |steps| - k
  {
    if k == |steps| then [] else [steps[k]] + Stages(steps, NextStage(steps, k + 1))
  }

  function Nonzero(steps: seq<PlanStep>): seq<PlanStep> {
    if steps == [] then [] else (if steps[0].delay != 0 then [steps[0]] else []) + Nonzero(steps[1..])
  }

  lemma {:induction false} NonzeroSkips(steps: seq<PlanStep>, k: nat, r: nat)
    requires k <= r <= |steps| && forall i :: k <= i < r ==> steps[i].delay == 0
    ensures Nonzero(steps[k..]) == Nonzero(steps[r..])
    decreases r - k
  {
    if k == r {
    } else {
      assert steps[k..][1..] == steps[k + 1..];
      NonzeroSkips(steps, k + 1, r);
    }
  }

  lemma {:induction false} StagesAreNonzero(steps: seq<PlanStep>, k: nat)
    requires k <= |steps| && (k < |steps| ==> steps[k].delay != 0)
    ensures Stages(steps, k) == Nonzero(steps[k..])
    decreases |steps| - k
  {
    if k == |steps| {
    } else {
      var r := NextStage(steps, k + 1);
      StagesAreNonzero(steps, r);
      NonzeroSkips(steps, k + 1, r);
      assert steps[k..][1..] == steps[k + 1..];
    }
  }

  function Weight(steps: seq<PlanStep>): nat {
    if steps == [] then 0 else steps[0].delay * Unit(steps[0].wheel) + Weight(steps[1..])
  }

  lemma {:induction false} NonzeroWeight(steps: seq<PlanStep>)
    ensures Weight(Nonzero(steps)) == Weight(steps)
  {
    if steps == [] {
    } else {
      NonzeroWeight(steps[1..]);
      var rest := Nonzero(steps[1..]);
      assert [] + rest == rest && ([steps[0]] + rest)[1..] == rest;
    }
  }

  lemma FieldsWeight(d: Duration, k: nat)
    requires k <= 4
    requires (k > 0 ==> d.days == 0) && (k > 1 ==> d.hours == 0)
    requires (k > 2 ==> d.minutes == 0) && (k > 3 ==> d.seconds == 0)
    ensures Weight(Fields(d)[k..]) == TotalMs(d)
  {
    var f := Fields(d);
    assert f[4..][1..] == [] && f[3..][1..] == f[4..] && f[2..][1..] == f[3..];
    assert f[1..][1..] == f[2..] && f[0..][1..] == f[1..];
    assert Weight(f[4..]) == d.milliseconds;
    assert Weight(f[3..]) == d.seconds * 1000 + d.milliseconds;
    assert Weight(f[2..]) == d.minutes * 60000 + Weight(f[3..]);
    assert Weight(f[1..]) == d.hours * 3600000 + Weight(f[2..]);
    assert Weight(f[0..]) == d.days * 86400000 + Weight(f[1..]);
  }

  /**
   * The plan of a nonzero duration goes through exactly its nonzero fields, days first, and the
   * ticks it waits for, weighed by the unit of their wheel, add up to the whole duration.
   */
  lemma PlanCoversDuration(d: Duration)
    requires TotalMs(d) > 0
    ensures Stages(PlanOf(d), 0) == Nonzero(Fields(d))
    ensures Weight(Stages(PlanOf(d), 0)) == TotalMs(d)
  {
    var f := Fields(d);
    var k := if d.days > 0 then 0 else if d.hours > 0 then 1 else if d.minutes > 0 then 2
             else if d.seconds > 0 then 3 else 4;
    assert f[0..] == f && PlanOf(d) == f[k..];
    assert f[k].delay != 0;
    StagesAreNonzero(PlanOf(d), 0);
    assert PlanOf(d)[0..] == PlanOf(d);
    NonzeroSkips(f, 0, k);
    NonzeroWeight(f[k..]);
    FieldsWeight(d, k);
  }
}
