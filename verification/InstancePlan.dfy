/** yandextank/stepper/instance_plan.py: when to start each instance. The builder's calls append generators of start
    times; the created plan is all of them in a row, then zeros for ever. Floats are exact reals. */
module InstancePlan {
  import opened Common
  import opened LoadPlan

  datatype Step = Step(instances: int, seconds: int)

  /** How a call ends: normally, with the configuration error "Can not stop instances", or with the division by zero
      of a ramp of one instance and of a stairway without a step size. */
  datatype Outcome = Done | StopsInstances | DividesByZero

  /** `i * interval` with `interval = float(duration) / (count - 1)` */
  function Part(i: nat, count: nat, duration: nat): real
    requires count != 1
  {
    i as real * (duration as real / (count - 1) as real)
  }

  /** `int(start_time + i * interval) for i in range(0, count)` */
  function RampTimes(start: nat, count: nat, duration: nat): (s: seq<int>)
    requires count != 1
    ensures |s| == count
  {
    seq(count, i requires i >= 0 => (start as real + Part(i, count, duration)).Floor)
  }

  /** Each further instance is a step of its own, one interval long. */
  function RampSteps(instances: int, count: nat, duration: nat): seq<Step>
    requires count != 1
  {
    seq(count, i requires i >= 0 =>
      Step(instances + i + 1, (duration as real / (count - 1) as real / 1000.0).Floor))
  }

  lemma PartsOfDuration(count: nat, duration: nat, i: nat, j: nat)
    requires count >= 2 && i <= j < count
    ensures 0.0 <= Part(i, count, duration) <= Part(j, count, duration) <= duration as real
    ensures Part(0, count, duration) == 0.0 && Part(count - 1, count, duration) == duration as real
  {
    var parts := (count - 1) as real;
    var interval := duration as real / parts;
    assert parts * interval == duration as real && 0.0 * interval == 0.0;
    assert Part(0, count, duration) == 0.0 * interval && Part(count - 1, count, duration) == parts * interval;
    assert Part(i, count, duration) == i as real * interval && Part(j, count, duration) == j as real * interval;
    CancelOrder(0.0, interval, parts);
    hide Part;
    MulMonotone(0.0, i as real, interval);
    MulMonotone(i as real, j as real, interval);
    MulMonotone(j as real, parts, interval);
  }

  /** A ramp starts its first instance at once, its last one at the very end, and the others in order between, every
      two neighbours one interval apart but for the rounding to whole milliseconds. */
  lemma RampIsEven(start: nat, count: nat, duration: nat)
    requires count >= 2
    ensures var s := RampTimes(start, count, duration);
            Scheduled(s, start, start + duration) && s[0] == start && s[count - 1] == start + duration
    ensures forall i | 0 <= i < count - 1 ::
      var gap := (RampTimes(start, count, duration)[i + 1] - RampTimes(start, count, duration)[i]) as real;
      -1.0 < gap - duration as real / (count - 1) as real < 1.0
  {
    var s, interval := RampTimes(start, count, duration), duration as real / (count - 1) as real;
    forall i | 0 <= i < count - 1 ensures Part(i + 1, count, duration) == Part(i, count, duration) + interval {
      NextPart(i, interval);
    }
    hide Part;
    forall i, j | 0 <= i <= j < count ensures start <= s[i] <= s[j] <= start + duration {
      PartsOfDuration(count, duration, i, j);
    }
    PartsOfDuration(count, duration, 0, count - 1);
  }

  lemma NextPart(i: nat, interval: real)
    ensures (i + 1) as real * interval == i as real * interval + interval
  {
    var a, b := i as real, (i + 1) as real;
    assert b == a + 1.0;
  }

  lemma RampInOrder(start: nat, count: nat, duration: nat)
    requires count != 1
    ensures Scheduled(RampTimes(start, count, duration), start, start + duration)
  {
    if count > 0 {
      RampIsEven(start, count, duration);
    }
  }

  /** In order and between two moments. */
  ghost predicate Scheduled(s: seq<int>, from: int, to: int) {
    NonDecreasing(s) && forall i | 0 <= i < |s| :: from <= s[i] <= to
  }

  lemma ScheduledJoined(a: seq<int>, b: seq<int>, from: int, mid: int, to: int)
    requires Scheduled(a, from, mid) && Scheduled(b, mid, to) && from <= mid <= to
    ensures Scheduled(a + b, from, to)
  {
  }

  // ----- stairways

  /** The later instances of a stairway that begins at `start`: stepSize of them after each step. */
  function Climb(start: int, stepSize: nat, stepDuration: nat, n: nat): (s: seq<int>)
    requires stepSize > 0
    ensures |s| == n
  {
    seq(n, k requires k >= 0 => start + (k / stepSize + 1) * stepDuration)
  }

  function StairSteps(initial: int, final: int, stepSize: nat, stepDuration: nat, n: nat): seq<Step> {
    seq(n, k requires k >= 0 => Step(Min(initial + k * stepSize, final), stepDuration / 1000))
  }

  /** How many steps up it takes, the last one possibly smaller. */
  function StepsUp(rise: nat, stepSize: nat): nat
    requires stepSize > 0
  {
    (rise + stepSize - 1) / stepSize
  }

  lemma Next(i: nat, x: nat)
    ensures (i + 1) * x == i * x + x
  {
  }

  lemma NothingClimbed(start: int, initial: int, final: int, stepSize: nat, stepDuration: nat)
    requires stepSize > 0
    ensures Climb(start, stepSize, stepDuration, 0) == []
    ensures StairSteps(initial, final, stepSize, stepDuration, 0) == []
  {
  }

  lemma StepOn(initial: int, final: int, stepSize: nat, stepDuration: nat, n: nat)
    ensures StairSteps(initial, final, stepSize, stepDuration, n + 1)
            == StairSteps(initial, final, stepSize, stepDuration, n)
               + [Step(Min(initial + n * stepSize, final), stepDuration / 1000)]
  {
  }

  /** The remaining instances, if any, get one more step. */
  function TailSteps(instances: int, final: int, stepDuration: nat): seq<Step> {
    (if instances < final then [Step(instances, stepDuration / 1000)] else []) + [Step(final, stepDuration / 1000)]
  }

  lemma WholeStepsUp(rise: int, stepSize: nat)
    requires stepSize > 0
    ensures var n := rise / stepSize;
      if rise < 0 then n < 0 else
        n >= 0 && n * stepSize <= rise < n * stepSize + stepSize
        && StepsUp(rise, stepSize) == if rise == n * stepSize then n else n + 1
  {
    var n := rise / stepSize;
    if rise >= 0 {
      var r := rise - n * stepSize;
      if r == 0 {
        DivideExactly(n, stepSize - 1, stepSize);
      } else {
        Next(n, stepSize);
        DivideExactly(n + 1, r - 1, stepSize);
      }
    }
  }

  /** After the whole steps up, the tail completes the climb. */
  lemma StairTail(start: int, initial: int, final: int, stepSize: nat, stepDuration: nat)
    requires stepSize > 0
    ensures initial <= final ==>
      var n := (final - initial) / stepSize;
      n * stepSize <= final - initial
      && Climb(start, stepSize, stepDuration, n * stepSize)
         + Repeat(start + n * stepDuration + stepDuration, final - initial - n * stepSize)
         == Climb(start, stepSize, stepDuration, final - initial)
      && StairSteps(initial, final, stepSize, stepDuration, n)
         + TailSteps(initial + n * stepSize, final, stepDuration)
         == StairSteps(initial, final, stepSize, stepDuration, StepsUp(final - initial, stepSize) + 1)
      && (StepsUp(final - initial, stepSize) + 1) * stepDuration
         == n * stepDuration + stepDuration + if initial + n * stepSize < final then stepDuration else 0
  {
    var rise, n := final - initial, (final - initial) / stepSize;
    WholeStepsUp(rise, stepSize);
    if rise >= 0 {
      hide Climb, StairSteps, Repeat, StepsUp;
      ClimbOn(start, stepSize, stepDuration, n, rise - n * stepSize);
      Next(n, stepDuration);
      Next(n + 1, stepDuration);
      Next(n, stepSize);
      StepOn(initial, final, stepSize, stepDuration, n);
      StepOn(initial, final, stepSize, stepDuration, n + 1);
    }
  }

  lemma ClimbOn(start: int, stepSize: nat, stepDuration: nat, i: nat, more: nat)
    requires 0 < stepSize && more <= stepSize
    ensures Climb(start, stepSize, stepDuration, i * stepSize) + Repeat(start + (i + 1) * stepDuration, more)
            == Climb(start, stepSize, stepDuration, i * stepSize + more)
  {
    var n := i * stepSize;
    forall k | n <= k < n + more ensures k / stepSize == i {
      DivideExactly(i, k - n, stepSize);
    }
  }

  // ----- what the calls come to

  datatype Call =
    | Start(count: int)
    | Wait(time: nat)
    | Ramp(count: int, time: nat)
    | Const(final: int, time: nat)
    | Line(initial: int, final: int, time: nat)
    | Stairway(initial: int, final: int, stepSize: nat, time: nat)

  /** What has been planned: a start time for each instance, the steps, the time they take. */
  datatype Built = Built(starts: seq<int>, steps: seq<Step>, duration: nat)

  function Ends(b: Built, call: Call): Outcome {
    var instances := |b.starts|;
    match call
    case Start(count) => if count < 0 then StopsInstances else Done
    case Wait(_) => Done
    case Ramp(count, _) => if count < 0 then StopsInstances else if count == 1 then DividesByZero else Done
    case Const(final, _) => if final < instances then StopsInstances else Done
    case Line(initial, final, _) =>
      if initial - 1 < instances || final < initial - 1 then StopsInstances
      else if final == initial then DividesByZero else Done
    case Stairway(initial, final, stepSize, _) =>
      if stepSize == 0 then DividesByZero
      else if initial < instances || final < initial then StopsInstances else Done
  }

  /** The plan after a call that ends normally. */
  function Then(b: Built, call: Call): Built
    requires Ends(b, call) == Done
  {
    var instances := |b.starts|;
    match call
    case Start(count) => b.(starts := b.starts + Repeat(b.duration, count))
    case Wait(time) => b.(duration := b.duration + time, steps := b.steps + [Step(instances, time / 1000)])
    case Ramp(count, time) =>
      Built(b.starts + RampTimes(b.duration, count, time), b.steps + RampSteps(instances, count, time),
            b.duration + time)
    case Const(final, time) =>
      Built(b.starts + Repeat(b.duration, final - instances), b.steps + [Step(final, time / 1000)], b.duration + time)
    case Line(initial, final, time) =>
      Built(b.starts + Repeat(b.duration, initial - 1 - instances) + RampTimes(b.duration, final - initial + 1, time),
            b.steps + RampSteps(initial - 1, final - initial + 1, time), b.duration + time)
    case Stairway(initial, final, stepSize, time) =>
      var up := StepsUp(final - initial, stepSize);
      Built(b.starts + Repeat(b.duration, initial - instances) + Climb(b.duration, stepSize, time, final - initial),
            b.steps + StairSteps(initial, final, stepSize, time, up + 1), b.duration + (up + 1) * time)
  }

  function EndsAll(b: Built, calls: seq<Call>): Outcome
    decreases calls
  {
    if calls == [] then Done
    else if Ends(b, calls[0]) != Done then Ends(b, calls[0])
    else EndsAll(Then(b, calls[0]), calls[1..])
  }

  function ThenAll(b: Built, calls: seq<Call>): Built
    requires EndsAll(b, calls) == Done
    decreases calls
  {
    if calls == [] then b else ThenAll(Then(b, calls[0]), calls[1..])
  }

  lemma StartComesTo(b: Built, count: int)
    ensures Ends(b, Call.Start(count)) == if count < 0 then StopsInstances else Done
    ensures count >= 0 ==> Then(b, Call.Start(count)) == b.(starts := b.starts + Repeat(b.duration, count))
  {
  }

  lemma StairwayComesTo(b: Built, initial: int, final: int, stepSize: nat, time: nat)
    ensures Ends(b, Call.Stairway(initial, final, stepSize, time)) ==
            if stepSize == 0 then DividesByZero
            else if initial < |b.starts| || final < initial then StopsInstances else Done
    ensures Ends(b, Call.Stairway(initial, final, stepSize, time)) == Done ==>
      var up := StepsUp(final - initial, stepSize);
      Then(b, Call.Stairway(initial, final, stepSize, time)) ==
      Built(b.starts + Repeat(b.duration, initial - |b.starts|) + Climb(b.duration, stepSize, time, final - initial),
            b.steps + StairSteps(initial, final, stepSize, time, up + 1), b.duration + (up + 1) * time)
  {
  }

  lemma WaitIsDone(b: Built, time: nat)
    ensures Ends(b, Call.Wait(time)) == Done
  {
  }

  lemma OneCall(b: Built, calls: seq<Call>)
    requires calls != []
    ensures Ends(b, calls[0]) != Done ==> EndsAll(b, calls) == Ends(b, calls[0])
    ensures Ends(b, calls[0]) == Done ==> EndsAll(b, calls) == EndsAll(Then(b, calls[0]), calls[1..])
    ensures EndsAll(b, calls) == Done ==> ThenAll(b, calls) == ThenAll(Then(b, calls[0]), calls[1..])
  {
  }

  /** What a line, a stairway and a constant are for: they end with the given number of instances; and no call changes
      the start times already planned. */
  lemma CallsReachTheirNumber(b: Built, call: Call)
    requires Ends(b, call) == Done
    ensures call.Const? || call.Line? || call.Stairway? ==> |Then(b, call).starts| == call.final
    ensures b.starts <= Then(b, call).starts && b.duration <= Then(b, call).duration
  {
    if call.Stairway? {
      MulOrder(0, StepsUp(call.final - call.initial, call.stepSize) + 1, call.time);
    }
  }

  // ----- what the calls promise

  /** From one moment to another, the first at once and the last at the end, each at its even share of the time, cut to
      whole milliseconds. */
  ghost predicate Evenly(s: seq<int>, from: int, to: int) {
    && |s| >= 2 && s[0] == from && s[|s| - 1] == to && NonDecreasing(s)
    && forall i | 0 <= i < |s| :: AtShare(s[i], from, i, |s| - 1, to - from)
  }

  ghost predicate AtShare(x: int, from: int, i: nat, parts: nat, time: int)
    requires parts > 0
  {
    x as real <= from as real + i as real * (time as real / parts as real) < x as real + 1.0
  }

  ghost predicate AllAt(s: seq<int>, moment: int) {
    forall x | x in s :: x == moment
  }

  /** Instance k of those a stairway adds belongs to step m, counted from 1. */
  ghost predicate OnStep(k: int, m: int, stepSize: nat) {
    (m - 1) * stepSize <= k < m * stepSize
  }

  /** Instance k starts after as many steps as it takes to come to it. */
  ghost predicate Stepwise(s: seq<int>, start: int, stepSize: nat, stepDuration: nat) {
    forall k, m | 0 <= k < |s| && OnStep(k, m, stepSize) :: s[k] == start + m * stepDuration
  }

  /** The steps of a ramp: one for each instance, as long as the interval in whole seconds. */
  ghost predicate RampListed(steps: seq<Step>, instances: int, time: nat) {
    forall i | 0 <= i < |steps| ::
      && |steps| > 1 && steps[i].instances == instances + i + 1
      && steps[i].seconds as real <= time as real / (|steps| - 1) as real / 1000.0 < steps[i].seconds as real + 1.0
  }

  lemma RampPromise(start: nat, count: nat, time: nat, instances: int)
    requires count != 1
    ensures |RampTimes(start, count, time)| == |RampSteps(instances, count, time)| == count
    ensures count > 0 ==> Evenly(RampTimes(start, count, time), start, start + time)
    ensures RampListed(RampSteps(instances, count, time), instances, time)
  {
    hide Scheduled, Evenly, RampListed;
    if count > 0 {
      RampIsEven(start, count, time);
      RampEvenly(start, count, time);
    }
    RampSeconds(instances, count, time);
  }

  lemma RampEvenly(start: nat, count: nat, time: nat)
    requires count >= 2 && Scheduled(RampTimes(start, count, time), start, start + time)
    requires RampTimes(start, count, time)[0] == start && RampTimes(start, count, time)[count - 1] == start + time
    ensures Evenly(RampTimes(start, count, time), start, start + time)
  {
    var s := RampTimes(start, count, time);
    hide Scheduled, NonDecreasing;
    forall i | 0 <= i < count ensures AtShare(s[i], start, i, count - 1, time) {
      ShareOfRamp(start, i, count, time);
    }
    ItIsInOrder(s, start, start + time);
  }

  lemma ItIsInOrder(s: seq<int>, from: int, to: int)
    requires Scheduled(s, from, to)
    ensures NonDecreasing(s)
  {
  }

  lemma ShareOfRamp(start: nat, i: nat, count: nat, time: nat)
    requires count >= 2 && i < count
    ensures AtShare(RampTimes(start, count, time)[i], start, i, count - 1, time)
  {
  }

  lemma RampSeconds(instances: int, count: nat, time: nat)
    requires count != 1
    ensures RampListed(RampSteps(instances, count, time), instances, time)
  {
  }

  lemma ClimbPromise(start: int, stepSize: nat, stepDuration: nat, n: nat)
    requires stepSize > 0
    ensures Stepwise(Climb(start, stepSize, stepDuration, n), start, stepSize, stepDuration)
  {
    forall k, m | 0 <= k < n && OnStep(k, m, stepSize)
      ensures Climb(start, stepSize, stepDuration, n)[k] == start + m * stepDuration
    {
      StepOf(k, m, stepSize);
    }
  }

  lemma StepOf(k: nat, m: int, stepSize: nat)
    requires stepSize > 0 && OnStep(k, m, stepSize)
    ensures k / stepSize == m - 1
  {
    Sign(m, stepSize);
    DivideExactly(m - 1, k - (m - 1) * stepSize, stepSize);
  }

  lemma Sign(m: int, x: nat)
    ensures m < 1 ==> m * x <= 0
  {
  }

  /** As many steps up as it takes to come to the last instance; none if there is nothing to climb. */
  lemma StepsUpPromise(rise: nat, stepSize: nat)
    requires stepSize > 0
    ensures if rise == 0 then StepsUp(rise, stepSize) == 0 else OnStep(rise - 1, StepsUp(rise, stepSize), stepSize)
  {
    WholeStepsUp(rise, stepSize);
    var n := rise / stepSize;
    Next(n, stepSize);
    if n > 0 {
      Next(n - 1, stepSize);
    }
  }

  /** One step for each group of instances and one at the end. */
  ghost predicate StairsListed(steps: seq<Step>, initial: int, final: int, stepSize: nat, stepDuration: nat) {
    forall i | 0 <= i < |steps| ::
      && steps[i].seconds == stepDuration / 1000
      && steps[i].instances == if initial + i * stepSize < final then initial + i * stepSize else final
  }

  /** What a stairway makes of a plan: it comes to `initial` instances at once and to `final` step by step. */
  ghost predicate Climbed(was: Built, now: Built, initial: int, final: int, stepSize: nat, stepDuration: nat) {
    var n, rise, up := |was.starts|, final - initial, |now.steps| - |was.steps| - 1;
    && was.starts <= now.starts && n <= initial <= final == |now.starts|
    && AllAt(now.starts[n..initial], was.duration)
    && Stepwise(now.starts[initial..], was.duration, stepSize, stepDuration)
    && was.steps <= now.steps && up >= 0 && (if rise == 0 then up == 0 else OnStep(rise - 1, up, stepSize))
    && StairsListed(now.steps[|was.steps|..], initial, final, stepSize, stepDuration)
    && now.duration == was.duration + (up + 1) * stepDuration
  }

  lemma StairwayPromise(b: Built, initial: int, final: int, stepSize: nat, stepDuration: nat)
    requires Ends(b, Call.Stairway(initial, final, stepSize, stepDuration)) == Done
    ensures Climbed(b, Then(b, Call.Stairway(initial, final, stepSize, stepDuration)), initial, final, stepSize,
                    stepDuration)
  {
    hide Climb, StairSteps, StepsUp, Repeat, Stepwise, OnStep;
    var rise := final - initial;
    var up := StepsUp(rise, stepSize);
    StepsUpPromise(rise, stepSize);
    ClimbPromise(b.duration, stepSize, stepDuration, rise);
    StairsPromise(initial, final, stepSize, stepDuration, up + 1);
    var now := Then(b, Call.Stairway(initial, final, stepSize, stepDuration));
    var first, climb := Repeat(b.duration, initial - |b.starts|), Climb(b.duration, stepSize, stepDuration, rise);
    assert now.starts == b.starts + first + climb;
    assert now.starts[|b.starts|..initial] == first && now.starts[initial..] == climb;
    assert now.steps[|b.steps|..] == StairSteps(initial, final, stepSize, stepDuration, up + 1);
  }

  lemma StairsPromise(initial: int, final: int, stepSize: nat, stepDuration: nat, n: nat)
    ensures |StairSteps(initial, final, stepSize, stepDuration, n)| == n
    ensures StairsListed(StairSteps(initial, final, stepSize, stepDuration, n), initial, final, stepSize, stepDuration)
  {
  }

  lemma Prefixes(a: seq<int>, b: seq<int>, c: seq<int>)
    ensures a <= b <= c ==> a <= c && c[|a|..|b|] == b[|a|..]
  {
  }

  class LoadPlanBuilder {
    var generators: seq<seq<int>>
    var steps: seq<Step>
    var instances: int
    var duration: nat

    /** The start times planned so far: one for each instance, in order, none after the duration. */
    ghost function Plan(): seq<int>
      reads this
    {
      Flatten(generators)
    }

    ghost function Now(): Built
      reads this
    {
      Built(Plan(), steps, duration)
    }

    ghost predicate Valid()
      reads this
    {
      instances == |Plan()| && Scheduled(Plan(), 0, duration)
    }

    constructor ()
      ensures Valid() && Now() == Built([], [], 0)
    {
      generators, steps, instances, duration := [], [], 0, 0;
    }

    method Start(count: int) returns (outcome: Outcome)
      requires Valid()
      modifies this`generators, this`instances
      ensures Valid()
      ensures outcome == Ends(old(Now()), Call.Start(count))
      ensures if outcome == Done then Now() == Then(old(Now()), Call.Start(count)) else unchanged(this)
      ensures outcome == Done ==>
        old(Plan()) <= Plan() && instances == old(instances) + count && AllAt(Plan()[|old(Plan())|..], old(duration))
    {
      if count < 0 {
        return StopsInstances;
      }
      FlattenOfMore(generators, Repeat(duration, count));
      ScheduledJoined(Plan(), Repeat(duration, count), 0, duration, duration);
      generators := generators + [Repeat(duration, count)];
      instances := instances + count;
      outcome := Done;
    }

    method Wait(time: nat)
      requires Valid()
      modifies this`duration, this`steps
      ensures Valid() && Now() == Then(old(Now()), Call.Wait(time))
    {
      duration := duration + time;
      steps := steps + [Step(instances, time / 1000)];
    }

    method Ramp(count: int, time: nat) returns (outcome: Outcome)
      requires Valid()
      modifies this
      ensures Valid()
      ensures outcome == Ends(old(Now()), Call.Ramp(count, time))
      ensures if outcome == Done then Now() == Then(old(Now()), Call.Ramp(count, time)) else unchanged(this)
      ensures outcome == Done ==>
        && old(Plan()) <= Plan() && instances == old(instances) + count && duration == old(duration) + time
        && (count > 0 ==> Evenly(Plan()[|old(Plan())|..], old(duration), duration))
        && old(steps) <= steps && |steps| == |old(steps)| + count
        && RampListed(steps[|old(steps)|..], old(instances), time)
    {
      hide Evenly, RampListed, Scheduled, RampTimes, RampSteps, Flatten;
      if count < 0 {
        return StopsInstances;
      }
      if count == 1 {
        return DividesByZero;
      }
      var startTime := duration;
      ghost var was := Plan();
      RampPromise(duration, count, time, instances);
      FlattenOfMore(generators, RampTimes(duration, count, time));
      RampInOrder(duration, count, time);
      ScheduledJoined(was, RampTimes(duration, count, time), 0, duration, duration + time);
      generators := generators + [RampTimes(startTime, count, time)];
      steps := steps + RampSteps(instances, count, time);
      instances := instances + count;
      duration := duration + time;
      outcome := Done;
    }

    /** Ends with the given number of instances, the missing ones started at once. */
    method Const(target: int, time: nat) returns (outcome: Outcome)
      requires Valid()
      modifies this
      ensures Valid()
      ensures outcome == Ends(old(Now()), Call.Const(target, time))
      ensures if outcome == Done then Now() == Then(old(Now()), Call.Const(target, time)) else unchanged(this)
      ensures outcome == Done ==>
        && old(Plan()) <= Plan() && instances == target && duration == old(duration) + time
        && AllAt(Plan()[|old(Plan())|..], old(duration)) && steps == old(steps) + [Step(target, time / 1000)]
    {
      outcome := Start(target - instances);
      if outcome == Done {
        Wait(time);
      }
    }

    /** Ends with the final number of instances; a line to its own initial number is refused. */
    method Line(initial: int, final: int, time: nat) returns (outcome: Outcome)
      requires Valid()
      modifies this
      ensures Valid()
      ensures outcome == Ends(old(Now()), Call.Line(initial, final, time))
      ensures outcome == Done ==> Now() == Then(old(Now()), Call.Line(initial, final, time))
      ensures outcome == Done ==>
        && old(Plan()) <= Plan() && instances == final && duration == old(duration) + time
        && |old(Plan())| < initial && AllAt(Plan()[|old(Plan())|..initial - 1], old(duration))
        && (final >= initial ==> Evenly(Plan()[initial - 1..], old(duration), duration))
        && old(steps) <= steps && RampListed(steps[|old(steps)|..], initial - 1, time)
    {
      hide Evenly, AllAt, RampListed, Scheduled, RampTimes, RampSteps, Flatten, Repeat;
      outcome := Start(initial - instances - 1);
      if outcome == Done {
        ghost var started := Plan();
        outcome := Ramp(final - initial + 1, time);
        Prefixes(old(Plan()), started, Plan());
      }
    }

    /** The whole steps of a stairway: `for i in range(1, step_count + 1)`. */
    method ClimbSteps(stepCount: nat, initial: int, final: int, stepSize: nat, stepDuration: nat)
      requires Valid() && stepSize > 0 && instances == initial && stepCount * stepSize <= final - initial
      modifies this
      ensures Valid()
      ensures instances == initial + stepCount * stepSize && duration == old(duration) + stepCount * stepDuration
      ensures Plan() == old(Plan()) + Climb(old(duration), stepSize, stepDuration, stepCount * stepSize)
      ensures steps == old(steps) + StairSteps(initial, final, stepSize, stepDuration, stepCount)
    {
      hide Flatten, Climb, StairSteps, Scheduled, Repeat;
      NothingClimbed(duration, initial, final, stepSize, stepDuration);
      for i := 0 to stepCount
        invariant Valid() && instances == initial + i * stepSize
        invariant duration == old(duration) + i * stepDuration
        invariant Plan() == old(Plan()) + Climb(old(duration), stepSize, stepDuration, i * stepSize)
        invariant steps == old(steps) + StairSteps(initial, final, stepSize, stepDuration, i)
      {
        MulOrder(i, stepCount, stepSize);
        ClimbOn(old(duration), stepSize, stepDuration, i, stepSize);
        StepOn(initial, final, stepSize, stepDuration, i);
        Next(i, stepSize);
        Next(i, stepDuration);
        Wait(stepDuration);
        var _ := Start(stepSize);
      }
    }

    /** Ends with the final number of instances: the first ones at once, then stepSize more after each step, the last
        time perhaps fewer, and one more step at the end. */
    method Stairway(initial: int, final: int, stepSize: nat, stepDuration: nat) returns (outcome: Outcome)
      requires Valid()
      modifies this
      ensures Valid()
      ensures outcome == Ends(old(Now()), Call.Stairway(initial, final, stepSize, stepDuration))
      ensures outcome == Done ==> Now() == Then(old(Now()), Call.Stairway(initial, final, stepSize, stepDuration))
      ensures outcome == Done ==> Climbed(old(Now()), Now(), initial, final, stepSize, stepDuration)
    {
      hide Climbed, Ends, Then, Flatten, Climb, StairSteps, Scheduled, Repeat, StepsUp;
      StairwayComesTo(Now(), initial, final, stepSize, stepDuration);
      if stepSize == 0 {
        return DividesByZero;
      }
      var stepCount := (final - initial) / stepSize;
      StartComesTo(Now(), initial - instances);
      outcome := Start(initial - instances);
      if outcome != Done {
        return;
      }
      NothingClimbed(duration, initial, final, stepSize, stepDuration);
      WholeStepsUp(final - initial, stepSize);
      StairTail(duration, initial, final, stepSize, stepDuration);
      if stepCount > 0 {
        ClimbSteps(stepCount, initial, final, stepSize, stepDuration);
      }
      outcome := LastStep(final, stepDuration);
      if outcome == Done {
        StairwayPromise(old(Now()), initial, final, stepSize, stepDuration);
      }
    }

    method LastStep(final: int, stepDuration: nat) returns (outcome: Outcome)
      requires Valid()
      modifies this
      ensures Valid()
      ensures outcome == if final < old(instances) then StopsInstances else Done
      ensures outcome == Done ==> instances == final
      ensures outcome == Done ==>
        duration == old(duration) + stepDuration + if final > old(instances) then stepDuration else 0
      ensures outcome == Done ==>
        Plan() == old(Plan()) + Repeat(old(duration) + stepDuration, final - old(instances))
      ensures outcome == Done ==>
        steps == old(steps) + TailSteps(old(instances), final, stepDuration)
    {
      if final != instances {
        Wait(stepDuration);
        outcome := Start(final - instances);
        if outcome != Done {
          return;
        }
      } else {
        outcome := Done;
      }
      Wait(stepDuration);
    }

    method Apply(call: Call) returns (outcome: Outcome)
      requires Valid()
      modifies this
      ensures Valid() && outcome == Ends(old(Now()), call)
      ensures outcome == Done ==> Now() == Then(old(Now()), call)
    {
      hide Ends, Then;
      match call
      case Start(count) => outcome := Start(count);
      case Wait(time) =>
        Wait(time);
        outcome := Done;
        WaitIsDone(old(Now()), time);
      case Ramp(count, time) => outcome := Ramp(count, time);
      case Const(target, time) => outcome := Const(target, time);
      case Line(initial, final, time) => outcome := Line(initial, final, time);
      case Stairway(initial, final, stepSize, time) => outcome := Stairway(initial, final, stepSize, time);
    }

    /** `add_all_steps`: the calls in order, up to the first that fails. Whatever was accepted, the plan names one start
        time for each instance, in order and within the duration. */
    method AddAll(calls: seq<Call>) returns (outcome: Outcome)
      requires Valid()
      modifies this
      ensures Valid() && outcome == EndsAll(old(Now()), calls)
      ensures outcome == Done ==> Now() == ThenAll(old(Now()), calls)
    {
      hide Ends, Then;
      for i := 0 to |calls|
        invariant Valid()
        invariant EndsAll(old(Now()), calls) == EndsAll(Now(), calls[i..])
        invariant EndsAll(old(Now()), calls) == Done ==> ThenAll(old(Now()), calls) == ThenAll(Now(), calls[i..])
      {
        OneCall(Now(), calls[i..]);
        assert calls[i..][1..] == calls[i + 1..];
        outcome := Apply(calls[i]);
        if outcome != Done {
          return;
        }
      }
      outcome := Done;
    }

    /** The first n entries of `create()`: the generators one after the other, then zeros without end. */
    method Take(n: nat) returns (plan: seq<int>)
      requires Valid()
      ensures |plan| == n
      ensures forall k | 0 <= k < n :: plan[k] == if k < instances then Plan()[k] else 0
    {
      plan := [];
      for i := 0 to |generators|
        invariant plan == Flatten(generators[..i])
      {
        assert generators[..i + 1][..i] == generators[..i];
        plan := plan + generators[i];
      }
      assert generators[..|generators|] == generators;
      if |plan| < n {
        plan := plan + Repeat(0, n - |plan|);
      }
      plan := plan[..n];
    }
  }
}
