/** yandextank/stepper/load_plan.py: the timestamps of a whole schedule. A composite plan shifts each of its steps
    by the durations before it; a stairway is a composite of constant steps. */
module Schedule {
  import opened Common
  import opened LoadPlan

  /** What the constructors accept: no negative rates, no line without a duration. */
  ghost predicate Buildable(p: Plan) {
    match p
    case Const(rps, _) => rps >= 0.0
    case Line(_, _, _) => IsLine(p)
    case Composite(steps) => forall s | s in steps :: Buildable(s)
  }

  function Duration(p: Plan): nat {
    if p.Composite? then DurationOf(p.steps) else p.duration
  }

  function DurationOf(steps: seq<Plan>): nat {
    if steps == [] then 0 else DurationOf(steps[..|steps| - 1]) + Duration(steps[|steps| - 1])
  }

  /** `__len__` */
  function Length(p: Plan): int {
    match p
    case Const(rps, duration) => (duration as real / 1000.0 * rps).Floor
    case Line(_, _, _) => LineLength(p)
    case Composite(steps) => LengthOf(steps)
  }

  function LengthOf(steps: seq<Plan>): int {
    if steps == [] then 0 else LengthOf(steps[..|steps| - 1]) + Length(steps[|steps| - 1])
  }

  /** `int(i * interval)` of a constant plan and `ts(n)` of a line: milliseconds from the start of the plan. */
  function ConstShot(rps: real, i: nat): int
    requires rps != 0.0
  {
    (i as real * (1000.0 / rps)).Floor
  }

  function LineShot(l: Plan, n: nat, sqrt: Sqrt): int
    requires l.Line? && l.duration > 0 && (Slope(l) == 0.0 ==> l.minrps != 0.0)
  {
    (Moment(l, n, sqrt) * 1000.0).Floor
  }

  function Shift(s: seq<int>, base: int): (r: seq<int>)
    ensures |r| == |s|
  {
    seq(|s|, i requires 0 <= i < |s| => s[i] + base)
  }

  lemma LineHasShots(l: Plan)
    requires IsLine(l)
    ensures LineLength(l) >= 0 && (LineLength(l) > 0 && Slope(l) == 0.0 ==> l.minrps != 0.0)
  {
    SlopeTimesSeconds(l);
    if LineLength(l) > 0 {
      WithinIntegral(l, 0);
    }
    MulMonotone(0.0, (l.maxrps + l.minrps) / 2.0, Seconds(l));
  }

  ghost function ConstTimestamps(rps: real, duration: nat): (s: seq<int>)
    requires rps >= 0.0
  {
    if rps == 0.0 then [] else
      ConstHasLength(rps, duration);
      seq((rps * duration as real / 1000.0).Floor, i requires i >= 0 => ConstShot(rps, i))
  }

  lemma ConstHasLength(rps: real, duration: nat)
    requires rps >= 0.0
    ensures (rps * duration as real / 1000.0).Floor == Length(Const(rps, duration)) >= 0
  {
    MulMonotone(0.0, duration as real / 1000.0, rps);
    assert rps * duration as real / 1000.0 == duration as real / 1000.0 * rps;
  }

  ghost function LineTimestamps(l: Plan, sqrt: Sqrt): (s: seq<int>)
    requires IsLine(l)
  {
    LineHasShots(l);
    seq(LineLength(l), n requires 0 <= n < LineLength(l) => LineShot(l, n, sqrt))
  }

  /** Every timestamp of the plan, in the order its iterator yields them. */
  ghost function Timestamps(p: Plan, sqrt: Sqrt): seq<int>
    requires Buildable(p)
  {
    match p
    case Const(rps, duration) => ConstTimestamps(rps, duration)
    case Line(_, _, _) => LineTimestamps(p, sqrt)
    case Composite(steps) => TimestampsOf(steps, sqrt)
  }

  ghost function TimestampsOf(steps: seq<Plan>, sqrt: Sqrt): seq<int>
    requires forall s | s in steps :: Buildable(s)
  {
    if steps == [] then [] else
      TimestampsOf(steps[..|steps| - 1], sqrt)
      + Shift(Timestamps(steps[|steps| - 1], sqrt), DurationOf(steps[..|steps| - 1]))
  }

  // ----- how many shots are due

  function Ceiling(x: real): int { -((-x).Floor) }

  /** The shots a plan owes before millisecond t: the integral of its rate up to t, rounded up, but no more than its
      length; in a composite the finished steps owe their whole length. */
  ghost function Due(p: Plan, t: int): int
    requires Buildable(p)
  {
    match p
    case Const(rps, _) => Min(Length(p), Ceiling(rps * (t as real / 1000.0)))
    case Line(_, _, _) => Min(Length(p), Ceiling(Integral(p, t as real / 1000.0)))
    case Composite(steps) => DueOf(steps, t)
  }

  ghost function DueOf(steps: seq<Plan>, t: int): int
    requires forall s | s in steps :: Buildable(s)
  {
    if steps == [] then 0 else
      var before := steps[..|steps| - 1];
      if t <= DurationOf(before) then DueOf(before, t)
      else LengthOf(before) + Due(steps[|steps| - 1], t - DurationOf(before))
  }

  function CountBefore(s: seq<int>, t: int): nat {
    if s == [] then 0 else CountBefore(s[..|s| - 1], t) + if s[|s| - 1] < t then 1 else 0
  }

  lemma {:induction false} CountJoined(a: seq<int>, b: seq<int>, t: int)
    ensures CountBefore(a + b, t) == CountBefore(a, t) + CountBefore(b, t)
  {
    if b == [] {
      assert a + b == a;
    } else {
      var s := a + b;
      assert s[..|s| - 1] == a + b[..|b| - 1];
      CountJoined(a, b[..|b| - 1], t);
    }
  }

  lemma {:induction false} CountShifted(s: seq<int>, base: int, t: int)
    ensures CountBefore(Shift(s, base), t) == CountBefore(s, t - base)
  {
    if s != [] {
      var r := Shift(s, base);
      assert r[..|r| - 1] == Shift(s[..|s| - 1], base);
      CountShifted(s[..|s| - 1], base, t);
    }
  }

  /** If exactly the first k entries come before t, that is how many are counted. */
  lemma {:induction false} CountOfPrefix(s: seq<int>, t: int, k: int)
    requires k >= 0 && forall n | 0 <= n < |s| :: s[n] < t <==> n < k
    ensures CountBefore(s, t) == Min(|s|, k)
  {
    if s != [] {
      CountOfPrefix(s[..|s| - 1], t, k);
    }
  }

  lemma CeilingIs(x: real, n: int)
    ensures (n as real) < x <==> n < Ceiling(x)
  {
  }

  lemma FloorBefore(x: real, t: int)
    ensures (x * 1000.0).Floor < t <==> x < t as real / 1000.0
  {
  }

  /** Which shots precede millisecond t: those below the integral of the rate up to t. */
  lemma LineShotBefore(l: Plan, n: nat, t: nat, sqrt: Sqrt)
    requires IsLine(l) && n < LineLength(l) && IsSqrt(sqrt) && t <= l.duration
    ensures Slope(l) == 0.0 ==> l.minrps != 0.0
    ensures LineShot(l, n, sqrt) < t <==> n < Ceiling(Integral(l, t as real / 1000.0))
  {
    BeforeIffDue(l, n, t as real / 1000.0, sqrt);
    FloorBefore(Moment(l, n, sqrt), t);
    CeilingIs(Integral(l, t as real / 1000.0), n);
  }

  lemma ConstShotBefore(rps: real, i: nat, t: nat)
    requires rps > 0.0
    ensures ConstShot(rps, i) < t <==> i < Ceiling(rps * (t as real / 1000.0))
  {
    var m := i as real / rps;
    assert m * rps == i as real;
    assert i as real * (1000.0 / rps) == m * 1000.0;
    FloorBefore(m, t);
    CeilingIs(rps * (t as real / 1000.0), i);
    if m < t as real / 1000.0 {
      MulStrict(m, t as real / 1000.0, rps);
    } else {
      MulMonotone(t as real / 1000.0, m, rps);
    }
  }

  // ----- one step

  /** In order, and inside [0, duration). */
  ghost predicate Fits(s: seq<int>, duration: int) {
    NonDecreasing(s) && forall i | 0 <= i < |s| :: 0 <= s[i] < duration
  }

  lemma LineShotInside(l: Plan, n: nat, sqrt: Sqrt)
    requires IsLine(l) && n < LineLength(l) && IsSqrt(sqrt)
    ensures Slope(l) == 0.0 ==> l.minrps != 0.0
    ensures 0 <= LineShot(l, n, sqrt) < l.duration
  {
    MomentSolves(l, n, sqrt);
    WithinIntegral(l, n);
    LineShotBefore(l, n, l.duration, sqrt);
    CeilingIs(Integral(l, Seconds(l)), n);
  }

  lemma LineShotsInOrder(l: Plan, i: nat, j: nat, sqrt: Sqrt)
    requires IsLine(l) && i < j < LineLength(l) && IsSqrt(sqrt)
    ensures Slope(l) == 0.0 ==> l.minrps != 0.0
    ensures LineShot(l, i, sqrt) <= LineShot(l, j, sqrt)
  {
    LineShotInside(l, i, sqrt);
    var t := LineShot(l, i, sqrt);
    LineShotBefore(l, i, t, sqrt);
    LineShotBefore(l, j, t, sqrt);
  }

  lemma LineFits(l: Plan, sqrt: Sqrt)
    requires IsLine(l) && IsSqrt(sqrt)
    ensures Fits(LineTimestamps(l, sqrt), l.duration)
  {
    var s := LineTimestamps(l, sqrt);
    hide LineShot, IsSqrt, LineLength;
    forall i, j | 0 <= i < j < |s| ensures s[i] <= s[j] {
      LineShotsInOrder(l, i, j, sqrt);
    }
    forall i | 0 <= i < |s| ensures 0 <= s[i] < l.duration {
      LineShotInside(l, i, sqrt);
    }
  }

  /** The count of a line's shots before millisecond t is the rounded-up integral of its rate, up to its length. */
  lemma LineCountIsDue(l: Plan, t: nat, sqrt: Sqrt)
    requires IsLine(l) && IsSqrt(sqrt) && t <= l.duration
    ensures CountBefore(LineTimestamps(l, sqrt), t) == Due(l, t)
  {
    var s, k := LineTimestamps(l, sqrt), Ceiling(Integral(l, t as real / 1000.0));
    IntegralNotNegative(l, t as real / 1000.0);
    CeilingNotNegative(Integral(l, t as real / 1000.0));
    LineHasShots(l);
    assert |s| == LineLength(l) && Due(l, t) == Min(|s|, k);
    hide LineShot, IsSqrt, LineLength, Integral, Due, Ceiling;
    forall n | 0 <= n < |s| ensures s[n] < t <==> n < k {
      LineShotBefore(l, n, t, sqrt);
    }
    hide LineTimestamps;
    CountOfPrefix(s, t, k);
  }

  lemma CeilingNotNegative(x: real)
    requires x >= 0.0
    ensures Ceiling(x) >= 0
  {
  }

  lemma IntegralNotNegative(l: Plan, t: real)
    requires IsLine(l) && 0.0 <= t <= Seconds(l)
    ensures Integral(l, t) >= 0.0
  {
    IntegralDifference(l, t, 0.0);
    RateNotNegative(l, t);
    RateNotNegative(l, 0.0);
    MulMonotone(0.0, t, RateAt(l, t) + RateAt(l, 0.0));
  }

  lemma ConstShotInside(rps: real, duration: nat, i: nat)
    requires rps > 0.0 && i < Length(Const(rps, duration))
    ensures 0 <= ConstShot(rps, i) < duration
  {
    ConstHasLength(rps, duration);
    ConstShotBefore(rps, i, 0);
    ConstShotBefore(rps, i, duration);
    CeilingIs(rps * (duration as real / 1000.0), i);
  }

  lemma ConstFits(rps: real, duration: nat)
    requires rps >= 0.0
    ensures Fits(ConstTimestamps(rps, duration), duration)
  {
    var s := ConstTimestamps(rps, duration);
    ConstHasLength(rps, duration);
    if rps > 0.0 {
      hide Length;
      forall i, j | 0 <= i < j < |s| ensures s[i] <= s[j] {
        MulMonotone(i as real, j as real, 1000.0 / rps);
      }
      hide ConstShot;
      forall i | 0 <= i < |s| ensures 0 <= s[i] < duration {
        ConstShotInside(rps, duration, i);
      }
    }
  }

  lemma ConstCountIsDue(rps: real, duration: nat, t: nat)
    requires rps >= 0.0 && t <= duration
    ensures CountBefore(ConstTimestamps(rps, duration), t) == Due(Const(rps, duration), t)
  {
    ConstHasLength(rps, duration);
    if rps == 0.0 {
      IdleIsDue(duration, t);
    } else {
      var s, k := ConstTimestamps(rps, duration), Ceiling(rps * (t as real / 1000.0));
      RateTimesTime(rps, t as real / 1000.0);
      CeilingNotNegative(rps * (t as real / 1000.0));
      assert |s| == Length(Const(rps, duration)) && Due(Const(rps, duration), t) == Min(|s|, k);
      hide ConstShot, Length, Ceiling, Due;
      forall n | 0 <= n < |s| ensures s[n] < t <==> n < k {
        ConstShotBefore(rps, n, t);
      }
      hide ConstTimestamps;
      CountOfPrefix(s, t, k);
    }
  }

  lemma RateTimesTime(rps: real, time: real)
    requires rps >= 0.0 && time >= 0.0
    ensures rps * time >= 0.0
  {
  }

  lemma IdleIsDue(duration: nat, t: nat)
    ensures Due(Const(0.0, duration), t) == 0
  {
  }

  // ----- the whole schedule

  lemma JoinedFits(a: seq<int>, b: seq<int>, start: nat, duration: nat)
    requires Fits(a, start) && Fits(b, duration)
    ensures Fits(a + Shift(b, start), start + duration)
  {
    var s := a + Shift(b, start);
    forall i | 0 <= i < |s| ensures 0 <= s[i] < start + duration && (i < |a| <==> s[i] < start) {
      if i >= |a| {
        assert 0 <= b[i - |a|] < duration;
      }
    }
  }

  /** A schedule yields exactly its length, in order, each shot before the end of the total duration. */
  lemma {:induction false} ScheduleFits(p: Plan, sqrt: Sqrt)
    requires Buildable(p) && IsSqrt(sqrt)
    ensures |Timestamps(p, sqrt)| == Length(p)
    ensures Fits(Timestamps(p, sqrt), Duration(p))
    decreases p
  {
    match p
    case Const(rps, duration) =>
      ConstHasLength(rps, duration);
      ConstFits(rps, duration);
    case Line(_, _, _) =>
      LineFits(p, sqrt);
    case Composite(steps) =>
      StepsFit(steps, sqrt);
  }

  lemma {:induction false} StepsFit(steps: seq<Plan>, sqrt: Sqrt)
    requires IsSqrt(sqrt) && forall s | s in steps :: Buildable(s)
    ensures |TimestampsOf(steps, sqrt)| == LengthOf(steps)
    ensures Fits(TimestampsOf(steps, sqrt), DurationOf(steps))
    decreases steps
  {
    if steps != [] {
      var before, last := steps[..|steps| - 1], steps[|steps| - 1];
      StepsFit(before, sqrt);
      ScheduleFits(last, sqrt);
      JoinedFits(TimestampsOf(before, sqrt), Timestamps(last, sqrt), DurationOf(before), Duration(last));
    }
  }

  lemma CountOfFitting(s: seq<int>, duration: int, t: int)
    requires Fits(s, duration)
    ensures t <= 0 ==> CountBefore(s, t) == 0
    ensures t >= duration ==> CountBefore(s, t) == |s|
  {
    if t <= 0 {
      CountOfPrefix(s, t, 0);
    }
    if t >= duration {
      CountOfPrefix(s, t, |s|);
    }
  }

  /** At every millisecond of a schedule the shots already fired are exactly the shots due. */
  lemma {:induction false} CountIsDue(p: Plan, t: nat, sqrt: Sqrt)
    requires Buildable(p) && IsSqrt(sqrt) && t <= Duration(p)
    ensures CountBefore(Timestamps(p, sqrt), t) == Due(p, t)
    decreases p
  {
    match p
    case Const(rps, duration) =>
      ConstCountIsDue(rps, duration, t);
    case Line(_, _, _) =>
      LineCountIsDue(p, t, sqrt);
    case Composite(steps) =>
      StepsCountIsDue(steps, t, sqrt);
  }

  lemma {:induction false} StepsCountIsDue(steps: seq<Plan>, t: nat, sqrt: Sqrt)
    requires IsSqrt(sqrt) && t <= DurationOf(steps) && forall s | s in steps :: Buildable(s)
    ensures CountBefore(TimestampsOf(steps, sqrt), t) == DueOf(steps, t)
    decreases steps
  {
    hide TimestampsOf, Timestamps, DurationOf, Duration, DueOf, Due, LengthOf, Length, Fits, IsSqrt, CountBefore, Shift;
    if steps == [] {
      NothingIsDue(t, sqrt);
    } else {
      var before, last := steps[..|steps| - 1], steps[|steps| - 1];
      var a, b, start := TimestampsOf(before, sqrt), Timestamps(last, sqrt), DurationOf(before);
      LastOfSteps(steps, t, sqrt);
      CountJoined(a, Shift(b, start), t);
      CountShifted(b, start, t);
      StepsFit(before, sqrt);
      ScheduleFits(last, sqrt);
      if t <= start {
        StepsCountIsDue(before, t, sqrt);
        CountOfFitting(b, Duration(last), t - start);
      } else {
        CountIsDue(last, t - start, sqrt);
        CountOfFitting(a, start, t);
      }
    }
  }

  lemma NothingIsDue(t: int, sqrt: Sqrt)
    ensures CountBefore(TimestampsOf([], sqrt), t) == DueOf([], t)
  {
  }

  lemma LastOfSteps(steps: seq<Plan>, t: nat, sqrt: Sqrt)
    requires steps != [] && forall s | s in steps :: Buildable(s)
    ensures var before, last := steps[..|steps| - 1], steps[|steps| - 1];
            && TimestampsOf(steps, sqrt) ==
               TimestampsOf(before, sqrt) + Shift(Timestamps(last, sqrt), DurationOf(before))
            && DurationOf(steps) == DurationOf(before) + Duration(last)
            && DueOf(steps, t) == if t <= DurationOf(before) then DueOf(before, t)
                                  else LengthOf(before) + Due(last, t - DurationOf(before))
  {
  }

  // ----- leaf by leaf

  /** The constant and the linear parts of a schedule, in order; how they are nested makes no difference. */
  ghost function Leaves(p: Plan): seq<Plan> {
    if p.Composite? then LeavesOf(p.steps) else [p]
  }

  ghost function LeavesOf(steps: seq<Plan>): seq<Plan> {
    if steps == [] then [] else LeavesOf(steps[..|steps| - 1]) + Leaves(steps[|steps| - 1])
  }

  ghost predicate AllLeaves(leaves: seq<Plan>) {
    forall l | l in leaves :: Buildable(l) && !l.Composite?
  }

  /** When leaf i begins: after the durations of the leaves before it. */
  ghost function Begins(leaves: seq<Plan>, i: nat): nat
    requires AllLeaves(leaves) && i <= |leaves|
  {
    if i == 0 then 0 else Begins(leaves, i - 1) + leaves[i - 1].duration
  }

  /** What a leaf has to shoot in its first x seconds: the integral of its rate. */
  ghost function Volume(leaf: Plan, x: real): real
    requires Buildable(leaf) && !leaf.Composite?
  {
    if leaf.Const? then leaf.rps * x
    else leaf.minrps * x + (leaf.maxrps - leaf.minrps) / (leaf.duration as real / 1000.0) / 2.0 * x * x
  }

  lemma {:induction false} LeavesAreLeaves(p: Plan)
    requires Buildable(p)
    ensures AllLeaves(Leaves(p))
    decreases p
  {
    if p.Composite? {
      LeavesOfAreLeaves(p.steps);
    }
  }

  lemma {:induction false} LeavesOfAreLeaves(steps: seq<Plan>)
    requires forall s | s in steps :: Buildable(s)
    ensures AllLeaves(LeavesOf(steps))
    decreases steps
  {
    if steps != [] {
      LeavesOfAreLeaves(steps[..|steps| - 1]);
      LeavesAreLeaves(steps[|steps| - 1]);
    }
  }

  lemma ShiftTwice(s: seq<int>, a: int, b: int)
    ensures Shift(Shift(s, a), b) == Shift(s, a + b)
  {
  }

  lemma ShiftConcat(s: seq<int>, r: seq<int>, b: int)
    ensures Shift(s + r, b) == Shift(s, b) + Shift(r, b)
  {
  }

  lemma StepsConcatBase(a: seq<Plan>, sqrt: Sqrt)
    requires forall s | s in a :: Buildable(s)
    ensures TimestampsOf(a, sqrt) + Shift([], DurationOf(a)) == TimestampsOf(a, sqrt)
    ensures TimestampsOf([], sqrt) == [] && DurationOf([]) == 0
  {
  }

  /** Two lists of steps, one after the other. */
  lemma {:induction false} StepsConcat(a: seq<Plan>, b: seq<Plan>, sqrt: Sqrt)
    requires forall s | s in a + b :: Buildable(s)
    ensures DurationOf(a + b) == DurationOf(a) + DurationOf(b)
    ensures TimestampsOf(a + b, sqrt) == TimestampsOf(a, sqrt) + Shift(TimestampsOf(b, sqrt), DurationOf(a))
    decreases |b|
  {
    hide TimestampsOf, Timestamps, DurationOf, Duration, DueOf, Due, LengthOf, Shift;
    StepsConcatBase(a, sqrt);
    if b == [] {
      assert a + b == a;
    } else {
      var front, last := b[..|b| - 1], b[|b| - 1];
      assert (a + b)[..|a + b| - 1] == a + front && (a + b)[|a + b| - 1] == last;
      assert forall s | s in a + front :: s in a + b;
      StepsConcat(a, front, sqrt);
      LastOfSteps(a + b, 0, sqrt);
      LastOfSteps(b, 0, sqrt);
      var own := Timestamps(last, sqrt);
      ShiftTwice(own, DurationOf(front), DurationOf(a));
      ShiftConcat(TimestampsOf(front, sqrt), Shift(own, DurationOf(front)), DurationOf(a));
      Associate(TimestampsOf(a, sqrt), Shift(TimestampsOf(front, sqrt), DurationOf(a)),
                Shift(own, DurationOf(front) + DurationOf(a)));
    }
  }

  lemma OneLeaf(p: Plan, sqrt: Sqrt)
    requires Buildable(p)
    ensures TimestampsOf([p], sqrt) == Timestamps(p, sqrt) && DurationOf([p]) == Duration(p)
  {
    hide Timestamps, Duration;
    assert [p][..0] == [];
  }

  lemma {:induction false} OnlyLeavesMatter(p: Plan, sqrt: Sqrt)
    requires Buildable(p)
    ensures AllLeaves(Leaves(p))
    ensures Timestamps(p, sqrt) == TimestampsOf(Leaves(p), sqrt) && Duration(p) == DurationOf(Leaves(p))
    decreases p
  {
    LeavesAreLeaves(p);
    if p.Composite? {
      OnlyLeavesOfMatter(p.steps, sqrt);
    } else {
      OneLeaf(p, sqrt);
    }
  }

  lemma {:induction false} OnlyLeavesOfMatter(steps: seq<Plan>, sqrt: Sqrt)
    requires forall s | s in steps :: Buildable(s)
    ensures AllLeaves(LeavesOf(steps))
    ensures TimestampsOf(steps, sqrt) == TimestampsOf(LeavesOf(steps), sqrt)
    ensures DurationOf(steps) == DurationOf(LeavesOf(steps))
    decreases steps
  {
    LeavesOfAreLeaves(steps);
    if steps != [] {
      var front, last := steps[..|steps| - 1], steps[|steps| - 1];
      OnlyLeavesOfMatter(front, sqrt);
      OnlyLeavesMatter(last, sqrt);
      StepsConcat(LeavesOf(front), Leaves(last), sqrt);
    }
  }

  lemma LeavesUpTo(leaves: seq<Plan>, i: nat)
    requires AllLeaves(leaves) && i <= |leaves|
    ensures AllLeaves(leaves[..i])
  {
  }

  lemma {:induction false} BeginsAfterDurations(leaves: seq<Plan>, i: nat)
    requires AllLeaves(leaves) && i <= |leaves|
    ensures Begins(leaves, i) == DurationOf(leaves[..i])
  {
    if i > 0 {
      BeginsAfterDurations(leaves, i - 1);
      assert leaves[..i][..i - 1] == leaves[..i - 1];
      assert leaves[i - 1] in leaves;
    }
  }

  lemma {:induction false} BeginsInFront(leaves: seq<Plan>, n: nat, i: nat)
    requires AllLeaves(leaves) && i <= n <= |leaves|
    ensures AllLeaves(leaves[..n]) && Begins(leaves[..n], i) == Begins(leaves, i)
  {
    if i > 0 {
      BeginsInFront(leaves, n, i - 1);
    }
  }

  /** Where the shots of leaf i are: between those of the leaves before it, which are all earlier than its beginning,
      and those of the leaves after it, none of which is earlier than its end; its own are inside it. */
  lemma LeafShoots(p: Plan, i: nat, sqrt: Sqrt) returns (before: seq<int>, after: seq<int>)
    requires Buildable(p) && IsSqrt(sqrt)
    requires AllLeaves(Leaves(p)) && i < |Leaves(p)|
    ensures var leaf, start := Leaves(p)[i], Begins(Leaves(p), i);
            && Buildable(leaf)
            && Timestamps(p, sqrt) == before + Shift(Timestamps(leaf, sqrt), start) + after
            && (forall s | s in before :: 0 <= s < start)
            && (forall s | s in Timestamps(leaf, sqrt) :: 0 <= s < leaf.duration)
            && (forall s | s in after :: start + leaf.duration <= s)
  {
    hide Timestamps, TimestampsOf, Leaves, IsSqrt;
    var leaves := Leaves(p);
    var leaf, a, b := leaves[i], leaves[..i], leaves[i + 1..];
    OnlyLeavesMatter(p, sqrt);
    assert leaves == (a + [leaf]) + b;
    assert leaf in leaves && forall s | s in a || s in b :: s in leaves;
    StepsConcat(a + [leaf], b, sqrt);
    StepsConcat(a, [leaf], sqrt);
    OneLeaf(leaf, sqrt);
    BeginsAfterDurations(leaves, i);
    StepsFit(a, sqrt);
    StepsFit(b, sqrt);
    ScheduleFits(leaf, sqrt);
    before := TimestampsOf(a, sqrt);
    after := Shift(TimestampsOf(b, sqrt), DurationOf(a + [leaf]));
  }

  /** The shots of a constant part: shot j after j intervals, as many as fit in its duration. */
  lemma ConstShots(rps: real, duration: nat, sqrt: Sqrt)
    requires rps >= 0.0
    ensures var s := Timestamps(Const(rps, duration), sqrt);
            |s| == (duration as real / 1000.0 * rps).Floor
            && forall j | 0 <= j < |s| :: rps > 0.0 && s[j] == (j as real * 1000.0 / rps).Floor
  {
    ConstHasLength(rps, duration);
    if rps > 0.0 {
      var s := Timestamps(Const(rps, duration), sqrt);
      forall j | 0 <= j < |s| ensures s[j] == (j as real * 1000.0 / rps).Floor {
        IntervalsOf(j as real, rps);
      }
    }
  }

  lemma IntervalsOf(x: real, rps: real)
    requires rps > 0.0
    ensures x * (1000.0 / rps) == x * 1000.0 / rps
  {
    var interval := 1000.0 / rps;
    assert interval * rps == 1000.0;
    assert (x * interval) * rps == x * 1000.0;
  }

  /** The shots of a line: shot j at the moment at which the integral of the rate comes to j, in whole milliseconds. */
  lemma LineShots(l: Plan, sqrt: Sqrt, j: nat) returns (moment: real)
    requires IsLine(l) && IsSqrt(sqrt)
    ensures |Timestamps(l, sqrt)| == ((l.maxrps + l.minrps) / 2.0 * (l.duration as real / 1000.0)).Floor
    ensures j < |Timestamps(l, sqrt)| ==>
              0.0 <= moment <= l.duration as real / 1000.0 && Volume(l, moment) == j as real
              && Timestamps(l, sqrt)[j] == (moment * 1000.0).Floor
  {
    hide Integral, Moment, IsSqrt, Slope, Volume;
    LineHasShots(l);
    moment := 0.0;
    if j < LineLength(l) {
      MomentSolves(l, j, sqrt);
      moment := Moment(l, j, sqrt);
      VolumeOfLine(l, moment);
    }
  }

  /** What the schedule has to shoot before millisecond t: the integral of the rates of its leaves up to there. */
  ghost function VolumeBefore(leaves: seq<Plan>, t: int): real
    requires AllLeaves(leaves)
  {
    if leaves == [] then 0.0
    else
      var n := |leaves| - 1;
      var x := Max(Min(t - Begins(leaves, n), leaves[n].duration), 0);
      LeavesUpTo(leaves, n);
      VolumeBefore(leaves[..n], t) + Volume(leaves[n], x as real / 1000.0)
  }

  lemma DueOfLeaf(leaf: Plan, t: nat)
    requires Buildable(leaf) && !leaf.Composite? && t <= leaf.duration
    ensures Due(leaf, t) == Min(Length(leaf), Ceiling(Volume(leaf, t as real / 1000.0)))
    ensures Length(leaf) == Volume(leaf, leaf.duration as real / 1000.0).Floor
    ensures Volume(leaf, 0.0) == 0.0
    ensures 0.0 <= Volume(leaf, t as real / 1000.0) <= Volume(leaf, leaf.duration as real / 1000.0)
  {
    hide Integral, LineLength, Ceiling, Volume, Length, Due;
    var x, whole := t as real / 1000.0, leaf.duration as real / 1000.0;
    if leaf.Const? {
      ConstDue(leaf, t, x);
      ConstDue(leaf, leaf.duration, whole);
    } else {
      LineDue(leaf, t, x);
      LineDue(leaf, leaf.duration, whole);
    }
    VolumeInside(leaf, x, whole);
  }

  lemma VolumeInside(leaf: Plan, x: real, whole: real)
    requires Buildable(leaf) && !leaf.Composite? && 0.0 <= x <= whole == leaf.duration as real / 1000.0
    ensures 0.0 <= Volume(leaf, x) <= Volume(leaf, whole) && Volume(leaf, 0.0) == 0.0
  {
    if leaf.Const? {
      ConstVolume(leaf.rps, x, whole);
    } else {
      VolumeOfLine(leaf, x);
      VolumeOfLine(leaf, whole);
      VolumeGrows(leaf, x);
    }
  }

  lemma ConstDue(leaf: Plan, t: nat, x: real)
    requires leaf.Const? && leaf.rps >= 0.0 && x == t as real / 1000.0
    ensures Volume(leaf, x) == leaf.rps * x && Volume(leaf, 0.0) == 0.0
    ensures Due(leaf, t) == Min(Length(leaf), Ceiling(Volume(leaf, x)))
    ensures t == leaf.duration ==> Length(leaf) == Volume(leaf, x).Floor
  {
    assert x * leaf.rps == leaf.rps * x;
  }

  lemma LineDue(leaf: Plan, t: nat, x: real)
    requires IsLine(leaf) && x == t as real / 1000.0
    ensures Due(leaf, t) == Min(Length(leaf), Ceiling(Volume(leaf, x)))
    ensures t == leaf.duration ==> Length(leaf) == Volume(leaf, x).Floor
  {
    VolumeOfLine(leaf, x);
    LineLengthIs(leaf);
    hide Integral, Volume, LineLength;
  }

  lemma ConstVolume(rps: real, x: real, whole: real)
    requires rps >= 0.0 && 0.0 <= x <= whole
    ensures 0.0 <= rps * x <= rps * whole
  {
    MulMonotone(0.0, x, rps);
    MulMonotone(x, whole, rps);
  }

  lemma LineLengthIs(l: Plan)
    requires IsLine(l)
    ensures LineLength(l) == Integral(l, Seconds(l)).Floor
  {
    SlopeTimesSeconds(l);
  }

  lemma VolumeOfLine(l: Plan, x: real)
    requires IsLine(l)
    ensures Volume(l, x) == Integral(l, x) && Volume(l, 0.0) == 0.0
  {
  }

  lemma VolumeGrows(l: Plan, x: real)
    requires IsLine(l) && 0.0 <= x <= Seconds(l)
    ensures 0.0 <= Integral(l, x) <= Integral(l, Seconds(l))
  {
    hide Integral, RateAt;
    var whole := Seconds(l);
    IntegralNotNegative(l, x);
    RateNotNegative(l, x);
    RateNotNegative(l, whole);
    IntegralDifference(l, whole, x);
    MulMonotone(0.0, whole - x, RateAt(l, whole) + RateAt(l, x));
  }

  lemma {:induction false} LeafFollowsRate(leaf: Plan, t: int, sqrt: Sqrt)
    requires Buildable(leaf) && !leaf.Composite? && IsSqrt(sqrt)
    ensures var d := CountBefore(Timestamps(leaf, sqrt), t) as real
                     - Volume(leaf, Max(Min(t, leaf.duration), 0) as real / 1000.0);
            -1.0 < d < 1.0 && (t <= 0 ==> d == 0.0) && (leaf.duration <= t ==> d <= 0.0)
  {
    hide Timestamps, Volume, CountBefore, IsSqrt, Due, Length;
    ScheduleFits(leaf, sqrt);
    LeafHasDuration(leaf);
    CountOfFitting(Timestamps(leaf, sqrt), leaf.duration, t);
    CountOfFitting(Timestamps(leaf, sqrt), leaf.duration, leaf.duration);
    var x := Max(Min(t, leaf.duration), 0);
    DueOfLeaf(leaf, x);
    DueOfLeaf(leaf, leaf.duration);
    CountIsDue(leaf, x, sqrt);
    CountIsDue(leaf, leaf.duration, sqrt);
  }

  lemma LeafHasDuration(leaf: Plan)
    requires !leaf.Composite?
    ensures Duration(leaf) == leaf.duration
  {
  }

  lemma LastVolume(leaves: seq<Plan>, t: int)
    requires AllLeaves(leaves) && leaves != []
    ensures var n := |leaves| - 1;
            && AllLeaves(leaves[..n]) && leaves[n] in leaves && Begins(leaves, n) == DurationOf(leaves[..n])
            && VolumeBefore(leaves, t) ==
               VolumeBefore(leaves[..n], t)
               + Volume(leaves[n], Max(Min(t - Begins(leaves, n), leaves[n].duration), 0) as real / 1000.0)
  {
    hide Volume, DurationOf, Begins, Min, Max;
    BeginsAfterDurations(leaves, |leaves| - 1);
  }

  lemma NoVolume(t: int)
    ensures VolumeBefore([], t) == 0.0
  {
  }

  lemma {:induction false} LeavesFollowRate(leaves: seq<Plan>, t: int, sqrt: Sqrt)
    requires AllLeaves(leaves) && IsSqrt(sqrt)
    ensures var d := CountBefore(TimestampsOf(leaves, sqrt), t) as real - VolumeBefore(leaves, t);
            -(|leaves| as real) <= d < 1.0 && (DurationOf(leaves) <= t ==> d <= 0.0) && (t <= 0 ==> d == 0.0)
    decreases |leaves|
  {
    hide VolumeBefore, Volume, TimestampsOf, Timestamps, DurationOf, Duration, DueOf, Due, IsSqrt, Begins;
    if leaves == [] {
      StepsConcatBase([], sqrt);
      NoVolume(t);
    } else {
      var front, last := leaves[..|leaves| - 1], leaves[|leaves| - 1];
      LastVolume(leaves, t);
      LastOfSteps(leaves, 0, sqrt);
      var start, own := DurationOf(front), Timestamps(last, sqrt);
      LeavesFollowRate(front, t, sqrt);
      CountJoined(TimestampsOf(front, sqrt), Shift(own, start), t);
      CountShifted(own, start, t);
      LeafFollowsRate(last, t - start, sqrt);
      LeafHasDuration(last);
    }
  }

  /** At any millisecond the number of shots already fired is the integral of the rates of the leaves up to there, but
      for the rounding: less than one shot too many, and for each leaf at most one too few. */
  lemma CountFollowsRate(p: Plan, t: int, sqrt: Sqrt)
    requires Buildable(p) && IsSqrt(sqrt)
    ensures AllLeaves(Leaves(p))
    ensures var d := CountBefore(Timestamps(p, sqrt), t) as real - VolumeBefore(Leaves(p), t);
            -(|Leaves(p)| as real) <= d < 1.0
  {
    OnlyLeavesMatter(p, sqrt);
    LeavesFollowRate(Leaves(p), t, sqrt);
  }

  /** Two constants in a row: the second one shoots at its own pace from the end of the first. */
  lemma TwoConstants(r: real, q: real, a: nat, b: nat, sqrt: Sqrt)
    requires r >= 0.0 && q >= 0.0
    ensures var p := Composite([Const(r, a), Const(q, b)]);
            var n := (a as real / 1000.0 * r).Floor;
            && |Timestamps(p, sqrt)| == n + (b as real / 1000.0 * q).Floor && n >= 0
            && (forall j | 0 <= j < n :: r > 0.0 && Timestamps(p, sqrt)[j] == (j as real * 1000.0 / r).Floor)
            && (forall j | n <= j < |Timestamps(p, sqrt)| ::
                  q > 0.0 && Timestamps(p, sqrt)[j] == a + ((j - n) as real * 1000.0 / q).Floor)
  {
    hide TimestampsOf, Timestamps;
    ConstShots(r, a, sqrt);
    ConstShots(q, b, sqrt);
    var first, second := Const(r, a), Const(q, b);
    TwoSteps(first, second, sqrt);
    ConstHasLength(r, a);
    ThisIsComposite([first, second], sqrt);
  }

  lemma ThisIsComposite(steps: seq<Plan>, sqrt: Sqrt)
    requires forall s | s in steps :: Buildable(s)
    ensures Timestamps(Composite(steps), sqrt) == TimestampsOf(steps, sqrt)
  {
  }

  lemma TwoSteps(first: Plan, second: Plan, sqrt: Sqrt)
    requires Buildable(first) && Buildable(second) && !first.Composite?
    ensures TimestampsOf([first, second], sqrt)
            == Timestamps(first, sqrt) + Shift(Timestamps(second, sqrt), first.duration)
  {
    StepsConcat([first], [second], sqrt);
    OneLeaf(first, sqrt);
    OneLeaf(second, sqrt);
    LeafHasDuration(first);
    assert [first] + [second] == [first, second];
  }

  // ----- the iterators

  /** `__iter__` of each kind of plan. */
  method Iterate(p: Plan, sqrt: Sqrt) returns (shots: seq<int>)
    requires Buildable(p) && IsSqrt(sqrt)
    ensures shots == Timestamps(p, sqrt)
    decreases p
  {
    match p
    case Const(rps, duration) =>
      ConstHasLength(rps, duration);
      if rps == 0.0 {
        shots := [];
      } else {
        shots := seq((rps * duration as real / 1000.0).Floor, i requires i >= 0 => ConstShot(rps, i));
      }
    case Line(_, _, _) =>
      LineHasShots(p);
      shots := seq(LineLength(p), n requires 0 <= n < LineLength(p) => LineShot(p, n, sqrt));
    case Composite(steps) =>
      shots := [];
      var base := 0;
      for i := 0 to |steps|
        invariant base == DurationOf(steps[..i])
        invariant shots == TimestampsOf(steps[..i], sqrt)
      {
        assert steps[..i + 1][..i] == steps[..i];
        var own := Iterate(steps[i], sqrt);
        shots := shots + Shift(own, base);
        base := base + Duration(steps[i]);
      }
      assert steps[..|steps|] == steps;
  }

  // ----- stairways

  function RateOf(steps: seq<Plan>, i: nat): real
    requires i < |steps|
  {
    if steps[i].Const? then steps[i].rps else 0.0
  }

  /** How much closer to the final rate step i + 1 is than step i. */
  function Rise(steps: seq<Plan>, i: nat, down: bool): real
    requires i + 1 < |steps|
  {
    if down then RateOf(steps, i) - RateOf(steps, i + 1) else RateOf(steps, i + 1) - RateOf(steps, i)
  }

  ghost predicate Spaced(steps: seq<Plan>, down: bool, increment: real) {
    && (forall i | 0 <= i < |steps| - 1 :: 0.0 < Rise(steps, i, down) <= increment)
    && (forall i | 0 <= i < |steps| - 2 :: Rise(steps, i, down) == increment)
  }

  /** Equal constant steps from exactly minrps to exactly maxrps, each one increment on, but for a last one that may
      be smaller. */
  ghost predicate Climbs(steps: seq<Plan>, minrps: real, maxrps: real, increment: real, stepDuration: nat) {
    && |steps| > 0
    && (forall s | s in steps :: s.Const? && s.duration == stepDuration)
    && RateOf(steps, 0) == minrps && RateOf(steps, |steps| - 1) == maxrps
    && Spaced(steps, maxrps < minrps, increment)
  }

  /** `[Const(minrps + i * increment, step_duration) for i in range(0, n + 1)]` */
  function Ladder(minrps: real, inc: real, n: nat, stepDuration: nat): seq<Plan> {
    seq(n + 1, i requires i >= 0 => Const(minrps + i as real * inc, stepDuration))
  }

  /** `Stairway.__init__`; without an increment the division raises. */
  method Stairway(minrps: real, maxrps: real, increment: real, stepDuration: nat) returns (plan: Option<Plan>)
    requires minrps >= 0.0 && maxrps >= 0.0 && increment >= 0.0
    ensures plan.None? <==> increment == 0.0
    ensures plan.Some? ==> plan.value.Composite?
    ensures plan.Some? ==> Climbs(plan.value.steps, minrps, maxrps, increment, stepDuration)
  {
    if increment == 0.0 {
      return None;
    }
    var inc := if maxrps < minrps then -increment else increment;
    var n := ((maxrps - minrps) / inc).Floor;
    WholeSteps(maxrps - minrps, inc);
    var steps := Ladder(minrps, inc, n, stepDuration);
    var top := minrps + n as real * inc;
    LadderClimbs(minrps, maxrps, inc, n, stepDuration, top);
    hide Climbs, Ladder, WholeStepsFit;
    if inc > 0.0 {
      if top < maxrps {
        steps := steps + [Const(maxrps, stepDuration)];
      }
    } else if inc < 0.0 {
      if top > maxrps {
        steps := steps + [Const(maxrps, stepDuration)];
      }
    }
    plan := Some(Composite(steps));
  }

  lemma LadderRises(minrps: real, inc: real, n: nat, stepDuration: nat, i: nat)
    requires i < n
    ensures RateOf(Ladder(minrps, inc, n, stepDuration), i + 1)
            == RateOf(Ladder(minrps, inc, n, stepDuration), i) + inc
  {
    assert (i + 1) as real * inc == i as real * inc + inc;
  }

  lemma LadderClimbs(minrps: real, maxrps: real, inc: real, n: nat, stepDuration: nat, top: real)
    requires inc != 0.0 && (inc < 0.0 <==> maxrps < minrps)
    requires WholeStepsFit(maxrps - minrps, inc, n) && top == minrps + n as real * inc
    ensures if inc > 0.0 then top <= maxrps else maxrps <= top
    ensures var ladder := Ladder(minrps, inc, n, stepDuration);
            Climbs(if top == maxrps then ladder else ladder + [Const(maxrps, stepDuration)],
                   minrps, maxrps, if inc < 0.0 then -inc else inc, stepDuration)
  {
    var ladder := Ladder(minrps, inc, n, stepDuration);
    var steps := if top == maxrps then ladder else ladder + [Const(maxrps, stepDuration)];
    var increment := if inc < 0.0 then -inc else inc;
    assert RateOf(ladder, n) == top && RateOf(ladder, 0) == minrps;
    var down := inc < 0.0;
    forall i | 0 <= i < n ensures Rise(steps, i, down) == increment {
      LadderRises(minrps, inc, n, stepDuration, i);
    }
    assert |steps| == n + 2 ==> RateOf(steps, n) == RateOf(ladder, n) && RateOf(steps, n + 1) == maxrps;
    assert Spaced(steps, down, increment);
  }

  /** n increments are as many as fit in the gap. */
  ghost predicate WholeStepsFit(gap: real, inc: real, n: nat) {
    if inc > 0.0 then n as real * inc <= gap < n as real * inc + inc
    else n as real * inc + inc < gap <= n as real * inc
  }

  lemma WholeSteps(gap: real, inc: real)
    requires inc != 0.0 && (if gap < 0.0 then inc < 0.0 else inc > 0.0)
    ensures (gap / inc).Floor >= 0 && WholeStepsFit(gap, inc, (gap / inc).Floor)
  {
    var q, low := gap / inc, (gap / inc).Floor as real;
    assert q * inc == gap;
    CancelOrder(0.0, q, inc);
    if inc > 0.0 {
      BetweenUp(q, low, inc);
    } else {
      BetweenDown(q, low, inc);
    }
  }

  lemma BetweenUp(q: real, low: real, inc: real)
    requires inc > 0.0 && low <= q < low + 1.0
    ensures low * inc <= q * inc < low * inc + inc
  {
    MulMonotone(low, q, inc);
    MulStrict(q, low + 1.0, inc);
    OneMore(low, inc);
  }

  lemma BetweenDown(q: real, low: real, inc: real)
    requires inc < 0.0 && low <= q < low + 1.0
    ensures low * inc + inc < q * inc <= low * inc
  {
    MulMonotone(low, q, -inc);
    MulStrict(q, low + 1.0, -inc);
    OneMore(low, inc);
    OneMore(q, inc);
  }

  lemma OneMore(x: real, inc: real)
    ensures (x + 1.0) * inc == x * inc + inc
    ensures (x + 1.0) * -inc == -(x * inc + inc)
    ensures x * -inc == -(x * inc)
  {
  }

  lemma {:induction false} StepsBegin(steps: seq<Plan>, stepDuration: nat, i: nat)
    requires AllLeaves(steps) && i <= |steps| && forall s | s in steps :: s.duration == stepDuration
    ensures Begins(steps, i) == i * stepDuration
  {
    if i > 0 {
      StepsBegin(steps, stepDuration, i - 1);
      assert i * stepDuration == (i - 1) * stepDuration + stepDuration;
    }
  }

  lemma {:induction false} FlatAlready(steps: seq<Plan>)
    requires AllLeaves(steps)
    ensures LeavesOf(steps) == steps
  {
    if steps != [] {
      FlatAlready(steps[..|steps| - 1]);
      assert steps[|steps| - 1] in steps;
    }
  }

  /** Step i of a stairway shoots from i to i + 1 step durations after the start, at its own rate: as many shots as it
      has time for, one interval apart. */
  lemma StairwayShoots(steps: seq<Plan>, minrps: real, maxrps: real, increment: real, stepDuration: nat, i: nat,
                       sqrt: Sqrt)
    returns (before: seq<int>, own: seq<int>, after: seq<int>)
    requires Climbs(steps, minrps, maxrps, increment, stepDuration) && Buildable(Composite(steps)) && IsSqrt(sqrt)
    requires i < |steps|
    ensures Timestamps(Composite(steps), sqrt) == before + own + after
    ensures forall s | s in before :: s < i * stepDuration
    ensures forall s | s in own :: i * stepDuration <= s < (i + 1) * stepDuration
    ensures forall s | s in after :: (i + 1) * stepDuration <= s
    ensures |own| == (stepDuration as real / 1000.0 * RateOf(steps, i)).Floor
    ensures forall j | 0 <= j < |own| ::
              RateOf(steps, i) > 0.0 && own[j] == i * stepDuration + (j as real * 1000.0 / RateOf(steps, i)).Floor
  {
    hide Climbs, Timestamps, IsSqrt, Spaced, Begins, RateOf, Shift, Buildable, LeavesOf;
    StepsOfStairway(steps, minrps, maxrps, increment, stepDuration);
    FlatAlready(steps);
    StepsBegin(steps, stepDuration, i);
    NextStep(i, stepDuration);
    before, after := LeafShoots(Composite(steps), i, sqrt);
    var shots := Timestamps(steps[i], sqrt);
    own := Shift(shots, i * stepDuration);
    ConstShots(RateOf(steps, i), stepDuration, sqrt);
    ShiftedInside(shots, i * stepDuration, stepDuration);
  }

  lemma NextStep(i: nat, stepDuration: nat)
    ensures (i + 1) * stepDuration == i * stepDuration + stepDuration
  {
  }

  lemma ShiftedInside(s: seq<int>, start: int, duration: int)
    requires forall x | x in s :: 0 <= x < duration
    ensures forall x | x in Shift(s, start) :: start <= x < start + duration
    ensures forall j | 0 <= j < |s| :: Shift(s, start)[j] == start + s[j]
  {
    assert forall j | 0 <= j < |s| :: s[j] in s;
  }

  lemma StepsOfStairway(steps: seq<Plan>, minrps: real, maxrps: real, increment: real, stepDuration: nat)
    requires Climbs(steps, minrps, maxrps, increment, stepDuration) && Buildable(Composite(steps))
    ensures AllLeaves(steps) && forall i | 0 <= i < |steps| :: steps[i] == Const(RateOf(steps, i), stepDuration)
    ensures forall s | s in steps :: s.duration == stepDuration
    ensures forall i | 0 <= i < |steps| :: RateOf(steps, i) >= 0.0
  {
    forall i | 0 <= i < |steps| ensures steps[i] == Const(RateOf(steps, i), stepDuration) && RateOf(steps, i) >= 0.0 {
      assert steps[i] in steps;
    }
  }

  /** The rates go strictly one way: a later step is closer to the final rate than any before it. */
  lemma {:induction false} StairwayIsStrict(steps: seq<Plan>, minrps: real, maxrps: real, increment: real,
                                            stepDuration: nat, i: nat, j: nat)
    requires Climbs(steps, minrps, maxrps, increment, stepDuration) && i < j < |steps|
    ensures if maxrps < minrps then RateOf(steps, j) < RateOf(steps, i) else RateOf(steps, i) < RateOf(steps, j)
  {
    assert Rise(steps, j - 1, maxrps < minrps) > 0.0;
    if i < j - 1 {
      StairwayIsStrict(steps, minrps, maxrps, increment, stepDuration, i, j - 1);
    }
  }

  lemma {:induction false} StairwayRate(steps: seq<Plan>, minrps: real, maxrps: real, increment: real,
                                        stepDuration: nat, i: nat)
    requires Climbs(steps, minrps, maxrps, increment, stepDuration) && i < |steps| - 1
    ensures RateOf(steps, i) == if maxrps < minrps then minrps - i as real * increment
                                else minrps + i as real * increment
  {
    if i > 0 {
      StairwayRate(steps, minrps, maxrps, increment, stepDuration, i - 1);
      assert Rise(steps, i - 1, maxrps < minrps) == increment;
      var before, now := (i - 1) as real, i as real;
      OneMore(before, increment);
      assert now == before + 1.0;
      assert now * increment == before * increment + increment;
    }
  }

  /** So a stairway is a schedule like any other, and its number of steps is the distance between the two rates in
      increments, rounded up, and one. */
  lemma StairwayIsBuildable(steps: seq<Plan>, minrps: real, maxrps: real, increment: real, stepDuration: nat)
    requires Climbs(steps, minrps, maxrps, increment, stepDuration)
    requires minrps >= 0.0 && maxrps >= 0.0 && increment > 0.0
    ensures Buildable(Composite(steps))
    ensures |steps| - 1 == Ceiling((if maxrps < minrps then minrps - maxrps else maxrps - minrps) / increment)
  {
    var last := |steps| - 1;
    forall s | s in steps ensures Buildable(s) {
      var i :| 0 <= i < |steps| && steps[i] == s;
      if i < last {
        StairwayIsStrict(steps, minrps, maxrps, increment, stepDuration, i, last);
      }
      if i > 0 {
        StairwayIsStrict(steps, minrps, maxrps, increment, stepDuration, 0, i);
      }
      assert RateOf(steps, i) >= 0.0;
    }
    var gap := if maxrps < minrps then minrps - maxrps else maxrps - minrps;
    if last > 0 {
      StairwayRate(steps, minrps, maxrps, increment, stepDuration, last - 1);
      assert 0.0 < Rise(steps, last - 1, maxrps < minrps) <= increment;
      StepsCover(gap, increment, last, (last - 1) as real);
    }
  }

  lemma StepsCover(gap: real, increment: real, n: nat, before: real)
    requires before == n as real - 1.0
    requires increment > 0.0 && 0.0 < gap - before * increment <= increment
    ensures Ceiling(gap / increment) == n
  {
    var q := gap / increment;
    assert q * increment == gap;
    QuotientBetween(q, increment, before);
    assert (n - 1) as real == before;
    CeilingIs(q, n - 1);
    CeilingIs(q, n);
  }

  lemma QuotientBetween(q: real, increment: real, before: real)
    requires increment > 0.0 && 0.0 < q * increment - before * increment <= increment
    ensures before < q <= before + 1.0
  {
    if q <= before {
      MulMonotone(q, before, increment);
    }
    OneMore(before, increment);
    if q > before + 1.0 {
      MulStrict(before + 1.0, q, increment);
    }
  }
}
