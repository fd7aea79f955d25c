/** yandextank/stepper/load_plan.py and util.py: when to shoot, for a constant, linear, stepwise or composite
    schedule of shots per second. Floats are exact reals here; durations are whole milliseconds. */
module LoadPlan {
  import opened Common

  datatype Plan =
    | Const(rps: real, duration: nat)
    | Line(minrps: real, maxrps: real, duration: nat)
    | Composite(steps: seq<Plan>)

  /** `math.sqrt`, of which only the defining property is used. */
  type Sqrt = real -> real

  ghost predicate IsSqrt(sqrt: Sqrt) {
    forall x: real | x >= 0.0 :: sqrt(x) >= 0.0 && sqrt(x) * sqrt(x) == x
  }

  // ----- a line, in seconds

  ghost predicate IsLine(l: Plan) {
    l.Line? && l.minrps >= 0.0 && l.maxrps >= 0.0 && l.duration > 0
  }

  function Seconds(l: Plan): real
    requires l.Line?
  {
    l.duration as real / 1000.0
  }

  function Slope(l: Plan): real
    requires l.Line? && l.duration > 0
  {
    (l.maxrps - l.minrps) / Seconds(l)
  }

  /** Shots due in the first t seconds: the integral of the rate. */
  ghost function Integral(l: Plan, t: real): real
    requires l.Line? && l.duration > 0
  {
    l.minrps * t + Slope(l) / 2.0 * t * t
  }

  ghost function RateAt(l: Plan, t: real): real
    requires l.Line? && l.duration > 0
  {
    l.minrps + Slope(l) * t
  }

  /** `int((self.maxrps + self.minrps) / 2.0 * self.duration)` */
  function LineLength(l: Plan): int
    requires l.Line?
  {
    ((l.maxrps + l.minrps) / 2.0 * Seconds(l)).Floor
  }

  /** b*b - 4ac of the equation that `ts` solves for shot n. */
  function Discriminant(l: Plan, n: nat): real
    requires l.Line? && l.duration > 0
  {
    l.minrps * l.minrps - 4.0 * (Slope(l) / 2.0) * (-(n as real))
  }

  /** `solve_quadratic(a, b, c)[1]` for a != 0 */
  function Root2(a: real, b: real, discriminant: real, sqrt: Sqrt): real
    requires a != 0.0
  {
    (-b + sqrt(discriminant)) / (2.0 * a)
  }

  /** The moment of shot n, in seconds; a flat line divides by the rate instead. */
  function Moment(l: Plan, n: nat, sqrt: Sqrt): real
    requires l.Line? && l.duration > 0 && (Slope(l) == 0.0 ==> l.minrps != 0.0)
  {
    if Slope(l) != 0.0 then Root2(Slope(l) / 2.0, l.minrps, Discriminant(l, n), sqrt)
    else n as real / l.minrps
  }

  lemma SlopeTimesSeconds(l: Plan)
    requires IsLine(l)
    ensures Seconds(l) > 0.0 && Slope(l) * Seconds(l) == l.maxrps - l.minrps
    ensures Integral(l, Seconds(l)) == (l.maxrps + l.minrps) / 2.0 * Seconds(l)
  {
    var s, d := Slope(l), Seconds(l);
    calc {
      Integral(l, d);
    ==
      l.minrps * d + (s * d) / 2.0 * d;
    ==
      (l.maxrps + l.minrps) / 2.0 * d;
    }
  }

  /** Shots within the length fall within the integral over the whole duration. */
  lemma WithinIntegral(l: Plan, n: nat)
    requires IsLine(l) && n < LineLength(l)
    ensures n as real + 1.0 <= Integral(l, Seconds(l))
    ensures l.minrps > 0.0 || l.maxrps > 0.0
  {
    SlopeTimesSeconds(l);
    var total := (l.maxrps + l.minrps) / 2.0 * Seconds(l);
    assert (LineLength(l) as real) <= total;
    assert n + 1 <= LineLength(l);
  }

  lemma MulMonotone(a: real, b: real, c: real)
    requires a <= b && 0.0 <= c
    ensures a * c <= b * c
  {
  }

  /** The discriminant of every shot lies between the squares of the two rates: never negative. */
  lemma DiscriminantBetween(l: Plan, n: nat)
    requires IsLine(l) && n < LineLength(l)
    ensures Discriminant(l, n) >= 0.0
    ensures if Slope(l) >= 0.0 then l.minrps * l.minrps <= Discriminant(l, n) <= l.maxrps * l.maxrps
            else l.maxrps * l.maxrps <= Discriminant(l, n) <= l.minrps * l.minrps
  {
    WithinIntegral(l, n);
    SlopeTimesSeconds(l);
    var s, d, N := Slope(l), Seconds(l), n as real;
    var total := Integral(l, d);
    assert Discriminant(l, n) == l.minrps * l.minrps + 2.0 * (s * N);
    assert 2.0 * (s * total) == l.maxrps * l.maxrps - l.minrps * l.minrps by {
      calc {
        2.0 * (s * total);
      ==
        2.0 * (s * ((l.maxrps + l.minrps) / 2.0 * d));
      ==
        (s * d) * (l.maxrps + l.minrps);
      ==
        (l.maxrps - l.minrps) * (l.maxrps + l.minrps);
      ==
        l.maxrps * l.maxrps - l.minrps * l.minrps;
      }
    }
    assert 0.0 <= N <= total;
    if s >= 0.0 {
      MulMonotone(N, total, s);
      MulMonotone(0.0, N, s);
      assert l.minrps * l.minrps >= 0.0;
    } else {
      MulMonotone(N, total, -s);
      MulMonotone(0.0, N, -s);
      assert l.maxrps * l.maxrps >= 0.0;
    }
  }

  lemma MulStrict(a: real, b: real, c: real)
    requires a < b && 0.0 < c
    ensures a * c < b * c
  {
  }

  lemma SquareMonotone(a: real, b: real)
    requires 0.0 <= a && 0.0 <= b && a * a <= b * b
    ensures a <= b
  {
    if a > b {
      SquareStrict(b, a);
    }
  }

  lemma SquareStrict(a: real, b: real)
    requires 0.0 <= a < b
    ensures a * a < b * b
  {
    MulMonotone(a, b, a);
    MulStrict(a, b, b);
    calc {
      a * a;
    <=
      b * a;
    ==
      a * b;
    <
      b * b;
    }
  }

  lemma Cancel(a: real, b: real, c: real)
    requires c != 0.0 && c * a == c * b
    ensures a == b
  {
  }

  lemma CancelOrder(a: real, b: real, c: real)
    requires c != 0.0 && (if c > 0.0 then c * a <= c * b else c * b <= c * a)
    ensures a <= b
  {
    if a > b {
      if c > 0.0 {
        MulStrict(b, a, c);
      } else {
        MulStrict(b, a, -c);
      }
    }
  }

  /** The moment solves the equation "n shots are due", inside the line, where the rate is not negative. */
  lemma MomentSolves(l: Plan, n: nat, sqrt: Sqrt)
    requires IsLine(l) && n < LineLength(l) && IsSqrt(sqrt)
    ensures Slope(l) == 0.0 ==> l.minrps > 0.0
    ensures 0.0 <= Moment(l, n, sqrt) <= Seconds(l)
    ensures Integral(l, Moment(l, n, sqrt)) == n as real
    ensures RateAt(l, Moment(l, n, sqrt)) >= 0.0
  {
    SlopeTimesSeconds(l);
    WithinIntegral(l, n);
    if Slope(l) == 0.0 {
      FlatMoment(l, n, sqrt);
    } else {
      SlopedMoment(l, n, sqrt);
    }
  }

  lemma FlatMoment(l: Plan, n: nat, sqrt: Sqrt)
    requires IsLine(l) && n < LineLength(l) && Slope(l) == 0.0
    ensures l.minrps > 0.0 && 0.0 <= Moment(l, n, sqrt) <= Seconds(l)
    ensures Integral(l, Moment(l, n, sqrt)) == n as real
  {
    SlopeTimesSeconds(l);
    WithinIntegral(l, n);
    assert l.minrps == l.maxrps;
    var m, d := Moment(l, n, sqrt), Seconds(l);
    assert l.minrps * m == n as real;
    assert Integral(l, d) == l.minrps * d;
    CancelOrder(m, d, l.minrps);
    CancelOrder(0.0, m, l.minrps);
  }

  lemma SlopedMoment(l: Plan, n: nat, sqrt: Sqrt)
    requires IsLine(l) && n < LineLength(l) && IsSqrt(sqrt) && Slope(l) != 0.0
    ensures 0.0 <= Moment(l, n, sqrt) <= Seconds(l)
    ensures Integral(l, Moment(l, n, sqrt)) == n as real
    ensures RateAt(l, Moment(l, n, sqrt)) >= 0.0
  {
    hide Discriminant, Slope, Seconds, LineLength, IsSqrt, Moment;
    SlopeTimesSeconds(l);
    RootBetween(l, n, sqrt);
    SlopeTimesMoment(l, n, sqrt);
    DiscriminantIs(l, n);
    RootInside(Slope(l), Seconds(l), l.minrps, l.maxrps, Moment(l, n, sqrt), sqrt(Discriminant(l, n)), n as real);
  }

  lemma SlopeTimesMoment(l: Plan, n: nat, sqrt: Sqrt)
    requires IsLine(l) && Slope(l) != 0.0
    ensures Slope(l) * Moment(l, n, sqrt) == sqrt(Discriminant(l, n)) - l.minrps
  {
    hide Discriminant, Slope, IsSqrt;
    MomentTimesSlope(Slope(l), l.minrps, sqrt(Discriminant(l, n)));
  }

  lemma DiscriminantIs(l: Plan, n: nat)
    requires IsLine(l)
    ensures Discriminant(l, n) == l.minrps * l.minrps + 2.0 * (Slope(l) * (n as real))
  {
  }

  /** A root r between the two rates b and e gives a moment m inside the d seconds. */
  lemma RootInside(s: real, d: real, b: real, e: real, m: real, r: real, n: real)
    requires s != 0.0 && s * d == e - b && s * m == r - b && r * r == b * b + 2.0 * (s * n) && r >= 0.0
    requires if s >= 0.0 then b <= r <= e else e <= r <= b
    ensures 0.0 <= m <= d && b * m + s / 2.0 * m * m == n && b + s * m >= 0.0
  {
    RootOfSquare(s, b, r, m, n);
    CancelOrder(0.0, m, s);
    CancelOrder(m, d, s);
  }

  /** The root of the discriminant lies between the two rates. */
  lemma RootBetween(l: Plan, n: nat, sqrt: Sqrt)
    requires IsLine(l) && n < LineLength(l) && IsSqrt(sqrt)
    ensures var r := sqrt(Discriminant(l, n));
      && r >= 0.0 && r * r == Discriminant(l, n)
      && (if Slope(l) >= 0.0 then l.minrps <= r <= l.maxrps else l.maxrps <= r <= l.minrps)
  {
    DiscriminantBetween(l, n);
    var r := sqrt(Discriminant(l, n));
    assert r >= 0.0 && r * r == Discriminant(l, n);
    hide Discriminant, Slope, Seconds, LineLength, IsSqrt;
    if Slope(l) >= 0.0 {
      SquareMonotone(l.minrps, r);
      SquareMonotone(r, l.maxrps);
    } else {
      SquareMonotone(l.maxrps, r);
      SquareMonotone(r, l.minrps);
    }
  }

  /** If r squared is b squared plus twice s times n, then (r - b) / s solves b*m + s/2*m*m == n. */
  lemma RootOfSquare(s: real, b: real, r: real, m: real, n: real)
    requires s != 0.0 && s * m == r - b && r * r == b * b + 2.0 * (s * n)
    ensures b * m + s / 2.0 * m * m == n
  {
    var f, sm := b * m + s / 2.0 * m * m, s * m;
    assert s * f == b * sm + sm * sm / 2.0 by {
      assert s * (b * m) == b * sm;
      assert s * (s / 2.0 * m * m) == sm * sm / 2.0;
    }
    assert b * (r - b) + (r - b) * (r - b) / 2.0 == (r * r - b * b) / 2.0;
    Cancel(f, n, s);
  }

  lemma MomentTimesSlope(s: real, b: real, r: real)
    requires s != 0.0
    ensures s * ((-b + r) / (2.0 * (s / 2.0))) == r - b
  {
    assert 2.0 * (s / 2.0) == s;
  }

  lemma IntegralDifference(l: Plan, t: real, u: real)
    requires l.Line? && l.duration > 0
    ensures Integral(l, t) - Integral(l, u) == (t - u) * (RateAt(l, t) + RateAt(l, u)) / 2.0
  {
  }

  lemma RateNotNegative(l: Plan, t: real)
    requires IsLine(l) && 0.0 <= t <= Seconds(l)
    ensures RateAt(l, t) >= 0.0
  {
    SlopeTimesSeconds(l);
    if Slope(l) >= 0.0 {
      MulMonotone(0.0, t, Slope(l));
    } else {
      MulMonotone(t, Seconds(l), -Slope(l));
    }
  }

  /** Shot n falls before time t exactly when more than n shots are due by then. */
  lemma BeforeIffDue(l: Plan, n: nat, t: real, sqrt: Sqrt)
    requires IsLine(l) && n < LineLength(l) && IsSqrt(sqrt) && 0.0 <= t <= Seconds(l)
    ensures Slope(l) == 0.0 ==> l.minrps > 0.0
    ensures Moment(l, n, sqrt) < t <==> (n as real) < Integral(l, t)
  {
    MomentSolves(l, n, sqrt);
    var m := Moment(l, n, sqrt);
    hide Moment, Integral, IsSqrt, LineLength, RateAt, Slope, Seconds;
    RateNotNegative(l, t);
    if m < t {
      RatesPositive(l, m, t);
    }
    MoreDueLater(l, m, t);
  }

  /** Where the rate is not negative, the integral grows exactly with time. */
  lemma MoreDueLater(l: Plan, m: real, t: real)
    requires l.Line? && l.duration > 0
    requires RateAt(l, t) >= 0.0 && RateAt(l, m) >= 0.0 && (m < t ==> RateAt(l, t) + RateAt(l, m) > 0.0)
    ensures m < t <==> Integral(l, m) < Integral(l, t)
  {
    IntegralDifference(l, t, m);
    hide Integral, RateAt;
    var x, rates, gain := t - m, RateAt(l, t) + RateAt(l, m), Integral(l, t) - Integral(l, m);
    assert gain == x * rates / 2.0;
    SignOfProduct(x, rates);
  }

  lemma SignOfProduct(x: real, rates: real)
    requires rates >= 0.0 && (x > 0.0 ==> rates > 0.0)
    ensures x > 0.0 <==> x * rates / 2.0 > 0.0
  {
    if x > 0.0 {
      MulStrict(0.0, x, rates);
    } else {
      MulMonotone(x, 0.0, rates);
    }
  }

  lemma RatesPositive(l: Plan, m: real, t: real)
    requires IsLine(l) && 0.0 <= m < t && RateAt(l, m) >= 0.0 && RateAt(l, t) >= 0.0
    requires Slope(l) == 0.0 ==> l.minrps > 0.0
    ensures RateAt(l, t) + RateAt(l, m) > 0.0
  {
    hide Slope;
    SumPositive(Slope(l), l.minrps, m, t);
  }

  lemma SumPositive(s: real, b: real, m: real, t: real)
    requires 0.0 <= m < t && b >= 0.0 && b + s * m >= 0.0 && b + s * t >= 0.0 && (s == 0.0 ==> b > 0.0)
    ensures (b + s * t) + (b + s * m) > 0.0
  {
    if s > 0.0 {
      MulStrict(0.0, t, s);
    } else if s < 0.0 {
      MulStrict(m, t, -s);
    }
  }
}
