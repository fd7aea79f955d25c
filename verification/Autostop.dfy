/** yandextank/plugins/Autostop: criteria watched second by second, and the plugin that latches the first one to fire.
    Counts and averages are exact reals. */
module Autostop {
  import opened Common

  /** What the criteria read of one aggregated second and its stat. */
  datatype Second = Second(ts: int, responses: nat, rtTotal: nat, instances: nat, reqps: int)

  /** When a second counts towards a run. The matching of response codes and the quantiles are given. */
  datatype Condition =
    | AvgTime(limit: real)
    | Codes(matched: Second -> nat, level: real, relative: bool)
    | Quantile(value: Second -> Option<real>, limit: real)
    | UsedInstances(level: real, relative: bool, threadsLimit: nat)

  datatype Rule =
    | RunRule(condition: Condition, limit: nat)
    | WindowRule(matched: Second -> nat, negative: bool, relative: bool, level: real, limit: nat)
    | TrendRule(matched: Second -> nat, limit: nat, sqrt: real -> real)

  /** What `notify` does: nothing, stop the test on account of a second, or raise. */
  datatype Result = Quiet | Fires(cause: Second) | Raises

  // ----- runs of bad seconds

  /** None is a division by zero. */
  function Violates(c: Condition, s: Second): Option<bool> {
    match c
    case AvgTime(limit) =>
      if s.responses == 0 then None else Some(s.rtTotal as real / 1000.0 / s.responses as real > limit)
    case Codes(matched, level, relative) =>
      if !relative then Some(matched(s) as real >= level)
      else if s.responses == 0 then Some(0.0 >= level)
      else Some(matched(s) as real / s.responses as real >= level)
    case Quantile(value, limit) =>
      Some(value(s).Some? && value(s).value / 1000.0 > limit)
    case UsedInstances(level, relative, threadsLimit) =>
      if !relative then Some(s.instances as real > level)
      else if threadsLimit == 0 then None
      else Some(s.instances as real / threadsLimit as real > level)
  }

  /** How many seconds in a row, up to the last, were bad. */
  function RunLength(c: Condition, h: seq<Second>): (n: nat)
    ensures n <= |h|
  {
    if h == [] || Violates(c, h[|h| - 1]) != Some(true) then 0 else 1 + RunLength(c, h[..|h| - 1])
  }

  /** It is the longest suffix of bad seconds. */
  lemma {:induction false} RunIsLongestSuffix(c: Condition, h: seq<Second>, k: nat)
    requires k <= |h|
    ensures k <= RunLength(c, h) <==> forall i | |h| - k <= i < |h| :: Violates(c, h[i]) == Some(true)
  {
    if k > 0 {
      RunIsLongestSuffix(c, h[..|h| - 1], k - 1);
      var before := h[..|h| - 1];
      assert forall i | |h| - k <= i < |h| - 1 :: h[i] == before[i];
    }
  }

  // ----- when a second is bad

  lemma ShareOrder(part: real, whole: real, limit: real)
    requires whole > 0.0
    ensures part / whole > limit <==> part > limit * whole
    ensures part / whole >= limit <==> part >= limit * whole
  {
    var share := part / whole;
    assert share * whole == part;
    if share > limit {
      MulStrictly(limit, share, whole);
    } else if share < limit {
      MulStrictly(share, limit, whole);
    }
  }

  lemma MulStrictly(a: real, b: real, c: real)
    requires a < b && c > 0.0
    ensures a * c < b * c
  {
  }

  ghost function SumOf(times: seq<nat>): nat {
    if times == [] then 0 else times[0] + SumOf(times[1..])
  }

  lemma OneTimeMore(limit: nat, n: nat)
    ensures limit * (n + 1) == limit * n + limit
  {
  }

  lemma {:induction false} SumBounds(times: seq<nat>, limit: nat)
    ensures (forall x | x in times :: x <= limit) ==> SumOf(times) <= limit * |times|
    ensures (forall x | x in times :: x > limit) && times != [] ==> SumOf(times) > limit * |times|
  {
    if times != [] {
      SumBounds(times[1..], limit);
      assert times[0] in times && forall x | x in times[1..] :: x in times;
      OneTimeMore(limit, |times| - 1);
    }
  }

  /** The average response time, in microseconds as they are measured against a limit in milliseconds: if no response
      takes longer than the limit the second is not bad, if each does it is; in general it is bad exactly when all of
      them together take longer than that many responses may. Equality is not bad. */
  lemma SlowSeconds(limit: nat, s: Second, times: seq<nat>)
    requires s.responses == |times| > 0 && s.rtTotal == SumOf(times)
    ensures Violates(AvgTime(limit as real), s) == Some(SumOf(times) > 1000 * limit * |times|)
    ensures (forall x | x in times :: x <= 1000 * limit) ==> Violates(AvgTime(limit as real), s) == Some(false)
    ensures (forall x | x in times :: x > 1000 * limit) ==> Violates(AvgTime(limit as real), s) == Some(true)
  {
    SumBounds(times, 1000 * limit);
    SlowIff(limit, s.rtTotal, s.responses);
  }

  lemma SlowIff(limit: nat, total: nat, n: nat)
    requires n > 0
    ensures total as real / 1000.0 / n as real > limit as real <==> total > 1000 * limit * n
  {
    ShareOrder(total as real / 1000.0, n as real, limit as real);
    RealProduct(limit, n);
    Thousands(limit, n);
  }

  lemma RealProduct(a: nat, b: nat)
    ensures (a * b) as real == a as real * b as real
  {
  }

  lemma Thousands(a: nat, b: nat)
    ensures 1000 * a * b == 1000 * (a * b)
  {
  }

  lemma ShareGrows(a: real, b: real, whole: real, limit: real)
    requires a <= b && whole > 0.0
    ensures a / whole > limit ==> b / whole > limit
    ensures a / whole >= limit ==> b / whole >= limit
  {
    ShareOrder(a, whole, limit);
    ShareOrder(b, whole, limit);
  }

  /** Codes: as a count the level itself is enough; as a share the second is bad exactly when the matching responses are
      at least that share of all of them, so that all matching is bad up to level 1 and none matching is bad only at
      level 0. */
  lemma CodedSeconds(matched: Second -> nat, level: real, s: Second)
    ensures Violates(Codes(matched, level, false), s) == Some(matched(s) as real >= level)
    ensures s.responses > 0 ==>
      && Violates(Codes(matched, level, true), s) == Some(matched(s) as real >= level * s.responses as real)
      && (matched(s) == s.responses && level <= 1.0 ==> Violates(Codes(matched, level, true), s) == Some(true))
      && (matched(s) == 0 && level > 0.0 ==> Violates(Codes(matched, level, true), s) == Some(false))
  {
    if s.responses > 0 {
      var n := s.responses as real;
      ShareOrder(matched(s) as real, n, level);
      if level > 0.0 {
        MulStrictly(0.0, level, n);
      }
      if level < 1.0 {
        MulStrictly(level, 1.0, n);
      }
    }
  }

  /** A second that is bad for its matching codes, or for its time, stays bad with more of them or a longer time. */
  lemma WorseStaysBad(c: Condition, s: Second, t: Second)
    requires Violates(c, s) == Some(true) && t.responses == s.responses
    requires c.AvgTime? ==> s.rtTotal <= t.rtTotal
    requires c.Codes? ==> c.matched(s) <= c.matched(t)
    requires c.Quantile? ==> c.value(t).Some? && (c.value(s).Some? ==> c.value(s).value <= c.value(t).value)
    requires c.UsedInstances? ==> s.instances <= t.instances
    ensures Violates(c, t) == Some(true)
  {
    match c
    case AvgTime(limit) =>
      ShareGrows(s.rtTotal as real / 1000.0, t.rtTotal as real / 1000.0, s.responses as real, limit);
    case Codes(matched, level, relative) =>
      if s.responses > 0 {
        ShareGrows(matched(s) as real, matched(t) as real, s.responses as real, level);
      }
    case Quantile(value, limit) =>
    case UsedInstances(level, relative, threadsLimit) =>
      if threadsLimit > 0 {
        ShareGrows(s.instances as real, t.instances as real, threadsLimit as real, level);
      }
  }

  /** Quantiles in microseconds against a limit in milliseconds, and instances in use: equality is not bad, and neither
      is a second without that quantile. */
  lemma OtherSeconds(value: Second -> Option<real>, limit: real, threadsLimit: nat, s: Second)
    ensures Violates(Quantile(value, limit), s) ==
            match value(s)
            case None => Some(false)
            case Some(x) => Some(x > 1000.0 * limit)
    ensures Violates(UsedInstances(limit, false, threadsLimit), s) == Some(s.instances as real > limit)
    ensures threadsLimit > 0 ==>
      Violates(UsedInstances(limit, true, threadsLimit), s) == Some(s.instances as real > limit * threadsLimit as real)
  {
    if threadsLimit > 0 {
      ShareOrder(s.instances as real, threadsLimit as real, limit);
    }
  }

  /** No division by zero: with responses, and with a limit of instances, a second is bad or it is not. */
  lemma SomeVerdict(c: Condition, s: Second)
    ensures Violates(c, s).None? <==>
            (c.AvgTime? && s.responses == 0) || (c.UsedInstances? && c.relative && c.threadsLimit == 0)
    ensures c.Codes? && c.relative && s.responses == 0 ==> Violates(c, s) == Some(c.level <= 0.0)
  {
  }

  ghost predicate AllBad(c: Condition, seconds: seq<Second>) {
    forall s | s in seconds :: Violates(c, s) == Some(true)
  }

  /** It fires exactly when as many seconds in a row as the limit says, and at least one, were bad, and then names the
      first second of the whole run. */
  lemma RunFiresIff(c: Condition, limit: nat, h: seq<Second>)
    requires h != []
    ensures RunResult(c, limit, h).Fires? <==>
            limit <= |h| && AllBad(c, h[|h| - (if limit == 0 then 1 else limit)..])
    ensures RunResult(c, limit, h).Raises? <==> Violates(c, h[|h| - 1]).None?
    ensures RunResult(c, limit, h).Fires? ==>
              exists i :: 0 <= i < |h| && RunResult(c, limit, h) == Fires(h[i]) && AllBad(c, h[i..])
                          && (i == 0 || Violates(c, h[i - 1]) != Some(true))
  {
    hide Violates;
    var n, needed := RunLength(c, h), if limit == 0 then 1 else limit;
    if limit <= |h| {
      BadFrom(c, h, needed);
    }
    BadFrom(c, h, n);
    BadFrom(c, h, 1);
    if n < |h| {
      RunIsLongestSuffix(c, h, n + 1);
      assert forall i | |h| - n <= i < |h| :: h[i] in h[|h| - n..];
    }
  }

  lemma BadFrom(c: Condition, h: seq<Second>, k: nat)
    requires k <= |h|
    ensures k <= RunLength(c, h) <==> AllBad(c, h[|h| - k..])
  {
    hide Violates;
    RunIsLongestSuffix(c, h, k);
    var last := h[|h| - k..];
    if AllBad(c, last) {
      forall i | |h| - k <= i < |h| ensures Violates(c, h[i]) == Some(true) {
        assert last[i - (|h| - k)] in last;
      }
    }
  }

  // ----- windows

  function Last<T>(s: seq<T>, n: nat): seq<T> {
    if |s| <= n then s else s[|s| - n..]
  }

  /** What a bounded deque holds after one more push. */
  function Pushed<T>(q: seq<T>, x: T, n: nat): seq<T> {
    if |q| + 1 > n then (q + [x])[1..] else q + [x]
  }

  lemma LastPushed<T>(s: seq<T>, x: T, n: nat)
    ensures Pushed(Last(s, n), x, n) == Last(s + [x], n)
  {
  }

  function Sum(s: seq<real>): real {
    if s == [] then 0.0 else Sum(s[..|s| - 1]) + s[|s| - 1]
  }

  lemma {:induction false} SumFromFront(s: seq<real>)
    requires s != []
    ensures Sum(s) == s[0] + Sum(s[1..])
  {
    if |s| > 1 {
      SumFromFront(s[..|s| - 1]);
      assert s[..|s| - 1][1..] == s[1..][..|s| - 2];
    } else {
      assert s[..0] == [] && s[1..] == [];
    }
  }

  /** The running sum of the last pushes; it is never recomputed. */
  class WindowCounter {
    const windowSize: nat
    var value: real
    var q: seq<real>
    ghost var pushed: seq<real>

    ghost predicate Valid()
      reads this
    {
      q == Last(pushed, windowSize) && value == Sum(Last(pushed, windowSize))
    }

    constructor (windowSize: nat)
      ensures Valid() && pushed == [] && this.windowSize == windowSize
    {
      this.windowSize := windowSize;
      value, q, pushed := 0.0, [], [];
    }

    method Push(x: real)
      requires Valid()
      modifies this
      ensures Valid() && pushed == old(pushed) + [x]
    {
      LastPushed(pushed, x, windowSize);
      SumFromFront(q + [x]);
      assert (q + [x])[..|q|] == q;
      pushed := pushed + [x];
      value := value + x;
      q := q + [x];
      if |q| > windowSize {
        value := value - q[0];
        q := q[1..];
      }
    }
  }

  /** What a windowed criterion adds up for a second: a percentage or a count, of matching or of other codes. Without
      any response the percentage is taken to be 1. */
  function WindowValue(r: Rule, s: Second): real
    requires r.WindowRule?
  {
    var matched := r.matched(s) as real;
    if r.relative then
      if s.responses == 0 then 1.0
      else if r.negative then 100.0 - matched / s.responses as real * 100.0
      else matched / s.responses as real * 100.0
    else if r.negative then s.responses as real - matched else matched
  }

  function Values(r: Rule, h: seq<Second>): (vs: seq<real>)
    requires r.WindowRule?
    ensures |vs| == |h|
  {
    seq(|h|, i requires 0 <= i < |h| => WindowValue(r, h[i]))
  }

  /** Once there are `limit` seconds, it fires if their sum, or their average for percentages, reaches the level, and
      names the oldest of them. A limit of 0 divides by zero or takes the first of no seconds. */
  function WindowResult(r: Rule, h: seq<Second>): Result
    requires r.WindowRule?
  {
    if r.limit == 0 then
      if r.relative || 0.0 >= r.level then Raises else Quiet
    else if |h| < r.limit then Quiet
    else
      var sum := Sum(Values(r, h)[|h| - r.limit..]);
      if (if r.relative then sum / r.limit as real else sum) >= r.level then Fires(h[|h| - r.limit]) else Quiet
  }

  /** The average of the last seconds of a window. */
  function Average(r: Rule, h: seq<Second>): real
    requires r.WindowRule? && 1 <= r.limit <= |h|
  {
    Sum(Values(r, h)[|h| - r.limit..]) / r.limit as real
  }

  lemma {:induction false} SumsToHundreds(a: seq<real>, b: seq<real>)
    requires |a| == |b| && forall i | 0 <= i < |a| :: a[i] == 100.0 - b[i]
    ensures Sum(a) == 100.0 * |a| as real - Sum(b)
  {
    if a != [] {
      SumsToHundreds(a[..|a| - 1], b[..|b| - 1]);
    }
  }

  lemma AverageOfRest(sum: real, rest: real, m: real)
    requires m > 0.0 && rest == 100.0 * m - sum
    ensures rest / m == 100.0 - sum / m
  {
    var average := sum / m;
    assert average * m == sum;
    Distribute(average, m);
    DivideBack(rest, 100.0 - average, m);
  }

  lemma Distribute(x: real, m: real)
    ensures (100.0 - x) * m == 100.0 * m - x * m
  {
  }

  lemma DivideBack(product: real, x: real, m: real)
    requires m > 0.0 && product == x * m
    ensures product / m == x
  {
  }

  /** A percentage of other codes fires exactly when the matching ones fall to what the level leaves of 100; every
      reported second has responses. */
  lemma OthersFireIffMatchingFall(r: Rule, h: seq<Second>)
    requires r.WindowRule? && r.relative && !r.negative && 1 <= r.limit <= |h|
    requires forall i | |h| - r.limit <= i < |h| :: h[i].responses > 0
    ensures WindowResult(r.(negative := true), h) ==
            if Average(r, h) <= 100.0 - r.level then Fires(h[|h| - r.limit]) else Quiet
  {
    var others, k := r.(negative := true), |h| - r.limit;
    SumsToHundreds(Values(others, h)[k..], Values(r, h)[k..]);
    AverageOfRest(Sum(Values(r, h)[k..]), Sum(Values(others, h)[k..]), r.limit as real);
  }

  /** The responses that an absolute window counts. */
  ghost function CountedIn(r: Rule, seconds: seq<Second>): int
    requires r.WindowRule?
  {
    if seconds == [] then 0
    else
      var n := |seconds| - 1;
      CountedIn(r, seconds[..n])
      + if r.negative then seconds[n].responses - r.matched(seconds[n]) else r.matched(seconds[n])
  }

  lemma {:induction false} SumIsCount(r: Rule, seconds: seq<Second>)
    requires r.WindowRule? && !r.relative
    ensures Sum(Values(r, seconds)) == CountedIn(r, seconds) as real
  {
    if seconds != [] {
      var n := |seconds| - 1;
      SumIsCount(r, seconds[..n]);
      assert Values(r, seconds)[..n] == Values(r, seconds[..n]);
    }
  }

  lemma ValuesOfLast(r: Rule, h: seq<Second>, k: nat)
    requires r.WindowRule? && k <= |h|
    ensures Values(r, h)[k..] == Values(r, h[k..])
  {
  }

  /** The branch for a second without responses, as the code has it. */
  lemma SilentSecond(r: Rule, s: Second)
    requires r.WindowRule? && s.responses == 0
    ensures WindowValue(r, s) == if r.relative then 1.0 else if r.negative then -(r.matched(s) as real)
                                 else r.matched(s) as real
  {
  }

  /** An absolute window fires exactly when so many matching responses, or other ones, came in its seconds together. */
  lemma CountWindowFiresIff(r: Rule, h: seq<Second>)
    requires r.WindowRule? && !r.relative && 1 <= r.limit
    ensures WindowResult(r, h) ==
            if r.limit <= |h| && CountedIn(r, h[|h| - r.limit..]) as real >= r.level then Fires(h[|h| - r.limit])
            else Quiet
  {
    if r.limit <= |h| {
      ValuesOfLast(r, h, |h| - r.limit);
      SumIsCount(r, h[|h| - r.limit..]);
    }
  }

  lemma {:induction false} SumBetween(s: seq<real>, low: real, high: real)
    requires forall x | x in s :: low <= x <= high
    ensures low * |s| as real <= Sum(s) <= high * |s| as real
  {
    if s != [] {
      var n := |s| - 1;
      assert s[n] in s && forall x | x in s[..n] :: x in s;
      SumBetween(s[..n], low, high);
      RealNext(low, n as real);
      RealNext(high, n as real);
      assert |s| as real == n as real + 1.0;
    }
  }

  lemma RealNext(x: real, n: real)
    ensures x * (n + 1.0) == x * n + x
  {
  }

  lemma PercentBetween(part: nat, whole: nat, low: real, high: real)
    requires whole > 0 && low * whole as real <= 100.0 * part as real <= high * whole as real
    ensures low <= part as real / whole as real * 100.0 <= high
  {
    var share := part as real / whole as real;
    assert share * whole as real == part as real;
    if share * 100.0 < low {
      MulStrictly(share * 100.0, low, whole as real);
    }
    if high < share * 100.0 {
      MulStrictly(high, share * 100.0, whole as real);
    }
  }

  /** A percentage window: if in each of its seconds the matching responses are between two percentages of all of them,
      so is their average, and with that it fires or not. */
  lemma PercentWindow(r: Rule, h: seq<Second>, low: real, high: real)
    requires r.WindowRule? && r.relative && !r.negative && 1 <= r.limit <= |h|
    requires forall s | s in h[|h| - r.limit..] ::
               s.responses > 0
               && low * s.responses as real <= 100.0 * r.matched(s) as real <= high * s.responses as real
    ensures low <= Average(r, h) <= high
    ensures r.level <= low ==> WindowResult(r, h) == Fires(h[|h| - r.limit])
    ensures high < r.level ==> WindowResult(r, h) == Quiet
  {
    hide WindowValue, WindowResult, Sum;
    var k, last := |h| - r.limit, h[|h| - r.limit..];
    ValuesOfLast(r, h, k);
    var vs := Values(r, last);
    forall x | x in vs ensures low <= x <= high {
      var i :| 0 <= i < |vs| && vs[i] == x;
      assert last[i] in last;
      PercentValue(r, last[i], low, high);
    }
    SumBetween(vs, low, high);
    AverageBetween(Sum(vs), r.limit as real, low, high);
    AverageDecides(r, h);
  }

  lemma AverageDecides(r: Rule, h: seq<Second>)
    requires r.WindowRule? && r.relative && 1 <= r.limit <= |h|
    ensures WindowResult(r, h) == if Average(r, h) >= r.level then Fires(h[|h| - r.limit]) else Quiet
  {
  }

  lemma PercentValue(r: Rule, s: Second, low: real, high: real)
    requires r.WindowRule? && r.relative && !r.negative && s.responses > 0
    requires low * s.responses as real <= 100.0 * r.matched(s) as real <= high * s.responses as real
    ensures low <= WindowValue(r, s) <= high
  {
    PercentBetween(r.matched(s), s.responses, low, high);
  }

  lemma AverageBetween(sum: real, n: real, low: real, high: real)
    requires n > 0.0 && low * n <= sum <= high * n
    ensures low <= sum / n <= high
  {
    ShareOrder(sum, n, low);
    ShareOrder(sum, n, high);
  }

  // ----- the trend

  /** The count of the k-th second; 0 before the first. */
  function Count(r: Rule, h: seq<Second>, k: int): real
    requires r.TrendRule? && k <= |h|
  {
    if k <= 0 then 0.0 else r.matched(h[k - 1]) as real
  }

  /** The differences from each second to the next, after a leading zero. */
  function Tangents(r: Rule, h: seq<Second>): (ts: seq<real>)
    requires r.TrendRule?
    ensures |ts| == |h| + 1
  {
    seq(|h| + 1, k requires 0 <= k <= |h| => Count(r, h, k) - Count(r, h, k - 1))
  }

  lemma TangentAt(r: Rule, h: seq<Second>, k: nat)
    requires r.TrendRule? && k <= |h|
    ensures Tangents(r, h)[k] == Count(r, h, k) - Count(r, h, k - 1)
  {
  }

  /** How many tangents are kept: the limit, but at least one. */
  function Kept(limit: nat, seconds: nat): nat {
    Min(seconds + 1, Max(limit, 1))
  }

  /** Their sum is the last count less the count just before them. */
  lemma {:induction false} TangentsTelescope(r: Rule, h: seq<Second>, m: nat)
    requires r.TrendRule? && m <= |h| + 1
    ensures Sum(Last(Tangents(r, h), m)) == Count(r, h, |h|) - Count(r, h, |h| - m)
  {
    hide Tangents, Count, Sum;
    TelescopeUpTo(r, h, |h| + 1 - m, |h| + 1);
    assert Tangents(r, h)[|h| + 1 - m..|h| + 1] == Last(Tangents(r, h), m);
  }

  lemma SliceOff<T>(s: seq<T>, a: nat, b: nat)
    requires a < b <= |s|
    ensures s[a..b][..b - a - 1] == s[a..b - 1] && s[a..b][b - a - 1] == s[b - 1]
  {
  }

  lemma {:induction false} TelescopeUpTo(r: Rule, h: seq<Second>, a: nat, b: nat)
    requires r.TrendRule? && a <= b <= |h| + 1
    ensures Sum(Tangents(r, h)[a..b]) == Count(r, h, b - 1) - Count(r, h, a - 1)
    decreases b
  {
    hide Tangents, Count;
    if a < b {
      TangentAt(r, h, b - 1);
      TelescopeUpTo(r, h, a, b - 1);
      SliceOff(Tangents(r, h), a, b);
    }
  }

  function Square(x: real): (r: real)
    ensures r >= 0.0
  {
    x * x
  }

  function SquaresAround(s: seq<real>, avg: real): (sum: real)
    ensures sum >= 0.0
  {
    if s == [] then 0.0 else SquaresAround(s[..|s| - 1], avg) + Square(s[|s| - 1] - avg)
  }

  function Mean(s: seq<real>): real {
    if s == [] then 0.0 else Sum(s) / |s| as real
  }

  /** `calc_measurement_error` */
  function MeasurementError(s: seq<real>, sqrt: real -> real): real {
    if |s| < 2 then 0.0
    else sqrt(SquaresAround(s, Mean(s)) / |s| as real / (|s| - 1) as real)
  }

  /** The mean of the kept tangents, plus its error, below zero; the seconds kept are one fewer than the tangents. */
  function TrendResult(r: Rule, h: seq<Second>): Result
    requires r.TrendRule?
  {
    var m := Kept(r.limit, |h|);
    var kept := Last(Tangents(r, h), m);
    if Mean(kept) + MeasurementError(kept, r.sqrt) >= 0.0 then Quiet
    else if m == 1 then Raises
    else Fires(h[|h| - (m - 1)])
  }

  function RunResult(c: Condition, limit: nat, h: seq<Second>): Result
    requires h != []
  {
    var n := RunLength(c, h);
    if Violates(c, h[|h| - 1]).None? then Raises
    else if n > 0 && n >= limit then Fires(h[|h| - n])
    else Quiet
  }

  /** What a criterion answers to the last second of a history, by the history alone. */
  function ResultOf(r: Rule, h: seq<Second>): Result
    requires h != []
  {
    match r
    case RunRule(condition, limit) => RunResult(condition, limit, h)
    case WindowRule(_, _, _, _, _) => WindowResult(r, h)
    case TrendRule(_, _, _) => TrendResult(r, h)
  }

  function SumOfSquares(s: seq<real>): real {
    if s == [] then 0.0 else SumOfSquares(s[..|s| - 1]) + s[|s| - 1] * s[|s| - 1]
  }

  /** The squares around a, from the sum of the squares and the sum of n numbers. */
  function Around(squares: real, sum: real, n: real, a: real): real {
    squares - 2.0 * a * sum + n * (a * a)
  }

  lemma OneMoreAround(squares: real, sum: real, n: real, a: real, x: real, square: real)
    requires square == x * x
    ensures Around(squares + square, sum + x, n + 1.0, a) == Around(squares, sum, n, a) + Square(x - a)
  {
    assert 2.0 * a * (sum + x) == 2.0 * a * sum + 2.0 * a * x;
    assert (n + 1.0) * (a * a) == n * (a * a) + a * a;
    assert Square(x - a) == square - 2.0 * a * x + a * a;
  }

  lemma {:induction false} SquaresExpand(s: seq<real>, a: real)
    ensures SquaresAround(s, a) == Around(SumOfSquares(s), Sum(s), |s| as real, a)
  {
    hide Square, Around;
    if s == [] {
      NothingAround(a);
    } else {
      var n, x := |s| - 1, s[|s| - 1];
      SquaresExpand(s[..n], a);
      var square := SumOfSquares(s) - SumOfSquares(s[..n]);
      OneMoreAround(SumOfSquares(s[..n]), Sum(s[..n]), n as real, a, x, square);
      assert |s| as real == n as real + 1.0 && Sum(s) == Sum(s[..n]) + x;
      assert SquaresAround(s, a) == SquaresAround(s[..n], a) + Square(x - a);
    }
  }

  lemma NothingAround(a: real)
    ensures Around(0.0, 0.0, 0.0, a) == 0.0
  {
  }

  /** The error of the mean, by the other formula: its square, as often as there are pairs of different differences, is
      how much the sum of the squares exceeds the square of the sum over the number. */
  lemma ErrorIsDeviation(s: seq<real>, sqrt: real -> real)
    requires |s| >= 2 && forall x: real | x >= 0.0 :: sqrt(x) >= 0.0 && sqrt(x) * sqrt(x) == x
    ensures var e, n := MeasurementError(s, sqrt), |s| as real;
            e >= 0.0 && e * e * n * (n - 1.0) == SumOfSquares(s) - Sum(s) * Sum(s) / n
  {
    hide SquaresAround, SumOfSquares, Sum, Around;
    var n, mean := |s| as real, Mean(s);
    SquaresExpand(s, mean);
    var squares := SquaresAround(s, mean);
    AroundMean(SumOfSquares(s), Sum(s), n, mean);
    var x := squares / n / (n - 1.0);
    DivideTwice(squares, n, n - 1.0, x);
    assert (|s| - 1) as real == n - 1.0;
    RootOf(x, n, squares, sqrt);
  }

  lemma RootOf(x: real, n: real, squares: real, sqrt: real -> real)
    requires x >= 0.0 && x * n * (n - 1.0) == squares && sqrt(x) >= 0.0 && sqrt(x) * sqrt(x) == x
    ensures sqrt(x) * sqrt(x) * n * (n - 1.0) == squares
  {
  }

  lemma AroundMean(squares: real, sum: real, n: real, mean: real)
    requires n > 0.0 && mean == sum / n
    ensures Around(squares, sum, n, mean) == squares - sum * sum / n
  {
    MeanTimes(sum, n, mean);
  }

  lemma MeanTimes(sum: real, n: real, mean: real)
    requires n > 0.0 && mean == sum / n
    ensures 2.0 * mean * sum - n * (mean * mean) == sum * sum / n
  {
    assert mean * n == sum;
    assert n * (mean * mean) == (mean * n) * mean == sum * mean;
    DivideBack(sum * sum, sum * mean, n);
  }

  lemma DivideTwice(square: real, n: real, m: real, x: real)
    requires n > 0.0 && m > 0.0 && x == square / n / m && square >= 0.0
    ensures x >= 0.0 && x * n * m == square
  {
    var q := square / n;
    assert q * n == square && q >= 0.0;
    assert x * m == q;
    assert x * n * m == (x * m) * n;
  }

  /** What the trend decides, and when, by its counts: with m differences kept, at first one more than there are
      seconds, then as many as the limit says and at least one, it is their mean and its error that must be below zero.
      The cause is the second after the first difference kept. */
  lemma TrendDecision(r: Rule, h: seq<Second>, m: nat)
    requires r.TrendRule? && h != []
    requires m == if r.limit <= 1 then 1 else if |h| + 1 < r.limit then |h| + 1 else r.limit
    ensures var mean := (Count(r, h, |h|) - Count(r, h, |h| - m)) / m as real;
            TrendResult(r, h) ==
              if mean + MeasurementError(Last(Tangents(r, h), m), r.sqrt) >= 0.0 then Quiet
              else if m == 1 then Raises else Fires(h[|h| - m + 1])
  {
    hide Tangents, Count, Sum, MeasurementError;
    TangentsTelescope(r, h, m);
  }

  ghost predicate NonNegativeRoot(sqrt: real -> real) {
    forall x: real | x >= 0.0 :: sqrt(x) >= 0.0
  }

  /** The trend never stops a test whose last count is not below the one just before the kept seconds. */
  lemma TrendNeedsADrop(r: Rule, h: seq<Second>)
    requires r.TrendRule? && NonNegativeRoot(r.sqrt) && TrendResult(r, h) != Quiet
    ensures Count(r, h, |h|) < Count(r, h, |h| - Kept(r.limit, |h|))
  {
    var m := Kept(r.limit, |h|);
    hide Tangents, Count, Sum, Mean, MeasurementError, Last;
    TangentsTelescope(r, h, m);
    ErrorNotNegative(Last(Tangents(r, h), m), r.sqrt);
    NegativeMean(Last(Tangents(r, h), m));
  }

  lemma NegativeMean(s: seq<real>)
    ensures Mean(s) < 0.0 ==> Sum(s) < 0.0
  {
    if s != [] && Sum(s) >= 0.0 {
      assert Sum(s) / |s| as real >= 0.0;
    }
  }

  lemma ErrorNotNegative(s: seq<real>, sqrt: real -> real)
    requires NonNegativeRoot(sqrt)
    ensures MeasurementError(s, sqrt) >= 0.0
  {
    if |s| >= 2 {
      var squares := SquaresAround(s, Mean(s));
      assert squares / |s| as real >= 0.0;
      assert squares / |s| as real / (|s| - 1) as real >= 0.0;
    }
  }

  /** The trend raises exactly when it has only one second to look at and the count drops: with a limit of one second
      (or none) there is no kept second to name. Such a trend never fires. */
  lemma TrendRaisesIff(r: Rule, h: seq<Second>)
    requires r.TrendRule? && h != []
    ensures TrendResult(r, h) == Raises <==> r.limit <= 1 && Count(r, h, |h|) < Count(r, h, |h| - 1)
    ensures r.limit <= 1 ==> !TrendResult(r, h).Fires?
  {
    if r.limit <= 1 {
      TangentsTelescope(r, h, 1);
      var kept := Last(Tangents(r, h), 1);
      assert |kept| == 1;
      hide Tangents, Last, Sum, Count;
      assert Mean(kept) == Sum(kept) / 1.0;
    } else {
      assert Kept(r.limit, |h|) > 1;
    }
  }

  // ----- the criteria as they run

  /** The deques of the trend: the kept tangents, and the seconds of all but the first of them. */
  ghost predicate TrendKept(r: Rule, h: seq<Second>, tangents: seq<real>, window: seq<Second>, last: real) {
    && r.TrendRule? && last == Count(r, h, |h|)
    && tangents == Last(Tangents(r, h), Kept(r.limit, |h|))
    && window == Last(h, Kept(r.limit, |h|) - 1)
  }

  /** One criterion of any kind, with the fields of all kinds. */
  class Criterion {
    const rule: Rule
    var secondsCount: nat
    var causeSecond: Option<Second>
    var data: seq<real>
    var secondWindow: seq<Second>
    var tangents: seq<real>
    var last: real
    ghost var history: seq<Second>

    ghost predicate Valid()
      reads this
    {
      match rule
      case RunRule(condition, _) =>
        && secondsCount == RunLength(condition, history)
        && (secondsCount > 0 ==> causeSecond == Some(history[|history| - secondsCount]))
      case WindowRule(_, _, _, _, limit) =>
        && data == Last(Values(rule, history), limit)
        && secondWindow == Last(history, limit)
      case TrendRule(_, _, _) =>
        TrendKept(rule, history, tangents, secondWindow, last)
    }

    constructor (rule: Rule)
      ensures Valid() && history == [] && this.rule == rule
    {
      this.rule := rule;
      secondsCount, causeSecond, data, secondWindow, tangents, last, history := 0, None, [], [], [0.0], 0.0, [];
      new;
      if rule.TrendRule? {
        assert Last(Tangents(rule, []), Kept(rule.limit, 0)) == [0.0];
      }
    }

    method Notify(s: Second) returns (result: Result)
      requires Valid()
      modifies this
      ensures history == old(history) + [s] && result == ResultOf(rule, history)
      ensures !result.Raises? ==> Valid()
      ensures result.Fires? ==> causeSecond == Some(result.cause)
      ensures !result.Raises? ==> (IsCounting(rule, history) <==> rule.RunRule? && secondsCount > 0)
    {
      match rule
      case RunRule(_, _) => result := NotifyRun(s);
      case WindowRule(_, _, _, _, _) => result := NotifyWindow(s);
      case TrendRule(_, _, _) => result := NotifyTrend(s);
    }

    method NotifyRun(s: Second) returns (result: Result)
      requires Valid() && rule.RunRule?
      modifies this
      ensures history == old(history) + [s] && result == ResultOf(rule, history)
      ensures !result.Raises? ==> Valid()
      ensures result.Fires? ==> causeSecond == Some(result.cause)
    {
      assert (history + [s])[..|history|] == history;
      history := history + [s];
      var bad := Violates(rule.condition, s);
      if bad.None? {
        return Raises;
      }
      if bad.value {
        if secondsCount == 0 {
          causeSecond := Some(s);
        }
        secondsCount := secondsCount + 1;
        if secondsCount >= rule.limit {
          return Fires(causeSecond.value);
        }
      } else {
        secondsCount := 0;
      }
      result := Quiet;
    }

    method NotifyWindow(s: Second) returns (result: Result)
      requires Valid() && rule.WindowRule?
      modifies this
      ensures history == old(history) + [s] && result == ResultOf(rule, history)
      ensures !result.Raises? ==> Valid()
      ensures result.Fires? ==> causeSecond == Some(result.cause)
    {
      WindowPushed(rule, history, s);
      WindowDecides(rule, history + [s]);
      hide Last, Values, WindowValue, Sum, WindowResult;
      history := history + [s];
      data := data + [WindowValue(rule, s)];
      secondWindow := secondWindow + [s];
      if |data| > rule.limit {
        data := data[1..];
        secondWindow := secondWindow[1..];
      }
      var queueLen := if rule.relative then |data| else 1;
      if queueLen == 0 {
        return Raises;
      }
      if Sum(data) / queueLen as real >= rule.level && |data| >= rule.limit {
        if secondWindow == [] {
          return Raises;
        }
        causeSecond := Some(secondWindow[0]);
        return Fires(secondWindow[0]);
      }
      result := Quiet;
    }

    method NotifyTrend(s: Second) returns (result: Result)
      requires Valid() && rule.TrendRule?
      modifies this
      ensures history == old(history) + [s] && result == ResultOf(rule, history)
      ensures !result.Raises? ==> Valid()
      ensures result.Fires? ==> causeSecond == Some(result.cause)
    {
      PushTangent(s);
      assert Valid();
      hide Last, Tangents, Count, Kept, Mean, TrendResult, MeasurementError;
      TrendDecides(rule, history);
      var totalTan := Mean(tangents);
      if totalTan + MeasurementError(tangents, rule.sqrt) < 0.0 {
        if secondWindow == [] {
          return Raises;
        }
        causeSecond := Some(secondWindow[0]);
        return Fires(secondWindow[0]);
      }
      result := Quiet;
    }

    method PushTangent(s: Second)
      requires rule.TrendRule? && TrendKept(rule, history, tangents, secondWindow, last)
      modifies `history, `tangents, `secondWindow, `last
      ensures TrendKept(rule, history, tangents, secondWindow, last) && history == old(history) + [s]
    {
      hide TrendKept, Values, Last, RunLength, Tangents, Count, Kept;
      var matched := rule.matched(s) as real;
      TangentPushed(rule, history, s, tangents, secondWindow, last);
      history := history + [s];
      tangents, secondWindow, last := tangents + [matched - last], secondWindow + [s], matched;
      if |tangents| > rule.limit {
        tangents, secondWindow := tangents[1..], secondWindow[1..];
      }
    }
  }

  /** Both deques of a window after one more second. */
  lemma WindowPushed(r: Rule, h: seq<Second>, s: Second)
    requires r.WindowRule?
    ensures var data, window := Last(Values(r, h), r.limit) + [WindowValue(r, s)], Last(h, r.limit) + [s];
            |data| == |window|
            && Last(Values(r, h + [s]), r.limit) == (if |data| > r.limit then data[1..] else data)
            && Last(h + [s], r.limit) == (if |data| > r.limit then window[1..] else window)
  {
    assert Values(r, h + [s]) == Values(r, h) + [WindowValue(r, s)];
    hide Values, WindowValue;
    LastPushed(Values(r, h), WindowValue(r, s), r.limit);
    LastPushed(h, s, r.limit);
  }

  /** The result of a window, from its two deques. */
  lemma WindowDecides(r: Rule, h: seq<Second>)
    requires r.WindowRule? && h != []
    ensures var data, window := Last(Values(r, h), r.limit), Last(h, r.limit);
            WindowResult(r, h) ==
              if r.relative && data == [] then Raises
              else if Sum(data) / (if r.relative then |data| else 1) as real >= r.level && |data| >= r.limit then
                if window == [] then Raises else Fires(window[0])
              else Quiet
  {
    hide Values;
    var sum := Sum(Last(Values(r, h), r.limit));
    assert sum / 1 as real == sum;
    assert r.limit == 0 ==> Last(Values(r, h), r.limit) == [] && Last(h, r.limit) == [];
  }

  lemma TrendDecides(r: Rule, h: seq<Second>)
    requires r.TrendRule? && h != []
    ensures var ts, window := Last(Tangents(r, h), Kept(r.limit, |h|)), Last(h, Kept(r.limit, |h|) - 1);
            |ts| > 0 && |ts| == Kept(r.limit, |h|) &&
            TrendResult(r, h) ==
              if Mean(ts) + MeasurementError(ts, r.sqrt) < 0.0 then
                if window == [] then Raises else Fires(window[0])
              else Quiet
  {
    hide Tangents, Mean, MeasurementError;
  }

  lemma LastShifted<T>(h: seq<T>, s: T, n: nat)
    requires n <= |h|
    ensures Last(h, n) + [s] == Last(h + [s], n + 1) && (Last(h, n) + [s])[1..] == Last(h + [s], n)
  {
  }

  lemma TangentsGrow(r: Rule, h: seq<Second>, s: Second)
    requires r.TrendRule?
    ensures Tangents(r, h + [s]) == Tangents(r, h) + [r.matched(s) as real - Count(r, h, |h|)]
  {
    var g := h + [s];
    forall k | -1 <= k <= |h| ensures Count(r, g, k) == Count(r, h, k) {
    }
    assert Count(r, g, |g|) == r.matched(s) as real;
    hide Count;
    assert |Tangents(r, g)| == |Tangents(r, h)| + 1;
  }

  /** Both deques of the trend after one more second. */
  lemma TangentPushed(r: Rule, h: seq<Second>, s: Second, tangents: seq<real>, window: seq<Second>, last: real)
    requires TrendKept(r, h, tangents, window, last)
    ensures var matched := r.matched(s) as real;
            var ts, w := tangents + [matched - last], window + [s];
            |w| > 0 && if |ts| > r.limit then TrendKept(r, h + [s], ts[1..], w[1..], matched)
                       else TrendKept(r, h + [s], ts, w, matched)
  {
    hide Tangents, Count, Last;
    TangentsGrow(r, h, s);
    var m := Kept(r.limit, |h|);
    LastCount(r, h, s);
    LastShifted(Tangents(r, h), r.matched(s) as real - last, m);
    LastShifted(h, s, m - 1);
    LastLength(Tangents(r, h), m);
  }

  lemma LastCount(r: Rule, h: seq<Second>, s: Second)
    requires r.TrendRule?
    ensures Count(r, h + [s], |h| + 1) == r.matched(s) as real
  {
  }

  lemma LastLength<T>(s: seq<T>, n: nat)
    requires n <= |s|
    ensures |Last(s, n)| == n
  {
  }

  // ----- the plugin

  /** Nothing to stop for at the last second of a history. */
  ghost predicate AllQuiet(rules: seq<Rule>, h: seq<Second>)
    requires h != []
  {
    forall i | 0 <= i < |rules| :: ResultOf(rules[i], h) == Quiet
  }

  /** Nothing to stop for at any second so far. */
  ghost predicate NeverFired(rules: seq<Rule>, h: seq<Second>) {
    forall k | 0 < k <= |h| :: AllQuiet(rules, h[..k])
  }

  /** Of the first n criteria, the last one that fires: a later one takes the blame from an earlier one. */
  ghost function LastFiring(rules: seq<Rule>, h: seq<Second>, n: nat): (i: Option<nat>)
    requires h != [] && n <= |rules|
  {
    if n == 0 then None
    else if ResultOf(rules[n - 1], h).Fires? then Some(n - 1)
    else LastFiring(rules, h, n - 1)
  }

  lemma {:induction false} LastFiringIsLast(rules: seq<Rule>, h: seq<Second>, n: nat)
    requires h != [] && n <= |rules|
    ensures match LastFiring(rules, h, n)
      case Some(i) => i < n && ResultOf(rules[i], h).Fires? && forall j | i < j < n :: !ResultOf(rules[j], h).Fires?
      case None => forall j | 0 <= j < n :: !ResultOf(rules[j], h).Fires?
  {
    hide ResultOf;
    if n > 0 {
      LastFiringIsLast(rules, h, n - 1);
    }
  }

  /** The criteria among the first n in the middle of a run of bad seconds. */
  ghost function Counting(rules: seq<Rule>, h: seq<Second>, n: nat): seq<nat>
    requires n <= |rules|
  {
    if n == 0 then []
    else if IsCounting(rules[n - 1], h) then Counting(rules, h, n - 1) + [n - 1]
    else Counting(rules, h, n - 1)
  }

  ghost predicate IsCounting(r: Rule, h: seq<Second>) {
    r.RunRule? && RunLength(r.condition, h) > 0
  }

  /** They are counted in their order, and no others. */
  lemma {:induction false} CountingIs(rules: seq<Rule>, h: seq<Second>, n: nat)
    requires n <= |rules|
    ensures forall k :: k in Counting(rules, h, n) <==> 0 <= k < n && IsCounting(rules[k], h)
    ensures forall i, j | 0 <= i < j < |Counting(rules, h, n)| ::
              Counting(rules, h, n)[i] < Counting(rules, h, n)[j]
  {
    hide IsCounting;
    if n > 0 {
      CountingIs(rules, h, n - 1);
      var before := Counting(rules, h, n - 1);
      assert forall i | 0 <= i < |before| :: before[i] in before;
    }
  }

  /** In the middle of a run of bad seconds: the last one was bad. */
  lemma CountingMeans(r: Rule, h: seq<Second>)
    ensures IsCounting(r, h) <==> r.RunRule? && h != [] && Violates(r.condition, h[|h| - 1]) == Some(true)
  {
  }

  lemma StartOfRound(rules: seq<Rule>, h: seq<Second>)
    requires h != []
    ensures LastFiring(rules, h, 0) == None && Counting(rules, h, 0) == []
  {
  }

  lemma NextOfRound(rules: seq<Rule>, h: seq<Second>, i: nat)
    requires h != [] && i < |rules|
    ensures LastFiring(rules, h, i + 1) == if ResultOf(rules[i], h).Fires? then Some(i) else LastFiring(rules, h, i)
    ensures Counting(rules, h, i + 1) ==
            if IsCounting(rules[i], h) then Counting(rules, h, i) + [i] else Counting(rules, h, i)
  {
  }

  /** The published imbalance is that of the second a criterion named: its planned rate, or its responses if there is
      none. */
  ghost predicate Blamed(result: Result, rps: int, ts: int) {
    result.Fires? && ts == result.cause.ts
    && rps == if result.cause.reqps != 0 then result.cause.reqps else result.cause.responses
  }

  lemma BlameOf(cause: Second, rps: int, ts: int)
    requires Blamed(Fires(cause), rps, ts)
    ensures ts == cause.ts && (cause.reqps != 0 ==> rps == cause.reqps) && (cause.reqps == 0 ==> rps == cause.responses)
  {
  }

  /** Some criterion fired at some second. */
  ghost predicate HasFired(rules: seq<Rule>, seen: seq<Second>) {
    exists k, i :: 0 < k <= |seen| && 0 <= i < |rules| && ResultOf(rules[i], seen[..k]).Fires?
  }

  /** The state of the latch: as long as nothing fired every second was watched; once something did, the watched
      seconds end with the first at which anything fired, and the cause is the last criterion to fire there. */
  ghost predicate Latched(rules: seq<Rule>, seen: seq<Second>, watched: seq<Second>, cause: Option<nat>) {
    && watched <= seen
    && (cause.None? ==> watched == seen && NeverFired(rules, watched))
    && (cause.Some? ==> watched != [] && cause.value < |rules| && NeverFired(rules, watched[..|watched| - 1])
                        && LastFiring(rules, watched, |rules|) == cause)
  }

  lemma LatchNext(rules: seq<Rule>, seen: seq<Second>, s: Second)
    requires Latched(rules, seen, seen, None)
    requires forall i | 0 <= i < |rules| :: !ResultOf(rules[i], seen + [s]).Raises?
    ensures Latched(rules, seen + [s], seen + [s], LastFiring(rules, seen + [s], |rules|))
  {
    var h := seen + [s];
    assert h[..|h| - 1] == seen;
    hide ResultOf;
    LastFiringIsLast(rules, h, |rules|);
    if LastFiring(rules, h, |rules|).None? {
      forall k | 0 < k <= |h| ensures AllQuiet(rules, h[..k]) {
        assert k <= |seen| ==> h[..k] == seen[..k];
        assert k == |h| ==> h[..k] == h;
      }
    }
  }

  /** A latched plugin has seen a second at which some criterion fired, and none before it; one that has not latched
      has seen none. */
  lemma LatchedIffFired(rules: seq<Rule>, seen: seq<Second>, watched: seq<Second>, cause: Option<nat>)
    requires Latched(rules, seen, watched, cause)
    ensures cause.Some? <==> HasFired(rules, seen)
  {
    hide ResultOf;
    if cause.Some? {
      LastFiringIsLast(rules, watched, |rules|);
      assert seen[..|watched|] == watched;
      assert ResultOf(rules[cause.value], seen[..|watched|]).Fires?;
    } else {
      forall k, i | 0 < k <= |seen| && 0 <= i < |rules| ensures ResultOf(rules[i], seen[..k]) == Quiet {
        assert AllQuiet(rules, watched[..k]);
      }
    }
  }

  class Plugin {
    const criteria: seq<Criterion>
    var causeCriterion: Option<nat>
    var imbalanceRps: int
    var imbalanceTimestamp: int
    var counting: seq<nat>
    ghost var seen: seq<Second>
    ghost var watched: seq<Second>

    ghost function Rules(): (rules: seq<Rule>)
      ensures |rules| == |criteria|
      ensures forall i | 0 <= i < |criteria| :: rules[i] == criteria[i].rule
    {
      seq(|criteria|, i requires 0 <= i < |criteria| => criteria[i].rule)
    }

    ghost predicate Distinct() {
      forall i, j | 0 <= i < j < |criteria| :: criteria[i] != criteria[j]
    }

    /** The criteria from i on have watched h. */
    ghost predicate Watching(from: nat, to: nat, h: seq<Second>)
      requires from <= to <= |criteria|
      reads criteria
    {
      forall i | from <= i < to :: criteria[i].Valid() && criteria[i].history == h
    }

    ghost predicate Valid()
      reads this, criteria
    {
      Distinct() && Watching(0, |criteria|, watched) && Latched(Rules(), seen, watched, causeCriterion)
    }

    constructor (criteria: seq<Criterion>)
      requires forall i, j | 0 <= i < j < |criteria| :: criteria[i] != criteria[j]
      requires forall c | c in criteria :: c.Valid() && c.history == []
      ensures Valid() && seen == [] && this.criteria == criteria && causeCriterion == None
    {
      this.criteria := criteria;
      causeCriterion, imbalanceRps, imbalanceTimestamp, counting := None, 0, 0, [];
      seen, watched := [], [];
    }

    /** The return code of the cause; -1 lets the test go on. */
    method IsTestFinished(codes: Rule -> nat) returns (rc: int)
      requires Valid()
      ensures causeCriterion.Some? ==> causeCriterion.value < |criteria|
      ensures rc == if causeCriterion.Some? then codes(criteria[causeCriterion.value].rule) else -1
      ensures rc == -1 <==> !HasFired(Rules(), seen)
    {
      LatchedIffFired(Rules(), seen, watched, causeCriterion);
      hide HasFired, ResultOf, LastFiring, NeverFired;
      if causeCriterion.Some? {
        rc := codes(criteria[causeCriterion.value].rule);
      } else {
        rc := -1;
      }
    }

    method Blame(i: nat, cause: Second)
      modifies `causeCriterion, `imbalanceRps, `imbalanceTimestamp
      ensures causeCriterion == Some(i) && Blamed(Fires(cause), imbalanceRps, imbalanceTimestamp)
    {
      causeCriterion := Some(i);
      imbalanceRps := cause.reqps;
      if imbalanceRps == 0 {
        imbalanceRps := cause.responses;
      }
      imbalanceTimestamp := cause.ts;
    }

    /** The round so far: the last criterion to fire is blamed, and those in a run of bad seconds are counted. */
    ghost predicate RoundTo(i: nat)
      requires i <= |criteria| && watched != []
      reads this
    {
      && causeCriterion == LastFiring(Rules(), watched, i) && counting == Counting(Rules(), watched, i)
      && (causeCriterion.Some? ==>
            causeCriterion.value < i
            && Blamed(ResultOf(Rules()[causeCriterion.value], watched), imbalanceRps, imbalanceTimestamp))
    }

    method NotifyOne(i: nat, s: Second, ghost before: seq<Second>) returns (raised: bool)
      requires i < |criteria| && Distinct() && watched == before + [s]
      requires Watching(0, i, watched) && Watching(i, |criteria|, before) && RoundTo(i)
      modifies this, criteria
      ensures seen == old(seen) && watched == old(watched)
      ensures raised <==> ResultOf(Rules()[i], watched).Raises?
      ensures !raised ==> Watching(0, i + 1, watched) && Watching(i + 1, |criteria|, before) && RoundTo(i + 1)
    {
      hide ResultOf, RunLength, LastFiring, Criterion.Valid, Rules, Blamed, Counting, IsCounting;
      NextOfRound(Rules(), watched, i);
      assert criteria[i].Valid() && criteria[i].history == before;
      var result := criteria[i].Notify(s);
      if result.Raises? {
        return true;
      }
      if criteria[i].rule.RunRule? && criteria[i].secondsCount > 0 {
        counting := counting + [i];
      }
      if result.Fires? {
        Blame(i, result.cause);
      }
      raised := false;
    }

    /** Every criterion in turn; one that raises ends the round. */
    method NotifyAll(s: Second) returns (failed: bool)
      requires Distinct() && Watching(0, |criteria|, watched) && causeCriterion.None? && counting == []
      modifies this, criteria
      ensures seen == old(seen) && watched == old(watched) + [s]
      ensures failed <==> exists i :: 0 <= i < |criteria| && ResultOf(Rules()[i], watched).Raises?
      ensures !failed ==> Watching(0, |criteria|, watched) && causeCriterion == LastFiring(Rules(), watched, |criteria|)
      ensures !failed ==> counting == Counting(Rules(), watched, |criteria|)
      ensures !failed && causeCriterion.Some? ==>
        causeCriterion.value < |criteria|
        && Blamed(ResultOf(Rules()[causeCriterion.value], watched), imbalanceRps, imbalanceTimestamp)
    {
      hide ResultOf, LastFiring, Criterion.Valid, Rules, Blamed, Counting, Watching;
      StartOfRound(Rules(), watched + [s]);
      ghost var before := watched;
      watched := watched + [s];
      NobodyNotified();
      for i := 0 to |criteria|
        invariant seen == old(seen) && watched == before + [s]
        invariant Watching(0, i, watched) && Watching(i, |criteria|, before) && RoundTo(i)
        invariant forall j | 0 <= j < i :: !ResultOf(Rules()[j], watched).Raises?
      {
        failed := NotifyOne(i, s, before);
        if failed {
          return true;
        }
      }
      failed := false;
    }

    lemma NobodyNotified()
      ensures Watching(0, 0, watched)
    {
    }

    /** One aggregated second; true if a criterion raised. After the first firing second nothing changes any more. */
    method OnAggregatedData(s: Second) returns (failed: bool)
      requires Valid()
      modifies this, criteria
      ensures seen == old(seen) + [s]
      ensures failed <==>
        old(causeCriterion).None? && exists i :: 0 <= i < |criteria| && ResultOf(Rules()[i], seen).Raises?
      ensures !failed ==> Valid()
      ensures old(causeCriterion).Some? ==> unchanged(`causeCriterion, `imbalanceRps, `imbalanceTimestamp)
      ensures !failed ==> counting == if old(causeCriterion).Some? then [] else Counting(Rules(), seen, |criteria|)
      ensures !failed && old(causeCriterion).None? && causeCriterion.Some? ==>
        causeCriterion.value < |criteria|
        && Blamed(ResultOf(Rules()[causeCriterion.value], seen), imbalanceRps, imbalanceTimestamp)
    {
      hide ResultOf, LastFiring, NeverFired, Blamed;
      counting := [];
      seen := seen + [s];
      if causeCriterion.Some? {
        return false;
      }
      failed := NotifyAll(s);
      if !failed {
        LatchNext(Rules(), old(seen), s);
      }
    }
  }
}
