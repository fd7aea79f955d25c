/** The per-second step lists: yandextank/stepper/load_plan.py builds them, yandextank/plugins/Bfg/reader.py expands
    and samples them, yandextank/plugins/Phantom/utils.py adds them up over several streams. */
module Steps {
  import opened Common
  import opened LoadPlan

  /** The same rate for some seconds. Fractions of a second are already dropped, as all users of the list do. */
  datatype Run = Run(rps: int, seconds: nat)

  // ----- rounding

  /** `int(x)` of a float: towards zero. */
  function Truncate(x: real): int {
    if x >= 0.0 then x.Floor else -((-x).Floor)
  }

  function Abs(x: real): real { if x < 0.0 then -x else x }

  /** `proper_round` */
  function ProperRound(x: real): int {
    if x == 0.0 then 0 else
      Truncate(x) + (if x > 0.0 then 1 else -1) * (if Abs(x - Truncate(x) as real) >= 0.5 then 1 else 0)
  }

  /** It is the closest integer, and of two equally close ones the one further from zero. */
  lemma RoundIsClosest(x: real)
    ensures var d := x - ProperRound(x) as real;
            -0.5 <= d <= 0.5 && (d == 0.5 ==> x < 0.0) && (d == -0.5 ==> x > 0.0)
  {
  }

  lemma RoundIsMonotone(x: real, y: real)
    requires x <= y
    ensures ProperRound(x) <= ProperRound(y)
  {
  }

  // ----- runs and their expansion

  /** `_expand_steps` */
  function Expand(runs: seq<Run>): seq<int> {
    if runs == [] then [] else
      var last := runs[|runs| - 1];
      Expand(runs[..|runs| - 1]) + Repeat(last.rps, last.seconds)
  }

  /** One more entry joins the last run or starts a new one. */
  function Join(before: seq<Run>, v: int): (runs: seq<Run>)
    ensures runs != []
  {
    var n := |before|;
    if n > 0 && before[n - 1].rps == v then before[..n - 1] + [Run(v, before[n - 1].seconds + 1)]
    else before + [Run(v, 1)]
  }

  /** `[(rps, len(list(group))) for rps, group in groupby(s)]` */
  function Runs(s: seq<int>): (runs: seq<Run>)
    ensures s == [] <==> runs == []
  {
    if s == [] then [] else Join(Runs(s[..|s| - 1]), s[|s| - 1])
  }

  /** No run is empty, and neighbours differ. */
  ghost predicate Maximal(runs: seq<Run>) {
    && (forall i | 0 <= i < |runs| :: runs[i].seconds >= 1)
    && (forall i | 0 < i < |runs| :: runs[i - 1].rps != runs[i].rps)
  }

  lemma ExpandExtended(before: seq<Run>, v: int, seconds: nat)
    ensures Expand(before + [Run(v, seconds + 1)]) == Expand(before + [Run(v, seconds)]) + [v]
    ensures Expand(before + [Run(v, 0)]) == Expand(before)
  {
    var a, b, empty := before + [Run(v, seconds + 1)], before + [Run(v, seconds)], before + [Run(v, 0)];
    assert a[..|before|] == before && b[..|before|] == before && empty[..|before|] == before;
    assert Repeat(v, seconds + 1) == Repeat(v, seconds) + [v];
  }

  lemma ExpandJoined(before: seq<Run>, v: int)
    ensures Expand(Join(before, v)) == Expand(before) + [v]
  {
    var n := |before|;
    if n > 0 && before[n - 1].rps == v {
      assert before == before[..n - 1] + [Run(v, before[n - 1].seconds)];
      ExpandExtended(before[..n - 1], v, before[n - 1].seconds);
    } else {
      ExpandExtended(before, v, 0);
    }
  }

  lemma JoinKeepsMaximal(before: seq<Run>, v: int)
    requires Maximal(before)
    ensures Maximal(Join(before, v))
  {
  }

  /** Grouping loses nothing: expanding the runs gives the list back, and the runs are maximal. */
  lemma {:induction false} ExpandRuns(s: seq<int>)
    ensures Expand(Runs(s)) == s && Maximal(Runs(s))
  {
    if s != [] {
      var before, v := s[..|s| - 1], s[|s| - 1];
      ExpandRuns(before);
      hide Expand, Join, Maximal;
      assert s == before + [v];
      ExpandJoined(Runs(before), v);
      JoinKeepsMaximal(Runs(before), v);
    }
  }

  /** And these are the only maximal runs that expand to the list. */
  lemma {:induction false} RunsAreUnique(runs: seq<Run>)
    requires Maximal(runs)
    ensures Runs(Expand(runs)) == runs
    decreases |runs|, if runs == [] then 0 else runs[|runs| - 1].seconds
  {
    hide Maximal, Expand, Join;
    if runs == [] {
      NothingExpands();
    } else {
      var n := |runs| - 1;
      var before, v, k := runs[..n], runs[n].rps, runs[n].seconds - 1;
      LastIsJoined(runs);
      var shorter := if k == 0 then before else before + [Run(v, k)];
      RunsAreUnique(shorter);
      ExpandJoined(shorter, v);
      var s := Expand(runs);
      assert s[..|s| - 1] == Expand(shorter);
    }
  }

  lemma NothingExpands()
    ensures Expand([]) == []
  {
  }

  /** Without its last second a list of maximal runs is one still, and that second joins it. */
  lemma LastIsJoined(runs: seq<Run>)
    requires Maximal(runs) && runs != []
    ensures runs[|runs| - 1].seconds > 0
    ensures var n := |runs| - 1;
            var v, k := runs[n].rps, runs[n].seconds - 1;
            var shorter := if k == 0 then runs[..n] else runs[..n] + [Run(v, k)];
            Maximal(shorter) && runs == Join(shorter, v)
  {
  }

  /** Strictly monotone in the given direction. */
  ghost predicate RunsGo(runs: seq<Run>, down: bool) {
    forall i, j | 0 <= i < j < |runs| :: if down then runs[i].rps > runs[j].rps else runs[i].rps < runs[j].rps
  }

  ghost predicate ListGoes(s: seq<int>, down: bool) {
    forall i, j | 0 <= i < j < |s| :: if down then s[i] >= s[j] else s[i] <= s[j]
  }

  lemma JoinKeepsDirection(before: seq<Run>, v: int, down: bool)
    requires RunsGo(before, down)
    requires before != [] ==> var last := before[|before| - 1].rps; if down then last >= v else last <= v
    ensures RunsGo(Join(before, v), down)
    ensures Join(before, v)[|Join(before, v)| - 1].rps == v
  {
  }

  /** In a monotone list no value comes back: each occurs in a single run. */
  lemma {:induction false} MonotoneRuns(s: seq<int>, down: bool)
    requires ListGoes(s, down)
    ensures RunsGo(Runs(s), down)
    ensures s != [] ==> Runs(s)[|Runs(s)| - 1].rps == s[|s| - 1]
  {
    if s != [] {
      MonotoneRuns(s[..|s| - 1], down);
      hide Join, RunsGo;
      JoinKeepsDirection(Runs(s[..|s| - 1]), s[|s| - 1], down);
    }
  }

  // ----- the step list of a line

  /** `rps_at` */
  function RpsAt(l: Plan, t: real): real
    requires l.Line? && l.duration > 0
  {
    if 0.0 <= t <= Seconds(l) then l.minrps + (l.maxrps - l.minrps) * t / Seconds(l) else 0.0
  }

  /** The rounded rate at each whole second; `range(0, int(duration) + 1)` includes the end. */
  function SecondRates(l: Plan): seq<int>
    requires l.Line? && l.duration > 0
  {
    seq(Seconds(l).Floor + 1, t requires t >= 0 => ProperRound(RpsAt(l, t as real)))
  }

  /** `get_rps_list` of a line */
  function RpsList(l: Plan): seq<Run>
    requires l.Line? && l.duration > 0
  {
    Runs(SecondRates(l))
  }

  /** Expanded, the step list of a line is its rounded rate at every whole second, one list entry per second; its
      values rise or fall strictly, so that each appears in only one run. */
  lemma LineSteps(l: Plan)
    requires IsLine(l)
    ensures |Expand(RpsList(l))| == l.duration / 1000 + 1
    ensures forall t | 0 <= t < |Expand(RpsList(l))| :: Expand(RpsList(l))[t] == ProperRound(RateAt(l, t as real))
    ensures Maximal(RpsList(l)) && RunsGo(RpsList(l), l.maxrps < l.minrps)
  {
    var s := SecondRates(l);
    hide Runs, Expand, SecondRates, RateAt, ProperRound, Maximal, RunsGo, ListGoes;
    ExpandRuns(s);
    SecondRatesAre(l);
    SecondRatesGo(l);
    MonotoneRuns(s, l.maxrps < l.minrps);
  }

  lemma SecondRatesAre(l: Plan)
    requires IsLine(l)
    ensures |SecondRates(l)| == l.duration / 1000 + 1
    ensures forall t | 0 <= t < |SecondRates(l)| :: SecondRates(l)[t] == ProperRound(RateAt(l, t as real))
  {
    var s := SecondRates(l);
    assert Seconds(l).Floor == l.duration / 1000;
    hide ProperRound, RateAt, RpsAt;
    forall t | 0 <= t < |s| ensures s[t] == ProperRound(RateAt(l, t as real)) {
      RateFraction(l, t as real);
    }
  }

  lemma RateFraction(l: Plan, t: real)
    requires IsLine(l)
    ensures RpsAt(l, t) == if 0.0 <= t <= Seconds(l) then RateAt(l, t) else 0.0
  {
  }

  lemma SecondRatesGo(l: Plan)
    requires IsLine(l)
    ensures ListGoes(SecondRates(l), l.maxrps < l.minrps)
  {
    var s, down := SecondRates(l), l.maxrps < l.minrps;
    SecondRatesAre(l);
    hide SecondRates, RateAt, ProperRound;
    forall i, j | 0 <= i < j < |s| ensures if down then s[i] >= s[j] else s[i] <= s[j] {
      RatesGo(l, i as real, j as real);
      if down {
        RoundIsMonotone(RateAt(l, j as real), RateAt(l, i as real));
      } else {
        RoundIsMonotone(RateAt(l, i as real), RateAt(l, j as real));
      }
    }
  }

  lemma RatesGo(l: Plan, t: real, u: real)
    requires IsLine(l) && t <= u
    ensures if l.maxrps < l.minrps then RateAt(l, t) >= RateAt(l, u) else RateAt(l, t) <= RateAt(l, u)
  {
    SlopeTimesSeconds(l);
    if l.maxrps < l.minrps {
      CancelOrder(Slope(l), 0.0, Seconds(l));
      MulMonotone(t, u, -Slope(l));
    } else {
      CancelOrder(0.0, Slope(l), Seconds(l));
      MulMonotone(t, u, Slope(l));
    }
  }

  // ----- several streams

  /** What `get_info` reads of a stream. */
  datatype Stream = Stream(steps: seq<Run>, ammoCount: nat)

  function At(s: seq<int>, second: nat): int {
    if second < |s| then s[second] else 0
  }

  /** The rate of all streams together in a second: one that has finished adds nothing. */
  function SumAt(streams: seq<Stream>, second: nat): int {
    if streams == [] then 0 else
      SumAt(streams[..|streams| - 1], second) + At(Expand(streams[|streams| - 1].steps), second)
  }

  function Longest(streams: seq<Stream>): nat {
    if streams == [] then 0 else
      Max(Longest(streams[..|streams| - 1]), |Expand(streams[|streams| - 1].steps)|)
  }

  function AmmoOf(streams: seq<Stream>): nat {
    if streams == [] then 0 else AmmoOf(streams[..|streams| - 1]) + streams[|streams| - 1].ammoCount
  }

  /** The longest plan is that of some stream, and no stream has a longer one. */
  lemma {:induction false} LongestIsMaximum(streams: seq<Stream>)
    ensures forall x | x in streams :: |Expand(x.steps)| <= Longest(streams)
    ensures streams != [] ==> exists x :: x in streams && |Expand(x.steps)| == Longest(streams)
  {
    if streams != [] {
      var before, last := streams[..|streams| - 1], streams[|streams| - 1];
      LongestIsMaximum(before);
      assert streams == before + [last];
      if |Expand(last.steps)| >= Longest(before) {
        assert last in streams;
      } else {
        var x :| x in before && |Expand(x.steps)| == Longest(before);
        assert x in streams;
      }
    }
  }

  /** The list so far with the first seconds of one more stream added in. */
  ghost predicate Added(steps: seq<Run>, base: seq<int>, own: seq<int>) {
    && |steps| == Max(|base|, |own|)
    && forall i | 0 <= i < |steps| :: steps[i] == Run(At(base, i) + At(own, i), 1)
  }

  /** The loops of `get_info` over the streams: one entry of one second each, as many as the longest plan has, holding
      the sum of all streams in that second; the whole raises if there is no ammo at all. */
  method MergeStreams(streams: seq<Stream>) returns (steps: seq<Run>, ammoCount: nat, failed: bool)
    ensures |steps| == Longest(streams)
    ensures forall i | 0 <= i < |steps| :: steps[i] == Run(SumAt(streams, i), 1)
    ensures ammoCount == AmmoOf(streams)
    ensures failed <==> forall x | x in streams :: x.ammoCount == 0
  {
    steps, ammoCount := [], 0;
    for n := 0 to |streams|
      invariant |steps| == Longest(streams[..n])
      invariant forall i | 0 <= i < |steps| :: steps[i] == Run(SumAt(streams[..n], i), 1)
      invariant ammoCount == AmmoOf(streams[..n])
      invariant ammoCount == 0 <==> forall k | 0 <= k < n :: streams[k].ammoCount == 0
    {
      assert streams[..n + 1][..n] == streams[..n];
      steps := AddStream(steps, streams[n].steps);
      ghost var own := Expand(streams[n].steps);
      forall i | 0 <= i < |steps| ensures steps[i] == Run(SumAt(streams[..n + 1], i), 1) {
        BeyondLongest(streams[..n], i);
      }
      ammoCount := ammoCount + streams[n].ammoCount;
    }
    assert streams[..|streams|] == streams;
    failed := ammoCount == 0;
  }

  lemma {:induction false} BeyondLongest(streams: seq<Stream>, i: nat)
    ensures i >= Longest(streams) ==> SumAt(streams, i) == 0
  {
    if streams != [] {
      BeyondLongest(streams[..|streams| - 1], i);
    }
  }

  method AddStream(merged: seq<Run>, items: seq<Run>) returns (steps: seq<Run>)
    requires forall i | 0 <= i < |merged| :: merged[i].seconds == 1
    ensures |steps| == Max(|merged|, |Expand(items)|)
    ensures forall i | 0 <= i < |steps| ::
      steps[i] == Run((if i < |merged| then merged[i].rps else 0) + At(Expand(items), i), 1)
  {
    steps := merged;
    ghost var base := seq(|merged|, i requires 0 <= i < |merged| => merged[i].rps);
    var secNo := 0;
    for k := 0 to |items|
      invariant secNo == |Expand(items[..k])|
      invariant Added(steps, base, Expand(items[..k]))
    {
      assert items[..k + 1][..k] == items[..k];
      ghost var before, rps := Expand(items[..k]), items[k].rps;
      for x := 0 to items[k].seconds
        invariant secNo == |before| + x
        invariant Added(steps, base, before + Repeat(rps, x))
      {
        if |steps| > secNo {
          steps := steps[secNo := Run(steps[secNo].rps + items[k].rps, steps[secNo].seconds)];
        } else {
          steps := steps + [Run(items[k].rps, 1)];
        }
        secNo := secNo + 1;
      }
    }
    assert items[..|items|] == items;
  }

  // ----- sampling while the test runs

  datatype Sample = Sample(ts: int, reqps: int)

  /** The largest reading so far; 0 before the first. */
  function Newest(clock: seq<int>): int {
    if clock == [] then 0 else Max(Newest(clock[..|clock| - 1]), clock[|clock| - 1])
  }

  /** What a reader yields at its i-th turn: a sample exactly when the clock shows a second later than any seen
      before, carrying the planned rate of that second. */
  function SampleAt(clock: seq<int>, expanded: seq<int>, start: int, i: nat): Option<Sample>
    requires i < |clock|
  {
    if clock[i] <= Newest(clock[..i]) then None
    else Some(Sample(clock[i], if clock[i] >= start then At(expanded, clock[i] - start) else 0))
  }

  /** `BfgStatsReader.__iter__`, one clock reading a turn. */
  method ReadStats(clock: seq<int>, steps: seq<Run>, start: int) returns (yielded: seq<Option<Sample>>)
    ensures |yielded| == |clock|
    ensures forall i | 0 <= i < |clock| :: yielded[i] == SampleAt(clock, Expand(steps), start, i)
  {
    yielded := [];
    var lastTs := 0;
    var expanded := Expand(steps);
    for i := 0 to |clock|
      invariant lastTs == Newest(clock[..i])
      invariant |yielded| == i
      invariant forall k | 0 <= k < i :: yielded[k] == SampleAt(clock, expanded, start, k)
    {
      assert clock[..i + 1][..i] == clock[..i];
      if clock[i] > lastTs {
        var offset, reqps := clock[i] - start, 0;
        if offset >= 0 && offset < |expanded| {
          reqps := expanded[offset];
        }
        yielded := yielded + [Some(Sample(clock[i], reqps))];
        lastTs := clock[i];
      } else {
        yielded := yielded + [None];
      }
    }
  }

  /** In so many words: turn i yields a sample if and only if the clock shows a second after 0 and after all that it has
      shown, and the sample has the planned rate of as many seconds after the start, or 0 outside of the plan. */
  lemma SampleMeans(clock: seq<int>, expanded: seq<int>, start: int, i: nat)
    requires i < |clock|
    ensures var sample, offset := SampleAt(clock, expanded, start, i), clock[i] - start;
            && (sample.Some? <==> clock[i] > 0 && forall k | 0 <= k < i :: clock[k] < clock[i])
            && (sample.Some? ==> sample.value.ts == clock[i])
            && (sample.Some? && 0 <= offset < |expanded| ==> sample.value.reqps == expanded[offset])
            && (sample.Some? && !(0 <= offset < |expanded|) ==> sample.value.reqps == 0)
  {
    NewestIs(clock[..i]);
    assert forall k | 0 <= k < i :: clock[..i][k] == clock[k];
  }

  lemma {:induction false} NewestIs(clock: seq<int>)
    ensures 0 <= Newest(clock) && forall k | 0 <= k < |clock| :: clock[k] <= Newest(clock)
    ensures Newest(clock) == 0 || Newest(clock) in clock
  {
    if clock != [] {
      NewestIs(clock[..|clock| - 1]);
    }
  }

  /** So the samples carry strictly increasing seconds, whatever the clock does. */
  lemma {:induction false} SamplesIncrease(clock: seq<int>, i: nat, j: nat)
    requires i < j < |clock| && clock[j] > Newest(clock[..j])
    ensures clock[i] < clock[j]
  {
    NewestCovers(clock[..j], i);
  }

  lemma {:induction false} NewestCovers(clock: seq<int>, i: nat)
    requires i < |clock|
    ensures clock[i] <= Newest(clock)
  {
    if i < |clock| - 1 {
      NewestCovers(clock[..|clock| - 1], i);
    }
  }
}
