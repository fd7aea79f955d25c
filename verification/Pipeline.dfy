/** The result pipeline as `TankAggregator.start_test` composes it: sources, chopper, one aggregated item
    per frame, the join with the statistics, the listeners. */
module Pipeline {
  import opened Common
  import opened Chopper
  import opened TankAggregator

  /** One aggregated item per frame, under the frame's second. */
  ghost function Items<T>(frames: seq<Frame<T>>): seq<Data<Frame<T>>> {
    seq(|frames|, i requires 0 <= i < |frames| => Data(frames[i].ts, frames[i]))
  }

  /** All samples inside the given items. */
  ghost function RowsIn<T>(items: seq<Data<Frame<T>>>): multiset<Row<T>> {
    if items == [] then multiset{} else multiset(items[0].body.rows) + RowsIn(items[1..])
  }

  lemma {:induction false} RowsInConcat<T>(a: seq<Data<Frame<T>>>, b: seq<Data<Frame<T>>>)
    ensures RowsIn(a + b) == RowsIn(a) + RowsIn(b)
  {
    if a == [] {
      assert a + b == b;
    } else {
      assert (a + b)[1..] == a[1..] + b;
      RowsInConcat(a[1..], b);
    }
  }

  lemma {:induction false} RowsInPermutation<T>(a: seq<Data<Frame<T>>>, b: seq<Data<Frame<T>>>)
    requires multiset(a) == multiset(b)
    ensures RowsIn(a) == RowsIn(b)
  {
    if a == [] {
      assert |multiset(b)| == |b|;
    } else {
      var i := TakeOut(a, b);
      RowsInPermutation(a[1..], b[..i] + b[i + 1..]);
      RowsInConcat(b[..i], b[i + 1..]);
      RowsInConcat(b[..i] + [a[0]], b[i + 1..]);
      RowsInConcat(b[..i], [a[0]]);
      assert RowsIn([a[0]]) == multiset(a[0].body.rows);
    }
  }

  /** The frames hold what was received, second by second in order, however many frames a second has; none is
      empty. */
  ghost predicate Hold<T>(frames: seq<Frame<T>>, received: seq<Row<T>>) {
    WellFormed(frames) && forall ts :: EmittedAt(frames, ts) == RowsAt(received, ts)
  }

  lemma {:induction false} RowsEmitted<T>(frames: seq<Frame<T>>, i: nat, row: Row<T>)
    requires i < |frames| && row in frames[i].rows
    ensures row in EmittedAt(frames, frames[i].ts)
  {
    if i < |frames| - 1 {
      RowsEmitted(frames[..|frames| - 1], i, row);
    }
  }

  lemma FramesOfOwnSecond<T>(frames: seq<Frame<T>>, received: seq<Row<T>>)
    requires Hold(frames, received)
    ensures forall f, row | f in frames && row in f.rows :: row.ts == f.ts
  {
    forall f, row | f in frames && row in f.rows ensures row.ts == f.ts {
      var i :| 0 <= i < |frames| && frames[i] == f;
      RowsEmitted(frames, i, row);
      RowsAtEmptyIff(received, f.ts);
    }
  }

  /** How often a row occurs in frames that each hold rows of their own second. */
  lemma {:induction false} RowsInFrames<T>(frames: seq<Frame<T>>, r: Row<T>)
    requires forall f, row | f in frames && row in f.rows :: row.ts == f.ts
    ensures RowsIn(Items(frames))[r] == multiset(EmittedAt(frames, r.ts))[r]
  {
    hide RowsIn, Items;
    NoRowsOfNone<T>();
    if frames != [] {
      var n := |frames| - 1;
      var front, last := frames[..n], frames[n];
      RowsInFrames(front, r);
      ItemsOfLast(frames);
      RowsInConcat(Items(front), [Data(last.ts, last)]);
      RowsOfOne(Data(last.ts, last));
      assert last in frames && (r in last.rows ==> r.ts == last.ts);
      assert r.ts != last.ts ==> EmittedAt(front, r.ts) + [] == EmittedAt(front, r.ts);
    }
  }

  lemma NoRowsOfNone<T>()
    ensures RowsIn<T>(Items([])) == multiset{}
  {
  }

  lemma ItemsOfLast<T>(frames: seq<Frame<T>>)
    requires frames != []
    ensures var n := |frames| - 1; Items(frames) == Items(frames[..n]) + [Data(frames[n].ts, frames[n])]
  {
  }

  lemma RowsOfOne<T>(item: Data<Frame<T>>)
    ensures RowsIn([item]) == multiset(item.body.rows)
  {
  }

  lemma FramesKeepEveryRow<T>(frames: seq<Frame<T>>, received: seq<Row<T>>)
    requires Hold(frames, received)
    ensures RowsIn(Items(frames)) == multiset(received)
    ensures UniqueData(Items(frames)) <==> PairwiseApart(frames, false)
  {
    FramesOfOwnSecond(frames, received);
    forall r: Row<T> ensures RowsIn(Items(frames))[r] == multiset(received)[r] {
      RowsInFrames(frames, r);
      RowsAtMultiplicity(received, r.ts, r);
    }
    SameCounts(RowsIn(Items(frames)), multiset(received));
    assert forall i | 0 <= i < |frames| :: Items(frames)[i].ts == frames[i].ts;
  }

  /** The reports hold the rows, once, each next to the statistics of its own second, and there is no report without
      rows. */
  ghost predicate ReportsOf<T>(reports: seq<Report<Frame<T>>>, rows: multiset<Row<T>>, stats: seq<Stat>) {
    && RowsIn(Reported(reports)) == rows
    && (forall r | r in reports :: r.data.body.rows != [])
    && forall r, row | r in reports && row in r.data.body.rows :: r.stat.ts == row.ts && Matches(r, stats)
  }

  lemma FrameOfItem<T>(frames: seq<Frame<T>>, received: seq<Row<T>>, item: Data<Frame<T>>)
    requires Hold(frames, received) && item in Items(frames)
    ensures item.body.rows != [] && forall row | row in item.body.rows :: row.ts == item.ts
  {
    var i :| 0 <= i < |frames| && Items(frames)[i] == item;
    assert frames[i] in frames;
    FramesOfOwnSecond(frames, received);
  }

  /** However the frames and the statistics meet, if no second has two frames the reports of a finished run hold every
      received sample exactly once, next to the statistics of the second in which the sample was received. */
  lemma EverySampleReportedOnce<T>(frames: seq<Frame<T>>, received: seq<Row<T>>, arrivals: seq<Arrival<Frame<T>>>)
    requires Hold(frames, received) && PairwiseApart(frames, false) && DataOf(arrivals) == Items(frames)
    ensures ReportsOf(FinalReports(arrivals), multiset(received), StatsOf(arrivals))
  {
    hide Hold, PairwiseApart, Items;
    var reports := FinalReports(arrivals);
    FramesKeepEveryRow(frames, received);
    ReportsAreTheLeftOuterJoin(arrivals);
    RowsInPermutation(Reported(reports), DataOf(arrivals));
    forall r | r in reports
      ensures r.data in Items(frames)
    {
      var i :| 0 <= i < |reports| && reports[i] == r;
      assert Reported(reports)[i] == r.data && r.data in multiset(Reported(reports));
      assert r.data in DataOf(arrivals);
    }
    forall r | r in reports
      ensures r.data.body.rows != []
      ensures forall row | row in r.data.body.rows :: row.ts == r.data.ts
    {
      FrameOfItem(frames, received, r.data);
    }
  }

  lemma TakeOne<T>(a: seq<T>, b: seq<T>) returns (i: nat)
    requires multiset(a) <= multiset(b) && a != []
    ensures i < |b| && b[i] == a[0] && multiset(a[1..]) <= multiset(b[..i] + b[i + 1..])
    ensures b == b[..i] + [b[i]] + b[i + 1..]
  {
    Without(a, 0);
    assert a[..0] + a[1..] == a[1..] && a[0] in multiset(b);
    i :| 0 <= i < |b| && b[i] == a[0];
    Without(b, i);
    CancelOne(multiset(a[1..]), multiset(b[..i] + b[i + 1..]), a[0]);
  }

  /** Fewer items hold fewer rows. */
  lemma {:induction false} FewerRows<T>(a: seq<Data<Frame<T>>>, b: seq<Data<Frame<T>>>)
    requires multiset(a) <= multiset(b) && |a| < |b| && forall d | d in b :: d.body.rows != []
    ensures |RowsIn(a)| < |RowsIn(b)|
  {
    if a == [] {
      assert b[0] in b && |multiset(b[0].body.rows)| > 0;
    } else {
      var i := TakeOne(a, b);
      var rest := b[..i] + b[i + 1..];
      assert forall d | d in rest :: d in b;
      FewerRows(a[1..], rest);
      RowsInConcat(b[..i], b[i + 1..]);
      RowsInConcat(b[..i] + [b[i]], b[i + 1..]);
      RowsInConcat(b[..i], [b[i]]);
      RowsOfOne(b[i]);
      var own := multiset(b[i].body.rows);
      assert RowsIn(b) == RowsIn(rest) + own && RowsIn(a) == own + RowsIn(a[1..]);
    }
  }

  /** If some second has two frames and no statistics come, samples are lost. */
  lemma SplitSecondLosesSamples<T>(frames: seq<Frame<T>>, received: seq<Row<T>>, arrivals: seq<Arrival<Frame<T>>>)
    requires Hold(frames, received) && !PairwiseApart(frames, false)
    requires DataOf(arrivals) == Items(frames) && StatsOf(arrivals) == []
    ensures |RowsIn(Reported(FinalReports(arrivals)))| < |received|
  {
    hide Hold, PairwiseApart, FinalReports, Items;
    FramesKeepEveryRow(frames, received);
    WithoutStats(arrivals);
    forall d | d in Items(frames) ensures d.body.rows != [] {
      FrameOfItem(frames, received, d);
    }
    FewerRows(Reported(FinalReports(arrivals)), Items(frames));
  }

  /** The reports are right for every way in which frames and statistics can meet exactly when no second has two
      frames. */
  lemma ReportsRightIff<T>(frames: seq<Frame<T>>, received: seq<Row<T>>)
    requires Hold(frames, received)
    ensures (forall arrivals: seq<Arrival<Frame<T>>> | DataOf(arrivals) == Items(frames) ::
               ReportsOf(FinalReports(arrivals), multiset(received), StatsOf(arrivals)))
            <==> PairwiseApart(frames, false)
  {
    hide Hold, PairwiseApart, FinalReports, Items, DataOf, StatsOf, ReportsOf;
    if PairwiseApart(frames, false) {
      forall arrivals: seq<Arrival<Frame<T>>> | DataOf(arrivals) == Items(frames)
        ensures ReportsOf(FinalReports(arrivals), multiset(received), StatsOf(arrivals))
      {
        EverySampleReportedOnce(frames, received, arrivals);
      }
    } else {
      var arrivals := OnlyData(Items(frames));
      OnlyDataRun(Items(frames));
      SplitSecondLosesSamples(frames, received, arrivals);
      WrongIfFewer(FinalReports(arrivals), received, StatsOf(arrivals));
    }
  }

  lemma WrongIfFewer<T>(reports: seq<Report<Frame<T>>>, received: seq<Row<T>>, stats: seq<Stat>)
    requires |RowsIn(Reported(reports))| < |received|
    ensures !ReportsOf(reports, multiset(received), stats)
  {
  }

  // ----- all of it, as it runs

  /** One turn of the test: some aggregated seconds and statistics come in, and `_collect_data` takes as many as the two
      queues say they hold at that moment. */
  datatype Turn = Turn(items: nat, stats: seq<Stat>, dataReady: nat, statsReady: nat)

  ghost function StatsOfTurns(turns: seq<Turn>): seq<Stat> {
    if turns == [] then [] else StatsOfTurns(turns[..|turns| - 1]) + turns[|turns| - 1].stats
  }

  method Deliver<T>(tank: TankAggregator<Frame<T>>, items: seq<Data<Frame<T>>>, stats: seq<Stat>)
    requires tank.Valid()
    modifies tank
    ensures tank.Valid() && |tank.listeners| == |old(tank.listeners)|
    ensures tank.dataPut == old(tank.dataPut) + items && tank.statsPut == old(tank.statsPut) + stats
  {
    hide *;
    for i := 0 to |items|
      invariant tank.Valid() && |tank.listeners| == |old(tank.listeners)|
      invariant tank.dataPut == old(tank.dataPut) + items[..i] && tank.statsPut == old(tank.statsPut)
    {
      tank.PutData(items[i]);
    }
    for i := 0 to |stats|
      invariant tank.Valid() && |tank.listeners| == |old(tank.listeners)|
      invariant tank.dataPut == old(tank.dataPut) + items && tank.statsPut == old(tank.statsPut) + stats[..i]
    {
      tank.PutStat(stats[i]);
    }
  }

  method Collect<T>(tank: TankAggregator<Frame<T>>, dataReady: nat, statsReady: nat)
    requires tank.Valid()
    modifies tank
    ensures tank.Valid() && |tank.listeners| == |old(tank.listeners)|
    ensures tank.dataPut == old(tank.dataPut) && tank.statsPut == old(tank.statsPut)
  {
    hide *;
    MinOf(dataReady, |tank.results|);
    MinOf(statsReady, |tank.statsResults|);
    tank.CollectData(false, Min(dataReady, |tank.results|), Min(statsReady, |tank.statsResults|));
  }

  /** `_collect_data(end=True)` with both queues complete. */
  method CollectTheRest<T>(tank: TankAggregator<Frame<T>>)
    requires tank.Valid()
    modifies tank
    ensures |tank.listeners| == |old(tank.listeners)|
    ensures DataOf(tank.arrivals) == old(tank.dataPut) && StatsOf(tank.arrivals) == old(tank.statsPut)
    ensures forall k | 0 <= k < |tank.listeners| :: tank.listeners[k] == FinalReports(tank.arrivals)
  {
    hide AcceptAll, DataOf, StatsOf, FinalReports;
    assert tank.results[..|tank.results|] == tank.results;
    assert tank.statsResults[..|tank.statsResults|] == tank.statsResults;
    tank.CollectData(true, |tank.results|, |tank.statsResults|);
  }

  ghost predicate AllChunked<T>(feeds: seq<Feed<T>>) {
    forall feed | feed in feeds :: NoEmptyChunk(feed)
  }

  /** No source brings a row for a second that is gone. */
  ghost predicate InTime<T>(feeds: seq<Feed<T>>)
    requires AllChunked(feeds)
  {
    OnTime(Events(feeds), false)
  }

  method Chop<T>(feeds: seq<Feed<T>>) returns (frames: seq<Frame<T>>, ghost received: seq<Row<T>>)
    requires AllChunked(feeds)
    ensures Hold(frames, received) && multiset(received) == AllRows(feeds)
    ensures PairwiseApart(frames, false) <==> InTime(feeds)
  {
    hide EmittedAt, RowsAt, WellFormed, PairwiseApart, OnTime, Events;
    var chopper := new TimeChopper(feeds);
    chopper.Iterate();
    frames, received := chopper.yielded, chopper.received;
  }

  method Join<T>(items: seq<Data<Frame<T>>>, listenerCount: nat, turns: seq<Turn>, lateStats: seq<Stat>)
    returns (listeners: seq<seq<Report<Frame<T>>>>, ghost arrivals: seq<Arrival<Frame<T>>>)
    ensures DataOf(arrivals) == items && StatsOf(arrivals) == StatsOfTurns(turns) + lateStats
    ensures |listeners| == listenerCount && forall k | 0 <= k < listenerCount :: listeners[k] == FinalReports(arrivals)
  {
    hide *;
    NoStats();
    var tank := new TankAggregator<Frame<T>>(listenerCount);
    var next := 0;
    for t := 0 to |turns|
      invariant tank.Valid() && |tank.listeners| == listenerCount
      invariant next <= |items| && tank.dataPut == items[..next] && tank.statsPut == StatsOfTurns(turns[..t])
    {
      MinOf(next + turns[t].items, |items|);
      var end := Min(next + turns[t].items, |items|);
      Deliver(tank, items[next..end], turns[t].stats);
      assert items[..end] == items[..next] + items[next..end];
      next := end;
      MoreStats(turns, t);
      Collect(tank, turns[t].dataReady, turns[t].statsReady);
    }
    assert turns[..|turns|] == turns && items == items[..next] + items[next..];
    Deliver(tank, items[next..], lateStats);
    CollectTheRest(tank);
    listeners, arrivals := tank.listeners, tank.arrivals;
  }

  /** Sources, chopper, queues, join, listeners: if no row comes for a second that is gone, in the end every listener
      has every row that any source delivered, once, each next to the statistics of its own second, whatever the
      interleaving. Otherwise, without statistics, no listener has them all. */
  method ReportEverySample<T>(feeds: seq<Feed<T>>, listenerCount: nat, turns: seq<Turn>, lateStats: seq<Stat>)
    returns (listeners: seq<seq<Report<Frame<T>>>>)
    requires AllChunked(feeds)
    ensures |listeners| == listenerCount
    ensures InTime(feeds) ==> forall k | 0 <= k < listenerCount ::
      ReportsOf(listeners[k], AllRows(feeds), StatsOfTurns(turns) + lateStats)
    ensures !InTime(feeds) && StatsOfTurns(turns) + lateStats == [] ==> forall k | 0 <= k < listenerCount ::
      |RowsIn(Reported(listeners[k]))| < |AllRows(feeds)|
  {
    hide *;
    var frames, received := Chop(feeds);
    var items := Aggregated(frames);
    ghost var arrivals;
    listeners, arrivals := Join(items, listenerCount, turns, lateStats);
    if InTime(feeds) {
      EverySampleReportedOnce(frames, received, arrivals);
    } else if StatsOf(arrivals) == [] {
      SplitSecondLosesSamples(frames, received, arrivals);
      assert |multiset(received)| == |received|;
    }
  }

  method Aggregated<T>(frames: seq<Frame<T>>) returns (items: seq<Data<Frame<T>>>)
    ensures items == Items(frames)
  {
    items := seq(|frames|, i requires 0 <= i < |frames| => Data(frames[i].ts, frames[i]));
  }

  lemma NoStats()
    ensures StatsOfTurns([]) == []
  {
  }

  lemma MinOf(a: int, b: int)
    ensures Min(a, b) <= a && Min(a, b) <= b && (Min(a, b) == a || Min(a, b) == b)
  {
  }

  lemma MoreStats(turns: seq<Turn>, t: nat)
    requires t < |turns|
    ensures StatsOfTurns(turns[..t + 1]) == StatsOfTurns(turns[..t]) + turns[t].stats
  {
    assert turns[..t + 1][..t] == turns[..t];
  }
}
