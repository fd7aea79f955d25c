/** yandextank/aggregator/tank_aggregator.py: `_collect_data` joins the stream of aggregated seconds with the
    stream of generator statistics, through two caches, and reports each joined second to the listeners. */
module TankAggregator {
  import opened Common

  /** An aggregated second, and a statistics item. */
  datatype Data<D> = Data(ts: int, body: D)
  datatype Stat = Stat(ts: int, instances: int, reqps: int)
  datatype Report<D> = Report(data: Data<D>, stat: Stat)

  /** `StatsReader.stats_item(ts, 0, 0)` */
  function ZeroStat(ts: int): Stat { Stat(ts, 0, 0) }

  // ----- one item at a time

  /** The two caches and everything reported so far. */
  datatype Join<D> = Join(dataCache: map<int, Data<D>>, statCache: map<int, Stat>, reported: seq<Report<D>>)

  datatype Arrival<D> = DataIn(data: Data<D>) | StatIn(stat: Stat)

  ghost function Accept<D>(j: Join<D>, a: Arrival<D>): Join<D> {
    match a
    case DataIn(d) =>
      if d.ts in j.statCache
      then Join(j.dataCache, j.statCache - {d.ts}, j.reported + [Report(d, j.statCache[d.ts])])
      else j.(dataCache := j.dataCache[d.ts := d])
    case StatIn(s) =>
      if s.ts in j.dataCache
      then Join(j.dataCache - {s.ts}, j.statCache, j.reported + [Report(j.dataCache[s.ts], s)])
      else j.(statCache := j.statCache[s.ts := s])
  }

  ghost function AcceptAll<D>(j: Join<D>, arrivals: seq<Arrival<D>>): Join<D> {
    if arrivals == [] then j
    else Accept(AcceptAll(j, arrivals[..|arrivals| - 1]), arrivals[|arrivals| - 1])
  }

  ghost function Start<D>(): Join<D> { Join(map[], map[], []) }

  /** The reports of `end=True`: cached data items in order of time, with zero statistics. */
  ghost function Leftovers<D>(dataCache: map<int, Data<D>>): seq<Report<D>> {
    var late := Sorted(dataCache.Keys);
    assert forall i | 0 <= i < |late| :: late[i] in late;
    seq(|late|, i requires 0 <= i < |late| => Report(dataCache[late[i]], ZeroStat(late[i])))
  }

  ghost function Finish<D>(j: Join<D>): Join<D> {
    j.(reported := j.reported + Leftovers(j.dataCache))
  }

  // ----- the streams inside a run of arrivals

  ghost function DataOf<D>(arrivals: seq<Arrival<D>>): seq<Data<D>> {
    if arrivals == [] then []
    else
      var n := |arrivals| - 1;
      DataOf(arrivals[..n]) + if arrivals[n].DataIn? then [arrivals[n].data] else []
  }

  ghost function StatsOf<D>(arrivals: seq<Arrival<D>>): seq<Stat> {
    if arrivals == [] then []
    else
      var n := |arrivals| - 1;
      StatsOf(arrivals[..n]) + if arrivals[n].StatIn? then [arrivals[n].stat] else []
  }

  ghost predicate UniqueData<D>(items: seq<Data<D>>) {
    forall i, j | 0 <= i < j < |items| :: items[i].ts != items[j].ts
  }

  ghost predicate UniqueStats(items: seq<Stat>) {
    forall i, j | 0 <= i < j < |items| :: items[i].ts != items[j].ts
  }

  ghost predicate HasStat(stats: seq<Stat>, ts: int) {
    exists s :: s in stats && s.ts == ts
  }

  /** The statistics a data item should be reported with. */
  ghost predicate Matches<D>(r: Report<D>, stats: seq<Stat>) {
    && r.stat.ts == r.data.ts
    && if HasStat(stats, r.data.ts) then r.stat in stats else r.stat == ZeroStat(r.data.ts)
  }

  ghost function Reported<D>(reports: seq<Report<D>>): seq<Data<D>> {
    seq(|reports|, i requires 0 <= i < |reports| => reports[i].data)
  }

  // ----- the reference: a left outer join

  ghost function StatFor(stats: seq<Stat>, ts: int): Stat {
    if HasStat(stats, ts) then (var s :| s in stats && s.ts == ts; s) else ZeroStat(ts)
  }

  ghost function OuterJoin<D>(items: seq<Data<D>>, stats: seq<Stat>): seq<Report<D>> {
    seq(|items|, i requires 0 <= i < |items| => Report(items[i], StatFor(stats, items[i].ts)))
  }

  // ----- what every arrival keeps

  /** Unconditional: no second waits in both caches, and items wait under their own second. */
  ghost predicate CachesApart<D>(j: Join<D>) {
    && j.dataCache.Keys !! j.statCache.Keys
    && (forall ts | ts in j.dataCache :: j.dataCache[ts].ts == ts)
    && (forall ts | ts in j.statCache :: j.statCache[ts].ts == ts)
  }

  lemma {:induction false} CachesNeverShareAKey<D>(arrivals: seq<Arrival<D>>)
    ensures CachesApart(AcceptAll(Start(), arrivals))
  {
    if arrivals != [] {
      CachesNeverShareAKey(arrivals[..|arrivals| - 1]);
    }
  }

  /** With unique data seconds: the items seen are exactly those reported and those cached, each in one place. */
  ghost predicate Placed<D>(j: Join<D>, items: seq<Data<D>>) {
    && UniqueData(Reported(j.reported))
    && (forall d | d in items :: d in Reported(j.reported) || (d.ts in j.dataCache && j.dataCache[d.ts] == d))
    && (forall d | d in Reported(j.reported) :: d in items && d.ts !in j.dataCache)
    && (forall ts | ts in j.dataCache :: j.dataCache[ts] in items)
  }

  /** A cached item has had no statistics yet, and a report carries statistics of its own second. */
  ghost predicate Paired<D>(j: Join<D>, stats: seq<Stat>) {
    && (forall ts | ts in j.dataCache :: !HasStat(stats, ts))
    && (forall s | s in stats :: s.ts in j.statCache || IsReported(j, s.ts))
    && (forall ts | ts in j.statCache :: j.statCache[ts] in stats)
    && (forall r | r in j.reported :: r.stat in stats && r.stat.ts == r.data.ts)
  }

  ghost predicate IsReported<D>(j: Join<D>, ts: int) {
    exists d :: d in Reported(j.reported) && d.ts == ts
  }

  ghost predicate Joined<D>(j: Join<D>, items: seq<Data<D>>, stats: seq<Stat>) {
    CachesApart(j) && Placed(j, items) && Paired(j, stats)
  }

  lemma ReportedAppend<D>(reports: seq<Report<D>>, r: Report<D>)
    ensures Reported(reports + [r]) == Reported(reports) + [r.data]
  {
  }

  lemma UniqueAppend<D>(items: seq<Data<D>>, d: Data<D>)
    ensures UniqueData(items + [d]) <==> UniqueData(items) && forall e | e in items :: e.ts != d.ts
  {
    var more := items + [d];
    assert more[|items|] == d && forall i | 0 <= i < |items| :: more[i] == items[i];
    if UniqueData(more) {
      forall e | e in items ensures e.ts != d.ts {
        var i :| 0 <= i < |items| && items[i] == e;
      }
      assert forall i, k | 0 <= i < k < |items| :: more[i].ts != more[k].ts;
    }
  }

  lemma DataKeepsPlaced<D>(j: Join<D>, items: seq<Data<D>>, d: Data<D>)
    requires CachesApart(j) && Placed(j, items) && UniqueData(items + [d])
    ensures Placed(Accept(j, DataIn(d)), items + [d])
  {
    UniqueAppend(items, d);
    if d.ts in j.statCache {
      var r := Report(d, j.statCache[d.ts]);
      ReportedAppend(j.reported, r);
      UniqueAppend(Reported(j.reported), d);
    }
  }

  lemma DataKeepsPaired<D>(j: Join<D>, items: seq<Data<D>>, stats: seq<Stat>, d: Data<D>)
    requires Joined(j, items, stats) && UniqueData(items + [d])
    ensures Paired(Accept(j, DataIn(d)), stats)
  {
    hide UniqueData;
    UniqueAppend(items, d);
    var after := Accept(j, DataIn(d));
    if d.ts in j.statCache {
      ReportedAppend(j.reported, Report(d, j.statCache[d.ts]));
      forall s | s in stats ensures s.ts in after.statCache || IsReported(after, s.ts) {
        StillReported(j, after, s.ts);
        assert s.ts == d.ts ==> d in Reported(after.reported);
      }
    } else {
      assert !IsReported(j, d.ts);
      assert !HasStat(stats, d.ts);
    }
  }

  lemma StillReported<D>(j: Join<D>, after: Join<D>, ts: int)
    requires forall d | d in Reported(j.reported) :: d in Reported(after.reported)
    ensures IsReported(j, ts) ==> IsReported(after, ts)
  {
  }

  lemma StatKeepsPlaced<D>(j: Join<D>, items: seq<Data<D>>, s: Stat)
    requires CachesApart(j) && Placed(j, items)
    ensures Placed(Accept(j, StatIn(s)), items)
  {
    if s.ts in j.dataCache {
      var d := j.dataCache[s.ts];
      ReportedAppend(j.reported, Report(d, s));
      UniqueAppend(Reported(j.reported), d);
    }
  }

  lemma StatKeepsPaired<D>(j: Join<D>, stats: seq<Stat>, s: Stat)
    requires CachesApart(j) && Paired(j, stats)
    ensures Paired(Accept(j, StatIn(s)), stats + [s])
  {
    var after := Accept(j, StatIn(s));
    if s.ts in j.dataCache {
      var d := j.dataCache[s.ts];
      ReportedAppend(j.reported, Report(d, s));
      assert d in Reported(after.reported);
    }
    forall t | t in stats + [s] ensures t.ts in after.statCache || IsReported(after, t.ts) {
      StillReported(j, after, t.ts);
    }
  }

  lemma {:induction false} EveryRunIsJoined<D>(arrivals: seq<Arrival<D>>)
    requires UniqueData(DataOf(arrivals))
    ensures Joined(AcceptAll(Start(), arrivals), DataOf(arrivals), StatsOf(arrivals))
  {
    if arrivals != [] {
      var n := |arrivals| - 1;
      var before, a := arrivals[..n], arrivals[n];
      assert UniqueData(DataOf(before)) by {
        assert forall i | 0 <= i < |DataOf(before)| :: DataOf(before)[i] == DataOf(arrivals)[i];
      }
      EveryRunIsJoined(before);
      var j := AcceptAll(Start(), before);
      if a.DataIn? {
        DataKeepsPlaced(j, DataOf(before), a.data);
        DataKeepsPaired(j, DataOf(before), StatsOf(before), a.data);
      } else {
        StatKeepsPlaced(j, DataOf(before), a.stat);
        StatKeepsPaired(j, StatsOf(before), a.stat);
      }
      CachesNeverShareAKey(arrivals);
    }
  }

  // ----- the whole run

  /** Reports after a run of arrivals and one final `_collect_data(end=True)`. */
  ghost function FinalReports<D>(arrivals: seq<Arrival<D>>): seq<Report<D>> {
    Finish(AcceptAll(Start(), arrivals)).reported
  }

  /** Every item reported exactly once, with its own statistics if any arrived, else with zeros. */
  ghost predicate LeftOuterJoined<D>(reports: seq<Report<D>>, items: seq<Data<D>>, stats: seq<Stat>) {
    && multiset(Reported(reports)) == multiset(items)
    && forall r | r in reports :: Matches(r, stats)
  }

  lemma {:induction false} UniqueCounts<D>(items: seq<Data<D>>, d: Data<D>)
    requires UniqueData(items)
    ensures multiset(items)[d] == if d in items then 1 else 0
  {
    if items != [] {
      assert items == [items[0]] + items[1..];
      assert items[0] !in items[1..] by {
        assert forall j | 0 < j < |items| :: items[0].ts != items[j].ts;
      }
      UniqueCounts(items[1..], d);
    }
  }

  lemma SameUniqueItems<D>(a: seq<Data<D>>, b: seq<Data<D>>)
    requires UniqueData(a) && UniqueData(b)
    requires (forall d | d in a :: d in b) && (forall d | d in b :: d in a)
    ensures multiset(a) == multiset(b)
  {
    forall d: Data<D> ensures multiset(a)[d] == multiset(b)[d] {
      UniqueCounts(a, d);
      UniqueCounts(b, d);
    }
    assert multiset(a) <= multiset(b) && multiset(b) <= multiset(a);
  }

  lemma LeftoversOf<D>(dataCache: map<int, Data<D>>)
    requires forall ts | ts in dataCache :: dataCache[ts].ts == ts
    ensures UniqueData(Reported(Leftovers(dataCache)))
    ensures forall ts | ts in dataCache :: dataCache[ts] in Reported(Leftovers(dataCache))
    ensures forall d | d in Reported(Leftovers(dataCache)) :: d.ts in dataCache && dataCache[d.ts] == d
    ensures forall r | r in Leftovers(dataCache) :: r.data.ts in dataCache && r.stat == ZeroStat(r.data.ts)
  {
    var late, left := Sorted(dataCache.Keys), Leftovers(dataCache);
    assert forall i | 0 <= i < |late| :: late[i] in late && Reported(left)[i] == dataCache[late[i]];
    forall ts | ts in dataCache ensures dataCache[ts] in Reported(left) {
      var i :| 0 <= i < |late| && late[i] == ts;
    }
  }

  /** One second after the other, with nothing but zeros for statistics. */
  ghost predicate InOrderOfTime<D>(late: seq<Report<D>>) {
    && (forall i, j | 0 <= i < j < |late| :: late[i].data.ts < late[j].data.ts)
    && (forall r | r in late :: r.stat.ts == r.data.ts && r.stat.instances == 0 && r.stat.reqps == 0)
  }

  lemma LeftoversInOrder<D>(dataCache: map<int, Data<D>>)
    requires forall ts | ts in dataCache :: dataCache[ts].ts == ts
    ensures InOrderOfTime(Leftovers(dataCache)) && |Leftovers(dataCache)| == |dataCache.Keys|
  {
    var late := Sorted(dataCache.Keys);
    assert forall i | 0 <= i < |late| :: late[i] in late;
  }

  /** The reports of a run end with those of the final flush, in order of time. */
  lemma FlushedLast<D>(arrivals: seq<Arrival<D>>)
    ensures var j, reports := AcceptAll(Start(), arrivals), FinalReports(arrivals);
            j.reported <= reports && InOrderOfTime(reports[|j.reported|..])
  {
    hide AcceptAll, Leftovers, InOrderOfTime;
    CachesNeverShareAKey(arrivals);
    var j := AcceptAll(Start(), arrivals);
    LeftoversInOrder(j.dataCache);
    assert FinalReports(arrivals)[|j.reported|..] == Leftovers(j.dataCache);
  }

  /** For any two streams and any batching and interleaving of them, one final flush makes the reports the
      left outer join of the streams. Only the data seconds need to be unique. */
  lemma ReportsAreTheLeftOuterJoin<D>(arrivals: seq<Arrival<D>>)
    requires UniqueData(DataOf(arrivals))
    ensures LeftOuterJoined(FinalReports(arrivals), DataOf(arrivals), StatsOf(arrivals))
  {
    EveryRunIsJoined(arrivals);
    var j, items, stats := AcceptAll(Start(), arrivals), DataOf(arrivals), StatsOf(arrivals);
    FlushPlacesAll(j, items);
    forall r | r in FinalReports(arrivals) ensures Matches(r, stats) {
      LeftoversOf(j.dataCache);
      assert r in j.reported ==> HasStat(stats, r.data.ts);
    }
  }

  lemma FlushPlacesAll<D>(j: Join<D>, items: seq<Data<D>>)
    requires CachesApart(j) && Placed(j, items) && UniqueData(items)
    ensures multiset(Reported(Finish(j).reported)) == multiset(items)
  {
    hide Reported, Leftovers, UniqueData;
    LeftoversOf(j.dataCache);
    var early, late := Reported(j.reported), Reported(Leftovers(j.dataCache));
    ReportedConcat(j.reported, Leftovers(j.dataCache));
    UniqueConcat(early, late);
    SameUniqueItems(early + late, items);
  }

  lemma ReportedConcat<D>(a: seq<Report<D>>, b: seq<Report<D>>)
    ensures Reported(a + b) == Reported(a) + Reported(b)
  {
  }

  lemma UniqueConcat<D>(a: seq<Data<D>>, b: seq<Data<D>>)
    requires UniqueData(a) && UniqueData(b) && forall d, e | d in a && e in b :: d.ts != e.ts
    ensures UniqueData(a + b)
  {
    forall i, k | 0 <= i < k < |a + b| ensures (a + b)[i].ts != (a + b)[k].ts {
      if i < |a| <= k {
        assert (a + b)[i] in a && (a + b)[k] in b;
      }
    }
  }

  lemma {:induction false} MappedMultiset<D>(reports: seq<Report<D>>, stats: seq<Stat>)
    requires forall r | r in reports :: r.stat == StatFor(stats, r.data.ts)
    ensures reports == OuterJoin(Reported(reports), stats)
  {
    forall i | 0 <= i < |reports| ensures reports[i] == OuterJoin(Reported(reports), stats)[i] {
      assert reports[i] in reports;
    }
  }

  lemma JoinInsert<D>(front: seq<Data<D>>, d: Data<D>, back: seq<Data<D>>, stats: seq<Stat>)
    ensures multiset(OuterJoin(front + [d] + back, stats)) ==
            multiset(OuterJoin(front + back, stats)) + multiset{Report(d, StatFor(stats, d.ts))}
  {
    var report := Report(d, StatFor(stats, d.ts));
    assert OuterJoin(front + [d] + back, stats) == OuterJoin(front, stats) + [report] + OuterJoin(back, stats);
    assert OuterJoin(front + back, stats) == OuterJoin(front, stats) + OuterJoin(back, stats);
  }

  /** A permutation of a non-empty list has its first element somewhere, and the rest is a permutation too. */
  lemma TakeOut<T>(a: seq<T>, b: seq<T>) returns (i: nat)
    requires multiset(a) == multiset(b) && a != []
    ensures i < |b| && b[i] == a[0] && b == b[..i] + [a[0]] + b[i + 1..]
    ensures multiset(a[1..]) == multiset(b[..i] + b[i + 1..])
  {
    Without(a, 0);
    assert a[..0] + a[1..] == a[1..] && a[0] in multiset(b);
    i :| 0 <= i < |b| && b[i] == a[0];
    Without(b, i);
    CancelOne(multiset(a[1..]), multiset(b[..i] + b[i + 1..]), a[0]);
  }

  lemma {:induction false} JoinOfPermutation<D>(a: seq<Data<D>>, b: seq<Data<D>>, stats: seq<Stat>)
    requires multiset(a) == multiset(b)
    ensures multiset(OuterJoin(a, stats)) == multiset(OuterJoin(b, stats))
  {
    hide OuterJoin;
    if a == [] {
      assert |multiset(b)| == |b|;
    } else {
      var i := TakeOut(a, b);
      JoinOfPermutation(a[1..], b[..i] + b[i + 1..], stats);
      JoinInsert(b[..i], a[0], b[i + 1..], stats);
      JoinInsert([], a[0], a[1..], stats);
      assert [] + [a[0]] + a[1..] == a && [] + a[1..] == a[1..];
    }
  }

  /** When the statistics seconds are unique too, the reports are the reference join, whatever the interleaving. */
  lemma ReportsAreTheReferenceJoin<D>(arrivals: seq<Arrival<D>>)
    requires UniqueData(DataOf(arrivals)) && UniqueStats(StatsOf(arrivals))
    ensures multiset(FinalReports(arrivals)) == multiset(OuterJoin(DataOf(arrivals), StatsOf(arrivals)))
  {
    var reports, stats := FinalReports(arrivals), StatsOf(arrivals);
    ReportsAreTheLeftOuterJoin(arrivals);
    forall r | r in reports ensures r.stat == StatFor(stats, r.data.ts) {
      assert Matches(r, stats);
      if HasStat(stats, r.data.ts) {
        var i :| 0 <= i < |stats| && stats[i] == r.stat;
        var k :| 0 <= k < |stats| && stats[k] == StatFor(stats, r.data.ts);
      }
    }
    MappedMultiset(reports, stats);
    JoinOfPermutation(Reported(reports), DataOf(arrivals), stats);
  }

  // ----- unique data seconds are necessary

  ghost function OnlyData<D>(items: seq<Data<D>>): seq<Arrival<D>> {
    seq(|items|, i requires 0 <= i < |items| => DataIn(items[i]))
  }

  lemma OneMoreData<D>(before: seq<Data<D>>, d: Data<D>)
    ensures OnlyData(before + [d]) == OnlyData(before) + [DataIn(d)]
    ensures AcceptAll(Start<D>(), OnlyData(before + [d])) == Accept(AcceptAll(Start(), OnlyData(before)), DataIn(d))
  {
    hide Accept;
    assert OnlyData(before + [d]) == OnlyData(before) + [DataIn(d)];
    assert (OnlyData(before) + [DataIn(d)])[..|before|] == OnlyData(before);
  }

  lemma {:induction false} OnlyDataRun<D>(items: seq<Data<D>>)
    ensures DataOf(OnlyData(items)) == items && StatsOf(OnlyData(items)) == []
    ensures var j := AcceptAll(Start(), OnlyData(items));
            && j.reported == [] && j.statCache == map[] && |j.dataCache| <= |items|
            && (forall d | d in items :: d.ts in j.dataCache)
            && (!UniqueData(items) ==> |j.dataCache| < |items|)
  {
    if items != [] {
      var n := |items| - 1;
      var before, d := items[..n], items[n];
      OneMoreData(before, d);
      OnlyDataRun(before);
      var j := AcceptAll(Start(), OnlyData(before));
      assert items == before + [d];
      if d.ts in j.dataCache {
        assert j.dataCache[d.ts := d].Keys == j.dataCache.Keys;
      } else {
        assert j.dataCache[d.ts := d].Keys == j.dataCache.Keys + {d.ts};
        assert UniqueData(before) ==> UniqueData(items) by {
          forall i | 0 <= i < n ensures items[i].ts != d.ts {
            assert before[i] in before;
          }
        }
      }
    }
  }

  /** Without any statistics the arrivals are the data items. */
  lemma {:induction false} NothingButData<D>(arrivals: seq<Arrival<D>>)
    requires StatsOf(arrivals) == []
    ensures arrivals == OnlyData(DataOf(arrivals))
  {
    if arrivals != [] {
      var n := |arrivals| - 1;
      NothingButData(arrivals[..n]);
      assert arrivals[n].DataIn?;
      assert OnlyData(DataOf(arrivals)) == OnlyData(DataOf(arrivals[..n])) + [arrivals[n]];
    }
  }

  lemma {:induction false} CachedAreItems<D>(items: seq<Data<D>>)
    ensures var j := AcceptAll(Start(), OnlyData(items));
            forall ts | ts in j.dataCache :: j.dataCache[ts] in items && j.dataCache[ts].ts == ts
  {
    hide AcceptAll, OnlyData, UniqueData, Accept;
    if items != [] {
      var before, d := items[..|items| - 1], items[|items| - 1];
      OnlyDataRun(before);
      CachedAreItems(before);
      assert items == before + [d];
      OneMoreData(before, d);
      CacheGrows(AcceptAll(Start(), OnlyData(before)), before, d);
    } else {
      NoDataYet<D>();
    }
  }

  lemma NoDataYet<D>()
    ensures AcceptAll(Start<D>(), OnlyData([])) == Start()
  {
  }

  lemma CacheGrows<D>(j: Join<D>, before: seq<Data<D>>, d: Data<D>)
    requires j.statCache == map[]
    requires forall ts | ts in j.dataCache :: j.dataCache[ts] in before && j.dataCache[ts].ts == ts
    ensures var cache := Accept(j, DataIn(d)).dataCache;
            forall ts | ts in cache :: cache[ts] in before + [d] && cache[ts].ts == ts
  {
  }

  /** Without statistics some of the data items are reported, each once; of items for the same second only one is. */
  lemma WithoutStats<D>(arrivals: seq<Arrival<D>>)
    requires StatsOf(arrivals) == []
    ensures var items, reports := DataOf(arrivals), FinalReports(arrivals);
            multiset(Reported(reports)) <= multiset(items) && (!UniqueData(items) ==> |reports| < |items|)
  {
    hide AcceptAll, OnlyData, Leftovers, Reported;
    var items := DataOf(arrivals);
    NothingButData(arrivals);
    OnlyDataRun(items);
    CachedAreItems(items);
    var cache := AcceptAll(Start(), arrivals).dataCache;
    assert FinalReports(arrivals) == [] + Leftovers(cache) == Leftovers(cache);
    LeftoversAreCached(cache, items);
  }

  lemma LeftoversAreCached<D>(cache: map<int, Data<D>>, items: seq<Data<D>>)
    requires forall ts | ts in cache :: cache[ts] in items && cache[ts].ts == ts
    ensures |Leftovers(cache)| == |cache| && multiset(Reported(Leftovers(cache))) <= multiset(items)
  {
    var late, reported := Sorted(cache.Keys), Reported(Leftovers(cache));
    assert |cache| == |cache.Keys|;
    assert forall i | 0 <= i < |late| :: late[i] in late && reported[i] == cache[late[i]];
    assert forall i, j | 0 <= i < j < |reported| :: reported[i].ts < reported[j].ts;
    forall d | d in reported ensures multiset(reported)[d] <= multiset(items)[d] {
      OnceAtMost(reported, d);
      assert d in items;
    }
  }

  lemma {:induction false} OnceAtMost<T>(s: seq<T>, x: T)
    requires forall i, j | 0 <= i < j < |s| :: s[i] != s[j]
    ensures multiset(s)[x] <= 1
  {
    if s != [] {
      OnceAtMost(s[1..], x);
      assert s == [s[0]] + s[1..];
      assert forall i | 0 <= i < |s| - 1 :: s[1..][i] == s[i + 1];
    }
  }

  /** The join is right for every interleaving of a data stream exactly when its seconds are unique. */
  lemma JoinIsRightIffDataUnique<D>(items: seq<Data<D>>)
    ensures UniqueData(items) <==>
            forall arrivals: seq<Arrival<D>> | DataOf(arrivals) == items ::
              LeftOuterJoined(FinalReports(arrivals), items, StatsOf(arrivals))
  {
    if UniqueData(items) {
      forall arrivals: seq<Arrival<D>> | DataOf(arrivals) == items
        ensures LeftOuterJoined(FinalReports(arrivals), items, StatsOf(arrivals))
      {
        ReportsAreTheLeftOuterJoin(arrivals);
      }
    } else {
      var arrivals := OnlyData(items);
      OnlyDataRun(items);
      assert |Reported(FinalReports(arrivals))| < |items|;
      assert |multiset(Reported(FinalReports(arrivals)))| < |multiset(items)|;
      assert !LeftOuterJoined(FinalReports(arrivals), items, StatsOf(arrivals));
    }
  }

  lemma MoreIsNotSame<T>(a: seq<T>, more: seq<T>, b: seq<T>)
    requires multiset(a) == multiset(b)
    ensures multiset(a + more) == multiset(b) <==> more == []
  {
    if more == [] {
      assert a + more == a;
    } else {
      assert |multiset(a + more)| == |a| + |more| && |multiset(b)| == |multiset(a)| == |a|;
    }
  }

  /** `end=True` leaves the data cache as it was: a second final call is harmless exactly when nothing was left over. */
  lemma SecondEndRepeatsLeftovers<D>(arrivals: seq<Arrival<D>>)
    requires UniqueData(DataOf(arrivals))
    ensures var j := AcceptAll(Start(), arrivals);
            multiset(Reported(Finish(Finish(j)).reported)) == multiset(DataOf(arrivals)) <==> j.dataCache == map[]
  {
    var j := AcceptAll(Start(), arrivals);
    ReportsAreTheLeftOuterJoin(arrivals);
    var once, left := Finish(j).reported, Leftovers(j.dataCache);
    ReportedConcat(once, left);
    assert |Reported(left)| == |j.dataCache.Keys|;
    assert |j.dataCache.Keys| == 0 <==> j.dataCache == map[];
    MoreIsNotSame(Reported(once), Reported(left), DataOf(arrivals));
  }

  // ----- the plugin

  lemma SplitQueue<T>(queue: seq<T>, ready: nat)
    requires ready <= |queue|
    ensures queue[..ready] + queue[ready..] == queue
  {
  }

  lemma NoLeftovers<D>(dataCache: map<int, Data<D>>)
    requires |dataCache| == 0
    ensures Leftovers(dataCache) == []
  {
    assert |dataCache.Keys| == 0;
  }

  /** `get_nowait_from_queue`: takes as many items as the queue reported to hold. */
  method GetNowait<T>(queue: seq<T>, ready: nat) returns (items: seq<T>, rest: seq<T>)
    requires ready <= |queue|
    ensures items == queue[..ready] && rest == queue[ready..]
  {
    items, rest := [], queue;
    for k := 0 to ready
      invariant items == queue[..k] && rest == queue[k..]
    {
      items := items + [rest[0]];
      rest := rest[1..];
    }
  }

  /** `listeners[k]` is the list of calls that listener k has received. `arrivals`, `dataPut` and `statsPut` are
      history: the order in which items were taken from the queues, and all that the drain threads put there. */
  class TankAggregator<D> {
    var results: seq<Data<D>>
    var statsResults: seq<Stat>
    var dataCache: map<int, Data<D>>
    var statCache: map<int, Stat>
    var listeners: seq<seq<Report<D>>>
    ghost var reported: seq<Report<D>>
    ghost var arrivals: seq<Arrival<D>>
    ghost var dataPut: seq<Data<D>>
    ghost var statsPut: seq<Stat>

    ghost predicate Valid()
      reads this
    {
      && AcceptAll(Start(), arrivals) == Join(dataCache, statCache, reported)
      && dataPut == DataOf(arrivals) + results
      && statsPut == StatsOf(arrivals) + statsResults
      && (forall k | 0 <= k < |listeners| :: listeners[k] == reported)
    }

    constructor (listenerCount: nat)
      ensures Valid() && dataPut == [] && statsPut == [] && reported == [] && |listeners| == listenerCount
    {
      results, statsResults, dataCache, statCache := [], [], map[], map[];
      listeners := seq(listenerCount, _ => []);
      reported, arrivals, dataPut, statsPut := [], [], [], [];
    }

    /** The drain threads, at any moment between two steps of `_collect_data`. */
    method PutData(item: Data<D>)
      requires Valid()
      modifies `results, `dataPut
      ensures Valid() && dataPut == old(dataPut) + [item]
    {
      results := results + [item];
      dataPut := dataPut + [item];
    }

    method PutStat(item: Stat)
      requires Valid()
      modifies `statsResults, `statsPut
      ensures Valid() && statsPut == old(statsPut) + [item]
    {
      statsResults := statsResults + [item];
      statsPut := statsPut + [item];
    }

    method NotifyListeners(data: Data<D>, stat: Stat)
      requires forall k | 0 <= k < |listeners| :: listeners[k] == reported
      modifies `listeners, `reported
      ensures reported == old(reported) + [Report(data, stat)] && |listeners| == |old(listeners)|
      ensures forall k | 0 <= k < |listeners| :: listeners[k] == reported
    {
      for k := 0 to |listeners|
        invariant reported == old(reported) && |listeners| == |old(listeners)|
        invariant forall i | 0 <= i < |listeners| ::
          listeners[i] == if i < k then old(reported) + [Report(data, stat)] else old(reported)
      {
        listeners := listeners[k := listeners[k] + [Report(data, stat)]];
      }
      reported := reported + [Report(data, stat)];
    }

    /** The body of the loop over data items. */
    method TakeData(item: Data<D>)
      requires AcceptAll(Start(), arrivals) == Join(dataCache, statCache, reported)
      requires forall k | 0 <= k < |listeners| :: listeners[k] == reported
      modifies `dataCache, `statCache, `listeners, `reported, `arrivals
      ensures arrivals == old(arrivals) + [DataIn(item)] && |listeners| == |old(listeners)|
      ensures DataOf(arrivals) == DataOf(old(arrivals)) + [item] && StatsOf(arrivals) == StatsOf(old(arrivals))
      ensures AcceptAll(Start(), arrivals) == Join(dataCache, statCache, reported)
      ensures forall k | 0 <= k < |listeners| :: listeners[k] == reported
    {
      arrivals := arrivals + [DataIn(item)];
      assert arrivals[..|arrivals| - 1] == old(arrivals);
      var ts := item.ts;
      if ts in statCache {
        var statItem := statCache[ts];
        statCache := statCache - {ts};
        NotifyListeners(item, statItem);
      } else {
        dataCache := dataCache[ts := item];
      }
    }

    /** The body of the loop over statistics. */
    method TakeStat(item: Stat)
      requires AcceptAll(Start(), arrivals) == Join(dataCache, statCache, reported)
      requires forall k | 0 <= k < |listeners| :: listeners[k] == reported
      modifies `dataCache, `statCache, `listeners, `reported, `arrivals
      ensures arrivals == old(arrivals) + [StatIn(item)] && |listeners| == |old(listeners)|
      ensures DataOf(arrivals) == DataOf(old(arrivals)) && StatsOf(arrivals) == StatsOf(old(arrivals)) + [item]
      ensures AcceptAll(Start(), arrivals) == Join(dataCache, statCache, reported)
      ensures forall k | 0 <= k < |listeners| :: listeners[k] == reported
    {
      arrivals := arrivals + [StatIn(item)];
      assert arrivals[..|arrivals| - 1] == old(arrivals);
      var ts := item.ts;
      if ts in dataCache {
        var dataItem := dataCache[ts];
        dataCache := dataCache - {ts};
        NotifyListeners(dataItem, item);
      } else {
        statCache := statCache[ts := item];
      }
    }

    /** `_collect_data`; the two counts are the queue sizes read when each queue is emptied. */
    method CollectData(end: bool, dataReady: nat, statsReady: nat)
      requires Valid() && dataReady <= |results| && statsReady <= |statsResults|
      modifies this
      ensures dataPut == old(dataPut) && statsPut == old(statsPut) && |listeners| == |old(listeners)|
      ensures results == old(results)[dataReady..] && statsResults == old(statsResults)[statsReady..]
      ensures DataOf(arrivals) == DataOf(old(arrivals)) + old(results)[..dataReady]
      ensures StatsOf(arrivals) == StatsOf(old(arrivals)) + old(statsResults)[..statsReady]
      ensures CachesApart(Join(dataCache, statCache, reported))
      ensures !end ==> Valid()
      // the final call, once both drains have delivered everything
      ensures end ==> forall k | 0 <= k < |listeners| :: listeners[k] == FinalReports(arrivals)
      ensures end && results == [] && statsResults == [] && UniqueData(dataPut) ==>
                forall k | 0 <= k < |listeners| :: LeftOuterJoined(listeners[k], dataPut, statsPut)
    {
      hide LeftOuterJoined, Joined, AcceptAll, DataOf, StatsOf, Leftovers;
      var data, stats;
      data, results := GetNowait(results, dataReady);
      stats, statsResults := GetNowait(statsResults, statsReady);
      TakeBatches(data, stats);
      CachesNeverShareAKey(arrivals);
      SplitQueue(old(results), dataReady);
      SplitQueue(old(statsResults), statsReady);
      if end {
        if |dataCache| > 0 {
          FlushCache();
        } else {
          NoLeftovers(dataCache);
        }
        if results == [] && statsResults == [] && UniqueData(dataPut) {
          assert DataOf(arrivals) == dataPut && StatsOf(arrivals) == statsPut;
          ReportsAreTheLeftOuterJoin(arrivals);
        }
      }
    }

    method TakeBatches(data: seq<Data<D>>, stats: seq<Stat>)
      requires AcceptAll(Start(), arrivals) == Join(dataCache, statCache, reported)
      requires forall k | 0 <= k < |listeners| :: listeners[k] == reported
      modifies `dataCache, `statCache, `listeners, `reported, `arrivals
      ensures |listeners| == |old(listeners)|
      ensures AcceptAll(Start(), arrivals) == Join(dataCache, statCache, reported)
      ensures forall k | 0 <= k < |listeners| :: listeners[k] == reported
      ensures DataOf(arrivals) == DataOf(old(arrivals)) + data && StatsOf(arrivals) == StatsOf(old(arrivals)) + stats
    {
      hide AcceptAll, DataOf, StatsOf;
      for k := 0 to |data|
        invariant AcceptAll(Start(), arrivals) == Join(dataCache, statCache, reported)
        invariant |listeners| == |old(listeners)| && forall i | 0 <= i < |listeners| :: listeners[i] == reported
        invariant DataOf(arrivals) == DataOf(old(arrivals)) + data[..k]
        invariant StatsOf(arrivals) == StatsOf(old(arrivals))
      {
        TakeData(data[k]);
      }
      for k := 0 to |stats|
        invariant AcceptAll(Start(), arrivals) == Join(dataCache, statCache, reported)
        invariant |listeners| == |old(listeners)| && forall i | 0 <= i < |listeners| :: listeners[i] == reported
        invariant DataOf(arrivals) == DataOf(old(arrivals)) + data
        invariant StatsOf(arrivals) == StatsOf(old(arrivals)) + stats[..k]
      {
        TakeStat(stats[k]);
      }
    }

    /** Timestamps without stats, in order of time. */
    method FlushCache()
      requires forall ts | ts in dataCache :: dataCache[ts].ts == ts
      requires forall k | 0 <= k < |listeners| :: listeners[k] == reported
      modifies `listeners, `reported
      ensures reported == old(reported) + Leftovers(dataCache) && |listeners| == |old(listeners)|
      ensures forall k | 0 <= k < |listeners| :: listeners[k] == reported
      ensures InOrderOfTime(reported[|old(reported)|..])
    {
      LeftoversInOrder(dataCache);
      var late := SortKeys(dataCache.Keys);
      for i := 0 to |late|
        invariant |listeners| == |old(listeners)| && forall k | 0 <= k < |listeners| :: listeners[k] == reported
        invariant reported == old(reported) + Leftovers(dataCache)[..i]
      {
        assert late[i] in late;
        NotifyListeners(dataCache[late[i]], Stat(late[i], 0, 0));
      }
    }
  }
}
