/** What the feeds of a TimeChopper bring about, event by event: `Chopper.Events` again, in terms of the feeds alone. */
module Arrivals {
  import opened Common
  import opened Chopper

  // ----- the seconds that are gone

  /** Event j is the end of a round, with a floor above a second of which a row had come by then. */
  ghost predicate Passes<T>(events: seq<Event<T>>, j: nat, t: int)
    requires j < |events|
  {
    events[j].Passed? && t < events[j].floor && t in Seconds(RowsThatCame(events[..j]))
  }

  lemma {:induction false} GoneMeans<T>(events: seq<Event<T>>, t: int)
    ensures t in Gone(events) <==> exists j :: 0 <= j < |events| && Passes(events, j, t)
  {
    if events != [] {
      var n := |events| - 1;
      var before := events[..n];
      GoneMeans(before, t);
      hide Seconds, RowsThatCame;
      forall j | 0 <= j < n ensures Passes(before, j, t) <==> Passes(events, j, t) {
        assert before[j] == events[j] && before[..j] == events[..j];
      }
      assert t in Gone(events) <==> t in Gone(before) || Passes(events, n, t);
    }
  }

  /** Rows are on time when each of them is apart from every second that was gone when it came. */
  lemma {:induction false} OnTimeMeans<T>(events: seq<Event<T>>, later: bool)
    ensures OnTime(events, later) <==>
            forall k, r, t | 0 <= k < |events| && r in RowsOfEvent(events[k]) && t in Gone(events[..k]) ::
              Apart(t, r.ts, later)
  {
    if events != [] {
      var n := |events| - 1;
      var before := events[..n];
      OnTimeMeans(before, later);
      hide Gone, RowsOfEvent, Apart;
      assert forall k | 0 <= k < n :: before[k] == events[k] && before[..k] == events[..k];
      if OnTime(events, later) {
        forall k, r, t | 0 <= k < |events| && r in RowsOfEvent(events[k]) && t in Gone(events[..k])
          ensures Apart(t, r.ts, later)
        {
          if k < n {
            assert r in RowsOfEvent(before[k]) && t in Gone(before[..k]);
          }
        }
      } else if OnTime(before, later) {
        assert exists r, t :: r in RowsOfEvent(events[n]) && t in Gone(before) && !Apart(t, r.ts, later);
      } else {
        var k, r, t :| 0 <= k < |before| && r in RowsOfEvent(before[k]) && t in Gone(before[..k])
                       && !Apart(t, r.ts, later);
        assert r in RowsOfEvent(events[k]) && t in Gone(events[..k]);
      }
    }
  }

  // ----- source by source

  ghost function Delivered<T>(feed: Feed<T>): seq<seq<Row<T>>> {
    if feed == [] then [] else (if feed[0].Some? then [feed[0].value] else []) + Delivered(feed[1..])
  }

  ghost function ChunksFrom<T>(events: seq<Event<T>>, m: nat): seq<seq<Row<T>>> {
    if events == [] then []
    else
      var last := events[|events| - 1];
      ChunksFrom(events[..|events| - 1], m) + if last.Came? && last.source == m then [last.rows] else []
  }

  lemma ChunksOfMore<T>(events: seq<Event<T>>, e: Event<T>, m: nat)
    ensures ChunksFrom(events + [e], m) == ChunksFrom(events, m) + if e.Came? && e.source == m then [e.rows] else []
  {
    assert (events + [e])[..|events|] == events;
  }

  ghost function StillIn<T>(sources: map<nat, Feed<T>>, m: nat): seq<seq<Row<T>>> {
    if m in sources then Delivered(sources[m]) else []
  }

  lemma NothingIn<T>(sources: map<nat, Feed<T>>, m: nat)
    ensures sources == map[] ==> StillIn(sources, m) == []
  {
  }

  lemma NothingLeftIn<T>(sources: map<nat, Feed<T>>, n: nat, m: nat)
    requires n in sources && sources[n] == []
    ensures StillIn(sources - {n}, m) == StillIn(sources, m)
  {
  }

  lemma OneLessIn<T>(sources: map<nat, Feed<T>>, n: nat, m: nat)
    requires n in sources && sources[n] != []
    ensures var after := sources[n := sources[n][1..]];
            StillIn(sources, m) ==
            (if n == m && sources[n][0].Some? then [sources[n][0].value] else []) + StillIn(after, m)
  {
  }

  lemma {:induction false} ChunksOnCourse<T>(history: seq<Event<T>>, sources: map<nat, Feed<T>>,
                                             recentTs: map<nat, int>, count: nat, n: nat, all: seq<Event<T>>, m: nat)
    requires OnCourse(history, sources, recentTs, count, n, all)
    ensures ChunksFrom(all, m) == ChunksFrom(history, m) + StillIn(sources, m)
    decreases |sources.Keys|, PollsLeft(sources, count), !HasFrom(sources, n), count - n
  {
    hide Future, ChunksFrom, LastTs, PollsLeft, NoEmptyChunk, StillIn;
    if sources == map[] {
      CourseAtEnd(history, sources, recentTs, count, n, all);
      NothingIn(sources, m);
    } else if n == count {
      SomeFloor(sources, recentTs);
      SomeKey(sources);
      var e := Passed(Least(recentTs.Values));
      CourseOfRound(history, sources, recentTs, count, all);
      ChunksOfMore(history, e, m);
      ChunksOnCourse(history + [e], sources, recentTs, count, 0, all, m);
    } else if n !in sources {
      CourseSkips(history, sources, recentTs, count, n, all);
      ChunksOnCourse(history, sources, recentTs, count, n + 1, all, m);
    } else if sources[n] == [] {
      CourseAfterEnd(history, sources, recentTs, count, n, all);
      ChunksOfMore(history, Ended(n), m);
      ChunksOnCourse(history + [Ended(n)], sources - {n}, recentTs - {n}, count, 0, all, m);
      NothingLeftIn(sources, n, m);
    } else {
      var after := sources[n := sources[n][1..]];
      AfterFirst(sources[n]);
      PollOneFewer(sources, count, n);
      assert after.Keys == sources.Keys;
      CourseAfterPoll(history, sources, recentTs, count, n, all);
      OneLessIn(sources, n, m);
      if sources[n][0].Some? {
        var e := Came(n, sources[n][0].value);
        ChunksOfMore(history, e, m);
        ChunksOnCourse(history + [e], after, recentTs[n := LastTs(e.rows)], count, n + 1, all, m);
        Associate(ChunksFrom(history, m), [e.rows], StillIn(after, m));
      } else {
        ChunksOnCourse(history, after, recentTs, count, n + 1, all, m);
      }
    }
  }

  /** Every chunk of every feed comes, those of each feed in their order, and nothing else comes. */
  lemma EventsOfSource<T>(feeds: seq<Feed<T>>, m: nat)
    requires forall feed | feed in feeds :: NoEmptyChunk(feed)
    ensures ChunksFrom(Events(feeds), m) == if m < |feeds| then Delivered(feeds[m]) else []
  {
    CourseFromStart(feeds);
    ChunksOnCourse([], Numbered(feeds), Zeros(feeds), |feeds|, 0, Events(feeds), m);
  }

  lemma CourseFromStart<T>(feeds: seq<Feed<T>>)
    requires forall feed | feed in feeds :: NoEmptyChunk(feed)
    ensures OnCourse([], Numbered(feeds), Zeros(feeds), |feeds|, 0, Events(feeds))
  {
    assert [] + Events(feeds) == Events(feeds);
  }

  // ----- the floors

  /** The last index that source m has delivered, 0 before the first. */
  ghost function LastCame<T>(events: seq<Event<T>>, m: nat): int {
    if events == [] then 0
    else
      var last := events[|events| - 1];
      if last.Came? && last.source == m && last.rows != [] then LastTs(last.rows)
      else LastCame(events[..|events| - 1], m)
  }

  ghost predicate Alive<T>(events: seq<Event<T>>, count: nat, m: nat) {
    m < count && Ended(m) !in events
  }

  /** The least last index of the sources that have not ended. */
  ghost predicate IsFloor<T>(events: seq<Event<T>>, count: nat, floor: int) {
    && (exists m :: Alive(events, count, m) && LastCame(events, m) == floor)
    && (forall m | Alive(events, count, m) :: floor <= LastCame(events, m))
  }

  ghost predicate FloorsFrom<T>(all: seq<Event<T>>, count: nat, from: nat) {
    forall k | from <= k < |all| && all[k].Passed? :: IsFloor(all[..k], count, all[k].floor)
  }

  /** The watermarks and the sources left, read off the events. */
  ghost predicate Remembers<T>(history: seq<Event<T>>, sources: map<nat, Feed<T>>, recentTs: map<nat, int>,
                               count: nat) {
    && (forall m :: m in sources <==> Alive(history, count, m))
    && (forall m | m in recentTs :: recentTs[m] == LastCame(history, m))
  }

  lemma RemembersPass<T>(history: seq<Event<T>>, sources: map<nat, Feed<T>>, recentTs: map<nat, int>, count: nat,
                         floor: int)
    requires Remembers(history, sources, recentTs, count) && sources.Keys == recentTs.Keys
    requires recentTs.Values != {} && floor == Least(recentTs.Values)
    ensures Remembers(history + [Passed(floor)], sources, recentTs, count) && IsFloor(history, count, floor)
  {
    assert (history + [Passed(floor)])[..|history|] == history;
    assert floor in recentTs.Values;
    var m :| m in recentTs && recentTs[m] == floor;
    assert Alive(history, count, m) && LastCame(history, m) == floor;
    forall m | Alive(history, count, m) ensures floor <= LastCame(history, m) {
      assert m in recentTs && recentTs[m] in recentTs.Values;
    }
  }

  lemma RemembersEnd<T>(history: seq<Event<T>>, sources: map<nat, Feed<T>>, recentTs: map<nat, int>, count: nat, n: nat)
    requires Remembers(history, sources, recentTs, count)
    ensures Remembers(history + [Ended(n)], sources - {n}, recentTs - {n}, count)
  {
    assert (history + [Ended(n)])[..|history|] == history;
    hide LastCame;
    forall m ensures LastCame(history + [Ended(n)], m) == LastCame(history, m) {
      LastCameOfMore(history, Ended(n), m);
    }
  }

  lemma LastCameOfMore<T>(history: seq<Event<T>>, e: Event<T>, m: nat)
    ensures LastCame(history + [e], m) ==
            if e.Came? && e.source == m && e.rows != [] then LastTs(e.rows) else LastCame(history, m)
  {
    assert (history + [e])[..|history|] == history;
  }

  lemma RemembersChunk<T>(history: seq<Event<T>>, sources: map<nat, Feed<T>>, recentTs: map<nat, int>, count: nat,
                          n: nat, rest: Feed<T>, rows: seq<Row<T>>)
    requires Remembers(history, sources, recentTs, count) && n in sources && rows != []
    ensures Remembers(history + [Came(n, rows)], sources[n := rest], recentTs[n := LastTs(rows)], count)
  {
    hide LastCame;
    forall m
      ensures LastCame(history + [Came(n, rows)], m) == if m == n then LastTs(rows) else LastCame(history, m)
    {
      LastCameOfMore(history, Came(n, rows), m);
    }
  }

  lemma FloorsFromLater<T>(all: seq<Event<T>>, count: nat, history: seq<Event<T>>, e: Event<T>)
    requires history + [e] <= all && FloorsFrom(all, count, |history| + 1)
    requires e.Passed? ==> IsFloor(history, count, e.floor)
    ensures FloorsFrom(all, count, |history|)
  {
    hide IsFloor;
    assert all[|history|] == e && all[..|history|] == history;
  }

  lemma {:induction false} FloorsOnCourse<T>(history: seq<Event<T>>, sources: map<nat, Feed<T>>,
                                             recentTs: map<nat, int>, count: nat, n: nat, all: seq<Event<T>>)
    requires OnCourse(history, sources, recentTs, count, n, all) && Remembers(history, sources, recentTs, count)
    ensures history <= all && FloorsFrom(all, count, |history|)
    decreases |sources.Keys|, PollsLeft(sources, count), !HasFrom(sources, n), count - n
  {
    hide Future, LastTs, PollsLeft, NoEmptyChunk, Remembers, FloorsFrom, IsFloor;
    if sources == map[] {
      CourseAtEnd(history, sources, recentTs, count, n, all);
      NoMoreFloors(all, count);
    } else if n == count {
      SomeFloor(sources, recentTs);
      SomeKey(sources);
      var e := Passed(Least(recentTs.Values));
      CourseOfRound(history, sources, recentTs, count, all);
      RemembersPass(history, sources, recentTs, count, e.floor);
      FloorsOnCourse(history + [e], sources, recentTs, count, 0, all);
      FloorsFromLater(all, count, history, e);
    } else if n !in sources {
      CourseSkips(history, sources, recentTs, count, n, all);
      FloorsOnCourse(history, sources, recentTs, count, n + 1, all);
    } else if sources[n] == [] {
      CourseAfterEnd(history, sources, recentTs, count, n, all);
      RemembersEnd(history, sources, recentTs, count, n);
      FloorsOnCourse(history + [Ended(n)], sources - {n}, recentTs - {n}, count, 0, all);
      FloorsFromLater(all, count, history, Ended(n));
    } else {
      var after := sources[n := sources[n][1..]];
      AfterFirst(sources[n]);
      PollOneFewer(sources, count, n);
      assert after.Keys == sources.Keys;
      CourseAfterPoll(history, sources, recentTs, count, n, all);
      if sources[n][0].Some? {
        var e := Came(n, sources[n][0].value);
        RemembersChunk(history, sources, recentTs, count, n, sources[n][1..], e.rows);
        FloorsOnCourse(history + [e], after, recentTs[n := LastTs(e.rows)], count, n + 1, all);
        FloorsFromLater(all, count, history, e);
      } else {
        RemembersNothing(history, sources, recentTs, count, n, sources[n][1..]);
        FloorsOnCourse(history, after, recentTs, count, n + 1, all);
      }
    }
  }

  lemma NoMoreFloors<T>(all: seq<Event<T>>, count: nat)
    ensures FloorsFrom(all, count, |all|)
  {
  }

  lemma RemembersNothing<T>(history: seq<Event<T>>, sources: map<nat, Feed<T>>, recentTs: map<nat, int>, count: nat,
                            n: nat, rest: Feed<T>)
    requires Remembers(history, sources, recentTs, count) && n in sources
    ensures Remembers(history, sources[n := rest], recentTs, count)
  {
  }

  /** Whenever a round ends, the floor is the least of the last indices that the sources still there have delivered. */
  lemma FloorsAreLeast<T>(feeds: seq<Feed<T>>, k: nat)
    requires forall feed | feed in feeds :: NoEmptyChunk(feed)
    requires k < |Events(feeds)| && Events(feeds)[k].Passed?
    ensures IsFloor(Events(feeds)[..k], |feeds|, Events(feeds)[k].floor)
  {
    hide IsFloor, Events;
    CourseFromStart(feeds);
    RemembersStart(feeds);
    FloorsOnCourse([], Numbered(feeds), Zeros(feeds), |feeds|, 0, Events(feeds));
  }

  lemma RemembersStart<T>(feeds: seq<Feed<T>>)
    ensures Remembers([], Numbered(feeds), Zeros(feeds), |feeds|)
  {
  }

  // ----- watermarked sources are on time

  /** What is still to come is not before the watermarks, and what is gone is before all of them. */
  ghost predicate Ahead<T>(history: seq<Event<T>>, sources: map<nat, Feed<T>>, recentTs: map<nat, int>)
    requires sources.Keys == recentTs.Keys && forall n | n in sources :: NoEmptyChunk(sources[n])
  {
    && (forall n | n in sources :: Watermarked(sources[n]) && NotBefore(sources[n], recentTs[n]))
    && (forall t, n | t in Gone(history) && n in recentTs :: t < recentTs[n])
  }

  lemma AheadAfterPass<T>(history: seq<Event<T>>, sources: map<nat, Feed<T>>, recentTs: map<nat, int>, later: bool)
    requires sources.Keys == recentTs.Keys && forall n | n in sources :: NoEmptyChunk(sources[n])
    requires Ahead(history, sources, recentTs) && OnTime(history, later) && recentTs.Values != {}
    ensures var e := Passed(Least(recentTs.Values));
            Ahead(history + [e], sources, recentTs) && OnTime(history + [e], later)
  {
    hide Watermarked, NotBefore, OnTime, Gone, RowsThatCame;
    OneMoreEvent(history, Passed(Least(recentTs.Values)), later);
    assert forall n | n in recentTs :: recentTs[n] in recentTs.Values;
  }

  lemma AheadAfterEnd<T>(history: seq<Event<T>>, sources: map<nat, Feed<T>>, recentTs: map<nat, int>, n: nat,
                         later: bool)
    requires sources.Keys == recentTs.Keys && forall m | m in sources :: NoEmptyChunk(sources[m])
    requires Ahead(history, sources, recentTs) && OnTime(history, later)
    ensures Ahead(history + [Ended(n)], sources - {n}, recentTs - {n}) && OnTime(history + [Ended(n)], later)
  {
    hide Watermarked, NotBefore, OnTime, Gone, RowsThatCame;
    OneMoreEvent(history, Ended(n), later);
  }

  lemma RestIsAhead<T>(feed: Feed<T>, ts: int)
    requires feed != [] && NoEmptyChunk(feed) && Watermarked(feed) && NotBefore(feed, ts)
    ensures NoEmptyChunk(feed[1..]) && Watermarked(feed[1..]) && NotBefore(feed[1..], ts)
    ensures feed[0].Some? ==> NotBefore(feed[1..], LastTs(feed[0].value)) && ts <= LastTs(feed[0].value)
    ensures feed[0].Some? ==> forall r | r in feed[0].value :: ts <= r.ts
  {
    assert forall i | 0 <= i < |feed| - 1 :: feed[1..][i] == feed[i + 1];
    if feed[0].Some? {
      assert feed[0].value[|feed[0].value| - 1] in feed[0].value;
    }
  }

  lemma AheadAfterChunk<T>(history: seq<Event<T>>, sources: map<nat, Feed<T>>, recentTs: map<nat, int>, n: nat,
                           later: bool)
    requires sources.Keys == recentTs.Keys && forall m | m in sources :: NoEmptyChunk(sources[m])
    requires Ahead(history, sources, recentTs) && OnTime(history, later)
    requires n in sources && sources[n] != []
    ensures NoEmptyChunk(sources[n][1..])
    ensures var after := sources[n := sources[n][1..]];
            match sources[n][0]
            case None => Ahead(history, after, recentTs)
            case Some(rows) =>
              (rows != []
               && Ahead(history + [Came(n, rows)], after, recentTs[n := LastTs(rows)])
               && OnTime(history + [Came(n, rows)], later))
  {
    hide Watermarked, NotBefore, OnTime, Gone, RowsThatCame, LastTs;
    AfterFirst(sources[n]);
    RestIsAhead(sources[n], recentTs[n]);
    if sources[n][0].Some? {
      var rows := sources[n][0].value;
      OneMoreEvent(history, Came(n, rows), later);
    }
  }

  lemma {:induction false} OnTimeOnCourse<T>(history: seq<Event<T>>, sources: map<nat, Feed<T>>,
                                             recentTs: map<nat, int>, count: nat, n: nat, all: seq<Event<T>>,
                                             later: bool)
    requires OnCourse(history, sources, recentTs, count, n, all)
    requires Ahead(history, sources, recentTs) && OnTime(history, later)
    ensures OnTime(all, later)
    decreases |sources.Keys|, PollsLeft(sources, count), !HasFrom(sources, n), count - n
  {
    hide Future, LastTs, PollsLeft, NoEmptyChunk, Ahead, OnTime;
    if sources == map[] {
      CourseAtEnd(history, sources, recentTs, count, n, all);
    } else if n == count {
      SomeFloor(sources, recentTs);
      SomeKey(sources);
      var e := Passed(Least(recentTs.Values));
      CourseOfRound(history, sources, recentTs, count, all);
      AheadAfterPass(history, sources, recentTs, later);
      OnTimeOnCourse(history + [e], sources, recentTs, count, 0, all, later);
    } else if n !in sources {
      CourseSkips(history, sources, recentTs, count, n, all);
      OnTimeOnCourse(history, sources, recentTs, count, n + 1, all, later);
    } else if sources[n] == [] {
      CourseAfterEnd(history, sources, recentTs, count, n, all);
      AheadAfterEnd(history, sources, recentTs, n, later);
      OnTimeOnCourse(history + [Ended(n)], sources - {n}, recentTs - {n}, count, 0, all, later);
    } else {
      var after := sources[n := sources[n][1..]];
      AfterFirst(sources[n]);
      PollOneFewer(sources, count, n);
      assert after.Keys == sources.Keys;
      CourseAfterPoll(history, sources, recentTs, count, n, all);
      AheadAfterChunk(history, sources, recentTs, n, later);
      if sources[n][0].Some? {
        var e := Came(n, sources[n][0].value);
        OnTimeOnCourse(history + [e], after, recentTs[n := LastTs(e.rows)], count, n + 1, all, later);
      } else {
        OnTimeOnCourse(history, after, recentTs, count, n + 1, all, later);
      }
    }
  }

  /** Sources that never go back behind their own watermarks bring no row late, however they are polled. */
  lemma WatermarkedIsOnTime<T>(feeds: seq<Feed<T>>, later: bool)
    requires forall feed | feed in feeds :: NoEmptyChunk(feed) && Watermarked(feed)
    ensures OnTime(Events(feeds), later)
  {
    hide Events;
    CourseFromStart(feeds);
    AheadAtStart(feeds, later);
    OnTimeOnCourse([], Numbered(feeds), Zeros(feeds), |feeds|, 0, Events(feeds), later);
  }

  lemma AheadAtStart<T>(feeds: seq<Feed<T>>, later: bool)
    requires forall feed | feed in feeds :: NoEmptyChunk(feed) && Watermarked(feed)
    ensures Ahead([], Numbered(feeds), Zeros(feeds)) && OnTime<T>([], later)
  {
  }

  // ----- seconds do get split

  lemma OnlyFloor(recentTs: map<nat, int>, floor: int)
    requires recentTs == map[0 := floor]
    ensures recentTs.Values != {} && Least(recentTs.Values) == floor
  {
    assert recentTs[0] in recentTs.Values;
  }

  ghost function Sole<V>(value: V): map<nat, V> {
    map[0 := value]
  }

  /** One source: each poll is a round of its own. */
  lemma SolePoll<T>(history: seq<Event<T>>, feed: Feed<T>, floor: int, all: seq<Event<T>>)
    requires OnCourse(history, Sole(feed), Sole(floor), 1, 0, all)
    requires feed != [] && feed[0].Some? && feed[0].value != []
    ensures var a := feed[0].value;
            OnCourse(history + [Came(0, a)] + [Passed(LastTs(a))], Sole(feed[1..]), Sole(LastTs(a)), 1, 0, all)
  {
    hide Future;
    var a := feed[0].value;
    CourseAfterPoll(history, Sole(feed), Sole(floor), 1, 0, all);
    assert Sole(feed)[0 := feed[1..]] == Sole(feed[1..]) && Sole(floor)[0 := LastTs(a)] == Sole(LastTs(a));
    OnlyFloor(Sole(LastTs(a)), LastTs(a));
    assert 0 in Sole(feed[1..]);
    CourseOfRound(history + [Came(0, a)], Sole(feed[1..]), Sole(LastTs(a)), 1, all);
  }

  lemma SoleEnd<T>(history: seq<Event<T>>, floor: int, all: seq<Event<T>>)
    requires OnCourse(history, Sole<Feed<T>>([]), Sole(floor), 1, 0, all)
    ensures all == history + [Ended(0)]
  {
    hide Future;
    var sources := Sole<Feed<T>>([]);
    CourseAfterEnd(history, sources, Sole(floor), 1, 0, all);
    assert sources - {0} == map[];
    CourseAtEnd(history + [Ended(0)], sources - {0}, Sole(floor) - {0}, 1, 0, all);
  }

  lemma TwoChunkEvents<T>(a: seq<Row<T>>, b: seq<Row<T>>)
    requires a != [] && b != []
    ensures var feed: Feed<T> := [Some(a), Some(b)];
            NoEmptyChunk(feed) && Events([feed]) ==
              [] + [Came(0, a)] + [Passed(LastTs(a))] + [Came(0, b)] + [Passed(LastTs(b))] + [Ended(0)]
  {
    hide Future, OnCourse;
    var feed: Feed<T> := [Some(a), Some(b)];
    var all := Events([feed]);
    CourseFromStart([feed]);
    assert Numbered([feed]) == Sole(feed) && Zeros([feed]) == Sole(0);
    SolePoll([], feed, 0, all);
    assert feed[1..] == [Some(b)] && feed[1..][1..] == [];
    var e2: seq<Event<T>> := [] + [Came(0, a)] + [Passed(LastTs(a))];
    SolePoll(e2, feed[1..], LastTs(a), all);
    SoleEnd(e2 + [Came(0, b)] + [Passed(LastTs(b))], LastTs(b), all);
  }

  lemma OnTimeOfTwo<T>(a: seq<Row<T>>, b: seq<Row<T>>, x: int, y: int)
    ensures var gone := UpTo(Seconds(a), x - 1);
            OnTime([] + [Came(0, a)] + [Passed(x)] + [Came(0, b)] + [Passed(y)] + [Ended(0)], false) <==>
            forall r, t | r in b && t in gone :: t != r.ts
  {
    hide OnTime, Gone, RowsThatCame, Seconds, UpTo;
    var e0: seq<Event<T>> := [];
    var e1 := e0 + [Came(0, a)];
    var e2 := e1 + [Passed(x)];
    var e3 := e2 + [Came(0, b)];
    var e4 := e3 + [Passed(y)];
    NothingYet<T>();
    OneMoreEvent(e0, Came(0, a), false);
    OneMoreEvent(e1, Passed(x), false);
    OneMoreEvent(e2, Came(0, b), false);
    OneMoreEvent(e3, Passed(y), false);
    OneMoreEvent(e4, Ended(0), false);
    assert RowsThatCame(e1) == [] + a == a;
  }

  lemma NothingYet<T>()
    ensures OnTime<T>([], false) && Gone<T>([]) == {} && RowsThatCame<T>([]) == []
  {
  }

  /** One source, two chunks: a second is split exactly when the second chunk has a row for a second of the first one
      below its last index. */
  lemma TwoChunks<T>(a: seq<Row<T>>, b: seq<Row<T>>)
    requires a != [] && b != []
    ensures var feed: Feed<T> := [Some(a), Some(b)];
            NoEmptyChunk(feed) &&
            (OnTime(Events([feed]), false) <==> forall t | t in Seconds(a) && t in Seconds(b) :: LastTs(a) <= t)
  {
    hide OnTime, Events;
    TwoChunkEvents(a, b);
    OnTimeOfTwo(a, b, LastTs(a), LastTs(b));
    assert forall r | r in b :: r.ts in Seconds(b);
    var gone := UpTo(Seconds(a), LastTs(a) - 1);
    forall t | t in Seconds(b) && t in gone ensures exists r :: r in b && t == r.ts {
      var i :| 0 <= i < |b| && b[i].ts == t;
      assert b[i] in b;
    }
    if forall t | t in Seconds(a) && t in Seconds(b) :: LastTs(a) <= t {
      assert forall r, t | r in b && t in gone :: t != r.ts;
    } else {
      var t :| t in Seconds(a) && t in Seconds(b) && !(LastTs(a) <= t);
      assert t in gone;
    }
  }

  /** Rows for the seconds 3 and 5, then one more for second 3: that second leaves twice. */
  lemma LateRowSplits<T>(x: T, y: T, z: T)
    ensures var feed: Feed<T> := [Some([Row(3, x), Row(5, y)]), Some([Row(3, z)])];
            NoEmptyChunk(feed) && !OnTime(Events([feed]), false)
  {
    hide OnTime, Events;
    var a, b := [Row(3, x), Row(5, y)], [Row(3, z)];
    TwoChunks(a, b);
    assert a[0].ts == 3 && b[0].ts == 3;
    assert 3 in Seconds(a) && 3 in Seconds(b);
  }

  /** The same as it runs. */
  method SplitByLateRow<T>(x: T, y: T, z: T) returns (frames: seq<Frame<T>>)
    ensures !PairwiseApart(frames, false)
  {
    hide *;
    LateRowSplits(x, y, z);
    var feed: Feed<T> := [Some([Row(3, x), Row(5, y)]), Some([Row(3, z)])];
    var chopper := new TimeChopper<T>([feed]);
    chopper.Iterate();
    frames := chopper.yielded;
  }
}
