/** yandextank/aggregator/chopper.py: merges time-stamped rows that several sources deliver
    in chunks, and yields one frame per second. */
module Chopper {
  import opened Common

  /** One sample and the second in which it was received (the frame index). */
  datatype Row<T> = Row(ts: int, sample: T)

  /** What successive `next(source)` calls return before StopIteration; None is a poll without data. */
  type Feed<T> = seq<Option<seq<Row<T>>>>

  /** A yielded triple: the second, its rows, and their number. */
  datatype Frame<T> = Frame(ts: int, rows: seq<Row<T>>, cardinality: nat)

  // ----- rows of one second

  function RowsAt<T>(rows: seq<Row<T>>, ts: int): seq<Row<T>> {
    if rows == [] then []
    else (if rows[0].ts == ts then [rows[0]] else []) + RowsAt(rows[1..], ts)
  }

  function Seconds<T>(rows: seq<Row<T>>): set<int> {
    set i | 0 <= i < |rows| :: rows[i].ts
  }

  lemma {:induction false} RowsAtConcat<T>(a: seq<Row<T>>, b: seq<Row<T>>, ts: int)
    ensures RowsAt(a + b, ts) == RowsAt(a, ts) + RowsAt(b, ts)
  {
    if a == [] {
      assert a + b == b;
    } else {
      RowsAtConcat(a[1..], b, ts);
      var first := if a[0].ts == ts then [a[0]] else [];
      assert RowsAt(a, ts) == first + RowsAt(a[1..], ts);
      assert RowsAt(a + b, ts) == first + RowsAt(a[1..] + b, ts) by {
        assert (a + b)[1..] == a[1..] + b;
      }
      hide RowsAt;
      Associate(first, RowsAt(a[1..], ts), RowsAt(b, ts));
    }
  }

  lemma {:induction false} RowsAtEmptyIff<T>(rows: seq<Row<T>>, ts: int)
    ensures RowsAt(rows, ts) == [] <==> ts !in Seconds(rows)
    ensures forall r | r in RowsAt(rows, ts) :: r.ts == ts && r in rows
  {
    if rows != [] {
      RowsAtEmptyIff(rows[1..], ts);
      assert forall i | 1 <= i < |rows| :: rows[i] == rows[1..][i - 1];
      assert ts in Seconds(rows) <==> rows[0].ts == ts || ts in Seconds(rows[1..]) by {
        if ts in Seconds(rows) && rows[0].ts != ts {
          var i :| 0 <= i < |rows| && rows[i].ts == ts;
          assert rows[1..][i - 1].ts == ts;
        }
      }
    }
  }

  /** Rows of one second keep their multiplicities. */
  lemma {:induction false} RowsAtMultiplicity<T>(rows: seq<Row<T>>, ts: int, r: Row<T>)
    ensures multiset(RowsAt(rows, ts))[r] == if r.ts == ts then multiset(rows)[r] else 0
  {
    if rows != [] {
      RowsAtMultiplicity(rows[1..], ts, r);
      assert rows == [rows[0]] + rows[1..];
    }
  }

  // ----- the plain specification: group all rows by second, in increasing order

  ghost function GroupBySecond<T>(rows: seq<Row<T>>): seq<Frame<T>> {
    var seconds := Sorted(Seconds(rows));
    seq(|seconds|, i requires 0 <= i < |seconds| =>
      Frame(seconds[i], RowsAt(rows, seconds[i]), |RowsAt(rows, seconds[i])|))
  }

  // ----- what the sources hold

  ghost function FeedRows<T>(feed: Feed<T>): seq<Row<T>> {
    if feed == [] then [] else Chunk(feed[0]) + FeedRows(feed[1..])
  }

  /** All rows that the first `count` sources still hold. */
  ghost function Pending<T>(sources: map<nat, Feed<T>>, count: nat): multiset<Row<T>> {
    if count == 0 then multiset{} else Pending(sources, count - 1) + RowsOf(sources, count - 1)
  }

  ghost function RowsOf<T>(sources: map<nat, Feed<T>>, n: nat): multiset<Row<T>> {
    if n in sources then multiset(FeedRows(sources[n])) else multiset{}
  }

  /** Polls left; decreases with every `next`. */
  ghost function PollsLeft<T>(sources: map<nat, Feed<T>>, count: nat): nat {
    if count == 0 then 0
    else PollsLeft(sources, count - 1) + if count - 1 in sources then |sources[count - 1]| else 0
  }

  function Numbered<T>(feeds: seq<Feed<T>>): map<nat, Feed<T>> {
    map n: nat | 0 <= n < |feeds| :: feeds[n]
  }

  /** The rows of all sources together. */
  ghost function AllRows<T>(feeds: seq<Feed<T>>): multiset<Row<T>> {
    Pending(Numbered(feeds), |feeds|)
  }

  /** The code reads the last index of every chunk, so no chunk may be empty. */
  ghost predicate NoEmptyChunk<T>(feed: Feed<T>) {
    forall i | 0 <= i < |feed| && feed[i].Some? :: feed[i].value != []
  }

  function LastTs<T>(chunk: seq<Row<T>>): int
    requires chunk != []
  {
    chunk[|chunk| - 1].ts
  }

  /** No row of a later chunk is older than the last row of an earlier one; timestamps are not negative.
      Inside a chunk the rows may come in any order. */
  ghost predicate Watermarked<T>(feed: Feed<T>)
    requires NoEmptyChunk(feed)
  {
    && (forall i, r | 0 <= i < |feed| && feed[i].Some? && r in feed[i].value :: 0 <= r.ts)
    && (forall i, j, r | 0 <= i < j < |feed| && feed[i].Some? && feed[j].Some? && r in feed[j].value ::
          LastTs(feed[i].value) <= r.ts)
  }

  /** Rows in non-decreasing order of time, as a log written in real time has them. */
  ghost predicate TimeOrdered<T>(rows: seq<Row<T>>) {
    && (forall i | 0 <= i < |rows| :: 0 <= rows[i].ts)
    && (forall i, j | 0 <= i < j < |rows| :: rows[i].ts <= rows[j].ts)
  }

  lemma {:induction false} FeedRowsAt<T>(feed: Feed<T>, j: nat, k: nat) returns (p: nat)
    requires j < |feed| && feed[j].Some? && k < |feed[j].value|
    ensures p < |FeedRows(feed)| && FeedRows(feed)[p] == feed[j].value[k]
    ensures feed[0].Some? && 0 < j ==> |feed[0].value| <= p
  {
    if j == 0 {
      p := k;
    } else {
      var q := FeedRowsAt(feed[1..], j - 1, k);
      p := q + if feed[0].Some? then |feed[0].value| else 0;
    }
  }

  /** A source whose rows come in time order is watermarked, however it is cut into chunks. */
  lemma {:induction false} TimeOrderedIsWatermarked<T>(feed: Feed<T>)
    requires NoEmptyChunk(feed)
    requires TimeOrdered(FeedRows(feed))
    ensures Watermarked(feed)
  {
    if feed != [] {
      TimeOrderedRest(feed);
      TimeOrderedIsWatermarked(feed[1..]);
      hide FeedRows, TimeOrdered;
      forall i, r | 0 <= i < |feed| && feed[i].Some? && r in feed[i].value
        ensures 0 <= r.ts
      {
        TimeOrderedFirst(feed, i, r);
      }
      forall i, j, r | 0 <= i < j < |feed| && feed[i].Some? && feed[j].Some? && r in feed[j].value
        ensures LastTs(feed[i].value) <= r.ts
      {
        if i == 0 {
          TimeOrderedFirst(feed, j, r);
        } else {
          assert feed[1..][i - 1] == feed[i] && feed[1..][j - 1] == feed[j];
        }
      }
    }
  }

  lemma SuffixTimeOrdered<T>(a: seq<Row<T>>, b: seq<Row<T>>)
    requires TimeOrdered(a + b)
    ensures TimeOrdered(b)
  {
    assert forall i | 0 <= i < |b| :: b[i] == (a + b)[|a| + i];
  }

  lemma TimeOrderedRest<T>(feed: Feed<T>)
    requires feed != [] && NoEmptyChunk(feed) && TimeOrdered(FeedRows(feed))
    ensures NoEmptyChunk(feed[1..]) && TimeOrdered(FeedRows(feed[1..]))
  {
    SuffixTimeOrdered(Chunk(feed[0]), FeedRows(feed[1..]));
    assert forall i | 0 <= i < |feed| - 1 :: feed[1..][i] == feed[i + 1];
  }

  /** No row is older than 0, and none of a later chunk older than the last row of the first. */
  lemma TimeOrderedFirst<T>(feed: Feed<T>, j: nat, r: Row<T>)
    requires NoEmptyChunk(feed) && TimeOrdered(FeedRows(feed))
    requires j < |feed| && feed[j].Some? && r in feed[j].value
    ensures 0 <= r.ts && (feed[0].Some? && 0 < j ==> LastTs(feed[0].value) <= r.ts)
  {
    var k :| 0 <= k < |feed[j].value| && feed[j].value[k] == r;
    var p := FeedRowsAt(feed, j, k);
    if feed[0].Some? && 0 < j {
      var n := |feed[0].value|;
      assert FeedRows(feed)[n - 1] == feed[0].value[n - 1];
    }
  }

  lemma AfterFirst<T>(feed: Feed<T>)
    requires feed != [] && NoEmptyChunk(feed)
    ensures NoEmptyChunk(feed[1..]) && (feed[0].Some? ==> feed[0].value != [])
  {
    assert forall i | 0 <= i < |feed| - 1 :: feed[1..][i] == feed[i + 1];
  }

  ghost function Chunk<T>(poll: Option<seq<Row<T>>>): seq<Row<T>> {
    if poll.Some? then poll.value else []
  }

  /** Polling source n moves its next chunk out of the pending rows. */
  lemma {:induction false} PollOne<T>(sources: map<nat, Feed<T>>, count: nat, n: nat)
    requires n < count && n in sources && sources[n] != []
    ensures Pending(sources, count) ==
            Pending(sources[n := sources[n][1..]], count) + multiset(Chunk(sources[n][0]))
  {
    hide Pending, RowsOf, Chunk, FeedRows;
    var after, chunk := sources[n := sources[n][1..]], multiset(Chunk(sources[n][0]));
    LastSource(sources, count);
    LastSource(after, count);
    var before, own := Pending(after, count - 1), RowsOf(after, count - 1);
    if n == count - 1 {
      PendingFrame(sources, after, n);
      RowsOfPolled(sources, n);
      Regroup(before, own, chunk);
    } else {
      PollOne(sources, count - 1, n);
      RowsOfOther(sources, n, count - 1);
      Regroup(before, own, chunk);
    }
  }

  lemma {:induction false} PollOneFewer<T>(sources: map<nat, Feed<T>>, count: nat, n: nat)
    requires n < count && n in sources && sources[n] != []
    ensures PollsLeft(sources[n := sources[n][1..]], count) == PollsLeft(sources, count) - 1
  {
    var after := sources[n := sources[n][1..]];
    if n == count - 1 {
      PendingFrame(sources, after, n);
    } else {
      PollOneFewer(sources, count - 1, n);
    }
  }

  lemma RowsOfPolled<T>(sources: map<nat, Feed<T>>, n: nat)
    requires n in sources && sources[n] != []
    ensures RowsOf(sources, n) == RowsOf(sources[n := sources[n][1..]], n) + multiset(Chunk(sources[n][0]))
  {
    assert FeedRows(sources[n]) == Chunk(sources[n][0]) + FeedRows(sources[n][1..]);
  }

  lemma RowsOfOther<T>(sources: map<nat, Feed<T>>, n: nat, m: nat)
    requires n in sources && sources[n] != [] && m != n
    ensures RowsOf(sources[n := sources[n][1..]], m) == RowsOf(sources, m)
  {
  }

  lemma LastSource<T>(sources: map<nat, Feed<T>>, count: nat)
    requires count > 0
    ensures Pending(sources, count) == Pending(sources, count - 1) + RowsOf(sources, count - 1)
  {
  }

  lemma Regroup<T>(a: multiset<T>, b: multiset<T>, c: multiset<T>)
    ensures (a + c) + b == (a + b) + c && a + (c + b) == (a + b) + c
  {
  }

  lemma {:induction false} PendingFrame<T>(a: map<nat, Feed<T>>, b: map<nat, Feed<T>>, count: nat)
    requires forall n: nat | n < count :: (n in a <==> n in b) && (n in a ==> a[n] == b[n])
    ensures Pending(a, count) == Pending(b, count) && PollsLeft(a, count) == PollsLeft(b, count)
  {
    if count > 0 {
      PendingFrame(a, b, count - 1);
    }
  }

  /** Dropping an exhausted source loses no row. */
  lemma {:induction false} DropExhausted<T>(sources: map<nat, Feed<T>>, count: nat, n: nat)
    requires n in sources && sources[n] == []
    ensures Pending(sources - {n}, count) == Pending(sources, count)
  {
    if count > 0 {
      DropExhausted(sources, count - 1, n);
      LastSource(sources, count);
      LastSource(sources - {n}, count);
      hide Pending, RowsOf;
      RowsOfDropped(sources, n, count - 1);
    }
  }

  lemma RowsOfDropped<T>(sources: map<nat, Feed<T>>, n: nat, m: nat)
    requires n in sources && sources[n] == []
    ensures RowsOf(sources - {n}, m) == RowsOf(sources, m)
  {
  }

  lemma {:induction false} NothingPending<T>(sources: map<nat, Feed<T>>, count: nat)
    requires sources == map[]
    ensures Pending(sources, count) == multiset{}
  {
    if count > 0 {
      NothingPending(sources, count - 1);
    }
  }

  // ----- the cache and the emitted frames

  ghost function CachedAt<T>(cache: map<int, seq<Row<T>>>, ts: int): seq<Row<T>> {
    if ts in cache then cache[ts] else []
  }

  lemma CachedCases<T>(cache: map<int, seq<Row<T>>>, ts: int)
    ensures ts in cache ==> CachedAt(cache, ts) == cache[ts]
    ensures ts !in cache ==> CachedAt(cache, ts) == []
  {
  }

  lemma CachedAfter<T>(cache: map<int, seq<Row<T>>>, t: int, rows: seq<Row<T>>, ts: int)
    ensures CachedAt(cache[t := rows], ts) == if ts == t then rows else CachedAt(cache, ts)
  {
  }

  /** The cache after the groups of the given seconds have been added to it. */
  ghost function Grouped<T>(cache: map<int, seq<Row<T>>>, chunk: seq<Row<T>>, seconds: seq<int>)
    : map<int, seq<Row<T>>>
  {
    if seconds == [] then cache
    else
      var before, ts := Grouped(cache, chunk, seconds[..|seconds| - 1]), seconds[|seconds| - 1];
      before[ts := CachedAt(before, ts) + RowsAt(chunk, ts)]
  }

  lemma GroupedNone<T>(cache: map<int, seq<Row<T>>>, chunk: seq<Row<T>>)
    ensures Grouped(cache, chunk, []) == cache
  {
  }

  lemma GroupedMore<T>(cache: map<int, seq<Row<T>>>, chunk: seq<Row<T>>, seconds: seq<int>, ts: int)
    ensures var before := Grouped(cache, chunk, seconds);
            Grouped(cache, chunk, seconds + [ts]) == before[ts := CachedAt(before, ts) + RowsAt(chunk, ts)]
  {
    hide CachedAt, RowsAt;
    assert (seconds + [ts])[..|seconds|] == seconds;
  }

  lemma {:induction false} GroupedKeys<T>(cache: map<int, seq<Row<T>>>, chunk: seq<Row<T>>, seconds: seq<int>)
    ensures forall ts :: ts in Grouped(cache, chunk, seconds) <==> ts in cache || ts in seconds
  {
    if seconds != [] {
      GroupedKeys(cache, chunk, seconds[..|seconds| - 1]);
      assert seconds == seconds[..|seconds| - 1] + [seconds[|seconds| - 1]];
    }
  }

  lemma {:induction false} GroupedAt<T>(cache: map<int, seq<Row<T>>>, chunk: seq<Row<T>>, seconds: seq<int>, ts: int)
    requires Increasing(seconds)
    ensures CachedAt(Grouped(cache, chunk, seconds), ts) ==
            if ts in seconds then CachedAt(cache, ts) + RowsAt(chunk, ts) else CachedAt(cache, ts)
  {
    if seconds != [] {
      hide RowsAt, Grouped, CachedAt;
      var front, t := seconds[..|seconds| - 1], seconds[|seconds| - 1];
      var before := Grouped(cache, chunk, front);
      assert seconds == front + [t] && t !in front;
      GroupedMore(cache, chunk, front, t);
      GroupedAt(cache, chunk, front, ts);
      CachedAfter(before, t, CachedAt(before, t) + RowsAt(chunk, t), ts);
    }
  }

  ghost function Absorbed<T>(cache: map<int, seq<Row<T>>>, chunk: seq<Row<T>>): map<int, seq<Row<T>>> {
    Grouped(cache, chunk, Sorted(Seconds(chunk)))
  }

  lemma AbsorbedIs<T>(cache: map<int, seq<Row<T>>>, chunk: seq<Row<T>>)
    requires chunk != []
    ensures Absorbed(cache, chunk) == Grouped(cache, chunk, Sorted(Seconds(chunk)))
    ensures LastTs(chunk) == chunk[|chunk| - 1].ts
  {
  }

  lemma AbsorbedAt<T>(cache: map<int, seq<Row<T>>>, chunk: seq<Row<T>>, ts: int)
    ensures ts in Absorbed(cache, chunk) <==> ts in cache || ts in Seconds(chunk)
    ensures CachedAt(Absorbed(cache, chunk), ts) == CachedAt(cache, ts) + RowsAt(chunk, ts)
  {
    GroupedKeys(cache, chunk, Sorted(Seconds(chunk)));
    GroupedAt(cache, chunk, Sorted(Seconds(chunk)), ts);
    RowsAtEmptyIff(chunk, ts);
    assert CachedAt(cache, ts) + [] == CachedAt(cache, ts);
  }

  /** The rows of second ts in all frames, in the order of emission. */
  ghost function EmittedAt<T>(frames: seq<Frame<T>>, ts: int): seq<Row<T>> {
    if frames == [] then []
    else EmittedAt(frames[..|frames| - 1], ts) +
         if frames[|frames| - 1].ts == ts then frames[|frames| - 1].rows else []
  }

  ghost function FrameSeconds<T>(frames: seq<Frame<T>>): seq<int> {
    seq(|frames|, i requires 0 <= i < |frames| => frames[i].ts)
  }

  ghost predicate WellFormed<T>(frames: seq<Frame<T>>) {
    forall f | f in frames :: f.rows != [] && f.cardinality == |f.rows|
  }

  lemma {:induction false} EmittedOnce<T>(frames: seq<Frame<T>>, i: nat)
    requires Increasing(FrameSeconds(frames)) && i < |frames|
    ensures EmittedAt(frames, frames[i].ts) == frames[i].rows
  {
    var front, last := frames[..|frames| - 1], frames[|frames| - 1];
    assert FrameSeconds(front) == FrameSeconds(frames)[..|frames| - 1];
    if i < |frames| - 1 {
      assert FrameSeconds(frames)[i] < FrameSeconds(frames)[|frames| - 1];
      EmittedOnce(front, i);
    } else {
      assert forall j | 0 <= j < |front| :: FrameSeconds(front)[j] < FrameSeconds(frames)[i];
      NotEmitted(front, last.ts);
    }
  }

  lemma {:induction false} NotEmitted<T>(frames: seq<Frame<T>>, ts: int)
    requires forall i | 0 <= i < |frames| :: FrameSeconds(frames)[i] < ts
    ensures EmittedAt(frames, ts) == []
  {
    if frames != [] {
      var front := frames[..|frames| - 1];
      assert FrameSeconds(frames)[|frames| - 1] == frames[|frames| - 1].ts;
      assert forall i | 0 <= i < |front| :: FrameSeconds(front)[i] == FrameSeconds(frames)[i];
      NotEmitted(front, ts);
    }
  }

  lemma {:induction false} EmittedSecond<T>(frames: seq<Frame<T>>, ts: int)
    requires WellFormed(frames)
    ensures EmittedAt(frames, ts) != [] <==> ts in FrameSeconds(frames)
  {
    if frames != [] {
      var n := |frames| - 1;
      EmittedSecond(frames[..n], ts);
      assert FrameSeconds(frames) == FrameSeconds(frames[..n]) + [frames[n].ts];
      assert frames[n] in frames;
    }
  }

  /** Frames in increasing order that account for every received row are the plain grouping. */
  lemma IncreasingFramesAreTheGrouping<T>(frames: seq<Frame<T>>, received: seq<Row<T>>)
    requires WellFormed(frames) && Increasing(FrameSeconds(frames))
    requires forall ts :: EmittedAt(frames, ts) == RowsAt(received, ts)
    ensures frames == GroupBySecond(received)
  {
    var seconds := Sorted(Seconds(received));
    forall ts ensures ts in FrameSeconds(frames) <==> ts in seconds {
      EmittedSecond(frames, ts);
      RowsAtEmptyIff(received, ts);
    }
    IncreasingUnique(FrameSeconds(frames), seconds);
    forall i | 0 <= i < |frames| ensures frames[i] == GroupBySecond(received)[i] {
      EmittedOnce(frames, i);
      assert FrameSeconds(frames)[i] == frames[i].ts;
      assert frames[i] in frames;
    }
  }

  /** The grouping depends only on which rows there are: two arrival orders of the same rows give
      frames for the same seconds, holding the same rows. */
  lemma GroupingIgnoresArrivalOrder<T>(a: seq<Row<T>>, b: seq<Row<T>>)
    requires multiset(a) == multiset(b)
    ensures FrameSeconds(GroupBySecond(a)) == FrameSeconds(GroupBySecond(b))
    ensures forall i | 0 <= i < |GroupBySecond(a)| ::
              multiset(GroupBySecond(a)[i].rows) == multiset(GroupBySecond(b)[i].rows)
  {
    assert Seconds(a) == Seconds(b) by {
      forall ts ensures ts in Seconds(a) <==> ts in Seconds(b) {
        if ts in Seconds(a) {
          var i :| 0 <= i < |a| && a[i].ts == ts;
          assert a[i] in multiset(a) && a[i] in multiset(b);
        }
        if ts in Seconds(b) {
          var i :| 0 <= i < |b| && b[i].ts == ts;
          assert b[i] in multiset(b) && b[i] in multiset(a);
        }
      }
    }
    forall i | 0 <= i < |GroupBySecond(a)|
      ensures multiset(GroupBySecond(a)[i].rows) == multiset(GroupBySecond(b)[i].rows)
    {
      var ts := Sorted(Seconds(a))[i];
      forall r: Row<T> ensures multiset(RowsAt(a, ts))[r] == multiset(RowsAt(b, ts))[r] {
        RowsAtMultiplicity(a, ts, r);
        RowsAtMultiplicity(b, ts, r);
      }
      SameCounts(multiset(RowsAt(a, ts)), multiset(RowsAt(b, ts)));
    }
  }

  lemma SameCounts<T>(a: multiset<Row<T>>, b: multiset<Row<T>>)
    requires forall r: Row<T> :: a[r] == b[r]
    ensures a == b
  {
    assert a <= b && b <= a;
  }

  /** Nothing is lost or duplicated; holds whatever the order of the rows. */
  ghost predicate Accounted<T>(all: multiset<Row<T>>, count: nat, sources: map<nat, Feed<T>>,
                               cache: map<int, seq<Row<T>>>, yielded: seq<Frame<T>>, received: seq<Row<T>>) {
    && (forall n | n in sources :: n < count && NoEmptyChunk(sources[n]))
    && all == Pending(sources, count) + multiset(received)
    && Booked(cache, yielded, received)
  }

  /** Second by second, the received rows are those emitted followed by those cached. */
  ghost predicate Booked<T>(cache: map<int, seq<Row<T>>>, yielded: seq<Frame<T>>, received: seq<Row<T>>) {
    && WellFormed(yielded)
    && (forall ts | ts in cache :: cache[ts] != [])
    && (forall ts :: RowsAt(received, ts) == EmittedAt(yielded, ts) + CachedAt(cache, ts))
  }

  /** Every second already emitted is older than all that is cached or still to come. */
  ghost predicate Ordered<T>(sources: map<nat, Feed<T>>, recentTs: map<nat, int>, cache: map<int, seq<Row<T>>>,
                             yielded: seq<Frame<T>>)
    requires sources.Keys == recentTs.Keys
    requires forall n | n in sources :: NoEmptyChunk(sources[n])
  {
    && (forall n | n in sources :: Watermarked(sources[n]) && NotBefore(sources[n], recentTs[n]))
    && Increasing(FrameSeconds(yielded))
    && (forall f, ts | f in yielded && ts in cache :: f.ts < ts)
    && (forall f, n | f in yielded && n in sources :: f.ts < recentTs[n])
  }

  ghost predicate NotBefore<T>(feed: Feed<T>, ts: int) {
    forall i, r | 0 <= i < |feed| && feed[i].Some? && r in feed[i].value :: ts <= r.ts
  }

  lemma AbsorbKeepsAccount<T>(emitted: seq<T>, cached: seq<T>, rows: seq<T>, received: seq<T>)
    requires received == emitted + cached
    ensures received + rows == emitted + (cached + rows)
  {
  }

  lemma AbsorbKeepsBooked<T>(cache: map<int, seq<Row<T>>>, yielded: seq<Frame<T>>, received: seq<Row<T>>,
                             chunk: seq<Row<T>>)
    requires Booked(cache, yielded, received)
    ensures Booked(Absorbed(cache, chunk), yielded, received + chunk)
  {
    forall ts
      ensures RowsAt(received + chunk, ts) == EmittedAt(yielded, ts) + CachedAt(Absorbed(cache, chunk), ts)
      ensures ts in Absorbed(cache, chunk) ==> Absorbed(cache, chunk)[ts] != []
    {
      hide RowsAt, EmittedAt, Absorbed, Seconds, WellFormed;
      RowsAtConcat(received, chunk, ts);
      AbsorbedAt(cache, chunk, ts);
      RowsAtEmptyIff(chunk, ts);
      AbsorbKeepsAccount(EmittedAt(yielded, ts), CachedAt(cache, ts), RowsAt(chunk, ts), RowsAt(received, ts));
    }
  }

  lemma PollKeepsConserved<T>(all: multiset<Row<T>>, count: nat, sources: map<nat, Feed<T>>, received: seq<Row<T>>,
                              n: nat)
    requires n < count && n in sources && sources[n] != []
    requires all == Pending(sources, count) + multiset(received)
    ensures all == Pending(sources[n := sources[n][1..]], count) + multiset(received + Chunk(sources[n][0]))
    ensures PollsLeft(sources[n := sources[n][1..]], count) == PollsLeft(sources, count) - 1
  {
    var chunk := Chunk(sources[n][0]);
    PollOne(sources, count, n);
    PollOneFewer(sources, count, n);
    var rest := Pending(sources[n := sources[n][1..]], count);
    assert multiset(received + chunk) == multiset(received) + multiset(chunk);
    assert (rest + multiset(chunk)) + multiset(received) == rest + (multiset(received) + multiset(chunk));
  }

  /** A poll adds no row older than the watermark, and moves the watermark forward. */
  lemma PollKeepsOrdered<T>(sources: map<nat, Feed<T>>, recentTs: map<nat, int>, cache: map<int, seq<Row<T>>>,
                            yielded: seq<Frame<T>>, n: nat)
    requires sources.Keys == recentTs.Keys && forall m | m in sources :: NoEmptyChunk(sources[m])
    requires Ordered(sources, recentTs, cache, yielded)
    requires n in sources && sources[n] != []
    ensures var poll, after := sources[n][0], sources[n := sources[n][1..]];
            (forall m | m in after :: NoEmptyChunk(after[m])) &&
            if poll.Some?
            then Ordered(after, recentTs[n := LastTs(poll.value)], Absorbed(cache, poll.value), yielded)
            else Ordered(after, recentTs, cache, yielded)
  {
    var feed, rest := sources[n], sources[n][1..];
    assert forall i | 0 <= i < |rest| :: rest[i] == feed[i + 1];
    assert Watermarked(rest) && NotBefore(rest, recentTs[n]);
    if feed[0].Some? {
      var chunk := feed[0].value;
      assert chunk[|chunk| - 1] in chunk;
      assert NotBefore(rest, LastTs(chunk));
      forall f, ts | f in yielded && ts in Absorbed(cache, chunk) ensures f.ts < ts {
        AbsorbedAt(cache, chunk, ts);
        if ts !in cache {
          var i :| 0 <= i < |chunk| && chunk[i].ts == ts;
          assert chunk[i] in feed[0].value;
        }
      }
    }
  }

  /** Emitting the oldest cached second keeps the account; below every watermark it also keeps the order. */
  lemma EmitKeepsBooked<T>(cache: map<int, seq<Row<T>>>, yielded: seq<Frame<T>>, received: seq<Row<T>>, ts: int)
    requires Booked(cache, yielded, received) && ts in cache
    ensures Booked(cache - {ts}, yielded + [Frame(ts, cache[ts], |cache[ts]|)], received)
  {
    var yielded' := yielded + [Frame(ts, cache[ts], |cache[ts]|)];
    assert yielded'[..|yielded|] == yielded;
    forall k ensures RowsAt(received, k) == EmittedAt(yielded', k) + CachedAt(cache - {ts}, k) {
      assert EmittedAt(yielded', k) == EmittedAt(yielded, k) + if k == ts then cache[ts] else [];
      assert EmittedAt(yielded, k) + [] == EmittedAt(yielded, k);
    }
  }

  lemma EmitKeepsOrdered<T>(sources: map<nat, Feed<T>>, recentTs: map<nat, int>, cache: map<int, seq<Row<T>>>,
                            yielded: seq<Frame<T>>, ts: int)
    requires sources.Keys == recentTs.Keys && forall m | m in sources :: NoEmptyChunk(sources[m])
    requires Ordered(sources, recentTs, cache, yielded)
    requires ts in cache && (forall k | k in cache :: ts <= k) && (forall n | n in sources :: ts < recentTs[n])
    ensures Ordered(sources, recentTs, cache - {ts}, yielded + [Frame(ts, cache[ts], |cache[ts]|)])
  {
    var yielded' := yielded + [Frame(ts, cache[ts], |cache[ts]|)];
    assert FrameSeconds(yielded') == FrameSeconds(yielded) + [ts];
    forall i | 0 <= i < |yielded| ensures FrameSeconds(yielded')[i] < ts {
      assert yielded[i] in yielded;
    }
  }

  // ----- exactly when a second is split

  /** What happens while the sources last: a source delivers a chunk, a source ends, or a round of polls ends, after
      which all cached seconds below the floor leave. */
  datatype Event<T> = Came(source: nat, rows: seq<Row<T>>) | Ended(source: nat) | Passed(floor: int)

  ghost predicate Running<T>(sources: map<nat, Feed<T>>, recentTs: map<nat, int>, count: nat) {
    sources.Keys == recentTs.Keys && forall n | n in sources :: n < count && NoEmptyChunk(sources[n])
  }

  ghost predicate HasFrom<T>(sources: map<nat, Feed<T>>, n: nat) {
    exists m :: m in sources && m >= n
  }

  /** What is still to happen, when source n is the next to be polled. The floor is the least last index. */
  ghost function Future<T>(sources: map<nat, Feed<T>>, recentTs: map<nat, int>, count: nat, n: nat): seq<Event<T>>
    requires Running(sources, recentTs, count) && n <= count
    decreases |sources.Keys|, PollsLeft(sources, count), !HasFrom(sources, n), count - n
  {
    if sources == map[] then []
    else if n == count then
      SomeKey(sources); SomeFloor(sources, recentTs);
      [Passed(Least(recentTs.Values))] + Future(sources, recentTs, count, 0)
    else if n !in sources then Future(sources, recentTs, count, n + 1)
    else if sources[n] == [] then [Ended(n)] + Future(sources - {n}, recentTs - {n}, count, 0)
    else
      AfterFirst(sources[n]); PollOneFewer(sources, count, n);
      var after := sources[n := sources[n][1..]];
      assert after.Keys == sources.Keys;
      match sources[n][0]
      case None => Future(after, recentTs, count, n + 1)
      case Some(rows) => [Came(n, rows)] + Future(after, recentTs[n := LastTs(rows)], count, n + 1)
  }

  lemma SomeFloor<T>(sources: map<nat, Feed<T>>, recentTs: map<nat, int>)
    requires sources != map[] && sources.Keys == recentTs.Keys
    ensures recentTs.Values != {}
  {
    SomeKey(sources);
    var n :| n in sources;
    assert recentTs[n] in recentTs.Values;
  }

  function Zeros<T>(feeds: seq<Feed<T>>): map<nat, int> {
    map n | n in Numbered(feeds) :: 0
  }

  /** All that happens for sources that deliver these feeds. */
  ghost function Events<T>(feeds: seq<Feed<T>>): seq<Event<T>>
    requires forall feed | feed in feeds :: NoEmptyChunk(feed)
  {
    Future(Numbered(feeds), Zeros(feeds), |feeds|, 0)
  }

  /** The past and what is still to happen make up all that happens. */
  ghost predicate OnCourse<T>(history: seq<Event<T>>, sources: map<nat, Feed<T>>, recentTs: map<nat, int>, count: nat,
                              n: nat, all: seq<Event<T>>) {
    Running(sources, recentTs, count) && n <= count && history + Future(sources, recentTs, count, n) == all
  }

  lemma CourseAtEnd<T>(history: seq<Event<T>>, sources: map<nat, Feed<T>>, recentTs: map<nat, int>, count: nat, n: nat,
                       all: seq<Event<T>>)
    requires OnCourse(history, sources, recentTs, count, n, all) && sources == map[]
    ensures history == all
  {
  }

  lemma CourseOfRound<T>(history: seq<Event<T>>, sources: map<nat, Feed<T>>, recentTs: map<nat, int>, count: nat,
                         all: seq<Event<T>>)
    requires OnCourse(history, sources, recentTs, count, count, all) && sources != map[] && recentTs.Values != {}
    ensures OnCourse(history + [Passed(Least(recentTs.Values))], sources, recentTs, count, 0, all)
  {
    Associate(history, [Passed(Least(recentTs.Values))], Future(sources, recentTs, count, 0));
  }

  lemma CourseSkips<T>(history: seq<Event<T>>, sources: map<nat, Feed<T>>, recentTs: map<nat, int>, count: nat, n: nat,
                       all: seq<Event<T>>)
    requires OnCourse(history, sources, recentTs, count, n, all) && n < count && n !in sources
    ensures OnCourse(history, sources, recentTs, count, n + 1, all)
  {
  }

  lemma CourseAfterEnd<T>(history: seq<Event<T>>, sources: map<nat, Feed<T>>, recentTs: map<nat, int>, count: nat,
                          n: nat, all: seq<Event<T>>)
    requires OnCourse(history, sources, recentTs, count, n, all) && n in sources && sources[n] == []
    ensures OnCourse(history + [Ended(n)], sources - {n}, recentTs - {n}, count, 0, all)
  {
    Associate(history, [Ended(n)], Future(sources - {n}, recentTs - {n}, count, 0));
  }

  lemma CourseAfterPoll<T>(history: seq<Event<T>>, sources: map<nat, Feed<T>>, recentTs: map<nat, int>, count: nat,
                           n: nat, all: seq<Event<T>>)
    requires OnCourse(history, sources, recentTs, count, n, all) && n in sources && sources[n] != []
    requires sources[n][0].Some? ==> sources[n][0].value != []
    ensures var poll, after := sources[n][0], sources[n := sources[n][1..]];
            match poll
            case None => OnCourse(history, after, recentTs, count, n + 1, all)
            case Some(rows) =>
              OnCourse(history + [Came(n, rows)], after, recentTs[n := LastTs(rows)], count, n + 1, all)
  {
    hide LastTs;
    AfterFirst(sources[n]);
    var after := sources[n := sources[n][1..]];
    if sources[n][0].Some? {
      var rows := sources[n][0].value;
      Associate(history, [Came(n, rows)], Future(after, recentTs[n := LastTs(rows)], count, n + 1));
    }
  }

  ghost function RowsOfEvent<T>(e: Event<T>): seq<Row<T>> {
    if e.Came? then e.rows else []
  }

  ghost function RowsThatCame<T>(events: seq<Event<T>>): seq<Row<T>> {
    if events == [] then [] else RowsThatCame(events[..|events| - 1]) + RowsOfEvent(events[|events| - 1])
  }

  /** The seconds that are gone: those that had come before a round ended with a floor above them. */
  ghost function Gone<T>(events: seq<Event<T>>): set<int> {
    if events == [] then {}
    else
      var before, last := events[..|events| - 1], events[|events| - 1];
      Gone(before) + if last.Passed? then UpTo(Seconds(RowsThatCame(before)), last.floor - 1) else {}
  }

  /** No row came for a second that was gone; or, every row came for a second later than all that were gone. */
  ghost predicate OnTime<T>(events: seq<Event<T>>, later: bool) {
    events == [] ||
    var before, last := events[..|events| - 1], events[|events| - 1];
    OnTime(before, later) && forall r, t | r in RowsOfEvent(last) && t in Gone(before) :: Apart(t, r.ts, later)
  }

  lemma OneMoreEvent<T>(events: seq<Event<T>>, e: Event<T>, later: bool)
    ensures RowsThatCame(events + [e]) == RowsThatCame(events) + RowsOfEvent(e)
    ensures Gone(events + [e]) ==
            Gone(events) + if e.Passed? then UpTo(Seconds(RowsThatCame(events)), e.floor - 1) else {}
    ensures OnTime(events + [e], later) <==>
            OnTime(events, later) && forall r, t | r in RowsOfEvent(e) && t in Gone(events) :: Apart(t, r.ts, later)
  {
    hide RowsOfEvent, Apart, UpTo, Seconds;
    assert (events + [e])[..|events|] == events;
  }

  /** Another second, or a later one. */
  ghost predicate Apart(first: int, next: int, later: bool) {
    if later then first < next else first != next
  }

  ghost predicate PairwiseApart<T>(frames: seq<Frame<T>>, later: bool) {
    forall i, j | 0 <= i < j < |frames| :: Apart(frames[i].ts, frames[j].ts, later)
  }

  ghost predicate Clean<T>(cache: map<int, seq<Row<T>>>, yielded: seq<Frame<T>>, later: bool) {
    PairwiseApart(yielded, later) && forall i, ts | 0 <= i < |yielded| && ts in cache :: Apart(yielded[i].ts, ts, later)
  }

  /** The frames are as they should be as long as the rows came on time, and no longer. */
  ghost predicate Tracked<T>(events: seq<Event<T>>, cache: map<int, seq<Row<T>>>, yielded: seq<Frame<T>>) {
    && (OnTime(events, true) <==> Clean(cache, yielded, true))
    && (OnTime(events, false) <==> Clean(cache, yielded, false))
  }

  /** The seconds yielded are those that are gone. */
  ghost predicate Settled<T>(events: seq<Event<T>>, yielded: seq<Frame<T>>) {
    forall t :: t in Gone(events) <==> t in FrameSeconds(yielded)
  }

  ghost predicate ChunkOnTime<T>(chunk: seq<Row<T>>, yielded: seq<Frame<T>>, later: bool) {
    forall r, i | r in chunk && 0 <= i < |yielded| :: Apart(yielded[i].ts, r.ts, later)
  }

  lemma OnTimeWithChunk<T>(events: seq<Event<T>>, yielded: seq<Frame<T>>, n: nat, chunk: seq<Row<T>>, later: bool)
    requires Settled(events, yielded)
    ensures OnTime(events + [Came(n, chunk)], later) <==> OnTime(events, later) && ChunkOnTime(chunk, yielded, later)
  {
    hide OnTime, Gone, Apart;
    OneMoreEvent(events, Came(n, chunk), later);
    if ChunkOnTime(chunk, yielded, later) {
      forall r, t | r in chunk && t in Gone(events) ensures Apart(t, r.ts, later) {
        var i :| 0 <= i < |yielded| && FrameSeconds(yielded)[i] == t;
        assert Apart(yielded[i].ts, r.ts, later);
      }
    } else {
      var r, i :| r in chunk && 0 <= i < |yielded| && !Apart(yielded[i].ts, r.ts, later);
      assert FrameSeconds(yielded)[i] == yielded[i].ts;
      assert r in RowsOfEvent(Came(n, chunk)) && yielded[i].ts in Gone(events);
    }
  }

  lemma CleanWithChunk<T>(cache: map<int, seq<Row<T>>>, yielded: seq<Frame<T>>, chunk: seq<Row<T>>, later: bool)
    ensures Clean(Absorbed(cache, chunk), yielded, later) <==>
            Clean(cache, yielded, later) && ChunkOnTime(chunk, yielded, later)
  {
    forall ts ensures ts in Absorbed(cache, chunk) <==> ts in cache || ts in Seconds(chunk) {
      AbsorbedAt(cache, chunk, ts);
    }
    hide Absorbed, Apart;
    if Clean(Absorbed(cache, chunk), yielded, later) {
      forall r, i | r in chunk && 0 <= i < |yielded| ensures Apart(yielded[i].ts, r.ts, later) {
        assert r.ts in Seconds(chunk);
      }
    }
    if ChunkOnTime(chunk, yielded, later) {
      forall i, ts | 0 <= i < |yielded| && ts in Seconds(chunk) ensures Apart(yielded[i].ts, ts, later) {
        var k :| 0 <= k < |chunk| && chunk[k].ts == ts;
        assert chunk[k] in chunk;
      }
    }
  }

  lemma DeliveryKeepsTracked<T>(events: seq<Event<T>>, cache: map<int, seq<Row<T>>>, yielded: seq<Frame<T>>, n: nat,
                               chunk: seq<Row<T>>)
    requires Tracked(events, cache, yielded) && Settled(events, yielded)
    ensures Tracked(events + [Came(n, chunk)], Absorbed(cache, chunk), yielded)
    ensures Settled(events + [Came(n, chunk)], yielded)
    ensures RowsThatCame(events + [Came(n, chunk)]) == RowsThatCame(events) + chunk
  {
    hide OnTime, Clean, ChunkOnTime, Absorbed, Gone, RowsThatCame, Seconds, FrameSeconds, UpTo;
    OneMoreEvent(events, Came(n, chunk), true);
    OnTimeWithChunk(events, yielded, n, chunk, true);
    OnTimeWithChunk(events, yielded, n, chunk, false);
    CleanWithChunk(cache, yielded, chunk, true);
    CleanWithChunk(cache, yielded, chunk, false);
  }

  lemma EndKeepsTracked<T>(events: seq<Event<T>>, cache: map<int, seq<Row<T>>>, yielded: seq<Frame<T>>, e: Event<T>)
    requires Tracked(events, cache, yielded) && !e.Came?
    ensures Tracked(events + [e], cache, yielded) && RowsThatCame(events + [e]) == RowsThatCame(events)
    ensures e.Ended? && Settled(events, yielded) ==> Settled(events + [e], yielded)
  {
    hide OnTime, Clean, Gone, RowsThatCame, UpTo, Seconds, FrameSeconds;
    OneMoreEvent(events, e, true);
    OneMoreEvent(events, e, false);
    assert RowsThatCame(events) + [] == RowsThatCame(events);
  }

  /** When the seconds below the floor have left, those yielded are again those that are gone. */
  lemma PassSettles<T>(events: seq<Event<T>>, cache: map<int, seq<Row<T>>>, yielded: seq<Frame<T>>, floor: int)
    requires Settled(events, yielded) && Booked(cache, yielded, RowsThatCame(events))
    ensures Settled(events + [Passed(floor)], yielded + FramesFor(cache, Sorted(UpTo(cache.Keys, floor - 1))))
  {
    hide RowsThatCame, Gone, RowsAt, EmittedAt, Seconds;
    var left := Sorted(UpTo(cache.Keys, floor - 1));
    OneMoreEvent(events, Passed(floor), true);
    assert FrameSeconds(yielded + FramesFor(cache, left)) == FrameSeconds(yielded) + left;
    forall t ensures t in Seconds(RowsThatCame(events)) <==> t in FrameSeconds(yielded) || t in cache {
      RowsAtEmptyIff(RowsThatCame(events), t);
      EmittedSecond(yielded, t);
      assert RowsAt(RowsThatCame(events), t) == EmittedAt(yielded, t) + CachedAt(cache, t);
    }
    assert forall t :: t in left <==> t in UpTo(cache.Keys, floor - 1);
  }

  lemma CleanAfterEmit<T>(cache: map<int, seq<Row<T>>>, yielded: seq<Frame<T>>, f: Frame<T>, later: bool)
    requires f.ts in cache && forall k | k in cache :: f.ts <= k
    ensures Clean(cache - {f.ts}, yielded + [f], later) <==> Clean(cache, yielded, later)
  {
    var more, rest := yielded + [f], cache - {f.ts};
    assert forall i | 0 <= i < |yielded| :: more[i] == yielded[i];
    if Clean(rest, more, later) {
      forall i, ts | 0 <= i < |yielded| && ts in cache ensures Apart(yielded[i].ts, ts, later) {
        assert Apart(more[i].ts, more[|yielded|].ts, later);
        assert ts != f.ts ==> ts in rest && Apart(more[i].ts, ts, later);
      }
      forall i, j | 0 <= i < j < |yielded| ensures Apart(yielded[i].ts, yielded[j].ts, later) {
        assert Apart(more[i].ts, more[j].ts, later);
      }
    }
  }

  lemma EmitKeepsTracked<T>(events: seq<Event<T>>, cache: map<int, seq<Row<T>>>, yielded: seq<Frame<T>>, f: Frame<T>)
    requires Tracked(events, cache, yielded)
    requires f.ts in cache && forall k | k in cache :: f.ts <= k
    ensures Tracked(events, cache - {f.ts}, yielded + [f])
  {
    hide Clean, OnTime;
    CleanAfterEmit(cache, yielded, f, true);
    CleanAfterEmit(cache, yielded, f, false);
  }

  /** At the end: no second is split exactly when no row came for a second that was gone, and the frames are the plain
      grouping exactly when every row came for a second later than all that were gone. */
  lemma FinalTracked<T>(events: seq<Event<T>>, yielded: seq<Frame<T>>, received: seq<Row<T>>)
    requires Tracked(events, map[], yielded) && WellFormed(yielded)
    requires forall ts :: EmittedAt(yielded, ts) == RowsAt(received, ts)
    ensures PairwiseApart(yielded, false) <==> OnTime(events, false)
    ensures yielded == GroupBySecond(received) <==> OnTime(events, true)
  {
    hide OnTime, RowsAt, EmittedAt;
    if PairwiseApart(yielded, true) {
      IncreasingFramesAreTheGrouping(yielded, received);
    }
    if yielded == GroupBySecond(received) {
      assert FrameSeconds(yielded) == Sorted(Seconds(received));
      forall i, j | 0 <= i < j < |yielded| ensures yielded[i].ts < yielded[j].ts {
        assert FrameSeconds(yielded)[i] < FrameSeconds(yielded)[j];
      }
    }
  }

  // ----- the generator

  /** `yielded` collects what `__iter__` yields. `feeds`, `received` and `history` are ghost: what the sources
      deliver in all, the rows taken from them so far in order of arrival, and what has happened so far. */
  class TimeChopper<T> {
    ghost const feeds: seq<Feed<T>>
    ghost var received: seq<Row<T>>
    ghost var history: seq<Event<T>>
    const count: nat
    var sources: map<nat, Feed<T>>
    var recentTs: map<nat, int>
    var cache: map<int, seq<Row<T>>>
    var yielded: seq<Frame<T>>

    ghost predicate Valid()
      reads this
    {
      && count == |feeds| && (forall feed | feed in feeds :: NoEmptyChunk(feed))
      && Accounted(AllRows(feeds), count, sources, cache, yielded, received)
      && sources.Keys == recentTs.Keys
      && Tracked(history, cache, yielded) && RowsThatCame(history) == received
    }

    /** Nothing happens but what the feeds bring about, source n being the next to be polled. */
    ghost predicate AtSource(n: nat)
      requires Valid()
      reads this
    {
      Settled(history, yielded) && OnCourse(history, sources, recentTs, count, n, Events(feeds))
    }

    ghost predicate InOrder()
      requires Valid()
      reads this
    {
      Ordered(sources, recentTs, cache, yielded)
    }

    constructor (inputs: seq<Feed<T>>)
      requires forall feed | feed in inputs :: NoEmptyChunk(feed)
      ensures Valid() && feeds == inputs && count == |inputs| == |sources|
      ensures yielded == [] && received == [] && cache == map[] && history == [] && sources == Numbered(inputs)
      ensures AtSource(0)
      ensures (forall feed | feed in inputs :: Watermarked(feed)) ==> InOrder()
    {
      hide Pending, PollsLeft, Booked, Ordered, Watermarked, RowsAt, NoEmptyChunk;
      feeds := inputs;
      count := |inputs|;
      var numbered: map<nat, Feed<T>> := map n: nat | 0 <= n < |inputs| :: inputs[n];
      assert numbered == Numbered(inputs);
      sources := numbered;
      recentTs := Zeros(inputs);
      cache := map[];
      yielded := [];
      received := [];
      history := [];
      new;
      NumberedSize(inputs);
      Initially(inputs, sources, recentTs);
    }

    /** Takes one chunk: moves the watermark of source n and groups the rows into the cache. */
    method Absorb(n: nat, chunk: seq<Row<T>>)
      requires n in recentTs && chunk != []
      modifies `recentTs, `cache
      ensures recentTs == old(recentTs)[n := LastTs(chunk)]
      ensures cache == Absorbed(old(cache), chunk)
    {
      hide *;
      recentTs := recentTs[n := chunk[|chunk| - 1].ts];
      AbsorbedIs(cache, chunk);
      var grouped := SortKeys(Seconds(chunk));
      GroupedNone(cache, chunk);
      for g := 0 to |grouped|
        invariant cache == Grouped(old(cache), chunk, grouped[..g])
        invariant recentTs == old(recentTs)[n := LastTs(chunk)]
      {
        var ts := grouped[g];
        var group := RowsAt(chunk, ts);
        GroupedMore(old(cache), chunk, grouped[..g], ts);
        CachedCases(cache, ts);
        assert grouped[..g + 1] == grouped[..g] + [ts] && [] + group == group;
        if ts in cache {
          cache := cache[ts := cache[ts] + group];
        } else {
          cache := cache[ts := group];
        }
      }
      assert grouped[..|grouped|] == grouped;
    }

    /** One `next(source)` that returned: the rows of the chunk, if any, enter the cache. */
    method Poll(n: nat)
      requires Valid() && AtSource(n) && n in sources && sources[n] != []
      modifies `sources, `received, `history, `recentTs, `cache
      ensures Valid() && AtSource(n + 1)
      ensures sources == old(sources)[n := old(sources)[n][1..]]
      ensures received == old(received) + Chunk(old(sources)[n][0])
      ensures history == old(history) + if old(sources)[n][0].Some? then [Came(n, old(sources)[n][0].value)] else []
      ensures match old(sources)[n][0]
        case Some(chunk) => recentTs == old(recentTs)[n := LastTs(chunk)] && cache == Absorbed(old(cache), chunk)
        case None => recentTs == old(recentTs) && cache == old(cache)
      ensures PollsLeft(sources, count) == old(PollsLeft(sources, count)) - 1
      ensures old(InOrder()) ==> InOrder()
    {
      hide Booked, Ordered, Pending, PollsLeft, AllRows, Absorbed, LastTs, Tracked, RowsThatCame, NoEmptyChunk,
           OnCourse, Settled, Events;
      var chunk := sources[n][0];
      AfterFirst(sources[n]);
      CourseAfterPoll(history, sources, recentTs, count, n, Events(feeds));
      PollKeepsConserved(AllRows(feeds), count, sources, received, n);
      if InOrder() {
        PollKeepsOrdered(sources, recentTs, cache, yielded, n);
      }
      sources := sources[n := sources[n][1..]];
      received := received + Chunk(chunk);
      if chunk.Some? {
        AbsorbKeepsBooked(cache, yielded, old(received), chunk.value);
        DeliveryKeepsTracked(history, cache, yielded, n, chunk.value);
        history := history + [Came(n, chunk.value)];
        Absorb(n, chunk.value);
      } else {
        assert received == old(received);
      }
    }

    /** `cache.pop(ts)` of the oldest second, followed by the yield. */
    method Emit(ts: int)
      requires Valid() && ts in cache && forall k | k in cache :: ts <= k
      modifies `cache, `yielded
      ensures Valid()
      ensures cache == old(cache) - {ts}
      ensures yielded == old(yielded) + [Frame(ts, old(cache)[ts], |old(cache)[ts]|)]
      ensures old(InOrder()) && Below(recentTs, ts) ==> InOrder()
    {
      hide Booked, Ordered, Pending, PollsLeft, Tracked, RowsThatCame;
      EmitKeepsBooked(cache, yielded, received, ts);
      EmitKeepsTracked(history, cache, yielded, Frame(ts, cache[ts], |cache[ts]|));
      if InOrder() && Below(recentTs, ts) {
        EmitKeepsOrdered(sources, recentTs, cache, yielded, ts);
      }
      var data := cache[ts];
      cache := cache - {ts};
      yielded := yielded + [Frame(ts, data, |data|)];
    }

    /** Emits every cached second that no source can still add to. */
    method EmitReady()
      requires Valid() && AtSource(count) && sources != map[]
      modifies `cache, `yielded, `history
      ensures Valid() && AtSource(0)
      ensures old(InOrder()) ==> InOrder()
      ensures var ready := Sorted(ReadySeconds(old(cache), recentTs));
              yielded == old(yielded) + FramesFor(old(cache), ready)
      ensures cache == old(cache) - ReadySeconds(old(cache), recentTs)
      ensures recentTs.Values != {} && history == old(history) + [Passed(Least(recentTs.Values))]
    {
      hide *;
      var lastReady := PassFloor();
      ReadyBelowLeast(cache, recentTs);
      var ready := SortKeys(UpTo(cache.Keys, lastReady));
      EmitAll(ready, lastReady);
      ArriveAt(0);
    }

    lemma ArriveAt(n: nat)
      requires Valid() && Settled(history, yielded)
      requires OnCourse(history, sources, recentTs, count, n, Events(feeds))
      ensures AtSource(n)
    {
    }

    /** The last second that no source can still add to. */
    method PassFloor() returns (lastReady: int)
      requires Valid() && AtSource(count) && sources != map[]
      modifies `history
      ensures Valid() && recentTs.Values != {} && lastReady == Least(recentTs.Values) - 1
      ensures history == old(history) + [Passed(lastReady + 1)]
      ensures OnCourse(history, sources, recentTs, count, 0, Events(feeds))
      ensures Settled(history, yielded + FramesFor(cache, Sorted(UpTo(cache.Keys, lastReady))))
      ensures old(InOrder()) ==> InOrder()
    {
      hide Booked, Ordered, Pending, Tracked, RowsThatCame, Settled, OnCourse, Events, NoEmptyChunk, AllRows, FramesFor;
      SomeFloor(sources, recentTs);
      lastReady := Least(recentTs.Values) - 1;
      CourseOfRound(history, sources, recentTs, count, Events(feeds));
      EndKeepsTracked(history, cache, yielded, Passed(lastReady + 1));
      PassSettles(history, cache, yielded, lastReady + 1);
      history := history + [Passed(lastReady + 1)];
    }

    /** The seconds up to the last ready one leave, the oldest first. */
    method EmitAll(ready: seq<int>, ghost lastReady: int)
      requires Valid() && ready == Sorted(UpTo(cache.Keys, lastReady))
      modifies `cache, `yielded
      ensures Valid()
      ensures old(InOrder()) && Below(recentTs, lastReady) ==> InOrder()
      ensures yielded == old(yielded) + FramesFor(old(cache), ready)
      ensures cache == old(cache) - UpTo(old(cache).Keys, lastReady)
    {
      hide *;
      NothingEmitted(cache);
      for i := 0 to |ready|
        invariant Valid()
        invariant cache == old(cache) - Elements(ready[..i])
        invariant yielded == old(yielded) + FramesFor(old(cache), ready[..i])
        invariant old(InOrder()) && Below(recentTs, lastReady) ==> InOrder()
      {
        OldestReady(old(cache).Keys, lastReady, ready, i);
        EmitOneMore(old(cache), ready, i);
        StillBelow(recentTs, lastReady, ready[i]);
        Emit(ready[i]);
      }
      assert ready[..|ready|] == ready;
      ElementsOfSorted(UpTo(old(cache).Keys, lastReady));
    }

    /** One round of polls, each source once; stops at the first source that is exhausted. */
    method PollRound() returns (ended: Option<nat>)
      requires Valid() && AtSource(0) && sources != map[]
      modifies `sources, `received, `history, `recentTs, `cache
      ensures Valid() && sources.Keys == old(sources.Keys)
      ensures ended.Some? ==> AtSource(ended.value)
      ensures ended.None? ==> AtSource(count)
      ensures old(InOrder()) ==> InOrder()
      ensures Polled(old(sources), sources, if ended.Some? then ended.value else count)
      ensures ended.Some? ==> ended.value in sources && sources[ended.value] == []
      ensures PollsLeft(sources, count) <= old(PollsLeft(sources, count))
      ensures ended.None? ==> PollsLeft(sources, count) < old(PollsLeft(sources, count))
    {
      hide Booked, Ordered, Pending, PollsLeft, Absorbed, LastTs, Polled, Tracked, RowsThatCame, NoEmptyChunk, OnCourse,
           Settled, Events;
      SomeKey(sources);
      NonePolled(sources);
      for n := 0 to count
        invariant Valid() && AtSource(n) && Polled(old(sources), sources, n) && sources.Keys == old(sources.Keys)
        invariant old(InOrder()) ==> InOrder()
        invariant PollsLeft(sources, count) <= old(PollsLeft(sources, count))
        invariant (exists m :: m in sources && m < n) ==> PollsLeft(sources, count) < old(PollsLeft(sources, count))
      {
        OneMorePolled(old(sources), sources, n);
        if n in sources {
          if sources[n] == [] {
            return Some(n);
          }
          Poll(n);
        } else {
          CourseSkips(history, sources, recentTs, count, n, Events(feeds));
        }
      }
      return None;
    }

    /** One turn of the outer loop: rounds of polls until a source ends; exactly that source is dropped. */
    method RetireOne()
      requires Valid() && AtSource(0) && sources != map[]
      modifies `sources, `received, `history, `recentTs, `cache, `yielded
      ensures Valid() && AtSource(0)
      ensures old(InOrder()) ==> InOrder()
      ensures exists n | n in old(sources) :: sources.Keys == old(sources.Keys) - {n}
      ensures |sources| == |old(sources)| - 1
    {
      hide *;
      var ended := PollRound();
      while ended.None?
        invariant Valid() && sources.Keys == old(sources.Keys)
        invariant ended.Some? ==> AtSource(ended.value)
        invariant ended.None? ==> AtSource(count)
        invariant old(InOrder()) ==> InOrder()
        invariant ended.Some? ==> ended.value in sources && sources[ended.value] == []
        decreases PollsLeft(sources, count), ended.None?
      {
        EmitReady();
        ended := PollRound();
      }
      Drop(ended.value);
    }

    /** The StopIteration branch. */
    method Drop(n: nat)
      requires Valid() && AtSource(n) && n in sources && sources[n] == []
      modifies `sources, `recentTs, `history
      ensures Valid() && AtSource(0) && history == old(history) + [Ended(n)]
      ensures old(InOrder()) ==> InOrder()
      ensures sources == old(sources) - {n} && |sources| == |old(sources)| - 1
    {
      hide Booked, Pending, Tracked, RowsThatCame, OnCourse, Settled, Events;
      DropExhausted(sources, count, n);
      CourseAfterEnd(history, sources, recentTs, count, n, Events(feeds));
      EndKeepsTracked(history, cache, yielded, Ended(n));
      history := history + [Ended(n)];
      sources := sources - {n};
      recentTs := recentTs - {n};
      assert old(sources) == sources[n := []];
    }

    /** The whole iteration. Whatever the order of the rows, every row that any source delivered is in
        exactly one frame; with watermarked sources the frames are the plain grouping by second. In general no second
        is split exactly when the feeds bring no row for a second that is gone, and the frames are the plain grouping
        exactly when they bring every row for a second later than all that are gone. */
    method Iterate()
      requires Valid() && |sources| == count && yielded == [] && received == [] && AtSource(0)
      modifies this
      ensures Valid()
      ensures sources == map[] && cache == map[]
      ensures multiset(received) == AllRows(feeds) && WellFormed(yielded)
      ensures forall ts :: EmittedAt(yielded, ts) == RowsAt(received, ts)
      ensures old(InOrder()) ==> yielded == GroupBySecond(received)
      ensures history == Events(feeds) && received == RowsThatCame(Events(feeds))
      ensures PairwiseApart(yielded, false) <==> OnTime(Events(feeds), false)
      ensures yielded == GroupBySecond(received) <==> OnTime(Events(feeds), true)
    {
      hide Booked, Ordered, Pending, Tracked, RowsThatCame, OnCourse, Settled, Events, NoEmptyChunk, AllRows;
      for k := 0 to count
        invariant Valid() && AtSource(0) && |sources| == count - k
        invariant old(InOrder()) ==> InOrder()
      {
        RetireOne();
      }
      NothingPending(sources, count);
      CourseAtEnd(history, sources, recentTs, count, 0, Events(feeds));
      while cache != map[]
        invariant Valid() && sources == map[] && history == Events(feeds)
        invariant old(InOrder()) ==> InOrder()
        decreases |cache|
      {
        assert cache.Keys != {};
        var ts := Least(cache.Keys);
        ghost var before := cache;
        Emit(ts);
        assert before.Keys == cache.Keys + {ts};
        assert |before.Keys| == |cache.Keys| + 1;
      }
      FinalFrames(sources, recentTs, cache, yielded, received);
      FramesAreWellFormed(cache, yielded, received);
      FinalTracked(history, yielded, received);
    }
  }

  lemma FinalFrames<T>(sources: map<nat, Feed<T>>, recentTs: map<nat, int>, cache: map<int, seq<Row<T>>>,
                       yielded: seq<Frame<T>>, received: seq<Row<T>>)
    requires sources == map[] && recentTs == map[] && cache == map[] && Booked(cache, yielded, received)
    ensures forall ts :: EmittedAt(yielded, ts) == RowsAt(received, ts)
    ensures Ordered(sources, recentTs, cache, yielded) ==> yielded == GroupBySecond(received)
  {
    forall ts ensures EmittedAt(yielded, ts) == RowsAt(received, ts) {
      assert EmittedAt(yielded, ts) + [] == EmittedAt(yielded, ts);
    }
    if Ordered(sources, recentTs, cache, yielded) {
      IncreasingFramesAreTheGrouping(yielded, received);
    }
  }

  lemma FramesAreWellFormed<T>(cache: map<int, seq<Row<T>>>, yielded: seq<Frame<T>>, received: seq<Row<T>>)
    requires Booked(cache, yielded, received)
    ensures WellFormed(yielded)
  {
  }

  lemma Initially<T>(feeds: seq<Feed<T>>, sources: map<nat, Feed<T>>, recentTs: map<nat, int>)
    requires forall feed | feed in feeds :: NoEmptyChunk(feed)
    requires sources == Numbered(feeds) && recentTs.Keys == sources.Keys
    requires forall n | n in recentTs :: recentTs[n] == 0
    ensures forall n | n in sources :: n < |feeds| && NoEmptyChunk(sources[n])
    ensures Booked<T>(map[], [], [])
    ensures (forall feed | feed in feeds :: Watermarked(feed)) ==> Ordered(sources, recentTs, map[], [])
    ensures Tracked<T>([], map[], []) && Settled<T>([], [])
    ensures recentTs == Zeros(feeds) && OnCourse([], sources, recentTs, |feeds|, 0, Events(feeds))
  {
    assert recentTs == Zeros(feeds);
    assert [] + Events(feeds) == Events(feeds);
  }

  /** The sources below n have been polled once, the others not yet. */
  ghost predicate Polled<T>(before: map<nat, Feed<T>>, now: map<nat, Feed<T>>, n: nat) {
    now.Keys == before.Keys && forall m | m in now ::
      if m < n then before[m] != [] && now[m] == before[m][1..] else now[m] == before[m]
  }

  lemma NonePolled<T>(sources: map<nat, Feed<T>>)
    ensures Polled(sources, sources, 0)
  {
  }

  lemma OneMorePolled<T>(before: map<nat, Feed<T>>, now: map<nat, Feed<T>>, n: nat)
    requires Polled(before, now, n)
    ensures n !in now ==> Polled(before, now, n + 1)
    ensures n in now && now[n] != [] ==> Polled(before, now[n := now[n][1..]], n + 1)
  {
  }

  /** Cached seconds that lie below every watermark. */
  ghost function ReadySeconds<T>(cache: map<int, seq<Row<T>>>, recentTs: map<nat, int>): set<int> {
    set ts | ts in cache && forall n | n in recentTs :: ts < recentTs[n]
  }

  function UpTo(keys: set<int>, limit: int): set<int> {
    set ts | ts in keys && ts <= limit
  }

  /** A second that no source can still add to. */
  ghost predicate Below(recentTs: map<nat, int>, ts: int) {
    forall n | n in recentTs :: ts < recentTs[n]
  }

  lemma StillBelow(recentTs: map<nat, int>, limit: int, ts: int)
    requires ts <= limit
    ensures Below(recentTs, limit) ==> Below(recentTs, ts)
  {
  }

  lemma ReadyBelowLeast<T>(cache: map<int, seq<Row<T>>>, recentTs: map<nat, int>)
    requires recentTs.Values != {}
    ensures Below(recentTs, Least(recentTs.Values) - 1)
    ensures ReadySeconds(cache, recentTs) == UpTo(cache.Keys, Least(recentTs.Values) - 1)
  {
    assert Least(recentTs.Values) in recentTs.Values;
    assert forall n | n in recentTs :: recentTs[n] in recentTs.Values;
  }

  ghost function FramesFor<T>(cache: map<int, seq<Row<T>>>, seconds: seq<int>): seq<Frame<T>> {
    seq(|seconds|, i requires 0 <= i < |seconds| =>
      Frame(seconds[i], CachedAt(cache, seconds[i]), |CachedAt(cache, seconds[i])|))
  }

  ghost function Elements(seconds: seq<int>): set<int> {
    set ts | ts in seconds
  }

  lemma ElementsOfSorted(seconds: set<int>)
    ensures Elements(Sorted(seconds)) == seconds
  {
    assert forall ts :: ts in Sorted(seconds) <==> ts in seconds;
  }

  lemma NothingEmitted<T>(cache: map<int, seq<Row<T>>>)
    ensures FramesFor(cache, []) == [] && cache - Elements([]) == cache
  {
  }

  lemma EmitOneMore<T>(cache: map<int, seq<Row<T>>>, seconds: seq<int>, i: nat)
    requires i < |seconds| && seconds[i] in cache
    ensures FramesFor(cache, seconds[..i + 1]) ==
            FramesFor(cache, seconds[..i]) + [Frame(seconds[i], cache[seconds[i]], |cache[seconds[i]]|)]
    ensures (cache - Elements(seconds[..i])) - {seconds[i]} == cache - Elements(seconds[..i + 1])
  {
    assert seconds[..i + 1] == seconds[..i] + [seconds[i]];
  }

  /** The next of the sorted ready seconds is the oldest of those still cached. */
  lemma OldestReady(cached: set<int>, limit: int, ready: seq<int>, i: nat)
    requires ready == Sorted(UpTo(cached, limit)) && i < |ready|
    ensures var left := cached - Elements(ready[..i]);
            ready[i] in left && ready[i] <= limit && forall k | k in left :: ready[i] <= k
  {
    assert ready[i] in ready && forall j | 0 <= j < i :: ready[j] in ready[..i];
    forall k | k in cached - Elements(ready[..i]) ensures ready[i] <= k {
      if k <= limit {
        assert k in ready;
      }
    }
  }

  lemma SomeKey<T>(sources: map<nat, Feed<T>>)
    ensures sources == map[] || exists n :: n in sources
  {
    if forall n :: n !in sources {
      assert sources == map[];
    }
  }

  lemma {:induction false} NumberedSize<T>(feeds: seq<Feed<T>>)
    ensures |Numbered(feeds)| == |feeds|
  {
    if feeds == [] {
      assert Numbered(feeds) == map[];
    } else {
      var n := |feeds| - 1;
      NumberedSize(feeds[..n]);
      assert Numbered(feeds) == Numbered(feeds[..n])[n := feeds[n]];
    }
  }
}
