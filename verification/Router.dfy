/** yandextank/contrib/netort/netort/data_manager/router.py: `MetricsRouter` holds back the newest seconds of every
    aggregated metric, so that late rows still meet the rest of their second. */
module Router {
  import opened Common

  type Id = int

  datatype Row = Row(second: int, value: int)

  /** A `MetricData` object of the routing queue. */
  datatype Message = Message(metric: Id, rows: seq<Row>)

  /** Rows of one aggregated metric handed to the subscribers together. */
  datatype Piece = Piece(metric: Id, rows: seq<Row>)

  // ----- rows

  /** `df.second.max()` */
  function Newest(rows: seq<Row>): (newest: int)
    requires rows != []
    ensures forall r | r in rows :: r.second <= newest
    ensures exists r :: r in rows && r.second == newest
  {
    if |rows| == 1 then (assert rows[0] in rows; rows[0].second)
    else
      var rest := Newest(rows[1..]);
      assert rows == [rows[0]] + rows[1..];
      Max(rows[0].second, rest)
  }

  function Before(rows: seq<Row>, limit: int): seq<Row> {
    if rows == [] then [] else (if rows[0].second < limit then [rows[0]] else []) + Before(rows[1..], limit)
  }

  function From(rows: seq<Row>, limit: int): seq<Row> {
    if rows == [] then [] else (if rows[0].second >= limit then [rows[0]] else []) + From(rows[1..], limit)
  }

  ghost function AtSecond(rows: seq<Row>, second: int): seq<Row> {
    if rows == [] then [] else (if rows[0].second == second then [rows[0]] else []) + AtSecond(rows[1..], second)
  }

  ghost predicate Has(rows: seq<Row>, second: int) {
    exists r :: r in rows && r.second == second
  }

  lemma {:induction false} BeforeOrFrom(rows: seq<Row>, limit: int)
    ensures forall r :: r in Before(rows, limit) <==> r in rows && r.second < limit
    ensures forall r :: r in From(rows, limit) <==> r in rows && r.second >= limit
  {
    if rows != [] {
      BeforeOrFrom(rows[1..], limit);
      assert rows == [rows[0]] + rows[1..];
    }
  }

  lemma {:induction false} SplitKeepsSecond(rows: seq<Row>, limit: int, second: int)
    ensures AtSecond(Before(rows, limit), second) == if second < limit then AtSecond(rows, second) else []
    ensures AtSecond(From(rows, limit), second) == if second < limit then [] else AtSecond(rows, second)
  {
    if rows != [] {
      SplitKeepsSecond(rows[1..], limit, second);
      AtSecondConcat(if rows[0].second < limit then [rows[0]] else [], Before(rows[1..], limit), second);
      AtSecondConcat(if rows[0].second >= limit then [rows[0]] else [], From(rows[1..], limit), second);
    }
  }

  lemma {:induction false} AtSecondConcat(a: seq<Row>, b: seq<Row>, second: int)
    ensures AtSecond(a + b, second) == AtSecond(a, second) + AtSecond(b, second)
  {
    if a == [] {
      assert a + b == b;
    } else {
      assert (a + b)[1..] == a[1..] + b && (a + b)[0] == a[0];
      AtSecondConcat(a[1..], b, second);
      var head := if a[0].second == second then [a[0]] else [];
      assert head + (AtSecond(a[1..], second) + AtSecond(b, second)) ==
        (head + AtSecond(a[1..], second)) + AtSecond(b, second);
    }
  }

  lemma {:induction false} HasAtSecond(rows: seq<Row>, second: int)
    ensures AtSecond(rows, second) != [] <==> Has(rows, second)
  {
    if rows != [] {
      HasAtSecond(rows[1..], second);
      assert rows == [rows[0]] + rows[1..];
    }
  }

  // ----- one metric

  /** What has left, and what is held back. */
  datatype Held = Held(pieces: seq<seq<Row>>, buffer: seq<Row>)

  function AndPiece(pieces: seq<seq<Row>>, part: seq<Row>): seq<seq<Row>> {
    if part == [] then pieces else pieces + [part]
  }

  /** One more frame: the rows up to the limit leave, the others are held back. */
  ghost function Next(before: Held, frame: seq<Row>, size: nat): Held {
    var df := before.buffer + frame;
    if df == [] then before
    else
      var limit := Newest(df) - size;
      Held(AndPiece(before.pieces, Before(df, limit)), From(df, limit))
  }

  /** The frames of one metric, routed one after another, none of them last. */
  ghost function Hold(frames: seq<seq<Row>>, size: nat): Held {
    if frames == [] then Held([], [])
    else Next(Hold(frames[..|frames| - 1], size), frames[|frames| - 1], size)
  }

  lemma HoldMore(frames: seq<seq<Row>>, last: seq<Row>, size: nat)
    ensures Hold(frames + [last], size) == Next(Hold(frames, size), last, size)
  {
    hide Next;
    assert (frames + [last])[..|frames|] == frames;
  }

  lemma FlattenAndPiece(pieces: seq<seq<Row>>, part: seq<Row>)
    ensures Flatten(AndPiece(pieces, part)) == Flatten(pieces) + part
  {
    FlattenOfMore(pieces, part);
    assert Flatten(pieces) + [] == Flatten(pieces);
  }

  /** Second by second, the rows received are those that have left followed by those held back. */
  ghost predicate Balanced(all: seq<Row>, held: Held) {
    forall s :: AtSecond(Flatten(held.pieces) + held.buffer, s) == AtSecond(all, s)
  }

  /** The newest second is always held back, and the limit runs through all that was received. */
  ghost predicate Windowed(all: seq<Row>, size: nat, held: Held) {
    if all == [] then held.buffer == [] && held.pieces == []
    else
      && [] !in held.pieces
      && held.buffer != [] && Newest(held.buffer) == Newest(all)
      && (forall r | r in Flatten(held.pieces) :: r.second < Newest(all) - size)
      && (forall r | r in held.buffer :: Newest(all) - size <= r.second)
  }

  ghost predicate Settled(frames: seq<seq<Row>>, size: nat, held: Held) {
    Balanced(Flatten(frames), held) && Windowed(Flatten(frames), size, held)
  }

  lemma NewestIs(rows: seq<Row>, newest: int)
    requires rows != [] && Has(rows, newest) && forall r | r in rows :: r.second <= newest
    ensures Newest(rows) == newest
  {
  }

  lemma NewestOfConcat(a: seq<Row>, b: seq<Row>)
    requires a != []
    ensures Newest(a + b) == if b == [] then Newest(a) else Max(Newest(a), Newest(b))
  {
    if b == [] {
      assert a + [] == a;
    } else {
      HasConcat(a, b, Newest(a));
      HasConcat(a, b, Newest(b));
      NewestIs(a + b, Max(Newest(a), Newest(b)));
    }
  }

  lemma {:induction false} HoldSettles(frames: seq<seq<Row>>, size: nat)
    ensures Settled(frames, size, Hold(frames, size))
  {
    hide Hold, Settled, Flatten;
    if frames == [] {
      HoldNothing(size);
    } else {
      var earlier, last := frames[..|frames| - 1], frames[|frames| - 1];
      HoldSettles(earlier, size);
      HoldOneMore(earlier, last, size, Hold(earlier, size));
      assert earlier + [last] == frames;
    }
  }

  lemma HoldNothing(size: nat)
    ensures Settled([], size, Hold([], size))
  {
  }

  /** One more frame, on top of a settled state. */
  lemma HoldOneMore(earlier: seq<seq<Row>>, last: seq<Row>, size: nat, before: Held)
    requires before == Hold(earlier, size) && Settled(earlier, size, before)
    ensures Settled(earlier + [last], size, Hold(earlier + [last], size))
  {
    HoldMore(earlier, last, size);
    FlattenOfMore(earlier, last);
    NextBalances(Flatten(earlier), before, last, size);
    hide Balanced, Hold, Next, Flatten;
    WindowMoves(before, last, Flatten(earlier), size);
  }

  lemma WindowMoves(before: Held, last: seq<Row>, seen: seq<Row>, size: nat)
    requires Windowed(seen, size, before)
    ensures Windowed(seen + last, size, Next(before, last, size))
  {
    hide Newest, Before, From, Flatten, AndPiece;
    var df := before.buffer + last;
    if df == [] {
      assert seen + last == [];
    } else {
      var limit := Newest(df) - size;
      SameNewest(before.buffer, seen, last);
      NewestFrom(df, size);
      BeforeOrFrom(df, limit);
      if seen != [] {
        NewestOfConcat(seen, last);
      } else {
        assert Flatten<Row>([]) == [] by { NothingFlattened(); }
      }
      FlattenAndPiece(before.pieces, Before(df, limit));
      NoEmptyPiece(before.pieces, Before(df, limit));
    }
  }

  lemma NoEmptyPiece(pieces: seq<seq<Row>>, part: seq<Row>)
    ensures [] in AndPiece(pieces, part) <==> [] in pieces
  {
  }

  lemma NothingFlattened()
    ensures Flatten<Row>([]) == []
  {
  }

  lemma SameNewest(buffer: seq<Row>, seen: seq<Row>, last: seq<Row>)
    requires buffer + last != []
    requires if seen == [] then buffer == [] else buffer != [] && Newest(buffer) == Newest(seen)
    ensures seen + last != [] && Newest(buffer + last) == Newest(seen + last)
  {
    if seen != [] {
      NewestOfConcat(buffer, last);
      NewestOfConcat(seen, last);
    } else {
      assert buffer + last == last && seen + last == last;
    }
  }

  lemma NewestFrom(df: seq<Row>, size: nat)
    requires df != []
    ensures var kept := From(df, Newest(df) - size); kept != [] && Newest(kept) == Newest(df)
  {
    hide Newest, Before, From;
    BeforeOrFrom(df, Newest(df) - size);
    var r :| r in df && r.second == Newest(df);
    assert r in From(df, Newest(df) - size);
  }

  lemma NextBalances(seen: seq<Row>, before: Held, last: seq<Row>, size: nat)
    requires Balanced(seen, before)
    ensures Balanced(seen + last, Next(before, last, size))
  {
    hide Newest, Before, From, AtSecond, Balanced, Flatten, AndPiece;
    var df := before.buffer + last;
    if df == [] {
      assert seen + last == seen;
    } else {
      var limit := Newest(df) - size;
      FlattenAndPiece(before.pieces, Before(df, limit));
      SplitBalances(seen, before, last, limit, Held(AndPiece(before.pieces, Before(df, limit)), From(df, limit)));
    }
  }

  lemma Halves<T>(x: seq<T>, y: seq<T>, z: seq<T>)
    ensures (x + []) + (y + z) == (x + y) + z && (x + (y + z)) + [] == (x + y) + z
  {
  }

  /** Wherever the limit is, splitting at it moves rows but keeps every second. */
  lemma SplitBalances(seen: seq<Row>, before: Held, last: seq<Row>, limit: int, after: Held)
    requires Balanced(seen, before)
    requires Flatten(after.pieces) == Flatten(before.pieces) + Before(before.buffer + last, limit)
    requires after.buffer == From(before.buffer + last, limit)
    ensures Balanced(seen + last, after)
  {
    hide Before, From, AtSecond, Flatten;
    var df, left := before.buffer + last, Flatten(before.pieces);
    forall s ensures AtSecond(Flatten(after.pieces) + after.buffer, s) == AtSecond(seen + last, s) {
      AtSecondConcat(left + Before(df, limit), From(df, limit), s);
      AtSecondConcat(left, Before(df, limit), s);
      SplitKeepsSecond(df, limit, s);
      AtSecondConcat(before.buffer, last, s);
      AtSecondConcat(left, before.buffer, s);
      AtSecondConcat(seen, last, s);
      Halves(AtSecond(left, s), AtSecond(before.buffer, s), AtSecond(last, s));
    }
  }

  // ----- no second is split

  /** Every second is in at most one part. */
  ghost predicate Unsplit(parts: seq<seq<Row>>) {
    forall i, j, s | 0 <= i < j < |parts| && Has(parts[i], s) :: !Has(parts[j], s)
  }

  ghost predicate Apart(a: seq<Row>, b: seq<Row>) {
    forall s | Has(a, s) :: !Has(b, s)
  }

  lemma HasConcat(a: seq<Row>, b: seq<Row>, s: int)
    ensures Has(a + b, s) <==> Has(a, s) || Has(b, s)
  {
    if r :| r in a && r.second == s {
      assert r in a + b;
    }
    if r :| r in b && r.second == s {
      assert r in a + b;
    }
  }

  lemma {:induction false} HasFlattened(parts: seq<seq<Row>>, s: int)
    ensures Has(Flatten(parts), s) <==> exists i :: 0 <= i < |parts| && Has(parts[i], s)
  {
    if parts != [] {
      var n := |parts| - 1;
      HasFlattened(parts[..n], s);
      HasConcat(Flatten(parts[..n]), parts[n], s);
      hide Has;
      assert forall i | 0 <= i < n :: parts[..n][i] == parts[i];
    }
  }

  lemma UnsplitAppend(parts: seq<seq<Row>>, part: seq<Row>)
    ensures Unsplit(parts + [part]) <==> Unsplit(parts) && Apart(part, Flatten(parts))
  {
    var more := parts + [part];
    assert forall i | 0 <= i < |parts| :: more[i] == parts[i];
    if Unsplit(more) {
      forall s | Has(part, s) ensures !Has(Flatten(parts), s) {
        HasFlattened(parts, s);
        assert forall i | 0 <= i < |parts| && Has(more[i], s) :: !Has(more[|parts|], s);
      }
      assert forall i, j, s | 0 <= i < j < |parts| && Has(parts[i], s) :: !Has(more[j], s);
    }
    if Unsplit(parts) && Apart(part, Flatten(parts)) {
      forall i, j, s | 0 <= i < j < |more| && Has(more[i], s) ensures !Has(more[j], s) {
        HasFlattened(parts, s);
      }
    }
  }

  /** The guard a producer can check: a row for a second already seen is at most `size` seconds older than the
      newest second seen before. */
  ghost predicate Timely(frames: seq<seq<Row>>, size: nat) {
    forall j, r | 0 <= j < |frames| && r in frames[j] :: OnTime(Flatten(frames[..j]), size, r)
  }

  ghost predicate OnTime(seen: seq<Row>, size: nat, r: Row) {
    Has(seen, r.second) ==> Newest(seen) - size <= r.second
  }

  lemma TimelyAppend(frames: seq<seq<Row>>, last: seq<Row>, size: nat)
    ensures Timely(frames + [last], size) <==>
            Timely(frames, size) && forall r | r in last :: OnTime(Flatten(frames), size, r)
  {
    var more := frames + [last];
    assert forall j | 0 <= j < |frames| :: more[..j] == frames[..j] && more[j] == frames[j];
    assert more[..|frames|] == frames && more[|frames|] == last;
  }

  /** What the next frame adds to the rows held back meets nothing that has left, exactly when it is on time. */
  lemma ApartIffOnTime(frames: seq<seq<Row>>, last: seq<Row>, size: nat, part: seq<Row>)
    requires Settled(frames, size, Hold(frames, size))
    requires var df := Hold(frames, size).buffer + last;
             && (forall r | r in part :: r in df)
             && (forall r | r in df && Flatten(frames) != [] && r.second < Newest(Flatten(frames)) - size :: r in part)
    ensures Apart(part, Flatten(Hold(frames, size).pieces)) <==>
            forall r | r in last :: OnTime(Flatten(frames), size, r)
  {
    hide Newest, Before, From, AtSecond, Flatten;
    var held, seen := Hold(frames, size), Flatten(frames);
    var left := Flatten(held.pieces);
    forall s ensures Has(seen, s) <==> Has(left, s) || Has(held.buffer, s) {
      HasAtSecond(seen, s);
      HasAtSecond(left + held.buffer, s);
      assert forall r | r in left + held.buffer :: r in left || r in held.buffer;
    }
    forall r | r in last && !OnTime(seen, size, r) ensures Has(part, r.second) && Has(left, r.second) {
      assert r in held.buffer + last && r in part;
    }
    forall s | Has(part, s) && Has(left, s) ensures exists r :: r in last && !OnTime(seen, size, r) {
      var r :| r in part && r.second == s;
      assert r in last && Has(seen, r.second);
    }
  }

  /** One more frame splits a second exactly when one of its rows is late. */
  lemma OneMoreUnsplit(earlier: seq<seq<Row>>, last: seq<Row>, size: nat)
    requires Settled(earlier, size, Hold(earlier, size))
    ensures Unsplit(Hold(earlier + [last], size).pieces) <==>
            Unsplit(Hold(earlier, size).pieces) && forall r | r in last :: OnTime(Flatten(earlier), size, r)
  {
    hide Newest, Before, From, AtSecond, Unsplit, OnTime, Balanced, Flatten, Apart, Hold;
    var before := Hold(earlier, size);
    var df := before.buffer + last;
    HoldMore(earlier, last, size);
    if df != [] {
      var part := Before(df, Newest(df) - size);
      BeforeOrFrom(df, Newest(df) - size);
      if Flatten(earlier) != [] {
        NewestOfConcat(before.buffer, last);
      }
      ApartIffOnTime(earlier, last, size, part);
      UnsplitAppend(before.pieces, part);
      NothingApart(Flatten(before.pieces));
    } else {
      assert last == [];
    }
  }

  lemma NothingApart(b: seq<Row>)
    ensures Apart([], b)
  {
  }

  /** Seconds leave whole exactly when rows are on time. */
  lemma {:induction false} UnsplitIffTimely(frames: seq<seq<Row>>, size: nat)
    ensures Unsplit(Hold(frames, size).pieces) <==> Timely(frames, size)
  {
    if frames != [] {
      hide Hold, Unsplit, Timely, OnTime, Flatten, Settled;
      var earlier, last := frames[..|frames| - 1], frames[|frames| - 1];
      assert frames == earlier + [last];
      UnsplitIffTimely(earlier, size);
      HoldSettles(earlier, size);
      TimelyAppend(earlier, last, size);
      OneMoreUnsplit(earlier, last, size);
    }
  }

  /** The pieces of a metric when its last frame is routed with `last_piece`: that frame, with all that was held. */
  ghost function Flushed(frames: seq<seq<Row>>, last: seq<Row>, size: nat): seq<seq<Row>> {
    Hold(frames, size).pieces + [Hold(frames, size).buffer + last]
  }

  /** With the final flush every row leaves, each second in the order of its rows, and in one piece exactly when the
      rows were on time. */
  lemma FlushedIsWhole(frames: seq<seq<Row>>, last: seq<Row>, size: nat)
    ensures forall s :: AtSecond(Flatten(Flushed(frames, last, size)), s) == AtSecond(Flatten(frames + [last]), s)
    ensures Unsplit(Flushed(frames, last, size)) <==> Timely(frames + [last], size)
  {
    hide Newest, Before, From, AtSecond, Unsplit, Timely, OnTime, Apart;
    HoldSettles(frames, size);
    UnsplitIffTimely(frames, size);
    TimelyAppend(frames, last, size);
    var held := Hold(frames, size);
    var df := held.buffer + last;
    ApartIffOnTime(frames, last, size, df);
    UnsplitAppend(held.pieces, df);
    assert Flushed(frames, last, size)[..|held.pieces|] == held.pieces;
    assert (frames + [last])[..|frames|] == frames;
    forall s ensures AtSecond(Flatten(Flushed(frames, last, size)), s) == AtSecond(Flatten(frames + [last]), s) {
      assert Flatten(held.pieces) + df == (Flatten(held.pieces) + held.buffer) + last;
      AtSecondConcat(Flatten(held.pieces) + held.buffer, last, s);
      AtSecondConcat(Flatten(frames), last, s);
    }
  }

  // ----- the router

  ghost function FramesOf(received: seq<Message>, m: Id): seq<seq<Row>> {
    if received == [] then []
    else
      var n := |received| - 1;
      FramesOf(received[..n], m) + if received[n].metric == m then [received[n].rows] else []
  }

  ghost function PiecesOf(routed: seq<Piece>, m: Id): seq<seq<Row>> {
    if routed == [] then []
    else
      var n := |routed| - 1;
      PiecesOf(routed[..n], m) + if routed[n].metric == m then [routed[n].rows] else []
  }

  function BufferOf(buffer: map<Id, seq<Row>>, m: Id): seq<Row> {
    if m in buffer then buffer[m] else []
  }

  /** What is held of metric m, read off the router's state, is what `Hold` says. */
  ghost predicate Holds(received: seq<Message>, routed: seq<Piece>, buffer: map<Id, seq<Row>>, size: nat, m: Id) {
    Hold(FramesOf(received, m), size) == Held(PiecesOf(routed, m), BufferOf(buffer, m))
  }

  /** All rows received for metric m have left, in whole seconds exactly if they were on time. */
  ghost predicate Whole(received: seq<Message>, routed: seq<Piece>, size: nat, m: Id) {
    var frames, pieces := FramesOf(received, m), PiecesOf(routed, m);
    && (forall s :: AtSecond(Flatten(pieces), s) == AtSecond(Flatten(frames), s))
    && (Unsplit(pieces) <==> Timely(frames, size))
  }

  lemma HoldFrame(received: seq<Message>, routed: seq<Piece>, buffer: map<Id, seq<Row>>, size: nat, msg: Message, m: Id)
    requires Holds(received, routed, buffer, size, m)
    ensures if msg.metric != m then FramesOf(received + [msg], m) == FramesOf(received, m)
            else Hold(FramesOf(received + [msg], m), size) ==
                 Next(Held(PiecesOf(routed, m), BufferOf(buffer, m)), msg.rows, size)
  {
    hide Next, Hold, FramesOf, PiecesOf;
    FramesOfAppend(received, msg, m);
    HoldMore(FramesOf(received, m), msg.rows, size);
  }

  lemma FramesOfAppend(received: seq<Message>, msg: Message, m: Id)
    ensures FramesOf(received + [msg], m) == FramesOf(received, m) + if msg.metric == m then [msg.rows] else []
    ensures FramesOf(received, m) + [] == FramesOf(received, m)
  {
    assert (received + [msg])[..|received|] == received;
  }

  lemma PiecesOfAppend(routed: seq<Piece>, piece: Piece, m: Id)
    ensures PiecesOf(routed + [piece], m) == PiecesOf(routed, m) + if piece.metric == m then [piece.rows] else []
    ensures PiecesOf(routed, m) + [] == PiecesOf(routed, m)
  {
    assert (routed + [piece])[..|routed|] == routed;
  }

  /** An empty piece neither adds a row nor splits a second. */
  lemma EmptyPiece(pieces: seq<seq<Row>>)
    ensures Flatten(pieces + [[]]) == Flatten(pieces) && (Unsplit(pieces + [[]]) <==> Unsplit(pieces))
  {
    hide Unsplit, Apart;
    FlattenOfMore(pieces, []);
    UnsplitAppend(pieces, []);
    NothingApart(Flatten(pieces));
    assert Flatten(pieces) + [] == Flatten(pieces);
  }

  /** The final flush of a metric that has no frame in the last message. */
  lemma FlushWithoutFrame(received: seq<Message>, routed: seq<Piece>, routed': seq<Piece>, buffer: map<Id, seq<Row>>,
                          size: nat, m: Id)
    requires Holds(received, routed, buffer, size, m)
    requires PiecesOf(routed', m) == PiecesOf(routed, m) + if m in buffer then [buffer[m]] else []
    ensures Whole(received, routed', size, m)
  {
    hide AtSecond, Timely, Unsplit, OnTime, Flatten, FramesOf, PiecesOf, Hold;
    var frames, pieces := FramesOf(received, m), PiecesOf(routed, m);
    FlushedIsWhole(frames, [], size);
    TimelyAppend(frames, [], size);
    FlattenOfMore(frames, []);
    assert Flatten(frames) + [] == Flatten(frames);
    assert BufferOf(buffer, m) + [] == BufferOf(buffer, m);
    EmptyPiece(pieces);
    assert pieces + [] == pieces;
  }

  /** The last message's own metric leaves with everything held of it. */
  lemma FlushWithFrame(received: seq<Message>, routed: seq<Piece>, routed': seq<Piece>, buffer: map<Id, seq<Row>>,
                       size: nat, msg: Message)
    requires Holds(received, routed, buffer, size, msg.metric)
    requires var df := BufferOf(buffer, msg.metric) + msg.rows;
             PiecesOf(routed', msg.metric) == PiecesOf(routed, msg.metric) + if df == [] then [] else [df]
    ensures Whole(received + [msg], routed', size, msg.metric)
  {
    hide AtSecond, Timely, Unsplit, Flatten, FramesOf, PiecesOf, Hold;
    var m := msg.metric;
    FramesOfAppend(received, msg, m);
    FlushedIsWhole(FramesOf(received, m), msg.rows, size);
    EmptyPiece(PiecesOf(routed, m));
    assert PiecesOf(routed, m) + [] == PiecesOf(routed, m);
  }

  /** Without a final message, what is still held never leaves. */
  lemma LostWithoutMessage(received: seq<Message>, routed: seq<Piece>, buffer: map<Id, seq<Row>>, size: nat, m: Id)
    requires Holds(received, routed, buffer, size, m)
    ensures Whole(received, routed, size, m) <==> Flatten(FramesOf(received, m)) == []
  {
    var frames, pieces := FramesOf(received, m), PiecesOf(routed, m);
    HoldSettles(frames, size);
    UnsplitIffTimely(frames, size);
    var held := Hold(frames, size);
    if Flatten(frames) != [] {
      hide Newest, AtSecond;
      var s := Newest(held.buffer);
      HasAtSecond(held.buffer, s);
      AtSecondConcat(Flatten(pieces), held.buffer, s);
      assert |AtSecond(Flatten(pieces), s)| < |AtSecond(Flatten(frames), s)|;
    } else {
      assert pieces == [] && Flatten(pieces) == [];
    }
  }

  /** `routed` collects what the subscribers get of the aggregated data types; `received` is history. */
  class MetricsRouter {
    const bufferSize: nat
    const aggregated: set<Id>
    var routingQueue: seq<Message>
    var buffer: map<Id, seq<Row>>
    var routed: seq<Piece>
    ghost var received: seq<Message>

    ghost predicate Valid()
      reads this
    {
      buffer.Keys <= aggregated && forall m | m in aggregated :: Holds(received, routed, buffer, bufferSize, m)
    }

    constructor (bufferSize: nat, aggregated: set<Id>)
      ensures Valid() && this.bufferSize == bufferSize && this.aggregated == aggregated
      ensures routingQueue == [] && routed == [] && received == []
    {
      this.bufferSize := bufferSize;
      this.aggregated := aggregated;
      routingQueue, buffer, routed, received := [], map[], [], [];
    }

    /** `_from_buffer` */
    method FromBuffer(msg: Message, lastPiece: bool) returns (piece: seq<Row>)
      modifies `buffer
      ensures var df := BufferOf(old(buffer), msg.metric) + msg.rows;
              if lastPiece then piece == df && buffer == old(buffer) - {msg.metric}
              else if df == [] then piece == [] && buffer == old(buffer)[msg.metric := []]
              else
                var limit := Newest(df) - bufferSize;
                piece == Before(df, limit) && buffer == old(buffer)[msg.metric := From(df, limit)]
    {
      var df := BufferOf(buffer, msg.metric) + msg.rows;
      if lastPiece {
        buffer := buffer - {msg.metric};
        piece := df;
      } else if df == [] {
        // the maximum of no rows compares false with everything
        buffer := buffer[msg.metric := []];
        piece := [];
      } else {
        var limit := Newest(df) - bufferSize;
        buffer := buffer[msg.metric := From(df, limit)];
        piece := Before(df, limit);
      }
    }

    /** `__route(last_piece=False)` */
    method Route()
      requires Valid()
      modifies `routingQueue, `buffer, `routed, `received
      ensures Valid()
      ensures old(routingQueue) == [] ==> routingQueue == [] && received == old(received)
      ensures old(routingQueue) != [] ==>
                routingQueue == old(routingQueue)[1..] && received == old(received) + [old(routingQueue)[0]]
    {
      hide Hold, Newest, Before, From, FramesOf, PiecesOf;
      if routingQueue == [] {
        return;
      }
      var msg := routingQueue[0];
      routingQueue := routingQueue[1..];
      received := received + [msg];
      if msg.metric in aggregated {
        var piece := FromBuffer(msg, false);
        if piece != [] {
          routed := routed + [Piece(msg.metric, piece)];
        }
        forall m | m in aggregated ensures Holds(received, routed, buffer, bufferSize, m) {
          HoldFrame(old(received), old(routed), old(buffer), bufferSize, msg, m);
          PiecesOfAppend(old(routed), Piece(msg.metric, piece), m);
        }
      } else {
        forall m | m in aggregated ensures Holds(received, routed, buffer, bufferSize, m) {
          HoldFrame(old(received), old(routed), old(buffer), bufferSize, msg, m);
        }
      }
    }

    /** `__route(last_piece=True)`: without a message it returns at once and the buffers stay behind. Messages behind
        the first, which only an interrupt leaves, stay in the queue. */
    method RouteLast()
      requires Valid()
      modifies `routingQueue, `buffer, `routed, `received
      ensures old(routingQueue) != [] ==>
        routingQueue == old(routingQueue)[1..] && received == old(received) + [old(routingQueue)[0]]
        && forall m | m in aggregated :: Whole(received, routed, bufferSize, m)
      ensures old(routingQueue) == [] ==>
        routingQueue == [] && received == old(received)
        && forall m | m in aggregated ::
             Whole(received, routed, bufferSize, m) <==> Flatten(FramesOf(received, m)) == []
    {
      hide Hold, Newest, Before, From, FramesOf, PiecesOf, Whole, Flatten;
      if routingQueue == [] {
        forall m | m in aggregated
          ensures Whole(received, routed, bufferSize, m) <==> Flatten(FramesOf(received, m)) == []
        {
          LostWithoutMessage(received, routed, buffer, bufferSize, m);
        }
        return;
      }
      var msg := routingQueue[0];
      routingQueue := routingQueue[1..];
      received := received + [msg];
      if msg.metric in aggregated {
        var piece := FromBuffer(msg, true);
        if piece != [] {
          routed := routed + [Piece(msg.metric, piece)];
        }
        forall m
          ensures PiecesOf(routed, m) ==
                  PiecesOf(old(routed), m) + if m == msg.metric && piece != [] then [piece] else []
        {
          PiecesOfAppend(old(routed), Piece(msg.metric, piece), m);
          assert PiecesOf(old(routed), m) + [] == PiecesOf(old(routed), m);
        }
      }
      FlushBuffers();
      forall m | m in aggregated ensures Whole(received, routed, bufferSize, m) {
        HoldFrame(old(received), old(routed), old(buffer), bufferSize, msg, m);
        if m == msg.metric {
          FlushWithFrame(old(received), old(routed), routed, old(buffer), bufferSize, msg);
        } else {
          FlushWithoutFrame(received, old(routed), routed, old(buffer), bufferSize, m);
        }
      }
    }

    /** Everything still buffered, one metric after another. */
    method FlushBuffers()
      modifies `routed
      ensures forall m :: PiecesOf(routed, m) == PiecesOf(old(routed), m) + if m in buffer then [buffer[m]] else []
    {
      var rest := buffer.Keys;
      while rest != {}
        invariant rest <= buffer.Keys
        invariant forall m :: PiecesOf(routed, m) ==
                              PiecesOf(old(routed), m) + if m in buffer && m !in rest then [buffer[m]] else []
        decreases |rest|
      {
        NonEmpty(rest);
        var metric :| metric in rest;
        ghost var before := routed;
        routed := routed + [Piece(metric, buffer[metric])];
        forall m ensures PiecesOf(routed, m) == PiecesOf(before, m) + if m == metric then [buffer[m]] else [] {
          PiecesOfAppend(before, Piece(metric, buffer[metric]), m);
        }
        rest := rest - {metric};
      }
    }

    /** The loop after `close`, down to one message or to the interrupt. */
    method DrainQueue(patience: nat)
      requires Valid()
      modifies `routingQueue, `buffer, `routed, `received
      ensures Valid() && received + routingQueue == old(received + routingQueue)
      ensures |routingQueue| == if old(routingQueue) == [] then 0 else Max(|old(routingQueue)| - patience, 1)
    {
      var turns := 0;
      while |routingQueue| > 1 && turns < patience
        invariant Valid() && received + routingQueue == old(received + routingQueue)
        invariant turns <= patience && turns + |routingQueue| == |old(routingQueue)|
        invariant turns > 0 ==> |routingQueue| > 0
        decreases |routingQueue|
      {
        StillThere(received, routingQueue);
        Route();
        turns := turns + 1;
      }
    }

    /** `run`: `arrivals[k]` comes in before turn k of the loop, `late` after `close`, before the last route; `patience`
        is how many turns the draining loop may take before an interrupt. Every row taken from the queue leaves, exactly
        when a message is left for the last route or there was nothing to leave; what an interrupt leaves in the queue
        is not even taken. */
    method Run(arrivals: seq<seq<Message>>, late: seq<Message>, patience: nat) returns (messageLeft: bool)
      requires Valid() && routingQueue == [] && received == []
      modifies this
      ensures messageLeft <==> late != [] || Backlog(arrivals) > 0
      ensures received + routingQueue == Flatten(arrivals) + late
      ensures |routingQueue| == Max(Backlog(arrivals) + |late| - 1 - patience, 0)
      ensures messageLeft ==> forall m | m in aggregated :: Whole(received, routed, bufferSize, m)
      ensures !messageLeft ==>
        forall m | m in aggregated :: Whole(received, routed, bufferSize, m) <==> Flatten(FramesOf(received, m)) == []
    {
      BacklogOfNone();
      hide Holds, Whole, FramesOf, Backlog, Flatten;
      for k := 0 to |arrivals|
        invariant Valid() && received + routingQueue == Flatten(arrivals[..k])
        invariant |routingQueue| == Backlog(arrivals[..k])
      {
        assert arrivals[..k + 1] == arrivals[..k] + [arrivals[k]];
        FlattenOfMore(arrivals[..k], arrivals[k]);
        BacklogOfMore(arrivals[..k], arrivals[k]);
        Associate(received, routingQueue, arrivals[k]);
        routingQueue := routingQueue + arrivals[k];
        StillThere(received, routingQueue);
        Route();
      }
      assert arrivals[..|arrivals|] == arrivals;
      Associate(received, routingQueue, late);
      routingQueue := routingQueue + late;
      messageLeft := routingQueue != [];
      DrainQueue(patience);
      StillThere(received, routingQueue);
      RouteLast();
    }
  }

  /** How many messages wait after the turns of the first loop, which takes one a turn. */
  function Backlog(arrivals: seq<seq<Message>>): nat {
    if arrivals == [] then 0
    else Max(Backlog(arrivals[..|arrivals| - 1]) + |arrivals[|arrivals| - 1]| - 1, 0)
  }

  lemma BacklogOfNone()
    ensures Backlog([]) == 0 && Flatten<Message>([]) == []
  {
  }

  lemma BacklogOfMore(arrivals: seq<seq<Message>>, last: seq<Message>)
    ensures Backlog(arrivals + [last]) == Max(Backlog(arrivals) + |last| - 1, 0)
  {
    assert (arrivals + [last])[..|arrivals|] == arrivals;
  }

  lemma StillThere(seen: seq<Message>, waiting: seq<Message>)
    ensures waiting != [] ==> (seen + [waiting[0]]) + waiting[1..] == seen + waiting
  {
  }
}
