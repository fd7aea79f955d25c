/** yandextank/contrib/netort/netort/data_manager/clients/luna.py: `RegisterWorkerThread` registers metrics
    with the service, parents before children, from a queue into which waiting metrics are put back. */
module Luna {
  import opened Common

  type Id = int

  /** The parent of every metric. */
  type Parents = map<Id, Option<Id>>

  /** `metric.parent.local_id` */
  function Parent(parents: Parents, m: Id): Id
    requires m in parents && parents[m].Some?
  {
    parents[m].value
  }

  /** Parents are metrics, and some depth grows from parent to child: no metric is its own ancestor. */
  ghost predicate Acyclic(parents: Parents, depth: map<Id, nat>) {
    && parents.Keys == depth.Keys
    && forall m | m in parents && parents[m].Some? ::
         Parent(parents, m) in parents && depth[Parent(parents, m)] < depth[m]
  }

  /** m itself, its parent, and so on up. */
  ghost function Lineage(parents: Parents, depth: map<Id, nat>, m: Id): set<Id>
    requires Acyclic(parents, depth) && m in parents
    decreases depth[m]
  {
    {m} + if parents[m].Some? then Lineage(parents, depth, Parent(parents, m)) else {}
  }

  ghost predicate Known(parents: Parents, queue: seq<Id>) {
    forall k | 0 <= k < |queue| :: queue[k] in parents
  }

  /** All that the queued metrics need registered. */
  ghost function Needed(parents: Parents, depth: map<Id, nat>, queue: seq<Id>): set<Id>
    requires Acyclic(parents, depth) && Known(parents, queue)
  {
    if queue == [] then {} else Lineage(parents, depth, queue[0]) + Needed(parents, depth, queue[1..])
  }

  /** `metrics_to_register[id] = metric` on an ordered dictionary: a key that is present keeps its place. */
  function Enqueue(queue: seq<Id>, m: Id): seq<Id> {
    if m in queue then queue else queue + [m]
  }

  ghost predicate Distinct(queue: seq<Id>) {
    forall i, j | 0 <= i < j < |queue| :: queue[i] != queue[j]
  }

  ghost predicate ClosedUnderParents(parents: Parents, registered: set<Id>)
    requires registered <= parents.Keys
  {
    forall m | m in registered && parents[m].Some? :: Parent(parents, m) in registered
  }

  /** Taking m from the queue now would register it, drop it, or bring a new parent into the queue. */
  ghost predicate Productive(parents: Parents, registered: set<Id>, queue: seq<Id>, m: Id)
    requires m in parents
  {
    m in registered || parents[m].None? || Parent(parents, m) in registered || Parent(parents, m) !in queue
  }

  /** How many entries stand before the first productive one. */
  ghost function Distance(parents: Parents, registered: set<Id>, all: seq<Id>, queue: seq<Id>): nat
    requires Known(parents, queue)
  {
    if queue == [] || Productive(parents, registered, all, queue[0]) then 0
    else 1 + Distance(parents, registered, all, queue[1..])
  }

  lemma {:induction false} DistanceWithin(parents: Parents, registered: set<Id>, all: seq<Id>, queue: seq<Id>, i: nat)
    requires Known(parents, queue)
    requires i < |queue| && Productive(parents, registered, all, queue[i])
    ensures Distance(parents, registered, all, queue) <= i
  {
    if !Productive(parents, registered, all, queue[0]) {
      DistanceWithin(parents, registered, all, queue[1..], i - 1);
    }
  }

  lemma {:induction false} DistanceOfAppend(parents: Parents, registered: set<Id>, all: seq<Id>, queue: seq<Id>, m: Id)
    requires Known(parents, queue) && m in parents
    requires exists i :: 0 <= i < |queue| && Productive(parents, registered, all, queue[i])
    ensures Distance(parents, registered, all, queue + [m]) == Distance(parents, registered, all, queue)
  {
    var i :| 0 <= i < |queue| && Productive(parents, registered, all, queue[i]);
    assert (queue + [m])[0] == queue[0];
    if !Productive(parents, registered, all, queue[0]) {
      assert (queue + [m])[1..] == queue[1..] + [m];
      assert queue[1..][i - 1] == queue[i];
      DistanceOfAppend(parents, registered, all, queue[1..], m);
    }
  }

  lemma {:induction false} DistanceSameMembers(parents: Parents, registered: set<Id>, a: seq<Id>, b: seq<Id>,
                                               queue: seq<Id>)
    requires Known(parents, queue)
    requires forall m :: m in a <==> m in b
    ensures Distance(parents, registered, a, queue) == Distance(parents, registered, b, queue)
  {
    if queue != [] {
      var m := queue[0];
      assert parents[m].Some? ==> (Parent(parents, m) in a <==> Parent(parents, m) in b);
      if !Productive(parents, registered, a, m) {
        DistanceSameMembers(parents, registered, a, b, queue[1..]);
      }
    }
  }

  /** Without a cycle, a non-empty queue holds a productive entry: one of least depth. */
  lemma SomeProductive(parents: Parents, depth: map<Id, nat>, registered: set<Id>, queue: seq<Id>)
    requires Acyclic(parents, depth) && queue != [] && Known(parents, queue)
    ensures exists i :: 0 <= i < |queue| && Productive(parents, registered, queue, queue[i])
  {
    var i := Shallowest(depth, queue);
    var m := queue[i];
    assert Productive(parents, registered, queue, m);
  }

  lemma {:induction false} Shallowest(depth: map<Id, nat>, queue: seq<Id>) returns (i: nat)
    requires queue != [] && forall k | 0 <= k < |queue| :: queue[k] in depth
    ensures i < |queue| && forall k | 0 <= k < |queue| :: depth[queue[i]] <= depth[queue[k]]
  {
    if |queue| == 1 {
      i := 0;
    } else {
      assert forall k | 1 <= k < |queue| :: queue[k] == queue[1..][k - 1];
      var j := Shallowest(depth, queue[1..]);
      i := if depth[queue[0]] <= depth[queue[j + 1]] then 0 else j + 1;
    }
  }

  // ----- what is needed

  lemma {:induction false} LineageInside(parents: Parents, depth: map<Id, nat>, m: Id, closed: set<Id>)
    requires Acyclic(parents, depth) && m in closed && closed <= parents.Keys && ClosedUnderParents(parents, closed)
    ensures Lineage(parents, depth, m) <= closed
    decreases depth[m]
  {
    if parents[m].Some? {
      LineageInside(parents, depth, Parent(parents, m), closed);
    }
  }

  lemma {:induction false} NeededMember(parents: Parents, depth: map<Id, nat>, queue: seq<Id>, a: Id)
    requires Acyclic(parents, depth) && Known(parents, queue)
    ensures a in Needed(parents, depth, queue) <==> exists m :: m in queue && a in Lineage(parents, depth, m)
  {
    if queue != [] {
      NeededMember(parents, depth, queue[1..], a);
      assert queue == [queue[0]] + queue[1..] && queue[0] in queue;
      assert forall m | m in queue :: m == queue[0] || m in queue[1..];
      assert forall m | m in queue[1..] :: m in queue;
    }
  }

  // ----- one turn of the worklist

  /** The queue and the registered set after `_process_pending_queue` has taken the first entry. */
  ghost function Turn(parents: Parents, queue: seq<Id>, registered: set<Id>): (seq<Id>, set<Id>)
    requires queue != [] && queue[0] in parents
  {
    var m, rest := queue[0], queue[1..];
    if m in registered then (rest, registered)
    else if parents[m].Some? && Parent(parents, m) !in registered
    then (Enqueue(Enqueue(rest, Parent(parents, m)), m), registered)
    else (rest, registered + {m})
  }

  /** In so many words: the first entry leaves the queue; it is registered unless it is already or waits for its parent,
      and in that case it goes to the end of the queue, behind its parent, which keeps its place if it has one. */
  lemma TurnMeans(parents: Parents, queue: seq<Id>, registered: set<Id>)
    requires queue != [] && Known(parents, queue) && Distinct(queue)
    ensures var (queue', registered') := Turn(parents, queue, registered);
            var m, rest := queue[0], queue[1..];
            var waits := parents[m].Some? && parents[m].value !in registered;
            && (m in registered ==> queue' == rest && registered' == registered)
            && (m !in registered && !waits ==> queue' == rest && registered' == registered + {m})
            && (m !in registered && waits ==> registered' == registered)
            && (m !in registered && waits && parents[m].value in queue ==> queue' == rest + [m])
            && (m !in registered && waits && parents[m].value !in queue ==> queue' == rest + [parents[m].value, m])
  {
    assert queue == [queue[0]] + queue[1..];
    assert queue[0] !in queue[1..];
  }

  /** The closure of what is done and what is asked for never changes. */
  lemma TurnKeepsNeeded(parents: Parents, depth: map<Id, nat>, queue: seq<Id>, registered: set<Id>)
    requires Acyclic(parents, depth) && queue != [] && Known(parents, queue)
    requires registered <= parents.Keys && ClosedUnderParents(parents, registered)
    ensures var (queue', registered') := Turn(parents, queue, registered);
            && Known(parents, queue')
            && registered' <= parents.Keys && ClosedUnderParents(parents, registered')
            && registered' + Needed(parents, depth, queue') == registered + Needed(parents, depth, queue)
  {
    var m, rest := queue[0], queue[1..];
    var (queue', registered') := Turn(parents, queue, registered);
    assert queue == [m] + rest;
    if m in registered {
      LineageInside(parents, depth, m, registered);
    } else if parents[m].Some? && Parent(parents, m) !in registered {
      forall a ensures a in Needed(parents, depth, queue') <==> a in Needed(parents, depth, queue) {
        NeededMember(parents, depth, queue', a);
        NeededMember(parents, depth, queue, a);
        var p := Parent(parents, m);
        assert forall q | q in queue' :: q in queue || q == p;
        assert forall q | q in queue :: q in queue';
        assert a in Lineage(parents, depth, p) ==> a in Lineage(parents, depth, m);
      }
    } else if parents[m].Some? {
      LineageInside(parents, depth, Parent(parents, m), registered);
    }
  }

  ghost function Unqueued(parents: Parents, queue: seq<Id>, registered: set<Id>): set<Id> {
    set m | m in parents && m !in registered && m !in queue
  }

  /** A waiting entry whose parent is queued too goes to the end; the next productive entry comes nearer. */
  lemma WaitingBringsNearer(parents: Parents, depth: map<Id, nat>, queue: seq<Id>, registered: set<Id>)
    requires Acyclic(parents, depth) && queue != [] && Known(parents, queue)
    requires !Productive(parents, registered, queue, queue[0])
    ensures var queue' := queue[1..] + [queue[0]];
            && (forall q :: q in queue' <==> q in queue)
            && Known(parents, queue')
            && Distance(parents, registered, queue', queue') < Distance(parents, registered, queue, queue)
  {
    var m, rest := queue[0], queue[1..];
    assert queue == [m] + rest;
    SomeProductive(parents, depth, registered, queue);
    var i :| 0 <= i < |queue| && Productive(parents, registered, queue, queue[i]);
    assert rest[i - 1] == queue[i];
    DistanceOfAppend(parents, registered, queue, rest, m);
    DistanceSameMembers(parents, registered, queue, rest + [m], rest + [m]);
  }

  /** The worth of a state of the worklist, compared lexicographically. */
  datatype Measure = Measure(unregistered: nat, unqueued: nat, length: nat, distance: nat) {
    ghost predicate Below(other: Measure) {
      || unregistered < other.unregistered
      || (unregistered == other.unregistered && unqueued < other.unqueued)
      || (unregistered == other.unregistered && unqueued == other.unqueued && length < other.length)
      || (unregistered == other.unregistered && unqueued == other.unqueued && length == other.length
          && distance < other.distance)
    }
  }

  ghost function Worth(parents: Parents, queue: seq<Id>, registered: set<Id>): Measure
    requires Known(parents, queue)
  {
    Measure(|parents.Keys - registered|, |Unqueued(parents, queue, registered)|, |queue|,
            Distance(parents, registered, queue, queue))
  }

  lemma SmallerSet(a: set<Id>, b: set<Id>, m: Id)
    requires m in b && a == b - {m}
    ensures |a| < |b|
  {
  }

  lemma TurnKeepsQueue(parents: Parents, depth: map<Id, nat>, queue: seq<Id>, registered: set<Id>)
    requires Acyclic(parents, depth) && queue != [] && Known(parents, queue) && Distinct(queue)
    ensures var queue' := Turn(parents, queue, registered).0;
            && Known(parents, queue') && Distinct(queue') && |queue'| < |queue| + 2
  {
    assert queue == [queue[0]] + queue[1..];
  }

  lemma UnqueuedSame(parents: Parents, a: seq<Id>, b: seq<Id>, registered: set<Id>)
    requires forall m | m !in registered :: m in a <==> m in b
    ensures Unqueued(parents, a, registered) == Unqueued(parents, b, registered)
  {
    forall m ensures m in Unqueued(parents, a, registered) <==> m in Unqueued(parents, b, registered) {
    }
  }

  lemma UnqueuedLess(parents: Parents, queue: seq<Id>, queue': seq<Id>, registered: set<Id>, p: Id)
    requires p in parents && p !in registered && p !in queue
    requires forall m :: m in queue' <==> m in queue || m == p
    ensures |Unqueued(parents, queue', registered)| < |Unqueued(parents, queue, registered)|
  {
    forall m ensures m in Unqueued(parents, queue', registered) <==> m in Unqueued(parents, queue, registered) - {p} {
    }
    SmallerSet(Unqueued(parents, queue', registered), Unqueued(parents, queue, registered), p);
  }

  /** Each turn registers a metric, or else queues a new one, or else shortens the queue, or else brings a
      productive entry nearer. */
  lemma TurnMakesProgress(parents: Parents, depth: map<Id, nat>, queue: seq<Id>, registered: set<Id>)
    requires Acyclic(parents, depth) && queue != [] && Known(parents, queue)
    requires registered <= parents.Keys && Distinct(queue)
    ensures var (queue', registered') := Turn(parents, queue, registered);
            && Known(parents, queue') && Distinct(queue')
            && Worth(parents, queue', registered').Below(Worth(parents, queue, registered))
  {
    hide Distance, Unqueued, Distinct;
    var m, rest := queue[0], queue[1..];
    var (queue', registered') := Turn(parents, queue, registered);
    TurnKeepsQueue(parents, depth, queue, registered);
    assert queue == [m] + rest;
    if m in registered {
      UnqueuedSame(parents, queue', queue, registered);
    } else if parents[m].Some? && Parent(parents, m) !in registered {
      var p := Parent(parents, m);
      if p in queue {
        WaitingBringsNearer(parents, depth, queue, registered);
        HeadNotInRest(queue);
        assert queue' == rest + [m];
        UnqueuedSame(parents, queue', queue, registered);
      } else {
        HeadNotInRest(queue);
        assert queue' == rest + [p] + [m];
        UnqueuedLess(parents, queue, queue', registered, p);
      }
    } else {
      SmallerSet(parents.Keys - registered', parents.Keys - registered, m);
    }
  }

  lemma HeadNotInRest(queue: seq<Id>)
    requires Distinct(queue) && queue != []
    ensures queue[0] !in queue[1..]
  {
  }

  /** Metrics that each wait for another of their number: a cycle and what hangs below it. */
  ghost predicate Knot(parents: Parents, knot: set<Id>, registered: set<Id>) {
    knot !! registered && forall m | m in knot :: m in parents && parents[m].Some? && Parent(parents, m) in knot
  }

  ghost predicate Touches(queue: seq<Id>, knot: set<Id>) {
    exists m :: m in queue && m in knot
  }

  /** Once a metric of a knot is queued, a turn registers none of the knot and keeps one of it queued. */
  lemma KnotStaysQueued(parents: Parents, queue: seq<Id>, registered: set<Id>, knot: set<Id>)
    requires queue != [] && Known(parents, queue) && Knot(parents, knot, registered)
    requires Touches(queue, knot)
    ensures var (queue', registered') := Turn(parents, queue, registered);
            Knot(parents, knot, registered') && Touches(queue', knot)
  {
    var (queue', registered') := Turn(parents, queue, registered);
    var m :| m in queue && m in knot;
    assert queue == [queue[0]] + queue[1..];
    if queue[0] in knot {
      assert queue[0] in queue';
    } else {
      assert m in queue[1..] && m in queue';
    }
  }

  // ----- when the queue empties

  ghost predicate ParentsKnown(parents: Parents) {
    forall m | m in parents && parents[m].Some? :: Parent(parents, m) in parents
  }

  lemma TurnKeepsKnown(parents: Parents, queue: seq<Id>, registered: set<Id>)
    requires ParentsKnown(parents) && Known(parents, queue) && queue != []
    ensures Known(parents, Turn(parents, queue, registered).0)
  {
    assert queue == [queue[0]] + queue[1..];
  }

  /** The queue and the registered set after n turns; an empty queue stays empty. */
  ghost function AfterTurns(parents: Parents, queue: seq<Id>, registered: set<Id>, n: nat): (seq<Id>, set<Id>)
    requires ParentsKnown(parents) && Known(parents, queue)
    decreases n
  {
    if n == 0 || queue == [] then (queue, registered)
    else
      TurnKeepsKnown(parents, queue, registered);
      var (queue', registered') := Turn(parents, queue, registered);
      AfterTurns(parents, queue', registered', n - 1)
  }

  ghost predicate Empties(parents: Parents, queue: seq<Id>, registered: set<Id>, n: nat)
    requires ParentsKnown(parents) && Known(parents, queue)
  {
    AfterTurns(parents, queue, registered, n).0 == []
  }

  /** With a metric of a knot queued, no number of turns empties the queue. */
  lemma {:induction false} KnotNeverDrains(parents: Parents, queue: seq<Id>, registered: set<Id>, knot: set<Id>, n: nat)
    requires ParentsKnown(parents) && Known(parents, queue) && Knot(parents, knot, registered)
    requires Touches(queue, knot)
    ensures !Empties(parents, queue, registered, n)
    decreases n
  {
    if n > 0 {
      var (queue', registered') := Turn(parents, queue, registered);
      KnotStaysQueued(parents, queue, registered, knot);
      TurnKeepsKnown(parents, queue, registered);
      KnotNeverDrains(parents, queue', registered', knot, n - 1);
    }
  }

  lemma AcyclicIsKnown(parents: Parents, depth: map<Id, nat>)
    requires Acyclic(parents, depth)
    ensures ParentsKnown(parents)
  {
  }

  lemma OneTurnMore(parents: Parents, queue: seq<Id>, registered: set<Id>, n: nat)
    requires ParentsKnown(parents) && Known(parents, queue) && queue != []
    ensures var (queue', registered') := Turn(parents, queue, registered);
            Known(parents, queue') &&
            (Empties(parents, queue, registered, n + 1) <==> Empties(parents, queue', registered', n))
  {
    TurnKeepsKnown(parents, queue, registered);
  }

  lemma {:induction false} AcyclicDrains(parents: Parents, depth: map<Id, nat>, queue: seq<Id>, registered: set<Id>)
    returns (n: nat)
    requires Acyclic(parents, depth) && ParentsKnown(parents) && Known(parents, queue) && Distinct(queue)
    requires registered <= parents.Keys
    ensures Empties(parents, queue, registered, n)
    decreases Worth(parents, queue, registered).unregistered, Worth(parents, queue, registered).unqueued,
              Worth(parents, queue, registered).length, Worth(parents, queue, registered).distance
  {
    n := 0;
    if queue != [] {
      var (queue', registered') := Turn(parents, queue, registered);
      TurnMakesProgress(parents, depth, queue, registered);
      assert registered' <= parents.Keys;
      hide Acyclic, ParentsKnown, Distinct, Turn, Worth, Empties;
      n := AcyclicDrains(parents, depth, queue', registered');
      OneTurnMore(parents, queue, registered, n);
      n := n + 1;
    }
  }

  // ----- giving depths from the top down

  /** Depths of some metrics, those of their parents among them. */
  ghost predicate Graded(parents: Parents, depth: map<Id, nat>) {
    && depth.Keys <= parents.Keys
    && forall m | m in depth && parents[m].Some? ::
         Parent(parents, m) in depth && depth[Parent(parents, m)] < depth[m]
  }

  /** The next metric to be given a depth: its parent, if any, has one. */
  ghost predicate Ready(parents: Parents, depth: map<Id, nat>, m: Id) {
    m in parents && m !in depth && (parents[m].Some? ==> Parent(parents, m) in depth)
  }

  lemma GradeOne(parents: Parents, depth: map<Id, nat>, m: Id) returns (more: map<Id, nat>)
    requires Graded(parents, depth) && Ready(parents, depth, m)
    ensures Graded(parents, more) && |parents.Keys - more.Keys| < |parents.Keys - depth.Keys|
  {
    more := depth[m := if parents[m].None? then 0 else depth[Parent(parents, m)] + 1];
    var left := parents.Keys - depth.Keys;
    assert parents.Keys - more.Keys == left - {m};
    SmallerSet(left - {m}, left, m);
  }

  lemma {:induction false} GradeAll(parents: Parents, depth: map<Id, nat>) returns (full: map<Id, nat>)
    requires Graded(parents, depth)
    ensures Graded(parents, full) && forall m :: !Ready(parents, full, m)
    decreases |parents.Keys - depth.Keys|
  {
    hide Graded, Ready;
    if exists m :: Ready(parents, depth, m) {
      var m :| Ready(parents, depth, m);
      var more := GradeOne(parents, depth, m);
      full := GradeAll(parents, more);
    } else {
      full := depth;
    }
  }

  /** Registered metrics wait for nothing. */
  ghost function Released(parents: Parents, registered: set<Id>): Parents {
    map m | m in parents :: if m in registered then None else parents[m]
  }

  ghost function Restricted(parents: Parents, keys: set<Id>): Parents {
    map m | m in parents && m in keys :: parents[m]
  }

  /** What cannot be graded is a knot. */
  lemma UngradedIsKnot(parents: Parents, registered: set<Id>, depth: map<Id, nat>)
    requires ParentsKnown(parents) && registered <= parents.Keys
    requires forall m :: !Ready(Released(parents, registered), depth, m)
    ensures Knot(parents, parents.Keys - depth.Keys, registered)
    ensures registered <= depth.Keys
  {
    var free, left := Released(parents, registered), parents.Keys - depth.Keys;
    forall m | m in left ensures m !in registered && parents[m].Some? && Parent(parents, m) in left {
      assert !Ready(free, depth, m);
      assert parents[m].Some? ==> Parent(parents, m) in parents;
    }
    assert forall m | m in registered :: m in left || m in depth;
  }

  lemma GradedIsAcyclic(parents: Parents, registered: set<Id>, depth: map<Id, nat>)
    requires Graded(Released(parents, registered), depth)
    ensures Acyclic(Restricted(Released(parents, registered), depth.Keys), depth)
  {
    var free := Released(parents, registered);
    var some := Restricted(free, depth.Keys);
    assert some.Keys == depth.Keys;
    forall m | m in some && some[m].Some?
      ensures Parent(some, m) in some && depth[Parent(some, m)] < depth[m]
    {
      assert Parent(free, m) == Parent(some, m);
    }
  }

  /** The same parents, as far as they still matter. */
  ghost predicate SameParents(parents: Parents, some: Parents, registered: set<Id>) {
    forall m | m in some :: m in parents && (m !in registered ==> some[m] == parents[m])
  }

  lemma {:induction false} SameTurns(parents: Parents, some: Parents, queue: seq<Id>, registered: set<Id>, n: nat)
    requires ParentsKnown(parents) && ParentsKnown(some) && SameParents(parents, some, registered)
    requires Known(parents, queue) && Known(some, queue)
    ensures AfterTurns(parents, queue, registered, n) == AfterTurns(some, queue, registered, n)
    decreases n
  {
    if n > 0 && queue != [] {
      var (queue', registered') := Turn(some, queue, registered);
      assert Turn(parents, queue, registered) == (queue', registered');
      TurnKeepsKnown(parents, queue, registered);
      TurnKeepsKnown(some, queue, registered);
      assert SameParents(parents, some, registered');
      hide Turn, SameParents, ParentsKnown;
      SameTurns(parents, some, queue', registered', n - 1);
    }
  }

  ghost predicate Entangled(parents: Parents, queue: seq<Id>, registered: set<Id>) {
    exists knot :: Knot(parents, knot, registered) && Touches(queue, knot)
  }

  lemma DrainsUnlessEntangled(parents: Parents, queue: seq<Id>, registered: set<Id>) returns (n: nat)
    requires ParentsKnown(parents) && Known(parents, queue) && Distinct(queue) && registered <= parents.Keys
    requires !Entangled(parents, queue, registered)
    ensures Empties(parents, queue, registered, n)
  {
    var depth := GradeAll(Released(parents, registered), map[]);
    var some := Restricted(Released(parents, registered), depth.Keys);
    UngradedIsKnot(parents, registered, depth);
    QueueIsGraded(parents, queue, registered, depth);
    GradedIsAcyclic(parents, registered, depth);
    RestrictedIsSame(parents, registered, depth.Keys);
    hide Released, Restricted, Graded, Ready, Acyclic, SameParents, ParentsKnown, Entangled, Knot, Distinct, AfterTurns;
    AcyclicIsKnown(some, depth);
    n := AcyclicDrains(some, depth, queue, registered);
    SameTurns(parents, some, queue, registered, n);
  }

  lemma QueueIsGraded(parents: Parents, queue: seq<Id>, registered: set<Id>, depth: map<Id, nat>)
    requires Known(parents, queue) && !Entangled(parents, queue, registered)
    requires Knot(parents, parents.Keys - depth.Keys, registered)
    ensures Known(Restricted(Released(parents, registered), depth.Keys), queue)
  {
    var left := parents.Keys - depth.Keys;
    forall k | 0 <= k < |queue| ensures queue[k] in depth {
      if queue[k] in left {
        TouchesThere(queue, left, k);
      }
    }
  }

  lemma TouchesThere(queue: seq<Id>, knot: set<Id>, k: nat)
    requires k < |queue| && queue[k] in knot
    ensures Touches(queue, knot)
  {
    var m :| m in queue && m == queue[k];
  }

  lemma RestrictedIsSame(parents: Parents, registered: set<Id>, keys: set<Id>)
    requires keys <= parents.Keys
    ensures SameParents(parents, Restricted(Released(parents, registered), keys), registered)
    ensures Restricted(Released(parents, registered), keys).Keys == keys
  {
  }

  /** The queue empties after some number of turns if and only if no queued metric waits, directly or through its
      ancestors, for a cycle: none belongs to a knot. */
  lemma DrainsIffNotEntangled(parents: Parents, queue: seq<Id>, registered: set<Id>)
    requires ParentsKnown(parents) && Known(parents, queue) && Distinct(queue) && registered <= parents.Keys
    ensures (exists n :: Empties(parents, queue, registered, n)) <==> !Entangled(parents, queue, registered)
  {
    if Entangled(parents, queue, registered) {
      var knot :| Knot(parents, knot, registered) && Touches(queue, knot);
      forall n ensures !Empties(parents, queue, registered, n) {
        KnotNeverDrains(parents, queue, registered, knot, n);
      }
    } else {
      var n := DrainsUnlessEntangled(parents, queue, registered);
    }
  }

  // ----- how metrics come about

  /** A new metric gets an identifier of its own, and the metric it is given as its parent exists already. */
  datatype Creation = Creation(id: Id, parent: Option<Id>)

  ghost predicate Creatable(creations: seq<Creation>) {
    forall i | 0 <= i < |creations| ::
      (forall j | 0 <= j < i :: creations[j].id != creations[i].id)
      && (creations[i].parent.Some? ==> exists j :: 0 <= j < i && creations[j].id == creations[i].parent.value)
  }

  function Created(creations: seq<Creation>): Parents {
    if creations == [] then map[]
    else
      var last := creations[|creations| - 1];
      Created(creations[..|creations| - 1])[last.id := last.parent]
  }

  lemma {:induction false} CreatedKeys(creations: seq<Creation>)
    ensures forall m :: m in Created(creations) <==> exists j :: 0 <= j < |creations| && creations[j].id == m
  {
    if creations != [] {
      var n, before := |creations| - 1, creations[..|creations| - 1];
      CreatedKeys(before);
      forall m ensures m in Created(creations) <==> exists j :: 0 <= j < |creations| && creations[j].id == m {
        if m in Created(before) {
          var j :| 0 <= j < |before| && before[j].id == m;
          assert creations[j].id == m;
        }
        if j :| 0 <= j < |creations| && creations[j].id == m {
          assert j < n ==> before[j].id == m;
        }
      }
    }
  }

  /** So the parents of all metrics that can come about are acyclic: the order of creation is a depth. */
  lemma {:induction false} CreatedIsAcyclic(creations: seq<Creation>) returns (depth: map<Id, nat>)
    requires Creatable(creations)
    ensures Acyclic(Created(creations), depth)
    ensures forall m | m in depth :: depth[m] < |creations|
  {
    if creations == [] {
      depth := map[];
    } else {
      var n, before := |creations| - 1, creations[..|creations| - 1];
      var last := creations[n];
      assert forall i | 0 <= i < n :: before[i] == creations[i];
      var earlier := CreatedIsAcyclic(before);
      CreatedKeys(before);
      depth := earlier[last.id := n];
      assert last.id !in earlier;
      assert last.parent.Some? ==> last.parent.value in earlier;
      forall m | m in Created(creations) && Created(creations)[m].Some?
        ensures Parent(Created(creations), m) in depth && depth[Parent(Created(creations), m)] < depth[m]
      {
        assert m != last.id ==> Parent(Created(before), m) == Parent(Created(creations), m);
      }
    }
  }

  // ----- the thread

  datatype Outcome = Worked | Slept | Died

  /** The turn asks the service to register the first entry. */
  ghost predicate Registers(parents: Parents, queue: seq<Id>, registered: set<Id>)
    requires queue != [] && queue[0] in parents
  {
    queue[0] !in registered && (parents[queue[0]].Some? ==> Parent(parents, queue[0]) in registered)
  }

  type Tag = string

  /** `metricsToRegister` is the ordered dictionary, by key. `service` is what the remote call answers for a metric
      and its parent's public id; `log` is history: the registrations in the order in which they were made. */
  class RegisterWorker {
    ghost const depth: map<Id, nat>
    const parents: Parents
    const service: (Id, Option<Tag>) -> Tag
    var metricsToRegister: seq<Id>
    var publicIds: map<Id, Tag>
    ghost var log: seq<Id>

    ghost predicate Valid()
      reads this
    {
      && Acyclic(parents, depth)
      && Known(parents, metricsToRegister) && Distinct(metricsToRegister)
      && publicIds.Keys <= parents.Keys && ClosedUnderParents(parents, publicIds.Keys)
      && RegisteredInOrder(parents, publicIds, log)
      && (forall m | m in publicIds :: publicIds[m] == service(m, ParentTag(parents, publicIds, m)))
    }

    constructor (parents: Parents, ghost depth: map<Id, nat>, service: (Id, Option<Tag>) -> Tag, metrics: seq<Id>)
      requires Acyclic(parents, depth) && Known(parents, metrics) && Distinct(metrics)
      ensures Valid() && this.parents == parents && this.depth == depth && this.service == service
      ensures metricsToRegister == metrics && publicIds == map[] && log == []
    {
      this.parents := parents;
      this.depth := depth;
      this.service := service;
      metricsToRegister := metrics;
      publicIds := map[];
      log := [];
    }

    /** `register`, by this thread or by any other between two of its steps. */
    method Register(m: Id)
      requires Valid() && m in parents
      modifies `metricsToRegister
      ensures Valid()
      ensures metricsToRegister == Enqueue(old(metricsToRegister), m)
    {
      if m !in metricsToRegister {
        metricsToRegister := metricsToRegister + [m];
      }
    }

    /** One call; `answers` tells whether the service answers the registration, if one is made. With an empty queue the
        thread sleeps. When the service does not answer, the metric has left the queue and the handler releases a lock
        that is not held, which ends the thread. */
    method ProcessPendingQueue(answers: bool) returns (outcome: Outcome)
      requires Valid()
      modifies `metricsToRegister, `publicIds, `log
      ensures Valid()
      ensures outcome == if old(metricsToRegister) == [] then Slept
                         else if !answers && Registers(parents, old(metricsToRegister), old(publicIds.Keys)) then Died
                         else Worked
      ensures outcome.Slept? ==> metricsToRegister == [] && publicIds == old(publicIds) && log == old(log)
      ensures outcome.Died? ==>
        metricsToRegister == old(metricsToRegister)[1..] && publicIds == old(publicIds) && log == old(log)
      ensures outcome.Worked? ==>
        (metricsToRegister, publicIds.Keys) == Turn(parents, old(metricsToRegister), old(publicIds.Keys))
      ensures old(log) <= log && forall m | m in old(publicIds) :: m in publicIds && publicIds[m] == old(publicIds)[m]
    {
      hide Lineage, Needed, Distance, RegisteredInOrder;
      if metricsToRegister == [] {
        return Slept;
      }
      TurnKeepsNeeded(parents, depth, metricsToRegister, publicIds.Keys);
      var localId := metricsToRegister[0];
      metricsToRegister := metricsToRegister[1..];
      if localId !in publicIds {
        if parents[localId].Some? && Parent(parents, localId) !in publicIds {
          Register(Parent(parents, localId));
          Register(localId);
        } else if answers {
          RegisterMetric(localId);
        } else {
          return Died;
        }
      }
      outcome := Worked;
    }

    /** `_register_metric`, and the entry it makes. */
    method RegisterMetric(localId: Id)
      requires Valid() && localId in parents && localId !in publicIds
      requires parents[localId].Some? ==> Parent(parents, localId) in publicIds
      modifies `publicIds, `log
      ensures Valid()
      ensures publicIds.Keys == old(publicIds.Keys) + {localId} && log == old(log) + [localId]
      ensures forall m | m in old(publicIds) :: publicIds[m] == old(publicIds)[m]
    {
      hide RegisteredInOrder, Distinct, Acyclic;
      var parentTag := if parents[localId].None? then None else Some(publicIds[Parent(parents, localId)]);
      RegisterAppends(parents, publicIds, log, localId, service(localId, parentTag));
      publicIds := publicIds[localId := service(localId, parentTag)];
      log := log + [localId];
      assert publicIds.Keys == old(publicIds.Keys) + {localId};
    }

    /** The second loop of `run`, when registrations succeed and nobody interrupts: it ends, and what is then
        registered is what was, what was asked for, and their ancestors; each once, each after its parent, each under
        its parent's public id. */
    method Drain()
      requires Valid()
      modifies `metricsToRegister, `publicIds, `log
      ensures Valid() && metricsToRegister == []
      ensures publicIds.Keys == old(publicIds.Keys) + Needed(parents, depth, old(metricsToRegister))
      ensures old(log) <= log
    {
      hide Lineage, Needed, Distance, Unqueued, RegisteredInOrder, Acyclic, Distinct, ParentTag, Turn, Worth;
      ghost var start := publicIds.Keys + Needed(parents, depth, metricsToRegister);
      while |metricsToRegister| > 0
        invariant Valid() && old(log) <= log
        invariant publicIds.Keys + Needed(parents, depth, metricsToRegister) == start
        decreases Worth(parents, metricsToRegister, publicIds.Keys).unregistered,
                  Worth(parents, metricsToRegister, publicIds.Keys).unqueued,
                  Worth(parents, metricsToRegister, publicIds.Keys).length,
                  Worth(parents, metricsToRegister, publicIds.Keys).distance
      {
        TurnMakesProgress(parents, depth, metricsToRegister, publicIds.Keys);
        TurnKeepsNeeded(parents, depth, metricsToRegister, publicIds.Keys);
        var _ := ProcessPendingQueue(true);
      }
      assert metricsToRegister == [];
      NothingNeeded(parents, depth);
    }
  }

  lemma NothingNeeded(parents: Parents, depth: map<Id, nat>)
    requires Acyclic(parents, depth)
    ensures Needed(parents, depth, []) == {}
  {
  }

  /** The log names exactly the registered metrics, each once, and each after its parent. */
  ghost predicate RegisteredInOrder(parents: Parents, publicIds: map<Id, Tag>, log: seq<Id>)
    requires publicIds.Keys <= parents.Keys
  {
    && Distinct(log)
    && (forall m :: m in log <==> m in publicIds)
    && (forall i | 0 <= i < |log| && log[i] in parents && parents[log[i]].Some? :: Parent(parents, log[i]) in log[..i])
  }

  ghost function ParentTag(parents: Parents, publicIds: map<Id, Tag>, m: Id): Option<Tag>
    requires m in parents && m in publicIds
    requires publicIds.Keys <= parents.Keys && ClosedUnderParents(parents, publicIds.Keys)
  {
    if parents[m].None? then None else Some(publicIds[Parent(parents, m)])
  }

  lemma RegisterAppends(parents: Parents, publicIds: map<Id, Tag>, log: seq<Id>, m: Id, tag: Tag)
    requires publicIds.Keys <= parents.Keys && RegisteredInOrder(parents, publicIds, log)
    requires m in parents && m !in publicIds && (parents[m].Some? ==> Parent(parents, m) in publicIds)
    ensures RegisteredInOrder(parents, publicIds[m := tag], log + [m])
  {
    var more := log + [m];
    assert forall i | 0 <= i < |log| :: more[i] in log;
    forall i | 0 <= i < |more| && more[i] in parents && parents[more[i]].Some?
      ensures Parent(parents, more[i]) in more[..i]
    {
      assert i < |log| ==> more[..i] == log[..i];
      assert i == |log| ==> more[..i] == log;
    }
  }

  /** The least set that holds the metrics and is closed under parents. */
  ghost predicate LeastClosed(parents: Parents, metrics: seq<Id>, registered: set<Id>) {
    && registered <= parents.Keys && ClosedUnderParents(parents, registered)
    && (forall m | m in metrics :: m in registered)
    && forall closed: set<Id> | closed <= parents.Keys && ClosedUnderParents(parents, closed)
         && (forall m | m in metrics :: m in closed) :: registered <= closed
  }

  lemma NeededIsLeastClosed(parents: Parents, depth: map<Id, nat>, metrics: seq<Id>)
    requires Acyclic(parents, depth) && Known(parents, metrics)
    ensures Needed(parents, depth, metrics) <= parents.Keys
    ensures ClosedUnderParents(parents, Needed(parents, depth, metrics)) ==>
            LeastClosed(parents, metrics, Needed(parents, depth, metrics))
  {
    var needed := Needed(parents, depth, metrics);
    forall m | m in metrics ensures m in needed {
      NeededMember(parents, depth, metrics, m);
      assert m in Lineage(parents, depth, m);
    }
    forall closed: set<Id>, a | closed <= parents.Keys && ClosedUnderParents(parents, closed)
                                && (forall m | m in metrics :: m in closed) && a in needed
      ensures a in closed
    {
      NeededMember(parents, depth, metrics, a);
      var m :| m in metrics && a in Lineage(parents, depth, m);
      LineageInside(parents, depth, m, closed);
    }
    NeededInside(parents, depth, metrics);
  }

  lemma {:induction false} NeededInside(parents: Parents, depth: map<Id, nat>, metrics: seq<Id>)
    requires Acyclic(parents, depth) && Known(parents, metrics)
    ensures Needed(parents, depth, metrics) <= parents.Keys
  {
    if metrics != [] {
      LineageInside(parents, depth, metrics[0], parents.Keys);
      NeededInside(parents, depth, metrics[1..]);
    }
  }

  /** For all metrics that can come about, registered in any order: the drain ends, with exactly the queued metrics and
      their ancestors registered, each once, after its parent and under its parent's public id. */
  method DrainCreated(creations: seq<Creation>, service: (Id, Option<Tag>) -> Tag, metrics: seq<Id>)
    returns (publicIds: map<Id, Tag>, ghost log: seq<Id>)
    requires Creatable(creations) && Known(Created(creations), metrics) && Distinct(metrics)
    ensures LeastClosed(Created(creations), metrics, publicIds.Keys)
    ensures RegisteredInOrder(Created(creations), publicIds, log)
    ensures forall m | m in publicIds ::
      publicIds[m] == service(m, ParentTag(Created(creations), publicIds, m))
  {
    ghost var depth := CreatedIsAcyclic(creations);
    var worker := new RegisterWorker(Created(creations), depth, service, metrics);
    worker.Drain();
    publicIds, log := worker.publicIds, worker.log;
    assert publicIds.Keys == Needed(Created(creations), depth, metrics);
    hide Lineage, Needed, Created, RegisteredInOrder;
    NeededIsLeastClosed(Created(creations), depth, metrics);
  }
}
