/** The pool of yandextank/plugins/Bfg/worker.py does stop: with a place in the queue for every task and every worker,
    each run that is fair to the work there is comes to its end, whatever the order of the steps. */
module Stopping {
  import opened Common
  import opened Bfg

  // ----- the work there is

  /** A worker that only looks whether there is something to do. */
  ghost predicate Idle(step: Step) {
    step.Works? && (step.w.Loops? || step.w.FindsEmpty?)
  }

  ghost predicate IsWork(step: Step) {
    !Idle(step) && step != QuitIsSet
  }

  ghost predicate CanWork(s: State) {
    exists step :: Enabled(s, step) && IsWork(step)
  }

  /** What the worker has before it. */
  ghost function Labour(): Worker -> nat {
    (w: Worker) => match w
      case Starting => 4
      case Looping => 3
      case Getting => 3
      case Holding(_) => 5
      case Shooting(_) => 4
      case TearingDown(_) => 1
      case Dead(_) => 0
  }

  ghost function Effort(s: State): int {
    7 * FeederDistance(s) + 6 * |s.queue| + Total(s.workers, Labour())
  }

  /** A state from which nobody has asked the pool to quit, with a place for everything. */
  ghost predicate Sound(s: State) {
    Inv(s) && Roomy(s) && !s.quit
  }

  lemma StepKeepsSound(s: State, step: Step)
    requires Sound(s) && Enabled(s, step) && step != QuitIsSet
    ensures Sound(Apply(s, step))
  {
    hide Inv, Roomy, Enabled, Apply;
    StepKeepsInv(s, step);
    StepKeepsRoomy(s, step);
    OnlyQuitSetsQuit(s, step);
  }

  lemma OnlyQuitSetsQuit(s: State, step: Step)
    requires Enabled(s, step) && step != QuitIsSet
    ensures Apply(s, step).quit == s.quit
  {
    hide FeederCan, FeederDoes, AllDead, Becomes;
    if step.Feeds? {
      FeederLeavesWorkers(s, step.f);
    }
  }

  lemma EffortIsNatural(s: State)
    requires Sound(s)
    ensures FeederDistance(s) >= 0 && Effort(s) >= 0
  {
    hide ShotsAccounted, KillersAccounted, Roomy, Total;
  }

  lemma FeederWorks(s: State, f: FeederStep)
    requires Sound(s) && FeederCan(s, f)
    ensures Effort(FeederDoes(s, f)) < Effort(s)
  {
    hide TasksAccounted, ShotsAccounted, Total, Killers, Tasks, TasksFirst, AllDead;
    FedWithin(s);
    FeederLeavesWorkers(s, f);
  }

  lemma WorkerWorks(s: State, k: nat, w: WorkerStep)
    requires !s.quit && Enabled(s, Works(k, w))
    ensures Effort(WorkerDoes(s, k, w)) <= Effort(s)
    ensures !Idle(Works(k, w)) ==> Effort(WorkerDoes(s, k, w)) < Effort(s)
  {
    hide Total, FeederDistance;
    TotalAfter(s, k, w, Labour());
    WorkerLeavesFeeder(s, k, w);
  }

  lemma WorkerLeavesFeeder(s: State, k: nat, w: WorkerStep)
    requires Enabled(s, Works(k, w))
    ensures FeederDistance(WorkerDoes(s, k, w)) == FeederDistance(s)
    ensures var queue := WorkerDoes(s, k, w).queue; if w.Gets? then queue == s.queue[1..] else queue == s.queue
  {
    hide Becomes;
  }

  /** No step makes more work, and every step that is work leaves less of it. */
  lemma WorkLowersEffort(s: State, step: Step)
    requires Sound(s) && Enabled(s, step) && step != QuitIsSet
    ensures Effort(Apply(s, step)) <= Effort(s) && (IsWork(step) ==> Effort(Apply(s, step)) < Effort(s))
  {
    hide Inv, Roomy, FeederCan, FeederDoes, WorkerCan, WorkerDoes, Effort;
    match step
    case Feeds(f) => FeederWorks(s, f);
    case Works(k, w) => WorkerWorks(s, k, w);
    case StopDrains =>
  }

  // ----- how much work a run can hold

  ghost function Work(run: seq<Step>): nat {
    if run == [] then 0 else (if IsWork(run[0]) then 1 else 0) + Work(run[1..])
  }

  lemma {:induction false} WorkWithin(s: State, run: seq<Step>)
    requires Sound(s) && Possible(s, run) && QuitFree(run)
    ensures 0 <= Work(run) <= Effort(s)
    decreases |run|
  {
    hide Sound, Enabled, Apply, Effort, IsWork;
    EffortIsNatural(s);
    if run != [] {
      assert run[0] in run && forall step | step in run[1..] :: step in run;
      WorkLowersEffort(s, run[0]);
      StepKeepsSound(s, run[0]);
      WorkWithin(Apply(s, run[0]), run[1..]);
    }
  }

  /** However long a run is, unless somebody sets the quit flag: all of it but so many steps are idle looks. */
  lemma WorkIsBounded(plan: seq<Task>, instances: nat, capacity: nat, run: seq<Step>)
    requires |plan| + instances <= capacity
    requires Possible(Init(plan, instances, capacity), run) && QuitFree(run)
    ensures Work(run) <= 14 * |plan| + 11 * instances + 28
  {
    hide Inv, Roomy;
    StartIsSound(plan, instances, capacity);
    EffortAtStart(plan, instances, capacity);
    WorkWithin(Init(plan, instances, capacity), run);
  }

  lemma StartIsSound(plan: seq<Task>, instances: nat, capacity: nat)
    requires |plan| + instances <= capacity
    ensures Sound(Init(plan, instances, capacity))
  {
    hide Inv;
    InitInv(plan, instances, capacity);
  }

  lemma EffortAtStart(plan: seq<Task>, instances: nat, capacity: nat)
    ensures Effort(Init(plan, instances, capacity)) == 14 * |plan| + 11 * instances + 28
  {
    LabourAtStart(instances);
  }

  lemma {:induction false} LabourAtStart(n: nat)
    ensures Total(seq(n, _ => Starting), Labour()) == 4 * n
  {
    if n > 0 {
      assert seq(n, _ => Starting)[1..] == seq(n - 1, _ => Starting);
      LabourAtStart(n - 1);
    }
  }

  // ----- while a worker is idle there is work

  lemma FeederOrKillers(s: State, k: nat)
    requires Sound(s) && k < |s.workers| && !s.workers[k].Stopped()
    ensures CanWork(s) || s.queue != []
  {
    hide Inv, Roomy, FeederCan, FeederDoes;
    if s.feeder.Checking? || s.feeder.Putting? || s.feeder.Killing? {
      var f := FeederGoesOn(s);
      ThisIsApply(s, f);
      assert IsWork(Feeds(f));
    } else {
      NotLeft(s);
      ServedAfterBatch(s);
      TotalUpdate(s.workers, k, s.workers[k], ActiveWeight());
    }
  }

  lemma NotLeft(s: State)
    requires Sound(s) && !s.feeder.Checking? && !s.feeder.Putting? && !s.feeder.Killing?
    ensures s.batchDone && s.drained == []
  {
    hide Inv;
  }

  /** Whenever a worker looks around, there is work before or after the look. */
  lemma IdleSeesWork(s: State, step: Step)
    requires Sound(s) && Enabled(s, step) && Idle(step)
    ensures CanWork(s) || CanWork(Apply(s, step))
  {
    hide Sound;
    var k := step.worker;
    FeederOrKillers(s, k);
    if s.queue != [] {
      var t := if step.w.Loops? then Apply(s, step) else s;
      StillRunning(s);
      assert Enabled(t, Works(k, Gets)) && IsWork(Works(k, Gets));
    }
  }

  lemma StillRunning(s: State)
    requires Sound(s)
    ensures !s.quit
  {
    hide Inv, Roomy;
  }

  /** Some step other than a quit is left, unless the pool has stopped and the feeder knows. */
  lemma OnlyTheEndIsStuck(s: State)
    requires Sound(s)
    ensures (AllDead(s.workers) && s.feeder.Finished?) || exists step :: Enabled(s, step) && step != QuitIsSet
  {
    hide Inv, Roomy, Stops;
    var run := RoomyPoolCanStop(s);
    FirstStep(s, run);
    if AllDead(s.workers) && s.feeder.Joining? {
      assert Enabled(s, Feeds(JoinsPool));
    } else if !s.feeder.Joining? && !s.feeder.Finished? {
      FeederStillGoes(s);
    }
  }

  lemma FirstStep(s: State, run: seq<Step>)
    requires Stops(s, run)
    ensures AllDead(s.workers) || exists step :: Enabled(s, step) && step != QuitIsSet
  {
    hide Enabled, Apply, AllDead;
    if run != [] {
      assert run[0] in run;
    }
  }

  lemma FeederStillGoes(s: State)
    requires Sound(s) && !s.feeder.Joining? && !s.feeder.Finished?
    ensures exists step :: Enabled(s, step) && step != QuitIsSet
  {
    hide Inv, FeederCan, FeederDoes;
    var f := FeederGoesOn(s);
    ThisIsApply(s, f);
    assert Enabled(s, Feeds(f)) && Feeds(f) != QuitIsSet;
  }

  // ----- fair runs end

  /** A run without end in which nobody sets the quit flag. */
  ghost predicate Endless(states: nat -> State, steps: nat -> Step) {
    forall i: nat ::
      Enabled(states(i), steps(i)) && steps(i) != QuitIsSet && states(i + 1) == Apply(states(i), steps(i))
  }

  ghost predicate WorkComes(states: nat -> State, i: nat) {
    exists j: nat :: j >= i && CanWork(states(j))
  }

  ghost predicate WorkIsDone(steps: nat -> Step, i: nat) {
    exists j: nat :: j >= i && IsWork(steps(j))
  }

  /** If there is work again and again, some of it is done again and again. */
  ghost predicate Fair(states: nat -> State, steps: nat -> Step) {
    (forall i: nat :: WorkComes(states, i)) ==> forall i: nat :: WorkIsDone(steps, i)
  }

  lemma {:induction false} AlwaysSound(states: nat -> State, steps: nat -> Step, i: nat, j: nat)
    requires Endless(states, steps) && Sound(states(i)) && i <= j
    ensures Sound(states(j)) && Effort(states(j)) <= Effort(states(i))
    decreases j
  {
    hide Sound, Enabled, Apply, Effort;
    if i < j {
      AlwaysSound(states, steps, i, j - 1);
      StepKeepsSound(states(j - 1), steps(j - 1));
      WorkLowersEffort(states(j - 1), steps(j - 1));
      assert states(j - 1 + 1) == states(j);
    }
  }

  lemma WorkAlwaysComes(states: nat -> State, steps: nat -> Step, i: nat)
    requires Endless(states, steps) && Sound(states(0))
    ensures WorkComes(states, i)
  {
    hide Sound, Enabled, Apply;
    AlwaysSound(states, steps, 0, i);
    if Idle(steps(i)) {
      IdleSeesWork(states(i), steps(i));
      assert CanWork(states(i)) || CanWork(states(i + 1));
    } else {
      assert CanWork(states(i));
    }
  }

  lemma {:induction false} WorkRunsOut(states: nat -> State, steps: nat -> Step, i: nat)
    requires Endless(states, steps) && Sound(states(i))
    ensures exists k: nat :: !WorkIsDone(steps, k)
    decreases Effort(states(i))
  {
    hide Sound, Enabled, Apply, Effort;
    EffortIsNatural(states(i));
    if WorkIsDone(steps, i) {
      var j: nat :| j >= i && IsWork(steps(j));
      AlwaysSound(states, steps, i, j);
      StepKeepsSound(states(j), steps(j));
      WorkLowersEffort(states(j), steps(j));
      EffortIsNatural(states(j + 1));
      WorkRunsOut(states, steps, j + 1);
    }
  }

  /** With a place in the queue for every task and every worker no fair run goes on for ever: the pool stops by
      itself. */
  lemma FairRunsEnd(plan: seq<Task>, instances: nat, capacity: nat, states: nat -> State, steps: nat -> Step)
    requires |plan| + instances <= capacity
    requires states(0) == Init(plan, instances, capacity) && Endless(states, steps)
    ensures !Fair(states, steps)
  {
    hide Sound, Enabled, Apply, CanWork, IsWork;
    StartIsSound(plan, instances, capacity);
    forall i: nat ensures WorkComes(states, i) {
      WorkAlwaysComes(states, steps, i);
    }
    WorkRunsOut(states, steps, 0);
  }

  // ----- after a quit

  /** Workers that wait for a message. */
  ghost function GettingWeight(): Worker -> nat { (w: Worker) => if w.Getting? then 1 else 0 }

  ghost function PuttingWeight(s: State): nat { if s.feeder.Putting? then 1 else 0 }

  lemma QuitStays(s: State, step: Step)
    requires s.quit && Enabled(s, step)
    ensures Apply(s, step).quit
  {
    hide Inv;
    if step != QuitIsSet {
      OnlyQuitSetsQuit(s, step);
    }
  }

  lemma WorkerAfterQuit(s: State, k: nat, w: WorkerStep)
    requires s.quit && Enabled(s, Works(k, w))
    ensures var t := WorkerDoes(s, k, w);
            |t.taken| + Total(t.workers, GettingWeight()) <= |s.taken| + Total(s.workers, GettingWeight())
  {
    hide Total;
    TotalAfter(s, k, w, GettingWeight());
  }

  lemma FeederAfterQuit(s: State, f: FeederStep)
    requires s.quit && FeederCan(s, f)
    ensures var t := FeederDoes(s, f);
            t.fed + PuttingWeight(t) <= s.fed + PuttingWeight(s) && t.workers == s.workers && t.taken == s.taken
  {
    hide AllDead;
    FeederLeavesWorkers(s, f);
  }

  lemma StepAfterQuit(s: State, step: Step)
    requires s.quit && Enabled(s, step)
    ensures var t := Apply(s, step);
            && t.quit && t.fed + PuttingWeight(t) <= s.fed + PuttingWeight(s)
            && |t.taken| + Total(t.workers, GettingWeight()) <= |s.taken| + Total(s.workers, GettingWeight())
  {
    hide FeederCan, FeederDoes, WorkerCan, Becomes, AllDead, Total;
    QuitStays(s, step);
    match step
    case Feeds(f) => FeederAfterQuit(s, f);
    case Works(k, w) => WorkerAfterQuit(s, k, w);
    case _ =>
  }

  /** Once the quit flag is set no worker goes for another message: what is still taken from the queue, in any run, is
      at most one task for each worker that was waiting for one, and at most the one task that the feeder was putting
      is still fed. */
  lemma {:induction false} QuitIsHeeded(s: State, run: seq<Step>)
    requires s.quit && Possible(s, run)
    ensures After(s, run).quit
    ensures |After(s, run).taken| <= |s.taken| + |set k | 0 <= k < |s.workers| && s.workers[k].Getting?|
    ensures After(s, run).fed <= s.fed + if s.feeder.Putting? then 1 else 0
  {
    AfterQuit(s, run);
    GettingIsCount(s.workers);
  }

  lemma {:induction false} AfterQuit(s: State, run: seq<Step>)
    requires s.quit && Possible(s, run)
    ensures After(s, run).quit
    ensures |After(s, run).taken| <= |s.taken| + Total(s.workers, GettingWeight())
    ensures After(s, run).fed <= s.fed + PuttingWeight(s)
    decreases |run|
  {
    hide Apply, Enabled, Total, PuttingWeight;
    if run != [] {
      StepAfterQuit(s, run[0]);
      AfterQuit(Apply(s, run[0]), run[1..]);
    }
  }

  lemma {:induction false} GettingIsCount(workers: seq<Worker>)
    ensures Total(workers, GettingWeight()) == |set k | 0 <= k < |workers| && workers[k].Getting?|
  {
    var all := set k | 0 <= k < |workers| && workers[k].Getting?;
    if workers != [] {
      var n := |workers| - 1;
      GettingIsCount(workers[..n]);
      TotalOfLast(workers, GettingWeight());
      var front := set k | 0 <= k < n && workers[..n][k].Getting?;
      assert all == if workers[n].Getting? then front + {n} else front;
    }
  }

  lemma {:induction false} TotalOfLast(workers: seq<Worker>, weight: Worker -> nat)
    requires workers != []
    ensures var n := |workers| - 1; Total(workers, weight) == Total(workers[..n], weight) + weight(workers[n])
  {
    var n := |workers| - 1;
    if n > 0 {
      TotalOfLast(workers[1..], weight);
      assert workers[1..][..n - 1] == workers[..n][1..];
    } else {
      assert workers[1..] == [] && workers[..0] == [];
    }
  }

  /** What is left to do for a worker that no longer goes for messages. */
  ghost function Errands(): Worker -> nat {
    (w: Worker) => match w
      case Starting => 3
      case Looping => 2
      case Getting => 5
      case Holding(_) => 4
      case Shooting(_) => 3
      case TearingDown(_) => 1
      case Dead(_) => 0
  }

  /** And for the feeder: it may still post killers. */
  ghost function FeederErrands(s: State): int {
    match s.feeder
    case Checking => 2 + ATTEMPTS * (|s.workers| + 1)
    case Putting => 3 + ATTEMPTS * (|s.workers| + 1)
    case Killing(attempt, posted) => 1 + (ATTEMPTS - attempt) * (|s.workers| + 1) - posted
    case Joining => 1
    case _ => 0
  }

  ghost function Remaining(s: State): int {
    2 * FeederErrands(s) + |s.queue| + Total(s.workers, Errands())
  }

  lemma WorkerErrands(s: State, k: nat, w: WorkerStep)
    requires s.quit && Enabled(s, Works(k, w))
    ensures Remaining(WorkerDoes(s, k, w)) < Remaining(s)
  {
    hide Total, FeederErrands;
    TotalAfter(s, k, w, Errands());
    SameErrands(s, WorkerDoes(s, k, w));
    WorkerLeavesFeeder(s, k, w);
  }

  lemma SameErrands(s: State, t: State)
    requires s.feeder == t.feeder && |s.workers| == |t.workers|
    ensures FeederErrands(s) == FeederErrands(t)
  {
  }

  lemma OneAttemptLess(attempt: nat, n: nat)
    ensures (ATTEMPTS - attempt) * (n + 1) == (ATTEMPTS - (attempt + 1)) * (n + 1) + n + 1
    ensures attempt + 1 == ATTEMPTS ==> (ATTEMPTS - attempt) * (n + 1) == n + 1
    ensures attempt < ATTEMPTS ==> (ATTEMPTS - attempt) * (n + 1) >= n + 1
    ensures ATTEMPTS * (n + 1) >= 0 && (ATTEMPTS - 0) * (n + 1) == ATTEMPTS * (n + 1)
  {
  }

  lemma FeederRuns(s: State, f: FeederStep)
    requires Inv(s) && s.quit && FeederCan(s, f)
    ensures Remaining(FeederDoes(s, f)) < Remaining(s)
  {
    hide TasksAccounted, ShotsAccounted, KillersAccounted, Total, AllDead;
    FeederLeavesWorkers(s, f);
    if s.feeder.Killing? {
      OneAttemptLess(s.feeder.attempt, |s.workers|);
    } else {
      OneAttemptLess(0, |s.workers|);
    }
  }

  lemma RemainingIsNatural(s: State)
    requires Inv(s)
    ensures Remaining(s) >= 0
  {
    hide TasksAccounted, ShotsAccounted, KillersAccounted, Total;
    if s.feeder.Killing? {
      OneAttemptLess(s.feeder.attempt, |s.workers|);
    } else {
      OneAttemptLess(0, |s.workers|);
    }
  }

  lemma EveryStepCounts(s: State, step: Step)
    requires Inv(s) && s.quit && Enabled(s, step)
    ensures Remaining(Apply(s, step)) <= Remaining(s)
    ensures step != QuitIsSet ==> Remaining(Apply(s, step)) < Remaining(s)
  {
    hide Inv, FeederCan, FeederDoes, WorkerCan, WorkerDoes, FeederErrands, Total, AllDead;
    match step
    case Feeds(f) => FeederRuns(s, f);
    case Works(k, w) => WorkerErrands(s, k, w);
    case QuitIsSet => SameErrands(s, Apply(s, step));
    case StopDrains => SameErrands(s, Apply(s, step));
  }

  ghost function Steps(run: seq<Step>): nat {
    if run == [] then 0 else (if run[0] == QuitIsSet then 0 else 1) + Steps(run[1..])
  }

  /** After a quit every run is short, in whatever order the steps come. */
  lemma {:induction false} QuitRunsAreShort(s: State, run: seq<Step>)
    requires Inv(s) && s.quit && Possible(s, run)
    ensures 0 <= Steps(run) <= Remaining(s)
    decreases |run|
  {
    hide Inv, Apply, Enabled, Remaining;
    RemainingIsNatural(s);
    if run != [] {
      StepKeepsInv(s, run[0]);
      QuitStays(s, run[0]);
      EveryStepCounts(s, run[0]);
      QuitRunsAreShort(Apply(s, run[0]), run[1..]);
    }
  }

  lemma {:induction false} ErrandsWithin(workers: seq<Worker>)
    ensures Total(workers, Errands()) <= 5 * |workers|
  {
    if workers != [] {
      ErrandsWithin(workers[1..]);
    }
  }

  /** In numbers: whatever has happened before the quit, at most so many steps come after it. */
  lemma QuitEndsSoon(plan: seq<Task>, instances: nat, capacity: nat, s: State, run: seq<Step>)
    requires Reached(plan, instances, capacity, s) && s.quit && Possible(s, run)
    ensures Steps(run) <= 15 * instances + capacity + 16
  {
    hide Inv, Reached;
    InvOfReached(plan, instances, capacity, s);
    QuitRunsAreShort(s, run);
    ErrandsWithin(s.workers);
    FeederErrandsWithin(s);
  }

  lemma FeederErrandsWithin(s: State)
    requires Inv(s)
    ensures FeederErrands(s) <= 3 + ATTEMPTS * (|s.workers| + 1)
  {
    hide TasksAccounted, ShotsAccounted, KillersAccounted, Total;
    OneAttemptLess(0, |s.workers|);
    if s.feeder.Killing? {
      FewerAttempts(s.feeder.attempt, |s.workers|);
    }
  }

  lemma FewerAttempts(attempt: nat, n: nat)
    ensures (ATTEMPTS - attempt) * (n + 1) <= ATTEMPTS * (n + 1)
  {
    MulOrder(0, attempt, n + 1);
  }

  /** And until all workers have stopped, the feeder is done and the queue is drained, some step is left. */
  lemma QuitLeavesNothing(s: State)
    requires Inv(s) && s.quit
    ensures (AllDead(s.workers) && s.queue == [] && (s.feeder.Finished? || s.feeder.Left?))
            || exists step :: Enabled(s, step) && step != QuitIsSet
  {
    hide Inv;
    if AllDead(s.workers) {
      if s.queue != [] {
        assert Enabled(s, StopDrains);
      } else {
        FeederNeverStuck(s);
        if f :| FeederCan(s, f) {
          assert Enabled(s, Feeds(f));
        }
      }
    } else {
      var step := QuitPoolMoves(s);
    }
  }

  lemma FeederNeverStuck(s: State)
    requires Inv(s) && AllDead(s.workers)
    ensures s.feeder.Finished? || s.feeder.Left? || exists f :: FeederCan(s, f)
  {
    hide ShotsAccounted, Total, Tasks, Killers, TasksFirst;
    if s.feeder.Checking? {
      assert FeederCan(s, Checks);
    } else if s.feeder.Putting? {
      assert FeederCan(s, Puts) || FeederCan(s, FindsFull);
    } else if s.feeder.Killing? {
      assert FeederCan(s, PutsKiller) || FeederCan(s, FindsFullKilling) || FeederCan(s, EndsBatch);
    } else if s.feeder.Joining? {
      assert FeederCan(s, JoinsPool);
    }
  }

  // ----- the order of a worker's steps

  ghost predicate Moves(step: Step, k: nat) {
    step.Works? && step.worker == k
  }

  /** Which step of a worker comes after which, as its program has them: it looks at the quit flag at the head of its
      loop, and again when it has found nothing; a shot once got is shot; the gun is torn down after a killer and after
      a quit at the head of the loop, but neither if it was not set up nor if nothing was found after a quit. */
  ghost predicate Follows(s: State, w: WorkerStep, v: WorkerStep) {
    match w
    case SetsUp(ok) => ok && v == Loops
    case Loops => if s.quit then v == TearsDown else v == FindsEmpty || (v == Gets && s.queue != [])
    case Gets => if s.queue != [] && s.queue[0].Killer? then v == TearsDown else v == BeginsShot
    case FindsEmpty => !s.quit && v == Loops
    case BeginsShot => v == EndsShot
    case EndsShot => v == Loops
    case TearsDown => false
  }

  lemma WorkerFollows(s: State, k: nat, w: WorkerStep, v: WorkerStep)
    requires Enabled(s, Works(k, w))
    ensures Enabled(Apply(s, Works(k, w)), Works(k, v)) <==> Follows(s, w, v)
  {
  }

  /** The same for the feeder. The end of the plan comes before the quit flag; a full queue makes it look at the flag
      and try the same task again; a batch of killers begins anew after each attempt but the last. */
  ghost predicate FeederFollows(s: State, f: FeederStep, g: FeederStep)
    requires s.feeder.Killing? || !(f.PutsKiller? || f.FindsFullKilling?)
  {
    var n, full, fullThen := |s.workers|, |s.queue| == s.capacity, |s.queue| + 1 == s.capacity;
    match f
    case Checks =>
      if s.fed >= |s.plan| then
        (n == 0 && g == EndsBatch) || (n > 0 && g == if full then FindsFullKilling else PutsKiller)
      else !s.quit && g == if full then FindsFull else Puts
    case Puts => g == Checks
    case FindsFull => !s.quit && !s.workersFinished && g == FindsFull
    case PutsKiller =>
      if s.feeder.posted + 1 == n then g == EndsBatch else g == if fullThen then FindsFullKilling else PutsKiller
    case FindsFullKilling =>
      if s.feeder.attempt < 4 then g == FindsFullKilling else g == JoinsPool && AllDead(s.workers)
    case EndsBatch => g == JoinsPool && AllDead(s.workers)
    case JoinsPool => false
  }

  lemma FeederInOrder(s: State, f: FeederStep, g: FeederStep)
    requires Inv(s) && Enabled(s, Feeds(f))
    ensures Enabled(Apply(s, Feeds(f)), Feeds(g)) <==> FeederFollows(s, f, g)
  {
    hide TasksAccounted, ShotsAccounted, Total, Killers, Tasks, TasksFirst, AllDead;
    FedWithin(s);
  }

  /** The flag is set by `stop` at any moment and never taken back. */
  lemma QuitForGood(s: State, step: Step)
    requires Enabled(s, step)
    ensures Apply(s, step).quit <==> s.quit || step == QuitIsSet
    ensures Enabled(s, QuitIsSet) && Apply(s, QuitIsSet) == s.(quit := true)
  {
    if step != QuitIsSet {
      OnlyQuitSetsQuit(s, step);
    }
  }

  /** Somebody else's step. */
  lemma OthersLeaveWorker(s: State, step: Step, k: nat)
    requires Enabled(s, step) && k < |s.workers| && !Moves(step, k)
    ensures |Apply(s, step).workers| == |s.workers| && Apply(s, step).workers[k] == s.workers[k]
  {
    hide FeederCan, FeederDoes, Becomes, AllDead;
    if step.Feeds? {
      FeederLeavesWorkers(s, step.f);
    }
  }

  /** The next step of a worker is one that it could take before all the others did theirs. */
  lemma {:induction false} NextOwnStep(s: State, run: seq<Step>, k: nat, j: nat)
    requires Possible(s, run) && k < |s.workers| && j < |run|
    requires Moves(run[j], k) && forall i | 0 <= i < j :: !Moves(run[i], k)
    ensures run[j].w.Gets? || WorkerCan(s, s.workers[k], run[j].w)
    ensures run[j].w.Gets? ==> s.workers[k].Getting?
    decreases |run|
  {
    hide Apply;
    if j > 0 {
      OthersLeaveWorker(s, run[0], k);
      assert forall i | 0 <= i < j - 1 :: run[1..][i] == run[i + 1];
      NextOwnStep(Apply(s, run[0]), run[1..], k, j - 1);
    }
  }

  /** A worker whose gun fails, or that finds nothing after a quit, or that has torn down, takes no further step. */
  lemma LastStepOf(s: State, k: nat, w: WorkerStep, run: seq<Step>, j: nat)
    requires Enabled(s, Works(k, w)) && Possible(Apply(s, Works(k, w)), run)
    requires w == SetsUp(false) || w.TearsDown? || (w.FindsEmpty? && s.quit)
    requires j < |run| && forall i | 0 <= i < j :: !Moves(run[i], k)
    ensures !Moves(run[j], k)
  {
    hide Possible;
    if Moves(run[j], k) {
      NextOwnStep(Apply(s, Works(k, w)), run, k, j);
    }
  }

  /** A worker that gets a killer, or comes to the head of its loop after a quit, does nothing more but tear down. */
  lemma OnlyTearsDown(s: State, k: nat, w: WorkerStep, run: seq<Step>, j: nat)
    requires Enabled(s, Works(k, w)) && Possible(Apply(s, Works(k, w)), run)
    requires (w.Gets? && s.queue[0].Killer?) || (w.Loops? && s.quit)
    requires j < |run| && Moves(run[j], k) && forall i | 0 <= i < j :: !Moves(run[i], k)
    ensures run[j].w.TearsDown?
  {
    hide Possible;
    NextOwnStep(Apply(s, Works(k, w)), run, k, j);
  }

  // ----- how long the feeder tries

  /** Five attempts in a row that find the queue full, no fewer and no more, make the feeder give up the killers. */
  lemma {:induction false} FiveAttempts(s: State, n: nat)
    requires s.feeder.Killing? && s.feeder.posted < |s.workers| && |s.queue| == s.capacity
    requires 0 < n && s.feeder.attempt + n <= 5
    ensures var run, attempt := seq(n, _ => Feeds(FindsFullKilling)), s.feeder.attempt + n;
            && Possible(s, run)
            && After(s, run) == s.(feeder := if attempt < 5 then Killing(attempt, 0) else Joining)
    decreases n
  {
    var run := seq(n, _ => Feeds(FindsFullKilling));
    var t := s.(feeder := if s.feeder.attempt + 1 < 5 then Killing(s.feeder.attempt + 1, 0) else Joining);
    assert run[0] == Feeds(FindsFullKilling) && Enabled(s, run[0]) && Apply(s, run[0]) == t;
    assert run[1..] == seq(n - 1, _ => Feeds(FindsFullKilling));
    if n > 1 {
      FiveAttempts(t, n - 1);
    }
  }
}
