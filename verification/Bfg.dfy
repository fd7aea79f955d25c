/** yandextank/plugins/Bfg/worker.py: one feeder thread, a bounded FIFO queue, and worker processes that shoot
    synchronously. The protocol is a state machine whose steps are the atomic accesses to shared state. */
module Bfg {
  import opened Common

  datatype Message = Shot(task: Task) | Killer

  /** Where `_feed` is. */
  datatype Feeder =
    | Checking               // at the head of the loop over the plan
    | Putting                // trying to put the next task
    | Killing(attempt: nat, posted: nat)  // inside a batch of killers
    | Joining                // waiting for the pool
    | Finished
    | Left                   // returned early

  /** Where one `_worker` is. `killed` tells whether it stopped on a killer. */
  datatype Worker =
    | Starting
    | Looping
    | Getting
    | Holding(task: Task)       // got a task, waiting for its planned time
    | Shooting(task: Task)      // between the two counter updates
    | TearingDown(killed: bool)
    | Dead(killed: bool)
  {
    ghost predicate Killed() { (TearingDown? || Dead?) && killed }
    ghost predicate Stopped() { TearingDown? || Dead? }
  }

  datatype State = State(
    plan: seq<Task>,
    capacity: nat,
    fed: nat,                      // tasks put so far
    feeder: Feeder,
    queue: seq<Message>,
    workers: seq<Worker>,
    counter: int,                  // instance_counter
    quit: bool,
    workersFinished: bool,
    taken: seq<Task>,             // history: tasks got from the queue by workers, in order
    attempted: seq<Task>,         // history: tasks whose shot has ended, well or badly
    posted: nat,                   // history: killers put in all
    batchDone: bool,               // history: some batch of killers was completed
    drained: seq<Message>       // history: what `stop` threw away
  )

  const ATTEMPTS: nat := 5

  datatype FeederStep = Checks | Puts | FindsFull | PutsKiller | FindsFullKilling | EndsBatch | JoinsPool
  datatype WorkerStep = SetsUp(ok: bool) | Loops | Gets | FindsEmpty | BeginsShot | EndsShot | TearsDown
  datatype Step = Feeds(f: FeederStep) | Works(worker: nat, w: WorkerStep) | QuitIsSet | StopDrains

  ghost predicate AllDead(workers: seq<Worker>) {
    forall w | w in workers :: w.Dead?
  }

  ghost predicate FeederCan(s: State, f: FeederStep) {
    match f
    case Checks => s.feeder.Checking?
    case Puts => s.feeder.Putting? && s.fed < |s.plan| && |s.queue| < s.capacity
    // `put` times out only on places that are all taken
    case FindsFull => s.feeder.Putting? && |s.queue| == s.capacity
    case PutsKiller => s.feeder.Killing? && s.feeder.posted < |s.workers| && |s.queue| < s.capacity
    case FindsFullKilling => s.feeder.Killing? && s.feeder.posted < |s.workers| && |s.queue| == s.capacity
    case EndsBatch => s.feeder.Killing? && s.feeder.posted == |s.workers|
    case JoinsPool => s.feeder.Joining? && AllDead(s.workers)
  }

  ghost function FeederDoes(s: State, f: FeederStep): State
    requires FeederCan(s, f)
  {
    match f
    // for task in plan: if quit: return
    case Checks =>
      if s.fed >= |s.plan| then s.(feeder := Killing(0, 0))
      else if s.quit then s.(feeder := Left)
      else s.(feeder := Putting)
    case Puts => s.(queue := s.queue + [Shot(s.plan[s.fed])], fed := s.fed + 1, feeder := Checking)
    case FindsFull => if s.quit || s.workersFinished then s.(feeder := Left) else s
    // [put(None) for _ in range(instances)], retried as a whole
    case PutsKiller =>
      s.(queue := s.queue + [Killer], posted := s.posted + 1, feeder := Killing(s.feeder.attempt, s.feeder.posted + 1))
    case FindsFullKilling =>
      if s.feeder.attempt + 1 < ATTEMPTS then s.(feeder := Killing(s.feeder.attempt + 1, 0)) else s.(feeder := Joining)
    case EndsBatch => s.(feeder := Joining, batchDone := true)
    case JoinsPool => s.(feeder := Finished, workersFinished := true)
  }

  ghost predicate WorkerCan(s: State, me: Worker, w: WorkerStep) {
    match w
    case SetsUp(_) => me.Starting?
    case Loops => me.Looping?
    case Gets => me.Getting? && s.queue != []
    // `get` can time out on items that are still on their way, too
    case FindsEmpty => me.Getting?
    case BeginsShot => me.Holding?
    case EndsShot => me.Shooting?
    case TearsDown => me.TearingDown?
  }

  /** What becomes of the worker itself. */
  ghost function Becomes(s: State, me: Worker, w: WorkerStep): Worker
    requires WorkerCan(s, me, w)
  {
    match w
    case SetsUp(ok) => if ok then Looping else Dead(false)
    case Loops => if s.quit then TearingDown(false) else Getting
    case Gets => if s.queue[0].Killer? then TearingDown(true) else Holding(s.queue[0].task)
    case FindsEmpty => if s.quit then Dead(false) else Looping
    case BeginsShot => Shooting(me.task)
    case EndsShot => Looping
    case TearsDown => Dead(me.killed)
  }

  ghost function WorkerDoes(s: State, k: nat, w: WorkerStep): State
    requires k < |s.workers| && WorkerCan(s, s.workers[k], w)
  {
    var moved := s.(workers := s.workers[k := Becomes(s, s.workers[k], w)]);
    match w
    case Gets =>
      if s.queue[0].Killer? then moved.(queue := s.queue[1..])
      else moved.(queue := s.queue[1..], taken := s.taken + [s.queue[0].task])
    case BeginsShot => moved.(counter := s.counter + 1)
    case EndsShot => moved.(counter := s.counter - 1, attempted := s.attempted + [s.workers[k].task])
    case _ => moved
  }

  ghost predicate Enabled(s: State, step: Step) {
    match step
    case Feeds(f) => FeederCan(s, f)
    case Works(k, w) => k < |s.workers| && WorkerCan(s, s.workers[k], w)
    case QuitIsSet => true
    case StopDrains => s.quit && AllDead(s.workers) && s.queue != []
  }

  ghost function Apply(s: State, step: Step): State
    requires Enabled(s, step)
  {
    match step
    case Feeds(f) => FeederDoes(s, f)
    case Works(k, w) => WorkerDoes(s, k, w)
    case QuitIsSet => s.(quit := true)
    case StopDrains => s.(queue := s.queue[1..], drained := s.drained + [s.queue[0]])
  }

  ghost function Init(plan: seq<Task>, instances: nat, capacity: nat): State {
    State(plan, capacity, 0, Checking, [], seq(instances, _ => Starting), 0, false, false, [], [], 0, false, [])
  }

  /** Any interleaving: a sequence of steps, each enabled where it is taken. */
  ghost predicate Possible(s: State, run: seq<Step>)
    decreases |run|
  {
    run == [] || (Enabled(s, run[0]) && Possible(Apply(s, run[0]), run[1..]))
  }

  ghost function After(s: State, run: seq<Step>): State
    requires Possible(s, run)
    decreases |run|
  {
    if run == [] then s else After(Apply(s, run[0]), run[1..])
  }

  // ----- counting

  ghost function Total(workers: seq<Worker>, weight: Worker -> nat): nat {
    if workers == [] then 0 else weight(workers[0]) + Total(workers[1..], weight)
  }

  lemma {:induction false} TotalUpdate(workers: seq<Worker>, k: nat, w: Worker, weight: Worker -> nat)
    requires k < |workers|
    ensures Total(workers[k := w], weight) + weight(workers[k]) == Total(workers, weight) + weight(w)
    ensures weight(workers[k]) <= Total(workers, weight)
  {
    if k == 0 {
      assert workers[0 := w][1..] == workers[1..];
    } else {
      TotalUpdate(workers[1..], k - 1, w, weight);
      assert workers[k := w][1..] == workers[1..][k - 1 := w];
    }
  }

  ghost function ShootingWeight(): Worker -> nat { (w: Worker) => if w.Shooting? then 1 else 0 }
  ghost function KilledWeight(): Worker -> nat { (w: Worker) => if w.Killed() then 1 else 0 }
  ghost function ActiveWeight(): Worker -> nat { (w: Worker) => if w.Stopped() then 0 else 1 }

  ghost function HolderWeight(task: Task): Worker -> nat {
    (w: Worker) => if (w.Holding? || w.Shooting?) && w.task == task then 1 else 0
  }

  ghost function Tasks(queue: seq<Message>): seq<Task> {
    if queue == [] then [] else (if queue[0].Shot? then [queue[0].task] else []) + Tasks(queue[1..])
  }

  ghost function Killers(queue: seq<Message>): nat {
    if queue == [] then 0 else (if queue[0].Killer? then 1 else 0) + Killers(queue[1..])
  }

  lemma {:induction false} QueueAppend(queue: seq<Message>, m: Message)
    ensures Tasks(queue + [m]) == Tasks(queue) + if m.Shot? then [m.task] else []
    ensures Killers(queue + [m]) == Killers(queue) + if m.Killer? then 1 else 0
  {
    if queue == [] {
      assert queue + [m] == [m];
    } else {
      QueueAppend(queue[1..], m);
      assert (queue + [m])[0] == queue[0] && (queue + [m])[1..] == queue[1..] + [m];
      Associate(if queue[0].Shot? then [queue[0].task] else [], Tasks(queue[1..]), if m.Shot? then [m.task] else []);
    }
  }

  /** No task stands behind a killer. */
  ghost predicate TasksFirst(queue: seq<Message>) {
    forall i, j | 0 <= i < j < |queue| && queue[i].Killer? :: queue[j].Killer?
  }

  lemma {:induction false} OnlyKillers(queue: seq<Message>)
    requires forall m | m in queue :: m.Killer?
    ensures Tasks(queue) == [] && Killers(queue) == |queue|
  {
    if queue != [] {
      assert queue[0] in queue;
      OnlyKillers(queue[1..]);
    }
  }

  // ----- the invariant

  /** Every task is in one place, and tasks leave the queue in the order of the plan. */
  ghost predicate TasksAccounted(s: State) {
    && s.fed <= |s.plan|
    && s.taken + Tasks(s.drained) + Tasks(s.queue) == s.plan[..s.fed]
  }

  /** Every task taken from the queue has been attempted or is held by a worker, as often as it was taken. */
  ghost predicate ShotsAccounted(s: State) {
    forall t: Task :: multiset(s.taken)[t] == multiset(s.attempted)[t] + Total(s.workers, HolderWeight(t))
  }

  /** No killer is put before the whole plan was. */
  ghost predicate FedBeforeKilling(s: State) {
    && (s.posted > 0 ==> s.fed == |s.plan|)
    && (s.feeder.Killing? || s.feeder.Joining? || s.feeder.Finished? ==> s.fed == |s.plan|)
    && (s.feeder.Checking? || s.feeder.Putting? || s.feeder.Left? ==> s.posted == 0)
    && (s.feeder.Putting? ==> s.fed < |s.plan|)
  }

  ghost predicate KillersAccounted(s: State) {
    && FedBeforeKilling(s)
    && s.posted == Killers(s.queue) + Killers(s.drained) + Total(s.workers, KilledWeight())
    && TasksFirst(s.queue)
    && (Total(s.workers, KilledWeight()) > 0 ==> Tasks(s.queue) == [] && Tasks(s.drained) == [])
    && (s.drained != [] ==> AllDead(s.workers))
  }

  ghost predicate BatchesAccounted(s: State) {
    && (s.feeder.Killing? ==>
          && s.feeder.attempt < ATTEMPTS && s.feeder.posted <= |s.workers|
          && s.feeder.posted <= s.posted <= s.feeder.attempt * |s.workers| + s.feeder.posted)
    && s.posted <= ATTEMPTS * |s.workers|
    && (s.batchDone ==> s.posted >= |s.workers| && (s.feeder.Joining? || s.feeder.Finished?))
  }

  ghost predicate Bounded(s: State) {
    && |s.queue| <= s.capacity
    && s.counter == Total(s.workers, ShootingWeight())
    && (s.workersFinished <==> s.feeder.Finished?)
    && (s.workersFinished ==> AllDead(s.workers))
  }

  ghost predicate Inv(s: State) {
    TasksAccounted(s) && ShotsAccounted(s) && KillersAccounted(s) && BatchesAccounted(s) && Bounded(s)
  }

  // ----- every step keeps the invariant

  /** How a worker's step changes a count over the workers. */
  lemma TotalAfter(s: State, k: nat, w: WorkerStep, weight: Worker -> nat)
    requires Enabled(s, Works(k, w))
    ensures var after := WorkerDoes(s, k, w).workers;
            && |after| == |s.workers| && after[k] == Becomes(s, s.workers[k], w)
            && Total(after, weight) + weight(s.workers[k]) == Total(s.workers, weight) + weight(after[k])
  {
    TotalUpdate(s.workers, k, Becomes(s, s.workers[k], w), weight);
  }

  lemma PutKeepsTasks(s: State)
    requires TasksAccounted(s) && FeederCan(s, Puts)
    ensures TasksAccounted(FeederDoes(s, Puts))
  {
    var done, task := s.taken + Tasks(s.drained), s.plan[s.fed];
    QueueAppend(s.queue, Shot(task));
    assert s.plan[..s.fed + 1] == s.plan[..s.fed] + [task];
    assert done + (Tasks(s.queue) + [task]) == (done + Tasks(s.queue)) + [task];
  }

  lemma GetKeepsTasks(s: State, k: nat)
    requires TasksAccounted(s) && Enabled(s, Works(k, Gets)) && s.drained == []
    ensures TasksAccounted(WorkerDoes(s, k, Gets))
  {
    var rest := Tasks(s.queue[1..]);
    assert s.taken + [] == s.taken;
    if s.queue[0].Shot? {
      assert (s.taken + [s.queue[0].task]) + rest == s.taken + ([s.queue[0].task] + rest);
    } else {
      assert [] + rest == rest;
    }
  }

  lemma DrainKeepsTasks(s: State)
    requires TasksAccounted(s) && Enabled(s, StopDrains)
    ensures TasksAccounted(Apply(s, StopDrains))
  {
    var a, b, c := s.taken, Tasks(s.drained), Tasks(s.queue[1..]);
    QueueAppend(s.drained, s.queue[0]);
    if s.queue[0].Shot? {
      var m := [s.queue[0].task];
      assert a + (b + m) + c == a + b + (m + c);
    } else {
      assert a + (b + []) + c == a + b + ([] + c);
    }
  }

  lemma StepKeepsTasks(s: State, step: Step)
    requires TasksAccounted(s) && KillersAccounted(s) && Enabled(s, step)
    ensures TasksAccounted(Apply(s, step))
  {
    hide Total, TasksFirst, FedBeforeKilling;
    match step
    case Feeds(Puts) => PutKeepsTasks(s);
    case Feeds(PutsKiller) =>
      QueueAppend(s.queue, Killer);
      assert Tasks(s.queue) + [] == Tasks(s.queue);
    case StopDrains => DrainKeepsTasks(s);
    case Works(k, Gets) =>
      assert s.workers[k] in s.workers;
      GetKeepsTasks(s, k);
    case _ =>
  }

  ghost function Ones(b: bool): nat { if b then 1 else 0 }

  lemma AppendCounts(tasks: seq<Task>, task: Task, t: Task)
    ensures multiset(tasks + [task])[t] == multiset(tasks)[t] + Ones(task == t)
  {
  }

  /** What one step of a worker adds to the two histories. */
  lemma WorkerHistory(s: State, k: nat, w: WorkerStep, t: Task)
    requires Enabled(s, Works(k, w))
    ensures var s' := WorkerDoes(s, k, w);
            && multiset(s'.taken)[t] ==
               multiset(s.taken)[t] + Ones(w.Gets? && s.queue[0].Shot? && s.queue[0].task == t)
            && multiset(s'.attempted)[t] ==
               multiset(s.attempted)[t] + Ones(w.EndsShot? && s.workers[k].task == t)
  {
    hide Becomes;
    if w.Gets? && s.queue[0].Shot? {
      AppendCounts(s.taken, s.queue[0].task, t);
    } else if w.EndsShot? {
      AppendCounts(s.attempted, s.workers[k].task, t);
    }
  }

  lemma WorkerKeepsShotsOf(s: State, k: nat, w: WorkerStep, t: Task)
    requires Enabled(s, Works(k, w))
    requires multiset(s.taken)[t] == multiset(s.attempted)[t] + Total(s.workers, HolderWeight(t))
    ensures var s' := WorkerDoes(s, k, w);
            multiset(s'.taken)[t] == multiset(s'.attempted)[t] + Total(s'.workers, HolderWeight(t))
  {
    hide Total;
    TotalAfter(s, k, w, HolderWeight(t));
    WorkerHistory(s, k, w, t);
    hide WorkerDoes;
    var weight, me, next := HolderWeight(t), s.workers[k], Becomes(s, s.workers[k], w);
    if w.Gets? && s.queue[0].Shot? {
      assert weight(me) == 0 && weight(next) == Ones(s.queue[0].task == t);
    } else if w.EndsShot? {
      assert weight(next) == 0 && weight(me) == Ones(me.task == t);
    } else {
      assert weight(next) == weight(me);
    }
  }

  lemma WorkerKeepsShots(s: State, k: nat, w: WorkerStep)
    requires ShotsAccounted(s) && Enabled(s, Works(k, w))
    ensures ShotsAccounted(WorkerDoes(s, k, w))
  {
    hide WorkerDoes, Becomes, Total, HolderWeight;
    var s' := WorkerDoes(s, k, w);
    forall t: Task
      ensures multiset(s'.taken)[t] == multiset(s'.attempted)[t] + Total(s'.workers, HolderWeight(t))
    {
      WorkerKeepsShotsOf(s, k, w, t);
    }
  }

  /** The feeder touches neither the workers nor what they did. */
  lemma FeederLeavesWorkers(s: State, f: FeederStep)
    requires FeederCan(s, f)
    ensures var s' := FeederDoes(s, f);
            && s'.workers == s.workers && s'.taken == s.taken && s'.attempted == s.attempted && s'.drained == s.drained
            && s'.counter == s.counter && s'.quit == s.quit && s'.plan == s.plan && s'.capacity == s.capacity
  {
    hide AllDead;
  }

  lemma StepKeepsShots(s: State, step: Step)
    requires ShotsAccounted(s) && Enabled(s, step)
    ensures ShotsAccounted(Apply(s, step))
  {
    hide FeederDoes, WorkerDoes, AllDead, Total, HolderWeight;
    match step
    case Feeds(f) => FeederLeavesWorkers(s, f);
    case Works(k, w) =>
      hide ShotsAccounted;
      WorkerKeepsShots(s, k, w);
    case _ =>
  }

  lemma PutKeepsTasksFirst(queue: seq<Message>, m: Message)
    requires TasksFirst(queue) && (m.Killer? || Killers(queue) == 0)
    ensures TasksFirst(queue + [m])
  {
    SomeKiller(queue);
    assert forall i | 0 <= i < |queue| :: queue[i] in queue;
  }

  lemma GetKeepsTasksFirst(queue: seq<Message>)
    requires TasksFirst(queue) && queue != []
    ensures TasksFirst(queue[1..])
  {
    assert forall i | 0 <= i < |queue| - 1 :: queue[1..][i] == queue[i + 1];
  }

  lemma GetKillerEmptiesTasks(queue: seq<Message>)
    requires TasksFirst(queue) && queue != [] && queue[0].Killer?
    ensures Tasks(queue) == []
  {
    assert forall m | m in queue :: m.Killer?;
    OnlyKillers(queue);
  }

  lemma PutKeepsKillers(s: State, f: FeederStep)
    requires KillersAccounted(s) && FeederCan(s, f) && (f.Puts? || f.PutsKiller?)
    ensures KillersAccounted(FeederDoes(s, f))
  {
    hide Total, TasksFirst, AllDead;
    var m := if f.Puts? then Shot(s.plan[s.fed]) else Killer;
    assert FeederDoes(s, f).queue == s.queue + [m];
    QueueAppend(s.queue, m);
    PutKeepsTasksFirst(s.queue, m);
    hide Tasks, Killers;
    assert Tasks(s.queue) + [] == Tasks(s.queue);
    FeederLeavesWorkers(s, f);
  }

  lemma OtherKeepsFed(s: State, f: FeederStep)
    requires FedBeforeKilling(s) && s.fed <= |s.plan| && FeederCan(s, f) && !f.Puts? && !f.PutsKiller?
    ensures var s' := FeederDoes(s, f);
            FedBeforeKilling(s') && s'.queue == s.queue && s'.posted == s.posted
  {
    hide AllDead;
  }

  lemma FeederKeepsKillers(s: State, f: FeederStep)
    requires KillersAccounted(s) && s.fed <= |s.plan| && FeederCan(s, f)
    ensures KillersAccounted(FeederDoes(s, f))
  {
    if f.Puts? || f.PutsKiller? {
      PutKeepsKillers(s, f);
    } else {
      hide Total, TasksFirst, AllDead, Tasks, Killers, KilledWeight;
      FeederLeavesWorkers(s, f);
      OtherKeepsFed(s, f);
      hide FeederDoes, FedBeforeKilling;
    }
  }

  lemma WorkerKeepsKillers(s: State, k: nat, w: WorkerStep)
    requires KillersAccounted(s) && Enabled(s, Works(k, w))
    ensures KillersAccounted(WorkerDoes(s, k, w))
  {
    hide Total, TasksFirst;
    TotalAfter(s, k, w, KilledWeight());
    assert s.workers[k] in s.workers && s.drained == [];
    if w.Gets? {
      if s.queue[0].Killer? {
        GetKillerEmptiesTasks(s.queue);
      }
      GetKeepsTasksFirst(s.queue);
    } else {
      assert KilledWeight()(s.workers[k]) == KilledWeight()(Becomes(s, s.workers[k], w));
      assert WorkerDoes(s, k, w).queue == s.queue;
    }
  }

  lemma DrainKeepsKillers(s: State)
    requires KillersAccounted(s) && Enabled(s, StopDrains)
    ensures KillersAccounted(Apply(s, StopDrains))
  {
    hide Total, TasksFirst;
    QueueAppend(s.drained, s.queue[0]);
    GetKeepsTasksFirst(s.queue);
  }

  lemma StepKeepsKillers(s: State, step: Step)
    requires KillersAccounted(s) && s.fed <= |s.plan| && Enabled(s, step)
    ensures KillersAccounted(Apply(s, step))
  {
    match step
    case Feeds(f) => FeederKeepsKillers(s, f);
    case Works(k, w) => WorkerKeepsKillers(s, k, w);
    case QuitIsSet =>
    case StopDrains => DrainKeepsKillers(s);
  }

  lemma {:induction false} SomeKiller(queue: seq<Message>)
    ensures Killers(queue) > 0 <==> exists m :: m in queue && m.Killer?
  {
    if queue != [] {
      SomeKiller(queue[1..]);
      assert queue == [queue[0]] + queue[1..];
    }
  }

  lemma FeederKeepsBatches(s: State, f: FeederStep)
    requires BatchesAccounted(s) && KillersAccounted(s) && FeederCan(s, f)
    ensures BatchesAccounted(FeederDoes(s, f))
  {
    hide AllDead, Total, TasksFirst, Killers, Tasks;
    if s.feeder.Killing? {
      var n, a := |s.workers|, s.feeder.attempt;
      assert (a + 1) * n == a * n + n;
      MulOrder(a + 1, ATTEMPTS, n);
    }
  }

  lemma StepKeepsBatches(s: State, step: Step)
    requires BatchesAccounted(s) && KillersAccounted(s) && Enabled(s, step)
    ensures BatchesAccounted(Apply(s, step))
  {
    hide AllDead, FeederCan, FeederDoes, KillersAccounted;
    if step.Feeds? {
      FeederKeepsBatches(s, step.f);
    } else if step.Works? {
      var s' := WorkerDoes(s, step.worker, step.w);
      assert s'.feeder == s.feeder && s'.posted == s.posted && |s'.workers| == |s.workers|;
    }
  }

  lemma FeederKeepsBounds(s: State, f: FeederStep)
    requires Bounded(s) && FeederCan(s, f)
    ensures Bounded(FeederDoes(s, f))
  {
    hide Total, AllDead;
    FeederLeavesWorkers(s, f);
  }

  lemma WorkerKeepsBounds(s: State, k: nat, w: WorkerStep)
    requires Bounded(s) && Enabled(s, Works(k, w))
    ensures Bounded(WorkerDoes(s, k, w))
  {
    hide Total;
    TotalAfter(s, k, w, ShootingWeight());
    assert s.workers[k] in s.workers;
  }

  lemma StepKeepsBounds(s: State, step: Step)
    requires Bounded(s) && Enabled(s, step)
    ensures Bounded(Apply(s, step))
  {
    hide FeederDoes, FeederCan, WorkerDoes, WorkerCan, AllDead, Total;
    if step.Feeds? {
      FeederKeepsBounds(s, step.f);
    } else if step.Works? {
      WorkerKeepsBounds(s, step.worker, step.w);
    }
  }

  lemma StepKeepsInv(s: State, step: Step)
    requires Inv(s) && Enabled(s, step)
    ensures Inv(Apply(s, step))
  {
    StepKeepsTasks(s, step);
    StepKeepsShots(s, step);
    StepKeepsKillers(s, step);
    StepKeepsBatches(s, step);
    StepKeepsBounds(s, step);
  }

  lemma {:induction false} NothingStarted(n: nat, weight: Worker -> nat)
    requires weight(Starting) == 0
    ensures Total(seq(n, _ => Starting), weight) == 0
  {
    if n > 0 {
      assert seq(n, _ => Starting)[1..] == seq(n - 1, _ => Starting);
      NothingStarted(n - 1, weight);
    }
  }

  lemma InitInv(plan: seq<Task>, instances: nat, capacity: nat)
    ensures Inv(Init(plan, instances, capacity))
  {
    NothingStarted(instances, KilledWeight());
    NothingStarted(instances, ShootingWeight());
    forall t: Task ensures Total(seq(instances, _ => Starting), HolderWeight(t)) == 0 {
      NothingStarted(instances, HolderWeight(t));
    }
  }

  lemma StepKeepsSetting(s: State, step: Step)
    requires Enabled(s, step)
    ensures var s' := Apply(s, step);
            s'.plan == s.plan && s'.capacity == s.capacity && |s'.workers| == |s.workers|
  {
    hide AllDead;
    if step.Feeds? {
      hide FeederDoes;
      FeederLeavesWorkers(s, step.f);
    }
  }

  lemma {:induction false} RunKeepsInv(s: State, run: seq<Step>)
    requires Inv(s) && Possible(s, run)
    ensures Inv(After(s, run))
    ensures var s' := After(s, run);
            s'.plan == s.plan && s'.capacity == s.capacity && |s'.workers| == |s.workers|
    decreases |run|
  {
    hide Inv, Apply, Enabled;
    if run != [] {
      StepKeepsInv(s, run[0]);
      StepKeepsSetting(s, run[0]);
      RunKeepsInv(Apply(s, run[0]), run[1..]);
    }
  }

  // ----- what holds in every reachable state

  ghost predicate Reached(plan: seq<Task>, instances: nat, capacity: nat, s: State) {
    exists run :: Possible(Init(plan, instances, capacity), run) && After(Init(plan, instances, capacity), run) == s
  }

  /** In every interleaving of feeder, workers, quit and stop: no task stands behind a killer, however many batches
      of killers were cut short, and at most five killers per worker were ever put. */
  lemma NoTaskBehindAKiller(plan: seq<Task>, instances: nat, capacity: nat, s: State)
    requires Reached(plan, instances, capacity, s)
    ensures TasksFirst(s.queue) && |s.queue| <= capacity
    ensures s.posted <= 5 * instances
  {
    InvOfReached(plan, instances, capacity, s);
  }

  lemma InvOfReached(plan: seq<Task>, instances: nat, capacity: nat, s: State)
    requires Reached(plan, instances, capacity, s)
    ensures Inv(s) && s.plan == plan && |s.workers| == instances && |s.queue| <= capacity
  {
    var init := Init(plan, instances, capacity);
    var run :| Possible(init, run) && After(init, run) == s;
    InitInv(plan, instances, capacity);
    RunKeepsInv(init, run);
  }

  /** Each task of the plan is attempted, held by a worker, queued, drained by `stop`, or not yet fed. */
  lemma TasksAreConserved(plan: seq<Task>, instances: nat, capacity: nat, s: State, t: Task)
    requires Reached(plan, instances, capacity, s)
    ensures s.fed <= |plan|
    ensures multiset(plan)[t] ==
            multiset(s.attempted)[t] + Total(s.workers, HolderWeight(t)) +
            multiset(Tasks(s.queue))[t] + multiset(Tasks(s.drained))[t] + multiset(plan[s.fed..])[t]
  {
    InvOfReached(plan, instances, capacity, s);
    assert plan == s.taken + Tasks(s.drained) + Tasks(s.queue) + plan[s.fed..];
  }

  /** The shared counter is the number of workers inside `shoot`. */
  lemma CounterIsInFlight(plan: seq<Task>, instances: nat, capacity: nat, s: State)
    requires Reached(plan, instances, capacity, s)
    ensures s.counter == Total(s.workers, ShootingWeight())
  {
    InvOfReached(plan, instances, capacity, s);
  }

  ghost predicate NobodyHolds(workers: seq<Worker>) {
    forall w | w in workers :: !w.Holding? && !w.Shooting?
  }

  lemma {:induction false} NobodyHoldsTask(workers: seq<Worker>, t: Task)
    requires NobodyHolds(workers)
    ensures Total(workers, HolderWeight(t)) == 0
  {
    if workers != [] {
      assert workers[0] in workers;
      NobodyHoldsTask(workers[1..], t);
    }
  }

  lemma {:induction false} SomeKilled(workers: seq<Worker>, k: nat)
    requires k < |workers| && workers[k].Killed()
    ensures Total(workers, KilledWeight()) > 0
  {
    TotalUpdate(workers, k, workers[k], KilledWeight());
  }

  /** As soon as one worker has stopped on a killer, the whole plan has left the queue, in order; once no worker
      holds a task, each task of the plan has been attempted exactly once. */
  lemma OneKillerMeansAllTasksTaken(plan: seq<Task>, instances: nat, capacity: nat, s: State, k: nat)
    requires Reached(plan, instances, capacity, s)
    requires k < |s.workers| && s.workers[k].Killed()
    ensures s.taken == plan
    ensures NobodyHolds(s.workers) ==> multiset(s.attempted) == multiset(plan)
  {
    hide BatchesAccounted, Bounded;
    InvOfReached(plan, instances, capacity, s);
    SomeKilled(s.workers, k);
    assert s.taken == s.taken + [] + [] && s.plan[..|plan|] == plan;
    if NobodyHolds(s.workers) {
      forall t: Task ensures multiset(s.attempted)[t] == multiset(plan)[t] {
        NobodyHoldsTask(s.workers, t);
      }
      assert multiset(s.attempted) <= multiset(plan) && multiset(plan) <= multiset(s.attempted);
    }
  }

  /** If every worker of a non-empty pool stopped on a killer, each task was attempted exactly once. */
  lemma AllKilledMeansEachTaskOnce(plan: seq<Task>, instances: nat, capacity: nat, s: State)
    requires instances > 0 && Reached(plan, instances, capacity, s)
    requires forall w | w in s.workers :: w.Killed()
    ensures multiset(s.attempted) == multiset(plan)
  {
    InvOfReached(plan, instances, capacity, s);
    assert s.workers[0] in s.workers;
    OneKillerMeansAllTasksTaken(plan, instances, capacity, s, 0);
  }

  // ----- does the pool ever stop?

  lemma {:induction false} KilledAndActive(workers: seq<Worker>)
    ensures Total(workers, KilledWeight()) + Total(workers, ActiveWeight()) <= |workers|
  {
    if workers != [] {
      KilledAndActive(workers[1..]);
    }
  }

  /** After one complete batch there is a killer for every worker that is still active. */
  lemma CompleteBatchServesEveryWorker(plan: seq<Task>, instances: nat, capacity: nat, s: State)
    requires Reached(plan, instances, capacity, s) && s.batchDone && s.drained == []
    ensures Served(s)
  {
    InvOfReached(plan, instances, capacity, s);
    ServedAfterBatch(s);
  }

  ghost function Rank(): Worker -> nat {
    (w: Worker) => match w
      case Starting => 4
      case Looping => 3
      case Getting => 2
      case Holding(_) => 5
      case Shooting(_) => 4
      case TearingDown(_) => 1
      case Dead(_) => 0
  }

  ghost predicate QuitFree(run: seq<Step>) {
    forall step | step in run :: step != QuitIsSet
  }

  /** A gun that cannot be set up. */
  ghost predicate Breaks(step: Step) {
    step.Works? && step.w == SetsUp(false)
  }

  /** The run brings the pool to its end; nobody sets the quit flag on the way, and no gun fails. */
  ghost predicate Stops(s: State, run: seq<Step>) {
    && Possible(s, run) && QuitFree(run) && AllDead(After(s, run).workers)
    && forall step | step in run :: !Breaks(step)
  }

  ghost predicate CanStop(s: State) {
    exists run :: Stops(s, run)
  }

  /** A killer for every active worker. */
  ghost predicate Served(s: State) {
    Total(s.workers, ActiveWeight()) <= Killers(s.queue)
  }

  lemma {:induction false} ActiveWorker(workers: seq<Worker>) returns (k: nat)
    requires !AllDead(workers)
    ensures k < |workers| && !workers[k].Dead?
    ensures !workers[k].Stopped() ==> Total(workers, ActiveWeight()) > 0
  {
    k :| k < |workers| && !workers[k].Dead?;
    TotalUpdate(workers, k, workers[k], ActiveWeight());
  }

  /** The step that brings a worker nearer to its end. */
  ghost function NextOf(me: Worker): WorkerStep {
    match me
    case Starting => SetsUp(true)
    case Looping => Loops
    case Getting => Gets
    case Holding(_) => BeginsShot
    case Shooting(_) => EndsShot
    case _ => TearsDown
  }

  ghost function Distance(s: State): nat {
    6 * |s.queue| + Total(s.workers, Rank())
  }

  lemma WorkerMovesOn(s: State, k: nat)
    requires Served(s) && k < |s.workers| && !s.workers[k].Dead?
    requires s.workers[k].Getting? ==> s.queue != []
    ensures WorkerCan(s, s.workers[k], NextOf(s.workers[k]))
    ensures var s' := WorkerDoes(s, k, NextOf(s.workers[k]));
            Served(s') && Distance(s') < Distance(s)
  {
    hide Total;
    var w := NextOf(s.workers[k]);
    TotalAfter(s, k, w, ActiveWeight());
    TotalAfter(s, k, w, Rank());
    if w.Gets? {
      assert Killers(s.queue[1..]) + (if s.queue[0].Killer? then 1 else 0) == Killers(s.queue);
    } else {
      assert WorkerDoes(s, k, w).queue == s.queue;
    }
  }

  /** While somebody is alive, some step other than a quit brings the end nearer and keeps the pool served. */
  lemma ServedPoolMoves(s: State) returns (step: Step)
    requires Served(s) && !AllDead(s.workers)
    ensures Enabled(s, step) && step != QuitIsSet && !Breaks(step)
    ensures var s' := Apply(s, step);
            Served(s') && Distance(s') < Distance(s)
  {
    var k := ActiveWorker(s.workers);
    step := Works(k, NextOf(s.workers[k]));
    WorkerMovesOn(s, k);
  }

  /** A killer for every active worker: the pool can run to its end without a quit. */
  lemma {:induction false} ServedPoolCanStop(s: State) returns (run: seq<Step>)
    requires Served(s)
    ensures Stops(s, run)
    decreases Distance(s)
  {
    hide Apply, Enabled, AllDead, Served, Distance;
    if AllDead(s.workers) {
      run := [];
    } else {
      var step := ServedPoolMoves(s);
      var rest := ServedPoolCanStop(Apply(s, step));
      run := [step] + rest;
      assert run[1..] == rest;
    }
  }

  lemma DrainKeepsServed(s: State)
    requires Served(s) && Enabled(s, StopDrains)
    ensures Served(Apply(s, StopDrains))
  {
    DeadAreInactive(s.workers);
  }

  lemma FeederKeepsServed(s: State, f: FeederStep)
    requires Served(s) && FeederCan(s, f)
    ensures Served(FeederDoes(s, f))
  {
    hide AllDead, Total;
    FeederLeavesWorkers(s, f);
    if f.Puts? {
      QueueAppend(s.queue, Shot(s.plan[s.fed]));
    } else if f.PutsKiller? {
      QueueAppend(s.queue, Killer);
    }
  }

  lemma WorkerKeepsServed(s: State, k: nat, w: WorkerStep)
    requires Served(s) && Enabled(s, Works(k, w))
    ensures Served(WorkerDoes(s, k, w))
  {
    hide Total;
    TotalAfter(s, k, w, ActiveWeight());
    if w.Gets? {
      assert Killers(s.queue[1..]) + (if s.queue[0].Killer? then 1 else 0) == Killers(s.queue);
    } else {
      assert WorkerDoes(s, k, w).queue == s.queue;
    }
  }

  /** Nothing that feeder, workers, quit or stop do takes a killer away from a worker that will need it. */
  lemma StepKeepsServed(s: State, step: Step)
    requires Served(s) && Enabled(s, step)
    ensures Served(Apply(s, step))
  {
    hide FeederCan, FeederDoes, WorkerCan, WorkerDoes, AllDead, Total, Killers;
    match step
    case Feeds(f) => FeederKeepsServed(s, f);
    case Works(k, w) => WorkerKeepsServed(s, k, w);
    case QuitIsSet =>
    case StopDrains => DrainKeepsServed(s);
  }

  /** However a served pool goes on, it can still be brought to its end. */
  lemma {:induction false} ServedStaysServed(s: State, run: seq<Step>) returns (rest: seq<Step>)
    requires Served(s) && Possible(s, run)
    ensures Stops(After(s, run), rest)
    decreases |run|
  {
    hide Apply, Enabled, Served, Stops;
    if run == [] {
      rest := ServedPoolCanStop(s);
    } else {
      StepKeepsServed(s, run[0]);
      rest := ServedStaysServed(Apply(s, run[0]), run[1..]);
    }
  }

  /** More active workers than killers, and nobody left to put more. */
  ghost predicate Starved(s: State) {
    && s.feeder.Joining? && !s.quit
    && (forall w | w in s.workers :: !w.Starting?)
    && !Served(s)
  }

  lemma {:induction false} DeadAreInactive(workers: seq<Worker>)
    requires AllDead(workers)
    ensures Total(workers, ActiveWeight()) == 0
  {
    if workers != [] {
      assert workers[0] in workers;
      DeadAreInactive(workers[1..]);
    }
  }

  lemma StepKeepsStarved(s: State, step: Step)
    requires Starved(s) && Enabled(s, step) && step != QuitIsSet
    ensures Starved(Apply(s, step))
  {
    hide Total;
    match step
    case Feeds(_) =>
      if AllDead(s.workers) {
        DeadAreInactive(s.workers);
      }
    case Works(k, w) =>
      assert s.workers[k] in s.workers;
      TotalAfter(s, k, w, ActiveWeight());
      assert !w.Gets? ==> WorkerDoes(s, k, w).queue == s.queue;
    case StopDrains =>
  }

  lemma {:induction false} StarvedForever(s: State, run: seq<Step>)
    requires Starved(s) && Possible(s, run) && QuitFree(run)
    ensures Starved(After(s, run)) && !AllDead(After(s, run).workers)
    decreases |run|
  {
    if run == [] {
      if AllDead(s.workers) {
        DeadAreInactive(s.workers);
      }
    } else {
      assert run[0] in run && forall step | step in run[1..] :: step in run;
      StepKeepsStarved(s, run[0]);
      StarvedForever(Apply(s, run[0]), run[1..]);
    }
  }

  /** Once the feeder has given up posting and every gun is set up, the pool can stop without a quit exactly when
      the queue holds a killer for every active worker. */
  lemma PoolCanStopIffServed(s: State)
    requires s.feeder.Joining? && !s.quit && forall w | w in s.workers :: !w.Starting?
    ensures CanStop(s) <==> Total(s.workers, ActiveWeight()) <= Killers(s.queue)
  {
    if Served(s) {
      var run := ServedPoolCanStop(s);
    } else {
      StarvedCannotStop(s);
    }
  }

  lemma StarvedCannotStop(s: State)
    requires Starved(s)
    ensures !CanStop(s)
  {
    hide Starved;
    forall run | Possible(s, run) && QuitFree(run) ensures !AllDead(After(s, run).workers) {
      StarvedForever(s, run);
    }
  }

  // ----- the killers can be lost

  lemma {:induction false} RunsCompose(s: State, a: seq<Step>, b: seq<Step>)
    requires Possible(s, a) && Possible(After(s, a), b)
    ensures Possible(s, a + b) && After(s, a + b) == After(After(s, a), b)
    decreases |a|
  {
    hide Apply, Enabled;
    if a == [] {
      assert a + b == b;
    } else {
      RunsCompose(Apply(s, a[0]), a[1..], b);
      assert (a + b)[0] == a[0] && (a + b)[1..] == a[1..] + b;
    }
  }

  /** Some run leads from s to t. */
  ghost predicate Leads(s: State, t: State) {
    exists run :: Possible(s, run) && After(s, run) == t
  }

  lemma OneStep(s: State, step: Step, t: State)
    requires Enabled(s, step) && Apply(s, step) == t
    ensures Leads(s, t)
  {
    hide Apply, Enabled;
    assert [step][0] == step && [step][1..] == [];
    assert Possible(t, []) && After(t, []) == t;
    assert Possible(s, [step]) && After(s, [step]) == t;
  }

  lemma Stays(s: State)
    ensures Leads(s, s)
  {
    assert Possible(s, []) && After(s, []) == s;
  }

  lemma ThenLeads(s: State, t: State, u: State)
    requires Leads(s, t) && Leads(t, u)
    ensures Leads(s, u)
  {
    hide Apply, Enabled;
    var a :| Possible(s, a) && After(s, a) == t;
    var b :| Possible(t, b) && After(t, b) == u;
    RunsCompose(s, a, b);
  }

  ghost function Shots(tasks: seq<Task>): seq<Message> {
    seq(|tasks|, i requires 0 <= i < |tasks| => Shot(tasks[i]))
  }

  /** The first tasks are shot, the next ones held by workers, the next ones queued. */
  ghost function Staged(plan: seq<Task>, capacity: nat, workers: seq<Worker>, feeder: Feeder, shot: nat, got: nat,
                        fed: nat): State
    requires shot <= got <= fed <= |plan|
  {
    State(plan, capacity, fed, feeder, Shots(plan[got..fed]), workers, 0, false, false, plan[..got], plan[..shot], 0,
          false, [])
  }

  lemma FeedsOne(plan: seq<Task>, capacity: nat, workers: seq<Worker>, shot: nat, got: nat, fed: nat)
    requires shot <= got <= fed < |plan| && fed - got < capacity
    ensures Leads(Staged(plan, capacity, workers, Checking, shot, got, fed),
                  Staged(plan, capacity, workers, Checking, shot, got, fed + 1))
  {
    var s := Staged(plan, capacity, workers, Checking, shot, got, fed);
    var t := Staged(plan, capacity, workers, Putting, shot, got, fed);
    var u := Staged(plan, capacity, workers, Checking, shot, got, fed + 1);
    assert u.queue == t.queue + [Shot(plan[fed])];
    assert Enabled(s, Feeds(Checks)) && Apply(s, Feeds(Checks)) == t;
    assert Enabled(t, Feeds(Puts)) && Apply(t, Feeds(Puts)) == u;
    hide Apply, Enabled, Staged, Leads;
    OneStep(s, Feeds(Checks), t);
    OneStep(t, Feeds(Puts), u);
    ThenLeads(s, t, u);
  }

  /** A worker gets the next task, and waits for its planned time. */
  lemma HoldsOne(plan: seq<Task>, capacity: nat, workers: seq<Worker>, k: nat, shot: nat, got: nat)
    requires shot <= got < |plan| && 0 < capacity && k < |workers| && workers[k] == Looping
    ensures Leads(Staged(plan, capacity, workers, Checking, shot, got, got),
                  Staged(plan, capacity, workers[k := Holding(plan[got])], Checking, shot, got + 1, got + 1))
  {
    var s := Staged(plan, capacity, workers, Checking, shot, got, got);
    var t := Staged(plan, capacity, workers, Checking, shot, got, got + 1);
    var u := Staged(plan, capacity, workers[k := Getting], Checking, shot, got, got + 1);
    var v := Staged(plan, capacity, workers[k := Holding(plan[got])], Checking, shot, got + 1, got + 1);
    FeedsOne(plan, capacity, workers, shot, got, got);
    assert Enabled(t, Works(k, Loops)) && Apply(t, Works(k, Loops)) == u;
    assert u.queue == [Shot(plan[got])] && v.queue == [] == u.queue[1..] && v.taken == u.taken + [plan[got]];
    assert workers[k := Getting][k := Holding(plan[got])] == v.workers;
    assert Enabled(u, Works(k, Gets)) && Apply(u, Works(k, Gets)) == v;
    hide Apply, Enabled, Staged, Leads;
    OneStep(t, Works(k, Loops), u);
    OneStep(u, Works(k, Gets), v);
    ThenLeads(s, t, u);
    ThenLeads(s, u, v);
  }

  lemma ShootsOne(plan: seq<Task>, capacity: nat, workers: seq<Worker>, k: nat, shot: nat)
    requires shot < |plan| && 0 < capacity && k < |workers| && workers[k] == Looping
    ensures Leads(Staged(plan, capacity, workers, Checking, shot, shot, shot),
                  Staged(plan, capacity, workers, Checking, shot + 1, shot + 1, shot + 1))
  {
    var task := plan[shot];
    var s := Staged(plan, capacity, workers, Checking, shot, shot, shot);
    var t := Staged(plan, capacity, workers[k := Holding(task)], Checking, shot, shot + 1, shot + 1);
    var u := t.(workers := workers[k := Shooting(task)], counter := 1);
    var v := Staged(plan, capacity, workers, Checking, shot + 1, shot + 1, shot + 1);
    HoldsOne(plan, capacity, workers, k, shot, shot);
    assert workers[k := Holding(task)][k := Shooting(task)] == u.workers;
    assert Enabled(t, Works(k, BeginsShot)) && Apply(t, Works(k, BeginsShot)) == u;
    assert u.workers[k := Looping] == workers && v.attempted == u.attempted + [task];
    assert Enabled(u, Works(k, EndsShot)) && Apply(u, Works(k, EndsShot)) == v;
    hide Apply, Enabled, Staged, Leads;
    OneStep(t, Works(k, BeginsShot), u);
    OneStep(u, Works(k, EndsShot), v);
    ThenLeads(s, t, u);
    ThenLeads(s, u, v);
  }

  /** The first i workers are set up. */
  ghost function SetUp(i: nat, n: nat): seq<Worker> {
    seq(n, k => if k < i then Looping else Starting)
  }

  lemma {:induction false} AllSetUp(plan: seq<Task>, capacity: nat, i: nat, n: nat)
    requires i <= n
    ensures Leads(Staged(plan, capacity, SetUp(0, n), Checking, 0, 0, 0),
                  Staged(plan, capacity, SetUp(i, n), Checking, 0, 0, 0))
  {
    var s := Staged(plan, capacity, SetUp(0, n), Checking, 0, 0, 0);
    if i == 0 {
      Stays(s);
    } else {
      var t := Staged(plan, capacity, SetUp(i - 1, n), Checking, 0, 0, 0);
      var u := Staged(plan, capacity, SetUp(i, n), Checking, 0, 0, 0);
      AllSetUp(plan, capacity, i - 1, n);
      assert SetUp(i - 1, n)[i - 1 := Looping] == SetUp(i, n);
      assert Enabled(t, Works(i - 1, SetsUp(true))) && Apply(t, Works(i - 1, SetsUp(true))) == u;
      hide Apply, Enabled, Staged, Leads;
      OneStep(t, Works(i - 1, SetsUp(true)), u);
      ThenLeads(s, t, u);
    }
  }

  lemma {:induction false} ShootsMany(plan: seq<Task>, capacity: nat, workers: seq<Worker>, shot: nat)
    requires shot <= |plan| && 0 < capacity && workers != [] && workers[0] == Looping
    ensures Leads(Staged(plan, capacity, workers, Checking, 0, 0, 0),
                  Staged(plan, capacity, workers, Checking, shot, shot, shot))
  {
    hide Apply, Enabled, Staged, Leads;
    var s := Staged(plan, capacity, workers, Checking, 0, 0, 0);
    if shot == 0 {
      Stays(s);
    } else {
      ShootsMany(plan, capacity, workers, shot - 1);
      ShootsOne(plan, capacity, workers, 0, shot - 1);
      ThenLeads(s, Staged(plan, capacity, workers, Checking, shot - 1, shot - 1, shot - 1),
                Staged(plan, capacity, workers, Checking, shot, shot, shot));
    }
  }

  lemma {:induction false} FillsUp(plan: seq<Task>, capacity: nat, workers: seq<Worker>, shot: nat, got: nat, fed: nat)
    requires shot <= got <= fed <= |plan| && fed - got <= capacity
    ensures Leads(Staged(plan, capacity, workers, Checking, shot, got, got),
                  Staged(plan, capacity, workers, Checking, shot, got, fed))
    decreases fed
  {
    hide Apply, Enabled, Staged, Leads;
    var s := Staged(plan, capacity, workers, Checking, shot, got, got);
    if fed == got {
      Stays(s);
    } else {
      FillsUp(plan, capacity, workers, shot, got, fed - 1);
      FeedsOne(plan, capacity, workers, shot, got, fed - 1);
      ThenLeads(s, Staged(plan, capacity, workers, Checking, shot, got, fed - 1),
                Staged(plan, capacity, workers, Checking, shot, got, fed));
    }
  }

  ghost function Batch(k: nat): seq<Message> {
    seq(k, _ => Killer)
  }

  lemma {:induction false} KillersOfBatch(tasks: seq<Task>, k: nat)
    ensures Killers(Shots(tasks) + Batch(k)) == k
    decreases k, |tasks|
  {
    if k > 0 {
      KillersOfBatch(tasks, k - 1);
      QueueAppend(Shots(tasks) + Batch(k - 1), Killer);
      assert (Shots(tasks) + Batch(k - 1)) + [Killer] == Shots(tasks) + Batch(k);
    } else if tasks != [] {
      KillersOfBatch(tasks[1..], 0);
      assert (Shots(tasks) + Batch(0))[1..] == Shots(tasks[1..]) + Batch(0);
    } else {
      assert Shots(tasks) + Batch(0) == [];
    }
  }

  /** The first k killers of the first batch are behind the tasks. */
  ghost function Posted(s: State, k: nat): State {
    s.(queue := s.queue + Batch(k), posted := s.posted + k, feeder := Killing(0, k))
  }

  lemma {:induction false} PostsMany(s: State, k: nat)
    requires s.feeder == Killing(0, 0) && k <= |s.workers| && |s.queue| + k <= s.capacity
    ensures Leads(s, Posted(s, k))
  {
    if k == 0 {
      assert s.queue + Batch(0) == s.queue;
      Stays(s);
    } else {
      var t, u := Posted(s, k - 1), Posted(s, k);
      PostsMany(s, k - 1);
      assert (s.queue + Batch(k - 1)) + [Killer] == s.queue + Batch(k);
      PutsOneKiller(t, u);
      ThenLeads(s, t, u);
    }
  }

  lemma PutsOneKiller(t: State, u: State)
    requires t.feeder.Killing? && t.feeder.posted < |t.workers| && |t.queue| < t.capacity
    requires u == t.(queue := t.queue + [Killer], posted := t.posted + 1,
                     feeder := Killing(t.feeder.attempt, t.feeder.posted + 1))
    ensures Leads(t, u)
  {
    OneStep(t, Feeds(PutsKiller), u);
  }

  /** With the queue full every attempt to post killers fails, and after the fifth the feeder gives up. */
  lemma {:induction false} GivesUp(s: State)
    requires s.feeder.Killing? && s.feeder.attempt < ATTEMPTS && s.feeder.posted < |s.workers|
    requires |s.queue| == s.capacity
    ensures Leads(s, s.(feeder := Joining))
    decreases ATTEMPTS - s.feeder.attempt
  {
    var attempt := s.feeder.attempt;
    var t := s.(feeder := if attempt + 1 < ATTEMPTS then Killing(attempt + 1, 0) else Joining);
    assert Enabled(s, Feeds(FindsFullKilling)) && Apply(s, Feeds(FindsFullKilling)) == t;
    OneStep(s, Feeds(FindsFullKilling), t);
    if attempt + 1 < ATTEMPTS {
      GivesUp(t);
      ThenLeads(s, t, s.(feeder := Joining));
    }
  }

  /** All workers are idle, the last tasks fill the queue as far as there are any, killers fill the rest, and the
      feeder has come to the killers that find no place. */
  ghost function Jammed(plan: seq<Task>, instances: nat, capacity: nat): State {
    Posted(Waiting(plan, instances, capacity), capacity - Min(|plan|, capacity))
  }

  /** The whole plan is fed, and as much of it as possible still queued. */
  ghost function Waiting(plan: seq<Task>, instances: nat, capacity: nat): State {
    var shot := |plan| - Min(|plan|, capacity);
    Staged(plan, capacity, SetUp(instances, instances), Killing(0, 0), shot, shot, |plan|)
  }

  lemma PoolCanWait(plan: seq<Task>, instances: nat, capacity: nat)
    requires instances > 0 && capacity > 0
    ensures Leads(Init(plan, instances, capacity), Waiting(plan, instances, capacity))
  {
    var shot, n := |plan| - Min(|plan|, capacity), instances;
    var workers := SetUp(n, n);
    var s0 := Init(plan, n, capacity);
    var s1 := Staged(plan, capacity, workers, Checking, 0, 0, 0);
    var s2 := Staged(plan, capacity, workers, Checking, shot, shot, shot);
    var s3 := Staged(plan, capacity, workers, Checking, shot, shot, |plan|);
    var s4 := Waiting(plan, n, capacity);
    assert s0 == Staged(plan, capacity, SetUp(0, n), Checking, 0, 0, 0);
    AllSetUp(plan, capacity, n, n);
    ShootsMany(plan, capacity, workers, shot);
    FillsUp(plan, capacity, workers, shot, shot, |plan|);
    assert Enabled(s3, Feeds(Checks)) && Apply(s3, Feeds(Checks)) == s4;
    OneStep(s3, Feeds(Checks), s4);
    ThenLeads(s0, s1, s2);
    ThenLeads(s0, s2, s3);
    ThenLeads(s0, s3, s4);
  }

  lemma PoolCanJam(plan: seq<Task>, instances: nat, capacity: nat)
    requires instances > 0 && capacity > 0 && |plan| + instances > capacity
    ensures Leads(Init(plan, instances, capacity), Jammed(plan, instances, capacity))
  {
    var waiting := Waiting(plan, instances, capacity);
    PoolCanWait(plan, instances, capacity);
    PostsMany(waiting, capacity - Min(|plan|, capacity));
    ThenLeads(Init(plan, instances, capacity), waiting, Jammed(plan, instances, capacity));
  }

  /** With more tasks and workers than the queue has places the unserved case happens: the queue fills up, five attempts
      to post the rest of the killers time out, and the pool never stops. */
  lemma StarvationHappens(plan: seq<Task>, instances: nat, capacity: nat)
    requires instances > 0 && capacity > 0 && |plan| + instances > capacity
    ensures exists s :: Reached(plan, instances, capacity, s) && Starved(s)
                        && |s.queue| == s.capacity && s.fed == |plan|
  {
    var jammed := Jammed(plan, instances, capacity);
    var starved := jammed.(feeder := Joining);
    JammedStarves(plan, instances, capacity);
    GivesUp(jammed);
    PoolCanJam(plan, instances, capacity);
    hide Jammed, Init, Leads, Starved;
    ThenLeads(Init(plan, instances, capacity), jammed, starved);
    ReachedIfLeads(plan, instances, capacity, starved);
  }

  lemma JammedStarves(plan: seq<Task>, instances: nat, capacity: nat)
    requires instances > 0 && capacity > 0 && |plan| + instances > capacity
    ensures var s := Jammed(plan, instances, capacity);
            && s.feeder.Killing? && s.feeder.attempt == 0 && s.feeder.posted < |s.workers|
            && |s.queue| == s.capacity && s.fed == |plan| && Starved(s.(feeder := Joining))
  {
    var s := Jammed(plan, instances, capacity);
    var shot := |plan| - Min(|plan|, capacity);
    KillersOfBatch(plan[shot..|plan|], capacity - Min(|plan|, capacity));
    AllActive(instances);
  }

  lemma {:induction false} AllActive(n: nat)
    ensures Total(SetUp(n, n), ActiveWeight()) == n
  {
    if n > 0 {
      assert SetUp(n, n)[1..] == SetUp(n - 1, n - 1);
      AllActive(n - 1);
    }
  }

  lemma ReachedIfLeads(plan: seq<Task>, instances: nat, capacity: nat, s: State)
    requires Leads(Init(plan, instances, capacity), s)
    ensures Reached(plan, instances, capacity, s)
  {
  }

  // ----- exactly when they can be

  /** There is a place in the queue for every task and every killer, so that no batch is ever cut short. */
  ghost predicate Roomy(s: State) {
    && |s.plan| + |s.workers| <= s.capacity
    && |s.queue| <= s.fed + s.posted
    && (s.feeder.Killing? ==> s.feeder.attempt == 0 && s.posted == s.feeder.posted)
    && (s.feeder.Joining? || s.feeder.Finished? ==> s.batchDone)
    && (s.drained != [] ==> s.quit)
    && (s.feeder.Left? ==> s.quit)
  }

  lemma FeederKeepsRoomy(s: State, f: FeederStep)
    requires Inv(s) && Roomy(s) && FeederCan(s, f)
    ensures Roomy(FeederDoes(s, f))
  {
    hide AllDead, TasksAccounted, ShotsAccounted, Total, Killers, Tasks, TasksFirst;
    FedWithin(s);
    FeederLeavesWorkers(s, f);
  }

  lemma FedWithin(s: State)
    requires Inv(s)
    ensures s.fed <= |s.plan| && (s.workersFinished ==> s.feeder.Finished?)
    ensures s.feeder.Putting? ==> s.fed < |s.plan| && s.posted == 0
  {
  }

  lemma StepKeepsRoomy(s: State, step: Step)
    requires Inv(s) && Roomy(s) && Enabled(s, step)
    ensures Roomy(Apply(s, step))
  {
    hide Inv, FeederDoes, FeederCan, WorkerDoes, WorkerCan, AllDead;
    match step
    case Feeds(f) => FeederKeepsRoomy(s, f);
    case Works(k, w) => WorkerKeepsRoomy(s, k, w);
    case _ =>
  }

  lemma WorkerKeepsRoomy(s: State, k: nat, w: WorkerStep)
    requires Roomy(s) && Enabled(s, Works(k, w))
    ensures Roomy(WorkerDoes(s, k, w))
  {
    hide Becomes;
  }

  lemma {:induction false} RunKeepsRoomy(s: State, run: seq<Step>)
    requires Inv(s) && Roomy(s) && Possible(s, run)
    ensures Roomy(After(s, run))
    decreases |run|
  {
    hide Inv, Roomy, Apply, Enabled;
    if run != [] {
      StepKeepsInv(s, run[0]);
      StepKeepsRoomy(s, run[0]);
      RunKeepsRoomy(Apply(s, run[0]), run[1..]);
    }
  }

  lemma RoomyOfReached(plan: seq<Task>, instances: nat, capacity: nat, s: State)
    requires Reached(plan, instances, capacity, s) && |plan| + instances <= capacity
    ensures Roomy(s)
  {
    hide Apply, Enabled, Inv;
    var init := Init(plan, instances, capacity);
    var run :| Possible(init, run) && After(init, run) == s;
    InitInv(plan, instances, capacity);
    RunKeepsRoomy(init, run);
  }

  /** The killers can be lost if and only if the tasks and the workers together are more than the queue has places. */
  lemma StarvesIff(plan: seq<Task>, instances: nat, capacity: nat)
    requires instances > 0 && capacity > 0
    ensures (exists s :: Reached(plan, instances, capacity, s) && Starved(s)) <==> |plan| + instances > capacity
  {
    if |plan| + instances > capacity {
      StarvationHappens(plan, instances, capacity);
    } else {
      forall s | Reached(plan, instances, capacity, s) ensures !Starved(s) {
        RoomyOfReached(plan, instances, capacity, s);
        if s.feeder.Joining? && !s.quit {
          CompleteBatchServesEveryWorker(plan, instances, capacity, s);
        }
      }
    }
  }

  /** Once the quit flag is set, every worker comes to its end by itself. */
  lemma {:induction false} QuitPoolCanStop(s: State) returns (run: seq<Step>)
    requires s.quit
    ensures Stops(s, run)
    decreases Total(s.workers, Rank())
  {
    hide Apply, Enabled, AllDead, Total, Rank;
    if AllDead(s.workers) {
      run := [];
    } else {
      var step := QuitPoolMoves(s);
      var rest := QuitPoolCanStop(Apply(s, step));
      run := [step] + rest;
      assert run[1..] == rest;
    }
  }

  lemma QuitPoolMoves(s: State) returns (step: Step)
    requires s.quit && !AllDead(s.workers)
    ensures Enabled(s, step) && step != QuitIsSet && !Breaks(step) && Apply(s, step).quit
    ensures Total(Apply(s, step).workers, Rank()) < Total(s.workers, Rank())
  {
    hide Total;
    var k := ActiveWorker(s.workers);
    var w := if s.workers[k].Getting? then FindsEmpty else NextOf(s.workers[k]);
    step := Works(k, w);
    TotalAfter(s, k, w, Rank());
  }

  /** How far the feeder is from its end. */
  ghost function FeederDistance(s: State): int {
    match s.feeder
    case Checking => 2 * (|s.plan| - s.fed) + |s.workers| + 4
    case Putting => 2 * (|s.plan| - s.fed) + |s.workers| + 3
    case Killing(_, posted) => |s.workers| - posted + 2
    case Joining => 1
    case _ => 0
  }

  lemma FeederGoesOn(s: State) returns (f: FeederStep)
    requires Inv(s) && Roomy(s) && !s.quit && (s.feeder.Checking? || s.feeder.Putting? || s.feeder.Killing?)
    ensures FeederCan(s, f)
    ensures 0 <= FeederDistance(FeederDoes(s, f)) < FeederDistance(s)
  {
    hide AllDead, TasksAccounted, ShotsAccounted, Total, Killers, Tasks, TasksFirst;
    FedWithin(s);
    f := if s.feeder.Checking? then Checks
         else if s.feeder.Putting? then Puts
         else if s.feeder.posted < |s.workers| then PutsKiller
         else EndsBatch;
  }

  /** A pool with a place for every task and every killer can stop from wherever it is. */
  lemma {:induction false} RoomyPoolCanStop(s: State) returns (run: seq<Step>)
    requires Inv(s) && Roomy(s)
    ensures Stops(s, run)
    decreases FeederDistance(s)
  {
    hide Apply, Enabled, AllDead, Inv, FeederDistance, FeederCan, FeederDoes;
    if s.quit {
      run := QuitPoolCanStop(s);
    } else if s.feeder.Joining? || s.feeder.Finished? {
      ServedAfterBatch(s);
      run := ServedPoolCanStop(s);
    } else {
      var f := FeederGoesOn(s);
      ThisIsApply(s, f);
      StepKeepsInv(s, Feeds(f));
      StepKeepsRoomy(s, Feeds(f));
      var rest := RoomyPoolCanStop(Apply(s, Feeds(f)));
      run := [Feeds(f)] + rest;
      assert run[1..] == rest;
    }
  }

  lemma ThisIsApply(s: State, f: FeederStep)
    requires FeederCan(s, f)
    ensures Enabled(s, Feeds(f)) && Apply(s, Feeds(f)) == FeederDoes(s, f)
  {
  }

  lemma ServedAfterBatch(s: State)
    requires Inv(s) && s.batchDone && s.drained == []
    ensures Served(s)
  {
    KilledAndActive(s.workers);
  }

  /** When the pool is safe: from every reachable state it can still stop without anybody setting the quit flag, if and
      only if the queue has a place for every task and every worker. */
  lemma PoolAlwaysCanStopIff(plan: seq<Task>, instances: nat, capacity: nat)
    requires instances > 0 && capacity > 0
    ensures (forall s | Reached(plan, instances, capacity, s) :: CanStop(s)) <==> |plan| + instances <= capacity
  {
    hide Starved, Inv, Roomy, Reached, Stops;
    if |plan| + instances <= capacity {
      forall s | Reached(plan, instances, capacity, s) ensures CanStop(s) {
        InvOfReached(plan, instances, capacity, s);
        RoomyOfReached(plan, instances, capacity, s);
        var run := RoomyPoolCanStop(s);
      }
    } else {
      StarvesIff(plan, instances, capacity);
      var s :| Reached(plan, instances, capacity, s) && Starved(s);
      StarvedCannotStop(s);
    }
  }
}
