# Yandex Tank: models and proofs

Dafny models of the algorithms of Yandex Tank that do not depend on input and output, with proofs of what they
promise. `dafny verify dfyconfig.toml` checks everything.

## The two pipelines

**From samples to reports.** `Chopper.dfy` is the merge of several chunked, time-stamped sources into one frame per
second. Conservation holds for any rows at all; if no source goes back behind its own watermark the frames are the plain
grouping of all rows by second, and `Arrivals.dfy` looks closer at when they are not. `TankAggregator.dfy` joins that
stream with the statistics through two caches, for any batching and interleaving, and `Pipeline.dfy` runs the two
together, from the sources to the listeners: every sample is reported once. `Router.dfy` and `Autostop.dfy` are two
consumers on the same kind of stream: the buffer for late metrics, and the criteria that watch windows and runs of
seconds. `Luna.dfy` is the worklist that registers metrics parents first. `Lines.dfy` is the cutting of growing files
into whole lines.

**From a schedule to shots.** `LoadPlan.dfy` solves the quadratic of a line for each shot, `Schedule.dfy` puts lines,
constants and stairways together, `InstancePlan.dfy` does the same for instances, and `Steps.dfy` has the per-second
lists made of them. `StepperLoop.dfy` has the looping ammo sources, the limits and the writer, `Stpd.dfy` the format it
writes and reads, `Words.dfy` what splitting and decoding make of its headers, `Bfg.dfy` the feeder and the workers that
shoot, `Stopping.dfy` why they come to an end. `Shooting.dfy` follows a schedule all the way through. `Common.dfy` holds
shared vocabulary.

## How it is modelled

- Objects that the program changes in place are classes with the same fields, generators are methods that run from one
  yield to the next or collect what is yielded, and each method is proved against a function of values. The BFG is a
  state machine whose steps are the atomic accesses to the queue, the counter and the flags.
- Floats are exact reals. The square root is a parameter of which only the defining property is used.
- Frames are sequences of rows. Clocks, queue sizes and the moments at which other threads act are parameters, so that
  results hold for all of them.
- Python's exceptions are result values.
- The branches of the criteria for a second without responses are kept as the code has them, but no such second is
  ever reported: no frame is without rows (`Chopper.TimeChopper.Iterate`), and so no report
  (`Pipeline.ReportEverySample`).

## What does not hold as one might expect

- The killers of the BFG are given up after five attempts that find the queue full, and then the pool may never stop by
  itself. That can happen if and only if the tasks of the plan and the workers together are more than the places of the
  queue, 1024 in the code (`Bfg.StarvesIff`, `Bfg.PoolAlwaysCanStopIff`); otherwise every fair run comes to its end
  (`Stopping.FairRunsEnd`).
- Rows that come late split a second over several frames, exactly when one comes for a second that is gone: one of which
  a row had come before a round of polls ended with a floor above it (`Chopper.TimeChopper.Iterate`,
  `Arrivals.OnTimeMeans`, with an input in `Arrivals.LateRowSplits`). Then the join can lose samples
  (`Pipeline.ReportsRightIff`).
- `_collect_data(end=True)` leaves its cache as it is, so that a second such call would repeat the leftovers
  (`TankAggregator.SecondEndRepeatsLeftovers`). The code makes that call once, at the end of the test.
- The router's last route does nothing without a message, and all buffers are lost (`Router.LostWithoutMessage`);
  `Router.MetricsRouter.Run` says for which arrivals that is.
- A stpd file cut short can yield a wrong task when a missile is empty (`Stpd.TruncationSafeIff`), and a marker that is
  no text, or has whitespace in it, does not come back (`Stpd.RoundTripIff`).
- A ramp of one instance, and a line from a number to itself, divide by zero (`InstancePlan.LoadPlanBuilder.Ramp`,
  `InstancePlan.LoadPlanBuilder.Line`).
- An ammo limit of 0 counts as given and limits nothing; next to an instances plan it reaches the error that the
  normalisation is meant to rule out, and next to an rps schedule it divides by zero (`StepperLoop.NoLimitIff`,
  `StepperLoop.DividesIff`). The ammo limit lets one missile more than itself through (`StepperLoop.WritesTheLeast`).
- `http_trend` with a limit of one second can only raise (`Autostop.TrendRaisesIff`); of several criteria that fire
  in the same second the last is blamed (`Autostop.Plugin.NotifyAll`).
- The step list of a line has one entry more than the line has whole seconds (`Steps.LineSteps`).

## Model

| member | source | states |
|---|---|---|
| Chopper.TimeChopper.Iterate | yandextank/aggregator/chopper.py:22-44 | For any finite sources every delivered row leaves in exactly one frame, no frame is without rows and the cache ends empty, whatever the order of the rows; with watermarked sources the frames are the plain grouping of all rows by second, in increasing order. What happens on the way is determined by the feeds, and from the feeds alone one can tell: a second is split over several frames if and only if a row comes for a second that is gone, and the frames are the plain grouping if and only if every row comes for a second later than all that are gone. |
| Chopper.FinalTracked | yandextank/aggregator/chopper.py:41-50 | How both equivalences follow at the end from what was tracked on the way. |
| Chopper.DeliveryKeepsTracked | yandextank/aggregator/chopper.py:28-35 | A chunk keeps frames and cache as they should be exactly when none of its rows is for a second that is gone. |
| Chopper.PassSettles | yandextank/aggregator/chopper.py:36-39 | When a round ends, the seconds that leave are those that had come and lie below the floor, so that the seconds yielded are again those that are gone. |
| Arrivals.GoneMeans | yandextank/aggregator/chopper.py:36-39 | A second is gone once a row of it has come and a round has ended, after that, with a floor above it. |
| Arrivals.OnTimeMeans | yandextank/aggregator/chopper.py:22-44 | The condition without recursion: every row is apart from every second that was gone when it came. |
| Arrivals.EventsOfSource | yandextank/aggregator/chopper.py:26-30 | The chunks that come are those of the feeds, source by source in their order, all of them and no others. |
| Arrivals.FloorsAreLeast | yandextank/aggregator/chopper.py:29-36 | Whenever a round ends, the floor is the least of the last indices that the sources still there have delivered, 0 for one that has delivered nothing. |
| Arrivals.TwoChunks | yandextank/aggregator/chopper.py:26-39 | One source with any two chunks: a second is split if and only if the second chunk has a row for a second of the first one below its last index. |
| Arrivals.LateRowSplits | yandextank/aggregator/chopper.py:26-39 | Rows for the seconds 3 and 5 and then one more for second 3 split that second. |
| Arrivals.SplitByLateRow | yandextank/aggregator/chopper.py:22-44 | The generator over that feed yields two frames for one second. |
| Chopper.EmitKeepsTracked | yandextank/aggregator/chopper.py:38-39 | Emitting the oldest cached second neither splits a second nor mends one. |
| Chopper.TimeChopper.RetireOne | yandextank/aggregator/chopper.py:23-42 | One turn of the outer loop removes exactly one source, and keeps conservation and order. |
| Chopper.TimeChopper.PollRound | yandextank/aggregator/chopper.py:26-35 | A round polls each source once and stops at the first exhausted one; conservation and order are kept. |
| Chopper.TimeChopper.Poll | yandextank/aggregator/chopper.py:27-35 | One delivered chunk moves from the source into the cache, row for row, and moves the watermark of that source only. |
| Chopper.TimeChopper.Absorb | yandextank/aggregator/chopper.py:29-35 | The rows of a chunk are appended to the cached rows of their seconds; the watermark becomes the last index. |
| Chopper.TimeChopper.EmitReady | yandextank/aggregator/chopper.py:36-39 | Emits exactly the cached seconds below every watermark, oldest first, and keeps order: with watermarked sources nothing emitted can be added to later. |
| Chopper.TimeChopper.Emit | yandextank/aggregator/chopper.py:46-50 | The yielded frame holds all cached rows of its second and their number. |
| Chopper.TimeChopper.Drop | yandextank/aggregator/chopper.py:40-42 | Dropping an exhausted source loses no row. |
| Chopper.TimeChopper.constructor | yandextank/aggregator/chopper.py:16-20 | The initial state accounts for all rows of all sources, and is in order if every source is watermarked. |
| Chopper.AbsorbKeepsBooked | yandextank/aggregator/chopper.py:28-35 | Second by second, received rows stay equal to emitted rows followed by cached rows when a chunk is absorbed. |
| Chopper.EmitKeepsBooked | yandextank/aggregator/chopper.py:38-39 | The same account is kept when a second is emitted. |
| Chopper.PollKeepsConserved | yandextank/aggregator/chopper.py:27-28 | All rows stay equal to pending plus received rows across a poll, and one poll fewer is left. |
| Chopper.PollKeepsOrdered | yandextank/aggregator/chopper.py:27-35 | A poll brings no row older than any emitted second. |
| Chopper.EmitKeepsOrdered | yandextank/aggregator/chopper.py:36-39 | Emitting the oldest second below all watermarks keeps the emitted seconds increasing and below all that is cached or to come. |
| Chopper.IncreasingFramesAreTheGrouping | yandextank/aggregator/chopper.py:22-44 | Frames in increasing order that account for every row can only be the grouping by second. |
| Chopper.TimeOrderedIsWatermarked | yandextank/aggregator/chopper.py:26-30 | A source whose rows come in time order is watermarked however it is cut into chunks. |
| Chopper.GroupingIgnoresArrivalOrder | yandextank/aggregator/chopper.py:22-44 | The frames depend on which rows there are, not on how the sources interleave. |
| TankAggregator.TankAggregator.CollectData | yandextank/aggregator/tank_aggregator.py:83-113 | For any batches, each call extends the join by exactly the items it took from the queues; a final call with both queues emptied reports the left outer join of all data with all statistics to every listener. |
| TankAggregator.TankAggregator.PutData | yandextank/aggregator/tank_aggregator.py:72-75 | The drain thread adds an item to the queue at any moment, without touching what was joined. |
| TankAggregator.TankAggregator.PutStat | yandextank/aggregator/tank_aggregator.py:77-79 | The same for statistics. |
| TankAggregator.TankAggregator.TakeData | yandextank/aggregator/tank_aggregator.py:91-99 | One data item is reported with its waiting statistics or cached. |
| TankAggregator.TankAggregator.TakeStat | yandextank/aggregator/tank_aggregator.py:100-108 | One statistics item is reported with its waiting data or cached. |
| TankAggregator.TankAggregator.FlushCache | yandextank/aggregator/tank_aggregator.py:109-113 | What is left without statistics is reported in order of time with zeros. |
| TankAggregator.FlushedLast | yandextank/aggregator/tank_aggregator.py:109-113 | The reports of a run end with those of the final flush, their seconds increasing and their statistics all zero. |
| TankAggregator.TankAggregator.NotifyListeners | yandextank/aggregator/tank_aggregator.py:149-153 | Every listener gets every report, in the same order. |
| TankAggregator.GetNowait | yandextank/contrib/netort/netort/data_processing.py:14-22 | Draining a queue takes its first items in order and leaves the rest. |
| TankAggregator.CachesNeverShareAKey | yandextank/aggregator/tank_aggregator.py:91-108 | In every run, without any assumption on the streams, no second waits in both caches. |
| TankAggregator.EveryRunIsJoined | yandextank/aggregator/tank_aggregator.py:91-108 | With unique data seconds every data item seen is either reported once or cached, and a cached one has had no statistics. |
| TankAggregator.ReportsAreTheLeftOuterJoin | yandextank/aggregator/tank_aggregator.py:83-113 | For every interleaving and batching, after one final flush each data item is reported exactly once, with statistics of its own second if any arrived, else zeros. |
| TankAggregator.ReportsAreTheReferenceJoin | yandextank/aggregator/tank_aggregator.py:83-113 | If the statistics seconds are unique too, the reports are a plain outer join as a multiset. |
| TankAggregator.JoinIsRightIffDataUnique | yandextank/aggregator/tank_aggregator.py:91-113 | The join is right for every interleaving exactly when the data seconds are unique. |
| TankAggregator.SecondEndRepeatsLeftovers | yandextank/aggregator/tank_aggregator.py:109-113 | A final call does not empty the cache: a second one repeats the leftovers, harmless exactly when there were none. |
| Pipeline.FramesKeepEveryRow | yandextank/aggregator/tank_aggregator.py:62-75 | The items handed to the join hold all rows once; their seconds are unique exactly when no second has two frames. |
| Pipeline.ReportEverySample | yandextank/aggregator/tank_aggregator.py:62-113 | From any sources through the chopper, the two queues, any turns of the join and the final call to the listeners: if no row comes for a second that is gone, every listener gets every row that any source delivered exactly once, each next to statistics of its own second, or zeros, and never a report without rows; if one does and no statistics come, every listener misses rows. |
| Pipeline.ReportsRightIff | yandextank/aggregator/tank_aggregator.py:83-113 | The reports are right for every way in which frames and statistics can meet if and only if no second has two frames. |
| Pipeline.SplitSecondLosesSamples | yandextank/aggregator/tank_aggregator.py:91-113 | Of two frames for the same second that wait for statistics only one is ever reported. |
| Arrivals.WatermarkedIsOnTime | yandextank/aggregator/chopper.py:26-39 | Sources that never go back behind their own watermarks bring no row for a second that is gone, nor for one before it. |
| Pipeline.EverySampleReportedOnce | yandextank/aggregator/tank_aggregator.py:83-113 | The step behind it: for any arrivals of the frames and the statistics, if no second has two frames the final reports hold every sample exactly once, next to the statistics of its own second. |
| Bfg.StepKeepsInv | yandextank/plugins/Bfg/worker.py:78-173 | Every atomic step of feeder, worker, quit and stop keeps the inductive invariant, for any number of workers, any plan and any queue capacity. |
| Stopping.WorkerFollows | yandextank/plugins/Bfg/worker.py:127-180 | After each step of a worker exactly those steps can follow that come next in its program, with the quit flag looked at where the program looks. |
| Stopping.FeederInOrder | yandextank/plugins/Bfg/worker.py:78-120 | The same for the feeder: the end of the plan before the quit flag, the same task again when the queue was full, a new batch after a failed attempt but for the last. |
| Stopping.QuitForGood | yandextank/plugins/Bfg/worker.py:61-65 | The quit flag can be set at any moment and stays set. |
| Stopping.QuitIsHeeded | yandextank/plugins/Bfg/worker.py:140-175 | After a quit, in any run, no more tasks are taken from the queue than there were workers waiting for a message, and no more are fed than the one that was being put. |
| Stopping.QuitRunsAreShort | yandextank/plugins/Bfg/worker.py:61-180 | After a quit every run is short, in whatever order the steps come: each lowers a measure of what remains. |
| Stopping.QuitEndsSoon | yandextank/plugins/Bfg/worker.py:61-180 | In numbers: at most 15 steps for each worker, one for each place in the queue and 16 more. |
| Stopping.QuitLeavesNothing | yandextank/plugins/Bfg/worker.py:61-180 | Until all workers have stopped, the feeder is done and the queue is drained, some step is left; so that is how every run ends. |
| Stopping.LastStepOf | yandextank/plugins/Bfg/worker.py:131-180 | A worker whose gun fails, that finds nothing after a quit, or that has torn down takes no further step. |
| Stopping.OnlyTearsDown | yandextank/plugins/Bfg/worker.py:144-180 | A worker that gets a killer, or comes to the head of its loop after a quit, does nothing more but tear down. |
| Stopping.FiveAttempts | yandextank/plugins/Bfg/worker.py:103-110 | Five attempts in a row that find the queue full, no fewer and no more, make the feeder give up the killers. |
| Bfg.RunKeepsInv | yandextank/plugins/Bfg/worker.py:78-173 | So does every interleaving. |
| Bfg.InitInv | yandextank/plugins/Bfg/worker.py:29-52 | The freshly started pool satisfies the invariant. |
| Bfg.NoTaskBehindAKiller | yandextank/plugins/Bfg/worker.py:100-110 | In every reachable state no task stands behind a killer in the queue, though a full queue restarts the whole batch of killers; at most five batches are posted. |
| Bfg.TasksAreConserved | yandextank/plugins/Bfg/worker.py:85-99 | Each task of the plan is attempted, held by a worker, queued, drained by stop, or not yet fed, with the right multiplicity. |
| Bfg.CounterIsInFlight | yandextank/plugins/Bfg/worker.py:156-162 | The shared counter always equals the number of workers between its two updates. |
| Bfg.OneKillerMeansAllTasksTaken | yandextank/plugins/Bfg/worker.py:146-149 | Once one worker stops on a killer, the whole plan has been taken from the queue in order. |
| Bfg.AllKilledMeansEachTaskOnce | yandextank/plugins/Bfg/worker.py:144-173 | If every worker stopped on a killer, each task was attempted exactly once. |
| Bfg.CompleteBatchServesEveryWorker | yandextank/plugins/Bfg/worker.py:103-106 | After one complete batch there is a killer for every active worker. |
| Bfg.ServedPoolCanStop | yandextank/plugins/Bfg/worker.py:144-180 | A pool with a killer for every active worker has a run to its end without a quit and without a failing gun. |
| Bfg.PoolCanStopIffServed | yandextank/plugins/Bfg/worker.py:100-117 | Once the feeder has stopped posting, the pool can stop without a quit if and only if there is a killer for every active worker. |
| Bfg.PoolAlwaysCanStopIff | yandextank/plugins/Bfg/worker.py:37-117 | When the pool is safe: from every reachable state it can still stop, without a quit and without a failing gun, if and only if the queue has a place for every task of the plan and every worker. |
| Bfg.StarvesIff | yandextank/plugins/Bfg/worker.py:37-117 | A state in which the killers are lost for good can be reached if and only if tasks and workers together are more than the queue has places. |
| Bfg.ServedStaysServed | yandextank/plugins/Bfg/worker.py:82-180 | However a pool with a killer for every active worker goes on, by any steps at all, it can still be brought to its end. |
| Bfg.StepKeepsRoomy | yandextank/plugins/Bfg/worker.py:82-117 | With a place for every task and every worker no step cuts a batch of killers short. |
| Bfg.RoomyPoolCanStop | yandextank/plugins/Bfg/worker.py:82-180 | Such a pool has a run to its end from every state, in which no gun fails: the feeder goes on to the last killer, then the workers stop. |
| Stopping.FairRunsEnd | yandextank/plugins/Bfg/worker.py:82-180 | With a place for every task and every worker no run without a quit goes on for ever, if only some of the work is done again and again whenever there is work again and again: the pool stops by itself, in whatever order the steps come. |
| Stopping.WorkIsBounded | yandextank/plugins/Bfg/worker.py:82-180 | However long such a run is, at most 14 steps for each task, 11 for each worker and 28 more are anything but a worker looking whether there is something to do. |
| Stopping.WorkLowersEffort | yandextank/plugins/Bfg/worker.py:82-180 | No step makes more work, and every step that is work leaves less of it. |
| Stopping.IdleSeesWork | yandextank/plugins/Bfg/worker.py:144-180 | Whenever a worker looks around, there is work before or after the look. |
| Stopping.OnlyTheEndIsStuck | yandextank/plugins/Bfg/worker.py:112-180 | As long as the pool has not stopped, or the feeder has not noticed, some step other than a quit can be taken. |
| Bfg.StarvedForever | yandextank/plugins/Bfg/worker.py:103-115 | With fewer killers than active workers and nobody to post more, no run without a quit ends the pool. |
| Bfg.StarvationHappens | yandextank/plugins/Bfg/worker.py:103-110 | With more tasks and workers than places the state is reachable with the whole plan fed and the queue full: five attempts in a row to post the killers time out, and the rest of them is dropped for good. |
| Bfg.PoolCanJam | yandextank/plugins/Bfg/worker.py:82-110 | There is a run in which the last tasks and the first killers fill the queue while a killer is still to be posted. |
| Bfg.GivesUp | yandextank/plugins/Bfg/worker.py:103-110 | From a full queue that nobody empties the feeder gives up the killers, whichever attempt and whichever killer it is at. |
| LoadPlan.MomentSolves | yandextank/stepper/load_plan.py:64-73 | For every shot below the length, the moment lies inside the line and the integral of the rate up to it is the number of the shot. |
| LoadPlan.DiscriminantBetween | yandextank/stepper/util.py:52-60 | The discriminant lies between the squares of the two rates, so the square root always exists. |
| LoadPlan.RootBetween | yandextank/stepper/util.py:52-60 | Its root lies between the two rates, rising or falling. |
| LoadPlan.RootOfSquare | yandextank/stepper/util.py:52-60 | The second root of the quadratic solves the equation. |
| LoadPlan.SlopedMoment | yandextank/stepper/load_plan.py:64-73 | The case of a slope: the root of the quadratic is inside the line and on the right branch. |
| LoadPlan.FlatMoment | yandextank/stepper/load_plan.py:69-73 | The case without a slope: the division by the rate. |
| LoadPlan.WithinIntegral | yandextank/stepper/load_plan.py:93-95 | Every shot below the length is due one whole shot before the end, and one of the rates is positive. |
| LoadPlan.BeforeIffDue | yandextank/stepper/load_plan.py:64-80 | A shot falls before a moment if and only if more shots than its number are due by then. |
| Schedule.LineShotBefore | yandextank/stepper/load_plan.py:64-80 | The same for whole milliseconds after truncation. |
| Schedule.LineFits | yandextank/stepper/load_plan.py:75-95 | The timestamps of a line are non-decreasing and inside [0, duration). |
| Schedule.LineCountIsDue | yandextank/stepper/load_plan.py:64-95 | The number of shots before any whole millisecond is the least of the length and the integral of the rate, rounded up. |
| Schedule.ConstShotBefore | yandextank/stepper/load_plan.py:21-25 | A shot of a constant plan falls before a millisecond if and only if the rate makes more shots due by then. |
| Schedule.ConstFits | yandextank/stepper/load_plan.py:21-25 | The timestamps of a constant plan are non-decreasing and inside [0, duration). |
| Schedule.ConstCountIsDue | yandextank/stepper/load_plan.py:21-40 | The number of shots of a constant plan before any millisecond is the rate times the time, rounded up, within its length. |
| Schedule.ScheduleFits | yandextank/stepper/load_plan.py:119-138 | Any nesting of plans yields exactly its length, in order over the whole schedule, every shot before the end of the total duration. |
| Schedule.StepsFit | yandextank/stepper/load_plan.py:125-138 | The same for a list of steps shifted by the durations before them. |
| Schedule.CountIsDue | yandextank/stepper/load_plan.py:119-138 | At every millisecond of any schedule the shots already fired are exactly those due: the finished steps in full, the current one by its integral. |
| Schedule.CountFollowsRate | yandextank/stepper/load_plan.py:119-138 | At any millisecond of any schedule the number of shots already fired is the integral of the rates of its constant and linear parts up to there, each from the end of the one before: less than one shot too many, at most one too few for each part. |
| Schedule.OnlyLeavesMatter | yandextank/stepper/load_plan.py:119-138 | Nesting makes no difference: a schedule shoots like the row of its constant and linear parts. |
| Schedule.LeafShoots | yandextank/stepper/load_plan.py:125-130 | The shots of part i are those it has by itself, moved by the durations of the parts before it: all inside its own time, all earlier parts before it and all later ones after it. |
| Schedule.ConstShots | yandextank/stepper/load_plan.py:21-40 | A constant part has as many shots as its rate times its duration, rounded down, and shot j comes after j intervals. |
| Schedule.LineShots | yandextank/stepper/load_plan.py:64-95 | A line has as many shots as its mean rate times its duration, rounded down, and shot j comes at the moment at which the integral of the rate is j. |
| Schedule.TwoConstants | yandextank/stepper/load_plan.py:125-130 | Two constants in a row: every timestamp in closed form; the second shoots at its own pace from the end of the first. |
| Schedule.StepsCountIsDue | yandextank/stepper/load_plan.py:125-138 | The same for a list of steps. |
| Schedule.Iterate | yandextank/stepper/load_plan.py:125-130 | The iterators, with the running base of the composite, produce those timestamps, of which the laws above hold. |
| Schedule.Stairway | yandextank/stepper/load_plan.py:144-157 | Builds equal constant steps from exactly the first rate to exactly the last, one increment apart but for a smaller last gap; an increment of zero is the only failure. |
| Schedule.StairwayIsStrict | yandextank/stepper/load_plan.py:150-156 | The rates of a stairway go strictly one way. |
| Schedule.StairwayIsBuildable | yandextank/stepper/load_plan.py:149-157 | A stairway is a schedule like any other, and its number of steps is determined by the rates and the increment. |
| Schedule.StairwayShoots | yandextank/stepper/load_plan.py:144-157 | Step i of a stairway shoots from i to i + 1 step durations after the start, one interval of its own rate apart, as often as it has time for. |
| Steps.RoundIsClosest | yandextank/stepper/util.py:67-73 | The rounded value is the nearest integer, ties going away from zero. |
| Steps.RoundIsMonotone | yandextank/stepper/util.py:67-73 | Rounding keeps order. |
| Steps.ExpandRuns | yandextank/stepper/load_plan.py:113-116 | Expanding the grouped list gives the list back, and neighbouring runs differ. |
| Steps.RunsAreUnique | yandextank/stepper/load_plan.py:113-116 | No other maximal runs expand to the list. |
| Steps.MonotoneRuns | yandextank/stepper/load_plan.py:113-116 | In a monotone list each value occurs in a single run. |
| Steps.LineSteps | yandextank/stepper/load_plan.py:107-116 | The step list of a line, expanded, is its rounded rate at each whole second up to and including the end, and each value occurs in only one run. |
| Steps.MergeStreams | yandextank/plugins/Phantom/utils.py:168-203 | Merging the steps of any streams gives the sum over the streams in every second, one entry a second, as long as the longest plan; it fails exactly when there is no ammo at all. |
| Steps.AddStream | yandextank/plugins/Phantom/utils.py:169-177 | Adding one stream changes each second by its rate in that second and extends the list where it is longer. |
| Steps.LongestIsMaximum | yandextank/plugins/Phantom/utils.py:168-177 | The length is that of some stream and no stream is longer. |
| Steps.ReadStats | yandextank/plugins/Bfg/reader.py:70-84 | A statistics item is yielded exactly when the clock shows a second later than all before, with the planned rate of that second or 0. |
| Steps.SamplesIncrease | yandextank/plugins/Bfg/reader.py:70-84 | Whatever the clock does, the yielded seconds are strictly increasing. |
| Steps.SampleMeans | yandextank/plugins/Bfg/reader.py:70-84 | In so many words: a sample at a second after 0 and after all shown before, with the planned rate of as many seconds after the start, or 0 outside of the plan. |
| InstancePlan.LoadPlanBuilder.AddAll | yandextank/stepper/instance_plan.py:146-149 | After any sequence of calls, up to the first that fails, the plan is exactly what the calls come to one after another, and names one start time for each instance, in order and within the duration. |
| InstancePlan.LoadPlanBuilder.Start | yandextank/stepper/instance_plan.py:19-25 | All new instances start at the current duration, the old ones stay; a negative number is refused and changes nothing. |
| InstancePlan.LoadPlanBuilder.Wait | yandextank/stepper/instance_plan.py:27-31 | Moves the duration on and records the step. |
| InstancePlan.LoadPlanBuilder.Ramp | yandextank/stepper/instance_plan.py:33-43 | The new starts are even: the first at the old duration, the last at the new one, each between at its share of the time cut to milliseconds; a step is listed for each with the interval in whole seconds. Refused for a negative number; a ramp of one instance divides by zero and changes nothing. |
| InstancePlan.LoadPlanBuilder.Apply | yandextank/stepper/instance_plan.py:131-144 | Each kind of call ends as its arguments and the state say, and leaves exactly the plan, steps and duration it should. |
| InstancePlan.CallsReachTheirNumber | yandextank/stepper/instance_plan.py:45-64 | Constants, lines and stairways end with the number of instances they name; no accepted call changes earlier start times. |
| InstancePlan.RampIsEven | yandextank/stepper/instance_plan.py:38-40 | A ramp starts its first instance at once, its last at the very end, and neighbours one interval apart but for rounding. |
| InstancePlan.LoadPlanBuilder.Const | yandextank/stepper/instance_plan.py:45-48 | Ends with the given number of instances, the new ones started at the old duration, one step listed; refused exactly when more are running. |
| InstancePlan.LoadPlanBuilder.Line | yandextank/stepper/instance_plan.py:50-53 | Ends with the final number of instances: all but one of the initial ones start at the old duration and the rest evenly from there to the new one. Refused exactly for too few or descending numbers, and divides by zero for a line to its own start. |
| InstancePlan.LoadPlanBuilder.Stairway | yandextank/stepper/instance_plan.py:55-64 | Ends with the final number of instances: the initial ones start at the old duration, and of the others each starts after as many step durations as there are steps up to it; as many steps are listed and one more, and the duration grows by just these. |
| InstancePlan.StairwayPromise | yandextank/stepper/instance_plan.py:55-64 | What that means for the plan, the list of steps and the duration. |
| InstancePlan.RampPromise | yandextank/stepper/instance_plan.py:33-43 | What a ramp means for the plan and the list of steps. |
| InstancePlan.LoadPlanBuilder.ClimbSteps | yandextank/stepper/instance_plan.py:59-60 | The loop over whole steps. |
| InstancePlan.LoadPlanBuilder.LastStep | yandextank/stepper/instance_plan.py:61-63 | The remaining instances, if any, and the final wait. |
| InstancePlan.StairTail | yandextank/stepper/instance_plan.py:56-63 | Whole steps and tail together are the complete climb. |
| InstancePlan.LoadPlanBuilder.Take | yandextank/stepper/instance_plan.py:151-153 | The created plan is the generators one after the other, then zeros for ever. |
| Stpd.RoundTrip | yandextank/stepper/format.py:18-60 | Reading what was written gives back the tasks, whatever bytes the missiles hold, newlines and empty missiles included, and whatever text without whitespace the markers are. |
| Stpd.RoundTripIff | yandextank/stepper/format.py:18-60 | Exactly the tasks whose markers are UTF-8 text without whitespace come back. |
| Stpd.MarkersRead | yandextank/stepper/format.py:31-54 | No file at all makes the reader yield another kind of marker. |
| Stpd.OneEntry | yandextank/stepper/format.py:18-60 | One entry byte by byte, written and read. |
| Stpd.NumbersRead | yandextank/stepper/format.py:46-47 | Numbers as `int` and `str` have them: signs, single underscores between digits, nothing else. |
| Stpd.NegativeSize | yandextank/stepper/format.py:49 | A missile of negative size is the rest of the file. |
| Stpd.CarriageReturnIsBlank | yandextank/stepper/format.py:32-39 | A line of a carriage return is blank, too. |
| Words.EncodedIsChar | yandextank/stepper/format.py:35 | What the standard encodes is a character of as many bytes. |
| Words.CharIsEncoded | yandextank/stepper/format.py:35 | Every character that decodes is the encoding of a scalar value. |
| Words.SpacesAreSpaces | yandextank/stepper/format.py:45 | The whitespace at which text is split, by its code points. |
| Words.RawSpaces | yandextank/stepper/missile.py:118-119 | The whitespace at which bytes are split. |
| Words.SplitIntoWords | yandextank/stepper/format.py:45 | Splitting a text at Unicode whitespace cuts no character in two. |
| Words.PlainBeginning | yandextank/stepper/format.py:35 | A beginning of a marker that still decodes is text without whitespace. |
| Stpd.TruncationSafeIff | yandextank/stepper/format.py:31-60 | For any tasks at all, reading every prefix of the written file yields a prefix of the tasks, then stops or fails, if and only if the tasks are safe: up to the first task whose header is no text and stops the reader, if there is one, each has a marker that keeps, and a missile, or neither missile nor marker and a one-digit timestamp. |
| Stpd.RobustIsSafe | yandextank/stepper/format.py:31-60 | The safe direction, cut by cut. |
| Stpd.NothingPastAStop | yandextank/stepper/format.py:31-60 | Nothing is read from a file that opens with a task at which the reader stops, wherever it is cut. |
| Stpd.SomeTask | yandextank/stepper/format.py:31-60 | A header whose first line is text gives some task, whatever bytes its marker has. |
| Stpd.FragileIsUnsafe | yandextank/stepper/format.py:31-60 | For any tasks outside the condition there is a cut at which the reader yields a wrong task. |
| Stpd.StpdReader.Iterate | yandextank/stepper/format.py:44-60 | The loop over the moving cursor yields exactly what the format says, and ends or raises in the same cases: StpdFileError, or UnicodeDecodeError for a header that is no text. |
| Stpd.StpdReader.ReadChunkHeader | yandextank/stepper/format.py:32-39 | Blank lines are skipped; the header is the next line that is not blank, and it is refused exactly when it does not decode. |
| Stpd.ParseOfStr | yandextank/stepper/format.py:20-48 | Numbers survive printing and parsing. |
| Stpd.HeaderFields | yandextank/stepper/format.py:20-49 | A printed header decodes and parses into its fields. |
| StepperLoop.AmmoGenerator.NextOfFile | yandextank/stepper/missile.py:110-150 | Between two yields the ammo file reader gives the next shot of the file, or starts the file over and counts a loop, or ends at the loop limit, or raises at the unreadable place; zero-sized chunks restart the file. |
| StepperLoop.AmmoGenerator.NextUri | yandextank/stepper/missile.py:74-82 | The uri generator cycles through its uris with the same loop accounting. |
| StepperLoop.ScanOfFile | yandextank/stepper/missile.py:100-136 | A pass over a well-formed ammo file gives its missiles and markers. |
| StepperLoop.Write | yandextank/stepper/main.py:63-89 | The missiles written are the timestamps of the plan zipped with the shots of the source repeated over and over; their number and the way the run ends are determined by plan, file and limits, and it always ends. |
| StepperLoop.WrittenMeans | yandextank/stepper/main.py:49-51 | In so many words: entry i has the i-th timestamp of an rps schedule, or the start of instance i and 0 when all have started, and shot i of the source over and over. |
| StepperLoop.CheckSecondLoop | yandextank/stepper/main.py:71-88 | The check at the first missile of the second loop: the error without limits, the limit set by hand, the assertion. |
| StepperLoop.WriteUnlimited | yandextank/stepper/main.py:77-88 | What that check finds for every setting. |
| StepperLoop.WriteStops | yandextank/stepper/info.py:61-71 | The ammo limit ends the run with one missile more than the limit, and the limit set by hand is never reached. |
| StepperLoop.SourceEnds | yandextank/stepper/missile.py:142-148 | The source ends after exactly the allowed loops. |
| StepperLoop.Configure | yandextank/stepper/config.py:38-52 | The normalisation of the loop and ammo limits in the shared status. |
| StepperLoop.WritesTheLeast | yandextank/stepper/main.py:63-89 | For default or positive limits the number written is the least of the plan length, loops times the file, and ammo limit plus one. |
| StepperLoop.NoLimitIff | yandextank/stepper/main.py:81-86 | "Ammo limit should be specified" is raised if and only if an instances plan meets an ammo limit of 0 and no loop limit. |
| StepperLoop.DividesIff | yandextank/stepper/info.py:61-71 | The progress divides by zero if and only if an rps schedule with shots meets an ammo limit of 0 and a source with shots, unless uris with a loop limit set another limit. |
| StepperLoop.AssertionFailsIff | yandextank/stepper/main.py:87-88 | The assertion fails if and only if an instances plan meets a loop limit of 0 and no real ammo limit. |
| StepperLoop.UrisOverrideAmmoLimit | yandextank/stepper/config.py:51-52 | With uris and a loop limit the configured ammo limit plays no part. |
| Shooting.WriteStpd | yandextank/stepper/main.py:63-65 | End to end, for any marking: the file holds the i-th timestamp of the schedule with the i-th shot of the source, cut to the number of shots the settings allow, and a reader gets back just that if and only if the markers of those shots are text without whitespace. |
| Shooting.PlannedMeans | yandextank/stepper/main.py:49-51 | The same for the tasks of the file. |
| Shooting.WriteInstances | yandextank/stepper/main.py:63-65 | The same for an instances schedule, from its calls: the i-th timestamp in the file is the i-th entry of the created plan, the start of instance i as long as there are instances and then 0. |
| Shooting.EveryPlannedShotOnce | yandextank/plugins/Bfg/worker.py:82-117 | A pool fed from what the reader finds in a stpd file, in any interleaving that ends with all workers stopped by killers, attempted exactly the tasks of the file, each once. |
| Shooting.WriteAndShoot | yandextank/stepper/main.py:63-65 | Schedule, source, writer, file, reader and pool together: the writer ends as the settings say, and if the markers keep and all workers are stopped by killers, the attempted shots are exactly the planned pairings that the settings allow, each once. |
| Autostop.Plugin.OnAggregatedData | yandextank/plugins/Autostop/plugin.py:118-142 | The plugin latches at the first second at which some criterion fires, keeps the last criterion to fire there and its imbalance for all later data, and counts the criteria in a run of bad seconds. |
| Autostop.Plugin.NotifyAll | yandextank/plugins/Autostop/plugin.py:120-136 | One round over the criteria; a later firing criterion takes the blame from an earlier one. |
| Autostop.Plugin.IsTestFinished | yandextank/plugins/Autostop/plugin.py:100-105 | -1 exactly as long as no criterion fired at any second seen. |
| Autostop.LatchNext | yandextank/plugins/Autostop/plugin.py:118-132 | One more second keeps the latch correct. |
| Autostop.LatchedIffFired | yandextank/plugins/Autostop/plugin.py:100-132 | A cause is held if and only if some criterion fired at some second. |
| Autostop.CountingIs | yandextank/plugins/Autostop/plugin.py:118-120 | Exactly the criteria whose last second was bad are counted, in their order. |
| Autostop.BlameOf | yandextank/plugins/Autostop/plugin.py:123-132 | The published second is the cause, the published rate its planned one, or its responses if that is 0. |
| Autostop.Criterion.NotifyRun | yandextank/plugins/Autostop/criterions.py:31-48 | The count is the length of the longest suffix of bad seconds, it fires when that reaches the limit, and the cause is the first second of the run (average time, HTTP and net codes, quantiles, used instances). |
| Autostop.RunIsLongestSuffix | yandextank/plugins/Autostop/criterions.py:127-140 | The count really is the longest suffix of bad seconds. |
| Autostop.RunFiresIff | yandextank/plugins/Autostop/criterions.py:31-48 | It fires if and only if as many seconds in a row as the limit says were bad, and names the first second of the whole run. |
| Autostop.SlowSeconds | yandextank/plugins/Autostop/criterions.py:31-48 | Average time, from the single response times: a second is bad if and only if its responses together took longer than that many may; so none over the limit is not bad, all over it is, and equality is not. |
| Autostop.CodedSeconds | yandextank/plugins/Autostop/criterions.py:118-140 | Codes: the level itself is enough; a share is reached exactly at that part of all responses, so all matching is bad up to level 1 and none matching is bad only at level 0. |
| Autostop.OtherSeconds | yandextank/plugins/Autostop/criterions.py:323-345 | Quantiles and used instances: equality with the limit is not bad, and neither is a second without that quantile. |
| Autostop.WorseStaysBad | yandextank/plugins/Autostop/criterions.py:31-48 | Longer times, more matching codes, a higher quantile or more instances never take a bad second back. |
| Autostop.SomeVerdict | yandextank/plugins/Autostop/criterions.py:31-48 | Only an average of no responses and a share of no instances divide by zero. |
| Autostop.Criterion.NotifyWindow | yandextank/plugins/Autostop/cumulative_criterions.py:156-176 | The windowed criteria fire exactly when there are enough seconds and the sum or average of the last of them reaches the level; the cause is the oldest of the window; a limit of 0 raises. |
| Autostop.OthersFireIffMatchingFall | yandextank/plugins/Autostop/cumulative_criterions.py:372-398 | A percentage of other codes fires if and only if the average percentage of the matching ones is at most what the level leaves of 100, given that reported seconds have responses. |
| Autostop.CountWindowFiresIff | yandextank/plugins/Autostop/cumulative_criterions.py:156-176 | An absolute window fires if and only if so many matching responses, or other ones, came in its seconds together. |
| Autostop.PercentWindow | yandextank/plugins/Autostop/cumulative_criterions.py:156-176 | If in each second of a percentage window the matching responses are between two percentages of all, so is their average, and with that it fires or stays quiet. |
| Autostop.Criterion.NotifyTrend | yandextank/plugins/Autostop/cumulative_criterions.py:588-611 | The trend fires on the mean of the kept differences plus its error; the cause is the oldest second kept. |
| Autostop.TangentsTelescope | yandextank/plugins/Autostop/cumulative_criterions.py:588-601 | The kept differences add up to the last count less the count just before them. |
| Autostop.TrendNeedsADrop | yandextank/plugins/Autostop/cumulative_criterions.py:599-609 | The trend never stops a test whose last count is not below the one just before the kept seconds. |
| Autostop.TrendRaisesIff | yandextank/plugins/Autostop/cumulative_criterions.py:588-611 | The trend raises if and only if its limit is at most one second and the count drops; with such a limit it never fires, with a greater one it never raises. |
| Autostop.TrendDecision | yandextank/plugins/Autostop/cumulative_criterions.py:588-611 | What the trend decides by its counts alone: the mean rise over the differences kept and their error, how many are kept, and which second is the cause. |
| Autostop.ErrorIsDeviation | yandextank/plugins/Autostop/cumulative_criterions.py:625-645 | The measurement error by the other formula of the variance: the sum of the squares less the square of the sum over the number. |
| Autostop.WindowCounter.Push | yandextank/plugins/Autostop/cumulative_criterions.py:16-29 | The running value is the sum of the last pushes. |
| Luna.RegisterWorker.Drain | yandextank/contrib/netort/netort/data_manager/clients/luna.py:312-316 | The drain loop ends for any acyclic parents, and has then registered exactly what was queued and all its ancestors, each once, after its parent and under the parent's public id. |
| Luna.RegisterWorker.ProcessPendingQueue | yandextank/contrib/netort/netort/data_manager/clients/luna.py:318-345 | One turn sleeps on an empty queue, or takes the first entry and registers it, drops it, or puts its parent and itself back; a registration that fails ends the thread with that entry gone. The registered set stays closed under parents in every case. |
| Luna.RegisterWorker.Register | yandextank/contrib/netort/netort/data_manager/clients/luna.py:304-307 | A key that is present keeps its place; any registration between two turns keeps the invariant. |
| Luna.TurnMakesProgress | yandextank/contrib/netort/netort/data_manager/clients/luna.py:318-340 | Every turn lowers a lexicographic measure: unregistered, not queued, queue length, distance to the next productive entry. |
| Luna.TurnKeepsNeeded | yandextank/contrib/netort/netort/data_manager/clients/luna.py:318-340 | The closure of what is done and what is asked for never changes. |
| Luna.TurnMeans | yandextank/contrib/netort/netort/data_manager/clients/luna.py:318-340 | One turn in so many words: the first entry leaves, is registered unless it is already or waits for its parent, and then goes to the end behind its parent, which keeps its place if it has one. |
| Luna.SomeProductive | yandextank/contrib/netort/netort/data_manager/clients/luna.py:323-333 | Without a cycle a non-empty queue always holds an entry whose turn makes progress. |
| Luna.CreatedIsAcyclic | yandextank/contrib/netort/netort/data_manager/manager.py:217-233 | Metrics get their parent when they are created and never again, so the parents of all that can be created are acyclic. |
| Luna.DrainCreated | yandextank/contrib/netort/netort/data_manager/clients/luna.py:312-340 | For any metrics that can be created and any queue of them the drain ends, and has registered the least set that holds them and their parents, each once, after its parent and under its public id. |
| Luna.DrainsIffNotEntangled | yandextank/contrib/netort/netort/data_manager/clients/luna.py:318-340 | For any parents at all, cyclic or not, a queue is empty after some number of turns if and only if no queued metric belongs to a set of unregistered metrics that wait for each other. |
| Luna.KnotNeverDrains | yandextank/contrib/netort/netort/data_manager/clients/luna.py:324-331 | With a metric of such a set queued, no number of turns empties the queue. |
| Router.MetricsRouter.Run | yandextank/contrib/netort/netort/data_manager/router.py:40-50 | A message is left for the last route if and only if one came after the close or the arrivals outran the loop, which takes one a turn; exactly then, or if there was nothing to leave, every aggregated row taken from the queue leaves. What is taken is a prefix of what came, and how much an interrupt leaves behind is determined by the backlog and the turns it allows. |
| Router.MetricsRouter.DrainQueue | yandextank/contrib/netort/netort/data_manager/router.py:45-46 | The loop after the close takes messages in order down to one, or until it is interrupted. |
| Router.MetricsRouter.Route | yandextank/contrib/netort/netort/data_manager/router.py:75-88 | One message moves through the buffer of its own metric only. |
| Router.MetricsRouter.RouteLast | yandextank/contrib/netort/netort/data_manager/router.py:75-95 | The last route takes one message and flushes every buffer if there is a message, and leaves all of them behind if there is none; further messages, as an interrupt leaves them, stay in the queue. |
| Router.MetricsRouter.FlushBuffers | yandextank/contrib/netort/netort/data_manager/router.py:90-95 | Each buffered metric leaves once. |
| Router.HoldSettles | yandextank/contrib/netort/netort/data_manager/router.py:52-67 | Second by second, rows received are rows that left followed by rows held, and exactly the newest seconds are held. |
| Router.UnsplitIffTimely | yandextank/contrib/netort/netort/data_manager/router.py:57-65 | Every second of a metric leaves in one piece if and only if no row comes for a second already seen that is more than the buffer size older than the newest. |
| Router.FlushedIsWhole | yandextank/contrib/netort/netort/data_manager/router.py:57-67 | The same with the final flush, which brings out every row. |
| Router.LostWithoutMessage | yandextank/contrib/netort/netort/data_manager/router.py:76-80 | Without a last message what is held never leaves. |
| Lines.FileScanner.ReadAll | yandextank/common/util.py:628-633 | However a text is cut into reads, the lines are those of splitting the whole text once, for any separator. |
| Lines.FileScanner.ReadLines | yandextank/common/util.py:628-633 | One read adds the lines it completes, and the buffer is what follows the last separator. |
| Lines.SplitExtended | yandextank/common/util.py:628-633 | Splitting in two goes: only what followed the last separator has to be looked at again. |
| Lines.JoinOfSplit | yandextank/common/util.py:630 | Joining the portions gives the text back. |
| Lines.RestIsUnfinished | yandextank/common/util.py:633 | No separator is left in the buffer. |
| Lines.PhantomReader.Next | yandextank/plugins/Phantom/reader.py:103-115 | Chunks and buffer together are the text read, every chunk ends a line, and the buffer holds no newline. |
| Lines.PhantomReader.ReadAll | yandextank/plugins/Phantom/reader.py:103-115 | The chunks together are the text up to its last newline, however it is cut into reads. |
| Lines.SameLines | yandextank/plugins/Phantom/reader.py:103-115 | Over the same text, cut into reads in any two ways, the chunks of the phantom reader, split at newlines, are exactly the lines of the statistics reader. |
| Lines.FinishedLines | yandextank/plugins/Phantom/reader.py:103-115 | An unfinished last line changes none of the finished ones. |

## Left out

- Network and process code: uploaders, HTTP calls, SSH, agents, gun processes, JMeter and Pandora. It is input and
  output around libraries.
- Console, reports, configuration merging, schema validation, schedule and criterion strings and their regular
  expressions: wide and shallow. `start(n)` in an instances schedule never gets past its parser, which converts a tuple
  of groups to a number.
- pandas, numpy: quantiles and histograms. A frame is a sequence of rows.
- Float rounding, wall-clock time, sleeps and timeouts.
- `BFGGreen`, whose killer sets the quit flag for all and so gives no guarantee about the tasks left, and interrupts by
  signal in the feeder and the workers.
- What Luna does after a registration has failed, and the clearing of its queue when it is interrupted.
- Data types that are not aggregated, and missing callbacks, in the router: they pass through without the buffer.
- `TotalFracTimeCriterion` but for its window counters, the time limit and steady criteria, and tags of criteria;
  which codes match and which quantile a second has are parameters of a criterion.
- Chosen cases, and markers that depend on what was marked before (`enum_ammo`, `uniq`): a marker is a function of the
  shot. The other file readers (uri, line, access log) and the disk space check.
- An ammo file that opens with a zero-sized chunk and no loop limit: the reader loops for ever, so the writer's
  contract does not cover it.
- Chopper.TimeChopper.Iterate: chunks are never empty, as the code reads the last index of each; grouping needs
  timestamps that are not negative, since watermarks start at 0.
- Stpd.StpdReader.Iterate: the numbers of a header are written in ASCII digits; `int` takes those of other scripts, too.
- StepperLoop.ScanOfFile: missiles are not empty, as a size of 0 restarts the file.
- Steps.MergeStreams: merges steps and ammo counts; instances, durations, schemes and loop counts of the merged
  information are not modelled. Step rates are integers.
- InstancePlan.LoadPlanBuilder.Stairway: step sizes are not negative, as the schedule syntax has them.
- Schedule.Stairway: rates and increment are not negative, as the schedule syntax has them.
- Lines.FileScanner.ReadLines: every line of a read is taken before the next read, as the statistics readers do.
