/** From a schedule and an ammo source to the shots of the pool: `Stepper.write` fills the stpd file, `StpdReader` reads
    it back, and the feeder and the workers of the BFG shoot what was read. */
module Shooting {
  import opened Common
  import LoadPlan
  import InstancePlan
  import Schedule
  import StepperLoop
  import Stpd
  import Bfg

  /** A marker of the file, or the one the configured marker makes of the missile. */
  type Marking = StepperLoop.Shot -> Bytes

  /** The tasks that are due: the i-th timestamp of the schedule with the i-th shot of the source, taken over and
      over. */
  ghost function Planned(timestamps: seq<int>, source: StepperLoop.Pass, mark: Marking, count: nat): seq<Task>
    requires count <= |timestamps| && (count > 0 ==> source.shots != [])
  {
    seq(count, i requires 0 <= i < count =>
      var shot := StepperLoop.ShotAt(source, i);
      Task(timestamps[i], shot.missile, mark(shot)))
  }

  /** Every shot that is written has a marker that a reader gives back. */
  ghost predicate MarkersKeep(source: StepperLoop.Pass, mark: Marking, count: nat)
    requires count > 0 ==> source.shots != []
  {
    forall i | 0 <= i < count :: Stpd.IsMarker(mark(StepperLoop.ShotAt(source, i)))
  }

  function Formatted(entries: seq<StepperLoop.Entry>, mark: Marking): seq<Task> {
    seq(|entries|, i requires 0 <= i < |entries| =>
      Task(entries[i].timestamp, entries[i].shot.missile, mark(entries[i].shot)))
  }

  /** Writes the stpd file of an rps schedule: the plan, cut to the number of shots that the settings allow. A reader
      gets back just that exactly when the markers keep. */
  method WriteStpd(p: LoadPlan.Plan, sqrt: LoadPlan.Sqrt, loop: int, ammo: int, uris: seq<StepperLoop.Shot>,
                   file: Bytes, mark: Marking)
    returns (stpd: Bytes, outcome: StepperLoop.Outcome)
    requires Schedule.Buildable(p) && LoadPlan.IsSqrt(sqrt)
    requires uris == [] && StepperLoop.Scan(file) == StepperLoop.Pass([], StepperLoop.ZeroChunk) ==>
             loop != -1 && loop != 0
    ensures var timestamps := Schedule.Timestamps(p, sqrt);
            var source := if uris != [] then StepperLoop.Pass(uris, StepperLoop.EndOfFile) else StepperLoop.Scan(file);
            var run := StepperLoop.Run(StepperLoop.Rps(timestamps), source, loop, ammo, |uris|);
            && outcome == run.outcome
            && run.count <= Schedule.Length(p) == |timestamps| && (run.count > 0 ==> source.shots != [])
            && stpd == Stpd.Written(Planned(timestamps, source, mark, run.count))
            && (Stpd.ReadAll(stpd) == Stpd.Reading(Planned(timestamps, source, mark, run.count), Stpd.Complete) <==>
                MarkersKeep(source, mark, run.count))
  {
    hide *;
    Schedule.ScheduleFits(p, sqrt);
    var timestamps := Schedule.Iterate(p, sqrt);
    var plan := StepperLoop.Rps(timestamps);
    var generator := new StepperLoop.AmmoGenerator(uris, file);
    var status := StepperLoop.Configure(loop, ammo, plan, uris);
    ItSettles(generator, loop, ammo, plan, status.loopLimit);
    PlanLengthOf(timestamps);
    var written;
    written, outcome := StepperLoop.Write(plan, generator, status);
    stpd := Stpd.Written(Formatted(written, mark));
    SourceOf(generator);
    RunIs(plan, generator.Source(), loop, ammo, |uris|);
    WrittenAsPlanned(written, timestamps, generator.Source(), mark);
    MarkersOfPlanned(timestamps, generator.Source(), mark, |written|);
    Stpd.RoundTripIff(Formatted(written, mark));
  }

  /** The file in so many words. */
  lemma PlannedMeans(timestamps: seq<int>, source: StepperLoop.Pass, mark: Marking, count: nat)
    requires count <= |timestamps| && (count > 0 ==> source.shots != [])
    ensures var tasks := Planned(timestamps, source, mark, count);
            |tasks| == count && forall i | 0 <= i < count ::
              var shot := source.shots[i % |source.shots|];
              tasks[i].timestamp == timestamps[i] && tasks[i].missile == shot.missile && tasks[i].marker == mark(shot)
  {
    forall i | 0 <= i < count ensures StepperLoop.ShotAt(source, i) == source.shots[i % |source.shots|] {
    }
  }

  /** Writes the stpd file of an instances schedule: entry i has the start of instance i, and 0 when all instances have
      started. If a call of the schedule fails there is no file. */
  method WriteInstances(calls: seq<InstancePlan.Call>, loop: int, ammo: int, uris: seq<StepperLoop.Shot>, file: Bytes,
                        mark: Marking)
    returns (called: InstancePlan.Outcome, planned: seq<int>, stpd: Bytes, outcome: StepperLoop.Outcome)
    requires uris == [] && StepperLoop.Scan(file) == StepperLoop.Pass([], StepperLoop.ZeroChunk) ==>
             loop != 0 && (loop == -1 ==> ammo == -1)
    ensures called == InstancePlan.EndsAll(InstancePlan.Built([], [], 0), calls)
    ensures called == InstancePlan.Done ==>
      var starts := InstancePlan.ThenAll(InstancePlan.Built([], [], 0), calls).starts;
      var source := if uris != [] then StepperLoop.Pass(uris, StepperLoop.EndOfFile) else StepperLoop.Scan(file);
      var run := StepperLoop.Run(StepperLoop.Instances(starts), source, loop, ammo, |uris|);
      && outcome == run.outcome && |planned| == run.count && (run.count > 0 ==> source.shots != [])
      && (forall i | 0 <= i < run.count :: planned[i] == if i < |starts| then starts[i] else 0)
      && stpd == Stpd.Written(Planned(planned, source, mark, run.count))
      && (Stpd.ReadAll(stpd) == Stpd.Reading(Planned(planned, source, mark, run.count), Stpd.Complete) <==>
          MarkersKeep(source, mark, run.count))
  {
    hide *;
    planned, stpd, outcome := [], [], StepperLoop.Finished;
    var builder := new InstancePlan.LoadPlanBuilder();
    called := builder.AddAll(calls);
    if called != InstancePlan.Done {
      return;
    }
    StartsOf(builder);
    var plan := StepperLoop.Instances(Flatten(builder.generators));
    var generator := new StepperLoop.AmmoGenerator(uris, file);
    var status := StepperLoop.Configure(loop, ammo, plan, uris);
    InstancesSettle(generator, loop, ammo, plan, status.loopLimit);
    InstancesAreEndless(plan);
    var written;
    written, outcome := StepperLoop.Write(plan, generator, status);
    StartsOf(builder);
    planned := builder.Take(|written|);
    stpd := Stpd.Written(Formatted(written, mark));
    SourceOf(generator);
    RunIs(plan, generator.Source(), loop, ammo, |uris|);
    StepperLoop.WrittenMeans(written, plan, generator.Source());
    SameTimes(written, planned, plan);
    FormattedAsPlanned(written, planned, generator.Source(), mark);
    MarkersOfPlanned(planned, generator.Source(), mark, |written|);
    Stpd.RoundTripIff(Formatted(written, mark));
  }

  lemma StartsOf(builder: InstancePlan.LoadPlanBuilder)
    requires builder.Valid()
    ensures Flatten(builder.generators) == builder.Plan() == builder.Now().starts
    ensures builder.instances == |builder.Plan()|
  {
  }

  lemma InstancesAreEndless(plan: StepperLoop.Plan)
    requires plan.Instances?
    ensures StepperLoop.PlanLength(plan) == None
  {
  }

  lemma InstancesSettle(generator: StepperLoop.AmmoGenerator, loop: int, ammo: int, plan: StepperLoop.Plan,
                        limit: Option<int>)
    requires plan.Instances? && limit == StepperLoop.Normalised(loop, ammo, false, |generator.uris|).loops
    requires generator.uris == [] && StepperLoop.Scan(generator.file) == StepperLoop.Pass([], StepperLoop.ZeroChunk) ==>
             loop != 0 && (loop == -1 ==> ammo == -1)
    ensures generator.Settles(limit)
  {
    hide StepperLoop.Scan;
  }

  lemma SameTimes(written: seq<StepperLoop.Entry>, planned: seq<int>, plan: StepperLoop.Plan)
    requires plan.Instances? && |planned| == |written|
    requires forall i | 0 <= i < |written| ::
               written[i].timestamp == if i < |plan.starts| then plan.starts[i] else 0
    requires forall i | 0 <= i < |written| :: planned[i] == if i < |plan.starts| then plan.starts[i] else 0
    ensures forall i | 0 <= i < |written| :: written[i].timestamp == planned[i]
  {
  }

  lemma FormattedAsPlanned(written: seq<StepperLoop.Entry>, planned: seq<int>, source: StepperLoop.Pass, mark: Marking)
    requires |planned| == |written| && forall i | 0 <= i < |written| :: written[i].timestamp == planned[i]
    requires StepperLoop.InTurn(written, source)
    ensures |written| > 0 ==> source.shots != []
    ensures Formatted(written, mark) == Planned(planned, source, mark, |written|)
  {
    if |written| > 0 {
      assert written[|written| - 1].timestamp == planned[|written| - 1];
    }
    forall i | 0 <= i < |written| ensures StepperLoop.ShotAt(source, i) == written[i].shot {
    }
  }

  lemma MarkersOfPlanned(timestamps: seq<int>, source: StepperLoop.Pass, mark: Marking, count: nat)
    requires count <= |timestamps| && (count > 0 ==> source.shots != [])
    ensures MarkersKeep(source, mark, count) <==>
            forall t | t in Planned(timestamps, source, mark, count) :: Stpd.IsMarker(t.marker)
  {
    hide Stpd.IsMarker, StepperLoop.ShotAt;
    var tasks := Planned(timestamps, source, mark, count);
    forall i | 0 <= i < count ensures tasks[i] in tasks && tasks[i].marker == mark(StepperLoop.ShotAt(source, i)) {
    }
  }

  lemma PlanLengthOf(timestamps: seq<int>)
    ensures StepperLoop.PlanLength(StepperLoop.Rps(timestamps)) == Some(|timestamps|)
  {
  }

  lemma SourceOf(generator: StepperLoop.AmmoGenerator)
    ensures generator.Source() == if generator.uris != [] then StepperLoop.Pass(generator.uris, StepperLoop.EndOfFile)
                                  else StepperLoop.Scan(generator.file)
  {
  }

  lemma RunIs(plan: StepperLoop.Plan, source: StepperLoop.Pass, loop: int, ammo: int, uris: nat)
    ensures var limits := StepperLoop.Normalised(loop, ammo, plan.Rps?, uris);
            StepperLoop.Run(plan, source, loop, ammo, uris)
            == StepperLoop.Expected(plan, source, limits.loops, limits.ammo)
  {
  }

  lemma ItSettles(generator: StepperLoop.AmmoGenerator, loop: int, ammo: int, plan: StepperLoop.Plan,
                  limit: Option<int>)
    requires limit == StepperLoop.Normalised(loop, ammo, plan.Rps?, |generator.uris|).loops
    requires generator.uris == [] && StepperLoop.Scan(generator.file) == StepperLoop.Pass([], StepperLoop.ZeroChunk) ==>
             loop != -1 && loop != 0
    ensures generator.Settles(limit)
  {
    hide StepperLoop.Scan;
  }

  lemma WrittenAsPlanned(written: seq<StepperLoop.Entry>, timestamps: seq<int>, source: StepperLoop.Pass, mark: Marking)
    requires StepperLoop.WrittenFrom(written, StepperLoop.Rps(timestamps), source)
    ensures |written| <= |timestamps| && (|written| > 0 ==> source.shots != [])
    ensures Formatted(written, mark) == Planned(timestamps, source, mark, |written|)
  {
    if |written| > 0 {
      assert written[|written| - 1] == written[|written| - 1];
    }
  }

  /** A file that reads as the plan, read by the feeder: when every worker of the pool was stopped by a killer, the
      shots attempted are exactly the planned ones, each once. */
  lemma EveryPlannedShotOnce(stpd: Bytes, timestamps: seq<int>, source: StepperLoop.Pass, mark: Marking, count: nat,
                             instances: nat, capacity: nat, s: Bfg.State)
    requires count <= |timestamps| && (count > 0 ==> source.shots != [])
    requires Stpd.ReadAll(stpd) == Stpd.Reading(Planned(timestamps, source, mark, count), Stpd.Complete)
    requires instances > 0 && Bfg.Reached(Stpd.ReadAll(stpd).tasks, instances, capacity, s)
    requires forall w | w in s.workers :: w.Killed()
    ensures multiset(s.attempted) == multiset(Planned(timestamps, source, mark, count))
    ensures |s.attempted| == count
  {
    hide Stpd.ReadAll, Bfg.Reached;
    var tasks := Stpd.ReadAll(stpd).tasks;
    Bfg.AllKilledMeansEachTaskOnce(tasks, instances, capacity, s);
    assert |multiset(s.attempted)| == |multiset(tasks)|;
  }

  /** The whole way: a schedule and an ammo source are written to a file; if the markers keep, then in any run of a
      pool on that file in which every worker is stopped by a killer, the i-th timestamp of the schedule is shot with
      the i-th shot of the source, each once. */
  method WriteAndShoot(p: LoadPlan.Plan, sqrt: LoadPlan.Sqrt, loop: int, ammo: int, uris: seq<StepperLoop.Shot>,
                       file: Bytes, mark: Marking, instances: nat, capacity: nat)
    returns (stpd: Bytes, outcome: StepperLoop.Outcome)
    requires Schedule.Buildable(p) && LoadPlan.IsSqrt(sqrt) && instances > 0
    requires uris == [] && StepperLoop.Scan(file) == StepperLoop.Pass([], StepperLoop.ZeroChunk) ==>
             loop != -1 && loop != 0
    ensures var timestamps := Schedule.Timestamps(p, sqrt);
            var source := if uris != [] then StepperLoop.Pass(uris, StepperLoop.EndOfFile) else StepperLoop.Scan(file);
            var run := StepperLoop.Run(StepperLoop.Rps(timestamps), source, loop, ammo, |uris|);
            && outcome == run.outcome
            && run.count <= |timestamps| && (run.count > 0 ==> source.shots != [])
            && (MarkersKeep(source, mark, run.count) ==>
                  forall s | Bfg.Reached(Stpd.ReadAll(stpd).tasks, instances, capacity, s) && Killed(s) ::
                    multiset(s.attempted) == multiset(Planned(timestamps, source, mark, run.count)))
  {
    hide *;
    stpd, outcome := WriteStpd(p, sqrt, loop, ammo, uris, file, mark);
    ghost var timestamps := Schedule.Timestamps(p, sqrt);
    ghost var source := if uris != [] then StepperLoop.Pass(uris, StepperLoop.EndOfFile) else StepperLoop.Scan(file);
    ghost var run := StepperLoop.Run(StepperLoop.Rps(timestamps), source, loop, ammo, |uris|);
    forall s | MarkersKeep(source, mark, run.count)
               && Bfg.Reached(Stpd.ReadAll(stpd).tasks, instances, capacity, s) && Killed(s)
      ensures multiset(s.attempted) == multiset(Planned(timestamps, source, mark, run.count))
    {
      EveryoneKilled(s);
      EveryPlannedShotOnce(stpd, timestamps, source, mark, run.count, instances, capacity, s);
    }
  }

  ghost predicate Killed(s: Bfg.State) {
    forall w | w in s.workers :: w.Killed()
  }

  lemma EveryoneKilled(s: Bfg.State)
    requires Killed(s)
    ensures forall w | w in s.workers :: w.Killed()
  {
  }
}
