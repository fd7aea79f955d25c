/** Which missiles are written: the looping ammo sources of yandextank/stepper/missile.py, the counters and limits of
    info.py and config.py, and `Stepper.write` of main.py. */
module StepperLoop {
  import opened Common
  import opened Words
  import Stpd

  datatype Shot = Shot(missile: Bytes, marker: Option<Bytes>)

  // ----- one pass over an ammo file

  /** How a pass over the file ends: at its end, at a chunk of size zero, or at something unreadable. */
  datatype Ending = EndOfFile | ZeroChunk | Malformed

  datatype Pass = Pass(shots: seq<Shot>, ending: Ending)

  datatype Chunk = Chunk(size: int, marker: Option<Bytes>)

  /** None is the IndexError or ValueError of a bad header. */
  function ParseChunk(header: Bytes): Option<Chunk> {
    var fields := Split(header, Raw);
    if fields == [] then None
    else
      var size := Stpd.ParseInt(fields[0]);
      if size.None? then None
      else Some(Chunk(size.value, if |fields| > 1 then Some(fields[1]) else None))
  }

  function Scan(ahead: Bytes): Pass
    decreases |ahead|
  {
    var (header, body) := Stpd.ReadHeader(ahead);
    if header == [] then Pass([], EndOfFile)
    else
      var chunk := ParseChunk(header);
      if chunk.None? then Pass([], Malformed)
      else if chunk.value.size == 0 then Pass([], ZeroChunk)
      else
        var missile := Stpd.Take(body, chunk.value.size);
        if |missile| < chunk.value.size then Pass([], Malformed)
        else
          var more := Scan(body[|missile|..]);
          Pass([Shot(missile, chunk.value.marker)] + more.shots, more.ending)
  }

  lemma ScanOne(ahead: Bytes)
    ensures var (header, body) := Stpd.ReadHeader(ahead);
            if header == [] then Scan(ahead) == Pass([], EndOfFile)
            else
              var chunk := ParseChunk(header);
              if chunk.None? then Scan(ahead) == Pass([], Malformed)
              else if chunk.value.size == 0 then Scan(ahead) == Pass([], ZeroChunk)
              else
                var missile := Stpd.Take(body, chunk.value.size);
                if |missile| < chunk.value.size then Scan(ahead) == Pass([], Malformed)
                else
                  var more := Scan(body[|missile|..]);
                  Scan(ahead) == Pass([Shot(missile, chunk.value.marker)] + more.shots, more.ending)
  {
  }

  // ----- well-formed files

  /** "<size>[ <marker>]\n<missile>\n" for each missile. */
  function AmmoHeader(s: Shot): Bytes {
    Stpd.Str(|s.missile|) + if s.marker.Some? then [SPACE] + s.marker.value else []
  }

  function AmmoFile(shots: seq<Shot>): Bytes {
    if shots == [] then []
    else AmmoHeader(shots[0]) + [Stpd.LF] + (shots[0].missile + ([Stpd.LF] + AmmoFile(shots[1..])))
  }

  ghost predicate WellFormed(s: Shot) {
    s.missile != [] && (s.marker.Some? ==> IsWord(s.marker.value, Raw))
  }

  lemma AmmoHeaderFields(s: Shot)
    requires WellFormed(s)
    ensures Stpd.NoNewline(AmmoHeader(s)) && AmmoHeader(s) != []
    ensures ParseChunk(AmmoHeader(s)) == Some(Chunk(|s.missile|, s.marker))
  {
    var size := Stpd.Str(|s.missile|);
    Stpd.StrIsAscii(|s.missile|);
    Stpd.StrIsWord(|s.missile|, Raw);
    Stpd.ParseOfStr(|s.missile|);
    SplitOne(size, Raw);
    if s.marker.Some? {
      PlainHasNoSpace(s.marker.value, Raw);
      SplitOne(s.marker.value, Raw);
      SplitNext(size, s.marker.value, Raw);
    } else {
      assert AmmoHeader(s) == size;
    }
  }

  /** Reading a well-formed file gives its missiles with their markers, whatever bytes they hold. */
  lemma {:induction false} ScanOfFile(shots: seq<Shot>)
    requires forall s | s in shots :: WellFormed(s)
    ensures Scan(AmmoFile(shots)) == Pass(shots, EndOfFile)
  {
    hide Scan, AmmoHeader, ParseChunk, WellFormed;
    ScanOne(AmmoFile(shots));
    if shots != [] {
      var s, rest := shots[0], AmmoFile(shots[1..]);
      ScanOfFile(shots[1..]);
      AmmoHeaderFields(s);
      Stpd.ReadHeaderOf(AmmoHeader(s), s.missile + ([Stpd.LF] + rest));
      assert (s.missile + ([Stpd.LF] + rest))[|s.missile|..] == [Stpd.LF] + rest;
      assert Stpd.Take(s.missile + ([Stpd.LF] + rest), |s.missile|) == s.missile;
      ScanOne([Stpd.LF] + rest);
      ScanOne(rest);
      Stpd.SkipBlank(rest);
      assert shots == [s] + shots[1..];
      assert WellFormed(s) ==> s.missile != [] by { SizeIsPositive(s); }
    }
  }

  lemma SizeIsPositive(s: Shot)
    ensures WellFormed(s) ==> s.missile != []
  {
  }

  // ----- counters and limits

  /** `if self.loop_limit and value >= self.loop_limit`: neither None nor 0 limits anything. */
  predicate LoopLimitHit(limit: Option<int>, loops: int) {
    limit.Some? && limit.value != 0 && loops >= limit.value
  }

  predicate AmmoLimitHit(limit: Option<int>, ammo: int) {
    limit.Some? && limit.value != 0 && ammo > limit.value
  }

  /** `max_ammo` */
  function MaxAmmo(ammoLimit: Option<int>, lpLen: Option<nat>): Option<int> {
    if ammoLimit.Some? && lpLen.Some? then Some(Min(ammoLimit.value, lpLen.value))
    else if ammoLimit.Some? && ammoLimit.value != 0 then ammoLimit
    else if lpLen.Some? then Some(lpLen.value)
    else None
  }

  datatype Signal = Continue | Stop | DividesByZero

  class StepperStatus {
    var ammoCount: int
    var loopCount: int
    var loopLimit: Option<int>
    var ammoLimit: Option<int>
    var lpLen: Option<nat>

    constructor (loopLimit: Option<int>, ammoLimit: Option<int>, lpLen: Option<nat>)
      ensures ammoCount == 0 && loopCount == 0
      ensures this.loopLimit == loopLimit && this.ammoLimit == ammoLimit && this.lpLen == lpLen
    {
      ammoCount, loopCount := 0, 0;
      this.loopLimit, this.ammoLimit, this.lpLen := loopLimit, ammoLimit, lpLen;
    }

    /** The counter moves even when LoopCountLimit is raised. */
    method IncLoopCount() returns (limit: bool)
      modifies `loopCount
      ensures loopCount == old(loopCount) + 1 && limit == LoopLimitHit(loopLimit, loopCount)
    {
      loopCount := loopCount + 1;
      limit := LoopLimitHit(loopLimit, loopCount);
    }

    /** The progress divides by `max_ammo` before the limit is looked at. */
    method IncAmmoCount() returns (signal: Signal)
      modifies `ammoCount
      ensures ammoCount == old(ammoCount) + 1
      ensures signal == if MaxAmmo(ammoLimit, lpLen) == Some(0) then DividesByZero
                        else if AmmoLimitHit(ammoLimit, ammoCount) then Stop else Continue
    {
      ammoCount := ammoCount + 1;
      if MaxAmmo(ammoLimit, lpLen) == Some(0) {
        return DividesByZero;
      }
      signal := if AmmoLimitHit(ammoLimit, ammoCount) then Stop else Continue;
    }
  }

  // ----- the looping sources

  /** What pulling one missile gives; Fails is AmmoFileError. */
  datatype Pulled = Yielded(shot: Shot) | Exhausted | Fails

  datatype Found = Missile(shot: Shot) | ZeroSize | Unreadable

  /** What is ahead is the source from shot j on. */
  ghost predicate At(ahead: Bytes, source: Pass, j: nat) {
    j <= |source.shots| && Scan(ahead) == Pass(source.shots[j..], source.ending)
  }

  lemma AtEndOfFile(ahead: Bytes, source: Pass, j: nat)
    requires At(ahead, source, j) && Stpd.ReadHeader(ahead).0 == []
    ensures j == |source.shots| && source.ending == EndOfFile
  {
    ScanOne(ahead);
  }

  lemma AtEnding(ahead: Bytes, source: Pass, j: nat, ending: Ending)
    requires At(ahead, source, j) && Scan(ahead) == Pass([], ending)
    ensures j == |source.shots| && source.ending == ending
  {
  }

  lemma AtShot(ahead: Bytes, source: Pass, j: nat, shot: Shot, rest: Bytes)
    requires At(ahead, source, j) && Scan(ahead) == Pass([shot] + Scan(rest).shots, Scan(rest).ending)
    ensures j < |source.shots| && shot == source.shots[j] && At(rest, source, j + 1)
  {
    hide Scan;
    assert source.shots[j..][0] == shot && source.shots[j..][1..] == Scan(rest).shots;
  }

  /** A pull is at shot j of the loop it began in, or at the start of the next one; without shots it turns on. */
  ghost predicate Turned(source: Pass, before: nat, loopsBefore: int, j: nat, loops: int, limit: Option<int>) {
    if source.shots == [] then source.ending.Malformed? ==> loops == loopsBefore
    else
      || (j == before && loops == loopsBefore)
      || (j == 0 && before == |source.shots| && !source.ending.Malformed? && loops == loopsBefore + 1
          && !LoopLimitHit(limit, loops))
  }

  /** What one pull means for a source: the next shot of the loop or the first of the next loop. */
  ghost predicate Gives(source: Pass, pulled: Pulled, before: nat, loopsBefore: int, done: nat, loops: int,
                        limit: Option<int>) {
    var n := |source.shots|;
    match pulled
    case Yielded(shot) =>
      n > 0 && if before < n then done == before + 1 && loops == loopsBefore && shot == source.shots[before]
      else done == 1 && loops == loopsBefore + 1 && shot == source.shots[0]
           && !LoopLimitHit(limit, loops) && !source.ending.Malformed?
    case Exhausted =>
      before == n && !source.ending.Malformed?
      && (n > 0 ==> loops == loopsBefore + 1 && LoopLimitHit(limit, loops))
    case Fails =>
      before == n && source.ending.Malformed? && loops == loopsBefore
  }

  lemma NotTurned(source: Pass, before: nat, loops: int, limit: Option<int>)
    ensures Turned(source, before, loops, before, loops, limit)
  {
  }

  /** At the end of a loop the next one begins, unless the limit is reached. */
  lemma TurnsOver(source: Pass, before: nat, loopsBefore: int, loops: int, limit: Option<int>, done: nat)
    requires before <= |source.shots| && !source.ending.Malformed?
    requires Turned(source, before, loopsBefore, |source.shots|, loops, limit)
    ensures LoopLimitHit(limit, loops + 1) ==> Gives(source, Exhausted, before, loopsBefore, done, loops + 1, limit)
    ensures !LoopLimitHit(limit, loops + 1) ==> Turned(source, before, loopsBefore, 0, loops + 1, limit)
  {
  }

  lemma FailsAtEnd(source: Pass, before: nat, loopsBefore: int, loops: int, limit: Option<int>, done: nat)
    requires before <= |source.shots| && source.ending.Malformed?
    requires Turned(source, before, loopsBefore, |source.shots|, loops, limit)
    ensures Gives(source, Fails, before, loopsBefore, done, loops, limit)
  {
  }

  lemma EndsEmpty(source: Pass, before: nat, loopsBefore: int, loops: int, limit: Option<int>, done: nat)
    requires before <= |source.shots| && source == Pass([], EndOfFile)
    ensures Gives(source, Exhausted, before, loopsBefore, done, loops, limit)
  {
  }

  lemma YieldsNext(source: Pass, before: nat, loopsBefore: int, j: nat, loops: int, limit: Option<int>)
    requires before <= |source.shots| && j < |source.shots|
    requires Turned(source, before, loopsBefore, j, loops, limit)
    ensures Gives(source, Yielded(source.shots[j]), before, loopsBefore, j + 1, loops, limit)
  {
  }

  /** The ammo generator: it cycles through the configured uris if there are any, and reads the ammo file over and over
      otherwise. `done` counts the shots of the current loop. */
  class AmmoGenerator {
    const uris: seq<Shot>
    const file: Bytes
    var position: nat
    var rest: Bytes
    var started: bool
    ghost var done: nat

    ghost function Source(): Pass {
      if uris != [] then Pass(uris, EndOfFile) else Scan(file)
    }

    ghost predicate Valid()
      reads this
    {
      && done <= |Source().shots|
      && (uris != [] ==> position == done)
      && (uris == [] ==> At(rest, Source(), done))
      && (uris == [] ==> if started then done > 0 else done == 0 && rest == file)
    }

    constructor (uris: seq<Shot>, file: Bytes)
      ensures Valid() && this.uris == uris && this.file == file && done == 0
    {
      this.uris, this.file := uris, file;
      position, rest, started, done := 0, file, false, 0;
    }

    /** Without a shot to give and without a limit to stop it, a file that opens with a zero chunk loops for ever. */
    ghost predicate Settles(loopLimit: Option<int>) {
      Source() == Pass([], ZeroChunk) ==> loopLimit.Some? && loopLimit.value != 0
    }

    method ReadChunkHeader() returns (header: Bytes)
      modifies `rest
      ensures (header, rest) == Stpd.ReadHeader(old(rest))
    {
      var (h, r) := Stpd.ReadHeader(rest);
      header, rest := h, r;
    }

    lemma FromTheTop()
      requires uris == []
      ensures At(file, Source(), 0)
    {
    }

    /** `seek(0)`, count the loop, and read the first header again unless the limit is reached. */
    method StartOver(status: StepperStatus, ghost before: nat, ghost loopsBefore: int)
      returns (limit: bool, header: Bytes)
      requires before <= |Source().shots| && !Source().ending.Malformed?
      requires Turned(Source(), before, loopsBefore, |Source().shots|, status.loopCount, status.loopLimit)
      modifies `rest, status`loopCount
      ensures status.loopCount == old(status.loopCount) + 1
      ensures limit ==> Gives(Source(), Exhausted, before, loopsBefore, done, status.loopCount, status.loopLimit)
      ensures !limit ==> Turned(Source(), before, loopsBefore, 0, status.loopCount, status.loopLimit)
      ensures !limit ==> !LoopLimitHit(status.loopLimit, status.loopCount)
      ensures !limit ==> (header, rest) == Stpd.ReadHeader(file)
    {
      hide Turned, Gives, LoopLimitHit, Source;
      TurnsOver(Source(), before, loopsBefore, status.loopCount, status.loopLimit, done);
      rest := file;
      header := [];
      limit := status.IncLoopCount();
      if !limit {
        header := ReadChunkHeader();
      }
    }

    /** Reads the header apart, and its missile unless the size is zero. */
    method ReadMissile(header: Bytes, ghost ahead: Bytes, ghost source: Pass, ghost j: nat) returns (found: Found)
      requires header != [] && (header, rest) == Stpd.ReadHeader(ahead) && At(ahead, source, j)
      modifies `rest
      ensures match found
              case Missile(shot) => j < |source.shots| && shot == source.shots[j] && At(rest, source, j + 1)
              case ZeroSize => j == |source.shots| && source.ending == ZeroChunk
              case Unreadable => j == |source.shots| && source.ending == Malformed
    {
      ScanOne(ahead);
      hide Scan, ParseChunk, Stpd.ReadHeader, At;
      var chunk := ParseChunk(header);
      if chunk.None? {
        AtEnding(ahead, source, j, Malformed);
        return Unreadable;
      }
      if chunk.value.size == 0 {
        AtEnding(ahead, source, j, ZeroChunk);
        return ZeroSize;
      }
      var missile := Stpd.Take(rest, chunk.value.size);
      rest := rest[|missile|..];
      if |missile| < chunk.value.size {
        AtEnding(ahead, source, j, Malformed);
        return Unreadable;
      }
      found := Missile(Shot(missile, chunk.value.marker));
      AtShot(ahead, source, j, found.shot, rest);
    }

    /** `AmmoFileReader.__iter__`, from one yield to the next. */
    method NextOfFile(status: StepperStatus) returns (pulled: Pulled)
      requires Valid() && uris == [] && Settles(status.loopLimit)
      modifies this`rest, this`started, this`done, status`loopCount
      ensures pulled.Yielded? ==> Valid()
      ensures Gives(Source(), pulled, old(done), old(status.loopCount), done, status.loopCount, status.loopLimit)
    {
      hide Scan, Stpd.ReadHeader, Source, Turned, Gives, At;
      ghost var ahead, j: nat := rest, done;
      FromTheTop();
      NotTurned(Source(), done, status.loopCount, status.loopLimit);
      var header := ReadChunkHeader();
      if started && header == [] {
        AtEndOfFile(ahead, Source(), j);
        var limit;
        limit, header := StartOver(status, done, status.loopCount);
        if limit {
          return Exhausted;
        }
        ahead, j := file, 0;
      }
      started := true;
      pulled := Search(status, header, ahead, j, old(status.loopCount));
    }

    /** The loop over chunk headers, up to the next missile. */
    method Search(status: StepperStatus, firstHeader: Bytes, ghost firstAhead: Bytes, ghost first: nat,
                  ghost loopsBefore: int)
      returns (pulled: Pulled)
      requires uris == [] && started && Settles(status.loopLimit) && done <= |Source().shots|
      requires (firstHeader, rest) == Stpd.ReadHeader(firstAhead) && At(firstAhead, Source(), first)
      requires firstHeader == [] ==> first == 0
      requires Turned(Source(), done, loopsBefore, first, status.loopCount, status.loopLimit)
      modifies this`rest, this`done, status`loopCount
      ensures pulled.Yielded? ==> Valid()
      ensures Gives(Source(), pulled, old(done), loopsBefore, done, status.loopCount, status.loopLimit)
    {
      hide Scan, Stpd.ReadHeader, Source, Turned, Gives, At;
      ghost var source, ahead, j: nat := Source(), firstAhead, first;
      ghost var before, loopLimit := done, status.loopLimit;
      var header := firstHeader;
      FromTheTop();
      while header != []
        invariant (header, rest) == Stpd.ReadHeader(ahead) && At(ahead, source, j)
        invariant done == before && (header == [] ==> j == 0)
        invariant Turned(source, before, loopsBefore, j, status.loopCount, loopLimit)
        decreases if source.shots != [] then j
                  else if loopLimit.Some? then loopLimit.value - status.loopCount else 0
      {
        var found := ReadMissile(header, ahead, source, j);
        if found.Unreadable? {
          FailsAtEnd(source, before, loopsBefore, status.loopCount, loopLimit, done);
          return Fails;
        }
        if found.Missile? {
          YieldsNext(source, before, loopsBefore, j, status.loopCount, loopLimit);
          done := j + 1;
          return Yielded(found.shot);
        }
        var limit;
        limit, header := StartOver(status, before, loopsBefore);
        if limit {
          return Exhausted;
        }
        ahead, j := file, 0;
      }
      AtEndOfFile(ahead, source, j);
      EndsEmpty(source, before, loopsBefore, status.loopCount, loopLimit, done);
      pulled := Exhausted;
    }

    /** `UriStyleGenerator.__iter__`: the uris, then None for the end of the loop, over and over. */
    method NextUri(status: StepperStatus) returns (pulled: Pulled)
      requires Valid() && uris != []
      modifies this`position, this`done, status`loopCount
      ensures pulled.Yielded? ==> Valid()
      ensures Gives(Source(), pulled, old(done), old(status.loopCount), done, status.loopCount, status.loopLimit)
    {
      if position == |uris| {
        position := 0;
        var limit := status.IncLoopCount();
        if limit {
          return Exhausted;
        }
      }
      pulled := Yielded(uris[position]);
      position := position + 1;
      done := position;
    }

    method Next(status: StepperStatus) returns (pulled: Pulled)
      requires Valid() && Settles(status.loopLimit)
      modifies this, status`loopCount
      ensures pulled.Yielded? ==> Valid()
      ensures Gives(Source(), pulled, old(done), old(status.loopCount), done, status.loopCount, status.loopLimit)
    {
      if uris != [] {
        pulled := NextUri(status);
      } else {
        pulled := NextOfFile(status);
      }
    }
  }

  // ----- what is written

  /** A schedule of shots per second names finitely many timestamps; one of instances goes on with zeros for ever. */
  datatype Plan = Rps(timestamps: seq<int>) | Instances(starts: seq<int>)

  function PlanLength(plan: Plan): Option<nat> {
    if plan.Rps? then Some(|plan.timestamps|) else None
  }

  function PlanAt(plan: Plan, i: nat): int
    requires plan.Rps? ==> i < |plan.timestamps|
  {
    match plan
    case Rps(timestamps) => timestamps[i]
    case Instances(starts) => if i < |starts| then starts[i] else 0
  }

  /** How many loops, how many missiles the limits let through; None is without end. */
  function LoopsAllowed(limit: Option<int>): Option<nat> {
    if limit.None? || limit.value == 0 then None else Some(Max(limit.value, 1))
  }

  function AmmoAllowed(limit: Option<int>): Option<nat> {
    if limit.None? || limit.value == 0 then None else Some(Max(limit.value + 1, 1))
  }

  /** How many missiles the source gives before it ends or fails. */
  function SourceLength(source: Pass, loopLimit: Option<int>): Option<nat> {
    if source.ending.Malformed? || source.shots == [] then Some(|source.shots|)
    else if LoopsAllowed(loopLimit).None? then None
    else Some(LoopsAllowed(loopLimit).value * |source.shots|)
  }

  function Smaller(a: Option<nat>, b: Option<nat>): Option<nat> {
    if a.None? then b else if b.None? then a else Some(Min(a.value, b.value))
  }

  predicate Exceeds(a: Option<nat>, n: nat) {
    a.None? || a.value > n
  }

  /** How `Stepper.write` ends: normally, with AmmoFileError, with "Ammo limit should be specified", with its own
      assertion failing, or with a division by zero. */
  datatype Outcome = Finished | BadAmmo | NoLimit | AssertionFails | DividedByZero

  datatype Verdict = Verdict(outcome: Outcome, count: nat)

  /** The missiles written and the outcome, from the settings alone. */
  function Expected(plan: Plan, source: Pass, loopLimit: Option<int>, ammoLimit: Option<int>): Verdict {
    var n, total := |source.shots|, SourceLength(source, loopLimit);
    var room := Smaller(PlanLength(plan), AmmoAllowed(ammoLimit));
    if ammoLimit == Some(0) && Exceeds(PlanLength(plan), 0) && plan.Rps? && Exceeds(total, 0) then
      Verdict(DividedByZero, 1)
    else if plan.Instances? && AmmoAllowed(ammoLimit).None? && total.None? then
      Verdict(if loopLimit.None? then NoLimit else AssertionFails, n + 1)
    else
      var count := Smaller(total, room);
      Verdict(if source.ending.Malformed? && Exceeds(room, n) then BadAmmo else Finished,
              if count.Some? then count.value else 0)
  }

  // ----- the run of the writer

  /** The counters between two missiles: loops, shots of this loop, missiles, the ammo limit in force. */
  datatype Counters = Counters(loops: int, done: nat, count: int, limit: Option<int>, firstLoopDone: bool)

  /** The settings of a run. */
  datatype Setup = Setup(plan: Plan, source: Pass, loopLimit: Option<int>, ammoLimit: Option<int>)
  {
    ghost function N(): nat { |source.shots| }
    ghost function Length(): Option<nat> { SourceLength(source, loopLimit) }
    ghost function Verdict(): Verdict { Expected(plan, source, loopLimit, ammoLimit) }

    /** Neither the plan nor a limit would stop the writer. */
    ghost predicate Boundless() {
      plan.Instances? && AmmoAllowed(ammoLimit).None? && Length().None?
    }

    ghost predicate DividesByZero() {
      ammoLimit == Some(0) && plan.Rps?
    }
  }

  ghost predicate Counted(u: Setup, c: Counters) {
    && 0 <= c.loops && c.done <= u.N() && c.count == c.loops * u.N() + c.done
    && (LoopsAllowed(u.loopLimit).Some? ==> c.loops < LoopsAllowed(u.loopLimit).value)
    && (u.source.ending.Malformed? ==> c.loops == 0)
    && (u.N() == 0 ==> c.count == 0)
  }

  /** The limit set by hand at the start of the second loop is never reached. */
  ghost predicate LimitKept(u: Setup, c: Counters) {
    c.limit == u.ammoLimit ||
    (u.plan.Instances? && AmmoAllowed(u.ammoLimit).None? && LoopsAllowed(u.loopLimit).Some? && u.loopLimit.value > 1
     && c.limit == Some(u.loopLimit.value * (u.N() + 1)))
  }

  ghost predicate Going(u: Setup, c: Counters) {
    && Counted(u, c) && LimitKept(u, c)
    && (c.firstLoopDone <==> c.loops > 0)
    && (u.plan.Rps? ==> c.count <= |u.plan.timestamps|)
    && (AmmoAllowed(u.ammoLimit).Some? ==> c.count < AmmoAllowed(u.ammoLimit).value)
    && (u.DividesByZero() ==> c.count == 0)
    && (u.Boundless() ==> c.loops == 0)
    && (u.plan.Instances? && AmmoAllowed(u.ammoLimit).None? && c.loops > 0 ==> c.limit != u.ammoLimit)
  }

  /** No more missiles than this are ever written. */
  ghost function Fuel(u: Setup): nat {
    if u.plan.Rps? then |u.plan.timestamps|
    else if AmmoAllowed(u.ammoLimit).Some? then AmmoAllowed(u.ammoLimit).value
    else if u.Length().Some? then u.Length().value
    else u.N() + 1
  }

  lemma CountWithin(u: Setup, c: Counters)
    requires Counted(u, c)
    ensures u.Length().Some? ==> c.count <= u.Length().value
    ensures c.loops == 0 ==> c.count == c.done
  {
    if LoopsAllowed(u.loopLimit).Some? {
      MulOrder(c.loops + 1, LoopsAllowed(u.loopLimit).value, u.N());
      assert (c.loops + 1) * u.N() == c.loops * u.N() + u.N();
    }
  }

  lemma FuelLeft(u: Setup, c: Counters)
    requires Going(u, c)
    ensures c.count <= Fuel(u)
  {
    CountWithin(u, c);
  }

  lemma PlanEnds(u: Setup, c: Counters)
    requires Going(u, c) && u.plan.Rps? && c.count == |u.plan.timestamps|
    ensures u.Verdict() == Verdict(Finished, c.count)
  {
    CountWithin(u, c);
  }

  lemma SourceEnds(u: Setup, c: Counters, loops: int)
    requires Going(u, c) && (u.plan.Rps? ==> c.count < |u.plan.timestamps|)
    requires c.done == u.N() && !u.source.ending.Malformed?
    requires u.N() > 0 ==> loops == c.loops + 1 && LoopLimitHit(u.loopLimit, loops)
    ensures u.Verdict() == Verdict(Finished, c.count)
  {
    if u.N() > 0 {
      assert c.loops + 1 == LoopsAllowed(u.loopLimit).value;
      assert (c.loops + 1) * u.N() == c.loops * u.N() + u.N();
    }
    assert u.Length() == Some(c.count);
  }

  lemma SourceFails(u: Setup, c: Counters)
    requires Going(u, c) && (u.plan.Rps? ==> c.count < |u.plan.timestamps|)
    requires c.done == u.N() && u.source.ending.Malformed?
    ensures u.Verdict() == Verdict(BadAmmo, c.count)
  {
  }

  /** One more shot came from the source. */
  ghost predicate Moves(u: Setup, c: Counters, loops: int, done: nat) {
    && u.N() > 0 && (u.plan.Rps? ==> c.count < |u.plan.timestamps|)
    && if c.done < u.N() then loops == c.loops && done == c.done + 1
       else loops == c.loops + 1 && done == 1 && !LoopLimitHit(u.loopLimit, loops) && !u.source.ending.Malformed?
  }

  lemma MoveIsCounted(u: Setup, c: Counters, loops: int, done: nat)
    requires Going(u, c) && Moves(u, c, loops, done)
    ensures Counted(u, Counters(loops, done, c.count + 1, c.limit, loops > 0))
    ensures loops == c.loops + 1 ==> c.count == loops * u.N()
  {
    assert (c.loops + 1) * u.N() == c.loops * u.N() + u.N();
  }

  lemma WriteDivides(u: Setup, c: Counters, loops: int, done: nat)
    requires Going(u, c) && Moves(u, c, loops, done)
    ensures MaxAmmo(c.limit, PlanLength(u.plan)) == Some(0) <==> u.DividesByZero()
    ensures u.DividesByZero() ==> u.Verdict() == Verdict(DividedByZero, c.count + 1)
  {
    MoveIsCounted(u, c, loops, done);
    CountWithin(u, Counters(loops, done, c.count + 1, c.limit, loops > 0));
    if c.limit != u.ammoLimit {
      MulOrder(1, u.loopLimit.value, u.N() + 1);
    }
  }

  /** The limit set by hand is out of reach. */
  lemma LoopsStayBelow(loops: int, limit: int, n: nat, done: nat)
    requires 0 <= loops < limit && done <= n
    ensures loops * n + done <= limit * (n + 1)
  {
    MulOrder(loops + 1, limit, n);
    assert (loops + 1) * n == loops * n + n;
    assert limit * (n + 1) == limit * n + limit;
  }

  lemma SetLimitNotHit(u: Setup, c: Counters, loops: int, done: nat)
    requires Going(u, c) && Moves(u, c, loops, done) && c.limit != u.ammoLimit
    ensures !AmmoLimitHit(c.limit, c.count + 1)
  {
    MoveIsCounted(u, c, loops, done);
    LoopsStayBelow(loops, u.loopLimit.value, u.N(), done);
  }

  lemma WriteStops(u: Setup, c: Counters, loops: int, done: nat)
    requires Going(u, c) && Moves(u, c, loops, done) && !u.DividesByZero()
    ensures AmmoLimitHit(c.limit, c.count + 1) ==> u.Verdict() == Verdict(Finished, c.count + 1)
    ensures AmmoAllowed(u.ammoLimit).Some? && !AmmoLimitHit(c.limit, c.count + 1) ==>
            c.count + 1 < AmmoAllowed(u.ammoLimit).value
  {
    if c.limit != u.ammoLimit {
      SetLimitNotHit(u, c, loops, done);
    } else if AmmoLimitHit(c.limit, c.count + 1) {
      OwnLimitHit(u, c, loops, done);
    }
  }

  lemma OwnLimitHit(u: Setup, c: Counters, loops: int, done: nat)
    requires Going(u, c) && Moves(u, c, loops, done) && !u.DividesByZero()
    requires c.limit == u.ammoLimit && AmmoLimitHit(c.limit, c.count + 1)
    ensures u.Verdict() == Verdict(Finished, c.count + 1)
  {
    MoveIsCounted(u, c, loops, done);
    var next := Counters(loops, done, c.count + 1, c.limit, loops > 0);
    CountWithin(u, next);
    if u.source.ending.Malformed? {
      assert loops == 0 && c.count + 1 == done <= u.N();
    }
    hide LoopLimitHit;
  }

  /** The second loop begins with nothing but the loop limit to go by. */
  lemma WriteUnlimited(u: Setup, c: Counters, loops: int, done: nat)
    requires Going(u, c) && Moves(u, c, loops, done) && !u.DividesByZero()
    requires !c.firstLoopDone && loops == 1 && MaxAmmo(c.limit, PlanLength(u.plan)).None?
    ensures u.loopLimit.None? ==> u.Verdict() == Verdict(NoLimit, c.count + 1)
    ensures u.loopLimit.Some? ==>
      var limit := Some(u.loopLimit.value * (c.count + 1));
      if MaxAmmo(limit, PlanLength(u.plan)).None? then u.Verdict() == Verdict(AssertionFails, c.count + 1)
      else Going(u, Counters(loops, done, c.count + 1, limit, true))
  {
    MoveIsCounted(u, c, loops, done);
    assert c.count == u.N();
    assert c.limit == u.ammoLimit;
    if u.loopLimit.Some? && u.loopLimit.value != 0 {
      assert u.loopLimit.value > 1;
      MulOrder(1, u.loopLimit.value, u.N() + 1);
      assert Some(u.loopLimit.value * (c.count + 1)) != u.ammoLimit;
    }
  }

  lemma WriteGoes(u: Setup, c: Counters, loops: int, done: nat)
    requires Going(u, c) && Moves(u, c, loops, done) && !u.DividesByZero() && !AmmoLimitHit(c.limit, c.count + 1)
    requires c.firstLoopDone || loops != 1 || MaxAmmo(c.limit, PlanLength(u.plan)).Some?
    ensures Going(u, Counters(loops, done, c.count + 1, c.limit, c.firstLoopDone || loops == 1))
  {
    MoveIsCounted(u, c, loops, done);
    WriteStops(u, c, loops, done);
  }

  datatype Entry = Entry(timestamp: int, shot: Shot)

  /** The shot of an entry: the source's shots over and over. */
  function ShotAt(source: Pass, i: nat): Shot
    requires source.shots != []
  {
    source.shots[i % |source.shots|]
  }

  ghost predicate WrittenFrom(written: seq<Entry>, plan: Plan, source: Pass) {
    forall i | 0 <= i < |written| ::
      && (plan.Rps? ==> i < |plan.timestamps|) && source.shots != []
      && written[i] == Entry(PlanAt(plan, i), ShotAt(source, i))
  }

  /** The shots of the source, over and over. */
  ghost predicate InTurn(written: seq<Entry>, source: Pass) {
    forall i | 0 <= i < |written| :: source.shots != [] && written[i].shot == source.shots[i % |source.shots|]
  }

  /** In so many words: entry i has the i-th timestamp of an rps schedule, or the start of instance i and 0 when all
      instances have started; and shot i of the source, which is taken over and over. */
  lemma WrittenMeans(written: seq<Entry>, plan: Plan, source: Pass)
    requires WrittenFrom(written, plan, source)
    ensures InTurn(written, source)
    ensures plan.Rps? ==>
      |written| <= |plan.timestamps| && forall i | 0 <= i < |written| :: written[i].timestamp == plan.timestamps[i]
    ensures plan.Instances? ==>
      forall i | 0 <= i < |written| ::
        written[i].timestamp == if i < |plan.starts| then plan.starts[i] else 0
  {
    if |written| > 0 {
      assert written[|written| - 1] == written[|written| - 1];
    }
  }

  lemma NextShot(u: Setup, c: Counters, loops: int, done: nat, shot: Shot)
    requires Going(u, c) && Moves(u, c, loops, done) && shot == u.source.shots[done - 1]
    ensures shot == ShotAt(u.source, c.count)
  {
    MoveIsCounted(u, c, loops, done);
    DivideExactly(loops, done - 1, u.N());
  }

  /** The check at the first missile of the second loop; without a limit of missiles it sets one by hand. */
  method CheckSecondLoop(status: StepperStatus, firstLoopDone: bool, ghost u: Setup, ghost c: Counters, ghost done: nat)
    returns (nowDone: bool, failure: Option<Outcome>)
    requires Going(u, c) && Moves(u, c, status.loopCount, done)
    requires !u.DividesByZero() && !AmmoLimitHit(c.limit, c.count + 1)
    requires c.firstLoopDone == firstLoopDone && c.limit == status.ammoLimit && c.count + 1 == status.ammoCount
    requires status.loopLimit == u.loopLimit && status.lpLen == PlanLength(u.plan)
    modifies status`ammoLimit
    ensures if failure.Some? then u.Verdict() == Verdict(failure.value, c.count + 1)
            else Going(u, Counters(status.loopCount, done, c.count + 1, status.ammoLimit, nowDone))
  {
    hide Going, Moves, Expected, MaxAmmo, AmmoLimitHit;
    nowDone := firstLoopDone;
    if !firstLoopDone && status.loopCount == 1 {
      nowDone := true;
      if MaxAmmo(status.ammoLimit, status.lpLen).None? {
        WriteUnlimited(u, c, status.loopCount, done);
        if status.loopLimit.None? {
          return nowDone, Some(NoLimit);
        }
        status.ammoLimit := Some(status.loopLimit.value * status.ammoCount);
        if MaxAmmo(status.ammoLimit, status.lpLen).None? {
          return nowDone, Some(AssertionFails);
        }
        return nowDone, None;
      }
    }
    WriteGoes(u, c, status.loopCount, done);
    failure := None;
  }

  method NextAmmo(source: AmmoGenerator, status: StepperStatus, ghost u: Setup, ghost c: Counters)
    returns (pulled: Pulled)
    requires source.Valid() && source.Settles(status.loopLimit)
    requires u.source == source.Source() && u.loopLimit == status.loopLimit
    requires Going(u, c) && (u.plan.Rps? ==> c.count < |u.plan.timestamps|)
    requires c.loops == status.loopCount && c.done == source.done
    modifies source, status`loopCount
    ensures pulled.Exhausted? ==> u.Verdict() == Verdict(Finished, c.count)
    ensures pulled.Fails? ==> u.Verdict() == Verdict(BadAmmo, c.count)
    ensures pulled.Yielded? ==> source.Valid() && Moves(u, c, status.loopCount, source.done)
    ensures pulled.Yielded? ==> u.source.shots != [] && pulled.shot == ShotAt(u.source, c.count)
  {
    hide Going, Expected, Moves, Scan, ShotAt;
    pulled := source.Next(status);
    match pulled
    case Exhausted =>
      SourceEnds(u, c, status.loopCount);
    case Fails =>
      SourceFails(u, c);
    case Yielded(shot) =>
      ItMoves(u, c, status.loopCount, source.done);
      NextShot(u, c, status.loopCount, source.done, shot);
  }

  /** `Stepper.write` over the zip of the plan and the ammo stream. Entry i pairs timestamp i with shot i of the
      source repeated over and over, and how many are written and why it ends is as expected from the settings. */
  method Write(plan: Plan, source: AmmoGenerator, status: StepperStatus) returns (written: seq<Entry>, outcome: Outcome)
    requires source.Valid() && source.done == 0 && source.Settles(status.loopLimit)
    requires status.ammoCount == 0 && status.loopCount == 0 && status.lpLen == PlanLength(plan)
    modifies source, status
    ensures Verdict(outcome, |written|) ==
            Expected(plan, source.Source(), old(status.loopLimit), old(status.ammoLimit))
    ensures WrittenFrom(written, plan, source.Source())
  {
    hide Going, Moves, Expected, MaxAmmo, AmmoLimitHit, LoopLimitHit, WrittenFrom, Fuel, ShotAt, Scan,
         AmmoGenerator.Valid, AmmoGenerator.Settles;
    written := [];
    var firstLoopDone := false;
    ghost var u := Setup(plan, source.Source(), status.loopLimit, status.ammoLimit);
    ghost var c := Counters(0, 0, 0, status.ammoLimit, false);
    WrittenNothing(u);
    while true
      invariant source.Valid() && source.Settles(status.loopLimit) && Going(u, c)
      invariant status.loopLimit == u.loopLimit && status.lpLen == PlanLength(plan)
      invariant c == Counters(status.loopCount, source.done, |written|, status.ammoLimit, firstLoopDone)
      invariant status.ammoCount == |written|
      invariant WrittenFrom(written, plan, u.source)
      decreases Fuel(u) - |written|
    {
      if plan.Rps? && |written| == |plan.timestamps| {
        PlanEnds(u, c);
        return written, Finished;
      }
      PlanNotOver(u, c);
      var pulled := NextAmmo(source, status, u, c);
      if pulled.Exhausted? {
        return written, Finished;
      }
      if pulled.Fails? {
        return written, BadAmmo;
      }
      WrittenOn(written, plan, u.source, pulled.shot);
      written := written + [Entry(PlanAt(plan, |written|), pulled.shot)];
      var signal := status.IncAmmoCount();
      WriteDivides(u, c, status.loopCount, source.done);
      if signal.DividesByZero? {
        return written, DividedByZero;
      }
      WriteStops(u, c, status.loopCount, source.done);
      if signal.Stop? {
        return written, Finished;
      }
      var failure;
      firstLoopDone, failure := CheckSecondLoop(status, firstLoopDone, u, c, source.done);
      if failure.Some? {
        return written, failure.value;
      }
      c := Counters(status.loopCount, source.done, |written|, status.ammoLimit, firstLoopDone);
      FuelLeft(u, c);
    }
  }

  lemma WrittenNothing(u: Setup)
    ensures Going(u, Counters(0, 0, 0, u.ammoLimit, false)) && WrittenFrom([], u.plan, u.source)
  {
  }

  lemma PlanNotOver(u: Setup, c: Counters)
    requires Going(u, c) && !(u.plan.Rps? && c.count == |u.plan.timestamps|)
    ensures u.plan.Rps? ==> c.count < |u.plan.timestamps|
  {
  }

  lemma ItMoves(u: Setup, c: Counters, loops: int, done: nat)
    requires Going(u, c) && u.N() > 0 && (u.plan.Rps? ==> c.count < |u.plan.timestamps|)
    requires if c.done < u.N() then loops == c.loops && done == c.done + 1
             else loops == c.loops + 1 && done == 1 && !LoopLimitHit(u.loopLimit, loops) && !u.source.ending.Malformed?
    ensures Moves(u, c, loops, done)
  {
  }

  lemma WrittenOn(written: seq<Entry>, plan: Plan, source: Pass, shot: Shot)
    requires WrittenFrom(written, plan, source) && source.shots != [] && shot == ShotAt(source, |written|)
    requires plan.Rps? ==> |written| < |plan.timestamps|
    ensures WrittenFrom(written + [Entry(PlanAt(plan, |written|), shot)], plan, source)
  {
  }

  // ----- the limits as configured

  datatype Limits = Limits(loops: Option<int>, ammo: Option<int>)

  /** What the options `loop` and `ammo_limit` come to; -1 is without limit. */
  function Normalised(loop: int, ammo: int, rps: bool, uris: nat): Limits {
    var loopLimit := if loop != -1 then Some(loop) else if ammo == -1 && !rps then Some(1) else None;
    Limits(loopLimit,
           if uris > 0 && loopLimit.Some? && loopLimit.value != 0 then Some(uris * loopLimit.value)
           else if ammo == -1 then None else Some(ammo))
  }

  /** `ComponentFactory.__init__` fills the shared status; the load plan publishes its length. */
  method Configure(loop: int, ammo: int, plan: Plan, uris: seq<Shot>) returns (status: StepperStatus)
    ensures fresh(status) && status.ammoCount == 0 && status.loopCount == 0 && status.lpLen == PlanLength(plan)
    ensures Limits(status.loopLimit, status.ammoLimit) == Normalised(loop, ammo, plan.Rps?, |uris|)
  {
    var loopLimit, ammoLimit := Some(loop), Some(ammo);
    if loop == -1 {
      loopLimit := None;
    }
    if ammo == -1 {
      ammoLimit := None;
    }
    if loopLimit.None? && ammoLimit.None? && !plan.Rps? {
      loopLimit := Some(1);
    }
    status := new StepperStatus(loopLimit, ammoLimit, PlanLength(plan));
    if uris != [] && loopLimit.Some? && loopLimit.value != 0 {
      status.ammoLimit := Some(|uris| * loopLimit.value);
    }
  }

  function Run(plan: Plan, source: Pass, loop: int, ammo: int, uris: nat): Verdict {
    var limits := Normalised(loop, ammo, plan.Rps?, uris);
    Expected(plan, source, limits.loops, limits.ammo)
  }

  /** For a readable file and limits that are default or positive, the number written is the least of the plan's
      length, the loops over the file, and one more than the ammo limit, since the limit is checked after the write;
      an instances plan without any limit takes the file once. */
  lemma WritesTheLeast(plan: Plan, source: Pass, loop: int, ammo: int)
    requires source.shots != [] && !source.ending.Malformed? && (loop == -1 || loop > 0) && (ammo == -1 || ammo > 0)
    ensures var n, run := |source.shots|, Run(plan, source, loop, ammo, 0);
      && run.outcome == Finished
      && (plan.Rps? ==> run.count <= |plan.timestamps|)
      && (loop > 0 ==> run.count <= loop * n)
      && (ammo > 0 ==> run.count <= ammo + 1)
      && ((plan.Rps? && run.count == |plan.timestamps|) || (loop > 0 && run.count == loop * n)
          || (ammo > 0 && run.count == ammo + 1)
          || (plan.Instances? && loop == -1 && ammo == -1 && run.count == n))
  {
  }

  /** "Ammo limit should be specified" is meant for a run that nothing would stop. The normalisation rules that out
      but for one case: an ammo limit of 0, which counts as given and yet limits nothing. */
  lemma NoLimitIff(plan: Plan, source: Pass, loop: int, ammo: int, uris: nat)
    ensures Run(plan, source, loop, ammo, uris).outcome == NoLimit <==>
            plan.Instances? && loop == -1 && ammo == 0 && source.shots != [] && !source.ending.Malformed?
  {
  }

  /** An ammo limit of 0 divides the progress by zero at the first missile of an rps schedule, unless uris with a loop
      limit set another. */
  lemma DividesIff(plan: Plan, source: Pass, loop: int, ammo: int, uris: nat)
    ensures Run(plan, source, loop, ammo, uris).outcome == DividedByZero <==>
            plan.Rps? && plan.timestamps != [] && ammo == 0 && source.shots != []
            && !(uris > 0 && loop != -1 && loop != 0)
  {
    var limits, n := Normalised(loop, ammo, plan.Rps?, uris), |source.shots|;
    if uris > 0 && limits.loops.Some? && limits.loops.value != 0 {
      NonZeroProduct(uris, limits.loops.value);
    }
    if LoopsAllowed(limits.loops).Some? {
      MulOrder(1, LoopsAllowed(limits.loops).value, n);
    }
  }

  lemma NonZeroProduct(a: nat, b: int)
    requires a > 0 && b != 0
    ensures a * b != 0
  {
  }

  /** A loop limit of 0 next to an instances plan trips the writer's own assertion unless the ammo limit is real. */
  lemma AssertionFailsIff(plan: Plan, source: Pass, loop: int, ammo: int, uris: nat)
    ensures Run(plan, source, loop, ammo, uris).outcome == AssertionFails <==>
            plan.Instances? && loop == 0 && (ammo == -1 || ammo == 0)
            && source.shots != [] && !source.ending.Malformed?
  {
  }

  /** With uris and a loop limit the configured ammo limit plays no part: every uri is written once a loop, up to the
      length of the plan. */
  lemma UrisOverrideAmmoLimit(plan: Plan, uris: seq<Shot>, loop: int, ammo: int)
    requires uris != [] && loop > 0
    ensures Run(plan, Pass(uris, EndOfFile), loop, ammo, |uris|) ==
            Verdict(Finished, if plan.Rps? && |plan.timestamps| < loop * |uris| then |plan.timestamps|
                              else loop * |uris|)
  {
    MulOrder(1, loop, |uris|);
  }
}
