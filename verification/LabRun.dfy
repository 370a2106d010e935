/** One lab run: the idle sampling loop, the rows appended around it, and what they add up to. */
module LabRun {
  import opened Text
  import opened Sequences
  import opened LabTables
  import opened LabSamples
  import opened LabTimeline

  datatype Config = Config(
    duration: int, interval: int, heartbeat: bool, wgCheck: bool, bgpBfd: bool,
    nativeEvents: bool, disableHeartbeat: bool, disableWg: bool, disableBgp: bool, disableBfd: bool,
    statusBurst: bool)

  // ----- what one turn of the loop logs -----

  datatype LoopState = LoopState(samples: nat, ticks: nat, lastHeartbeat: int, lastWg: int, entries: seq<Entry>)

  const LOOP_START := LoopState(0, 0, 0, 0, [])

  function TickDetail(elapsed: int, tick: nat): string {
    "uptime=" + IntText(elapsed) + "s,tick=" + Decimal(tick)
  }

  predicate TickDue(c: Config, st: LoopState, elapsed: int) {
    c.heartbeat && elapsed > 0 && elapsed % 30 == 0 && elapsed != st.lastHeartbeat
  }

  predicate WgDue(c: Config, st: LoopState, elapsed: int) {
    c.wgCheck && elapsed > 0 && elapsed % 60 == 0 && elapsed != st.lastWg
  }

  function TickEntry(elapsed: int, tick: nat): Entry {
    Entry(elapsed, "heartbeat_tick", "heartbeat", TickDetail(elapsed, tick))
  }

  function WgEntry(elapsed: int): Entry { Entry(elapsed, "wg_check", "wireguard", "periodic_60s_check") }

  function BgpEntry(elapsed: int): Entry { Entry(elapsed, "bgp_maintenance", "bgp", "periodic_maintenance") }

  function BfdEntry(elapsed: int): Entry { Entry(elapsed, "bfd_tick", "bfd", "periodic_tick") }

  function TickPart(c: Config, st: LoopState, elapsed: int): seq<Entry> {
    if TickDue(c, st, elapsed) then [TickEntry(elapsed, st.ticks + 1)] else []
  }

  function WgPart(c: Config, st: LoopState, elapsed: int): seq<Entry> {
    if WgDue(c, st, elapsed) then [WgEntry(elapsed)] else []
  }

  function BgpBfdPart(c: Config, elapsed: int): seq<Entry> {
    if c.bgpBfd && elapsed > 0 && elapsed % 10 == 0 then [BgpEntry(elapsed), BfdEntry(elapsed)] else []
  }

  // The events of one turn, in the order in which they are appended.
  function TurnEntries(c: Config, st: LoopState, elapsed: int): seq<Entry> {
    TickPart(c, st, elapsed) + WgPart(c, st, elapsed) + BgpBfdPart(c, elapsed)
  }

  function LoopStep(c: Config, st: LoopState, elapsed: int): LoopState {
    var tick, wg := TickDue(c, st, elapsed), WgDue(c, st, elapsed);
    LoopState(
      st.samples + 1,
      if tick then st.ticks + 1 else st.ticks,
      if tick then elapsed else st.lastHeartbeat,
      if wg then elapsed else st.lastWg,
      st.entries + TurnEntries(c, st, elapsed))
  }

  // The loop over the whole seconds read from the clock, one per turn.
  function RunLoop(c: Config, readings: seq<int>): LoopState {
    if readings == [] then LOOP_START
    else LoopStep(c, RunLoop(c, readings[..|readings| - 1]), readings[|readings| - 1])
  }

  // ----- what a run meets outside the program -----

  // What each turn meets: the whole seconds since the start, whether the child still runs,
  // whether /proc has it, and what its status says; no memory stands for a failing read. The
  // directory is looked at once before the first turn.
  datatype World = World(
    seconds: nat -> int, childRuns: nat -> bool, procThere: nat -> bool, memory: nat -> Option<Memory>)

  function Readings(world: World, n: nat): seq<int> { seq(n, k requires 0 <= k < n => world.seconds(k)) }

  // The clock readings of the status burst and the sample taken at its end.
  datatype Burst = Burst(start: int, end: int, took: int, memory: Memory)

  datatype Outcome = Completed(samples: nat) | ChildExited | ProcGone | SampleFailed | SleepRejected

  // What ends the loop in a turn before anything is logged.
  function TurnFailure(world: World, turn: nat): Option<Outcome> {
    if !world.childRuns(turn) then Some(ChildExited)
    else if !world.procThere(turn + 1) then Some(ProcGone)
    else if world.memory(turn).None? then Some(SampleFailed)
    else None
  }

  // The child is looked at first, then its directory, then its status.
  lemma TurnFailureIff(world: World, turn: nat)
    ensures TurnFailure(world, turn) == Some(ChildExited) <==> !world.childRuns(turn)
    ensures TurnFailure(world, turn) == Some(ProcGone) <==> world.childRuns(turn) && !world.procThere(turn + 1)
    ensures TurnFailure(world, turn) == Some(SampleFailed) <==>
            world.childRuns(turn) && world.procThere(turn + 1) && world.memory(turn).None?
    ensures TurnFailure(world, turn).None? <==>
            world.childRuns(turn) && world.procThere(turn + 1) && world.memory(turn).Some?
  {}

  ghost predicate Undisturbed(world: World, turns: nat) { forall j: nat | j < turns :: TurnFailure(world, j).None? }

  // The row a turn samples; a turn whose read fails samples none.
  function TurnSample(world: World, stamp: string): nat -> seq<SampleRow> {
    (turn: nat) =>
      match world.memory(turn)
      case Some(memory) => [SampleRow(stamp, world.seconds(turn), memory)]
      case None => []
  }

  // The rows the loop has sampled after its first turns.
  function Taken(world: World, stamp: string, turns: nat): seq<SampleRow> {
    Gathered([], TurnSample(world, stamp), turns)
  }

  // No turn so far has reached the duration.
  ghost predicate Below(c: Config, world: World, turns: nat) {
    forall k: nat | k < turns :: world.seconds(k) < c.duration
  }

  // The last of the turns reaches the duration, and none before it.
  ghost predicate Finished(c: Config, world: World, turns: nat) {
    turns > 0 && world.seconds(turns - 1) >= c.duration && Below(c, world, turns - 1)
  }

  // When and how the loop ends: the turns before go well and stay below the duration, and then
  // the duration is reached, or the pause is refused, or the next turn fails.
  ghost predicate Stops(c: Config, world: World, outcome: Outcome, turns: nat) {
    if !world.procThere(0) then outcome == ProcGone && turns == 0
    else
      && Undisturbed(world, turns)
      && (c.interval < 0 ==> turns <= 1)
      && if outcome.Completed? then outcome.samples == turns && Finished(c, world, turns)
         else
           && Below(c, world, turns)
           && if outcome.SleepRejected? then c.interval < 0 && turns == 1
              else TurnFailure(world, turns) == Some(outcome) && (c.interval < 0 ==> turns == 0)
  }

  // ----- the run as it happens -----

  // The two files a run appends to, and the records written to them so far. How a record is laid
  // out is fixed when the headers are written.
  class Lab {
    const timelineLayout: Layout<Row>
    const sampleLayout: Layout<SampleRow>
    var timeline: string
    var samples: string
    ghost var rows: seq<Row>
    ghost var taken: seq<SampleRow>

    // The files are those of a run of main.
    ghost predicate Valid()
      reads this
    {
      timelineLayout == TIMELINE && sampleLayout == SAMPLES && Written()
    }

    // The files hold the records, however these are laid out.
    ghost predicate Written()
      reads this
    {
      && timeline == TableText(timelineLayout, rows) && CleanRows(rows)
      && samples == TableText(sampleLayout, taken) && CleanSamples(taken)
    }

    // The headers as main writes them before the child starts.
    constructor ()
      ensures Valid() && rows == [] && taken == []
    {
      timelineLayout, sampleLayout := TIMELINE, SAMPLES;
      timeline := RowText(HEADER) + ['\n'];
      samples := RowText(SAMPLE_HEADER) + ['\n'];
      rows := [];
      taken := [];
    }

    method AppendEvent(stamp: string, e: Entry)
      requires Written() && CleanField(stamp) && CleanEntry(e)
      modifies this`timeline, this`rows
      ensures Written() && rows == old(rows) + [Row(stamp, e)]
    {
      var row := Row(stamp, e);
      TableAppend(timelineLayout, rows, row);
      timeline := timeline + timelineLayout.line(row) + ['\n'];
      rows := rows + [row];
    }

    method AppendMemorySample(stamp: string, elapsed: int, memory: Memory)
      requires Written() && CleanField(stamp)
      modifies this`samples, this`taken
      ensures Written() && taken == old(taken) + [SampleRow(stamp, elapsed, memory)]
    {
      var row := SampleRow(stamp, elapsed, memory);
      TableAppend(sampleLayout, taken, row);
      samples := samples + sampleLayout.line(row) + ['\n'];
      taken := taken + [row];
    }

    method LogTick(c: Config, st: LoopState, elapsed: int, stamp: string)
      requires Written() && CleanField(stamp)
      modifies this`timeline, this`rows
      ensures Written() && rows == old(rows) + Stamped(stamp, TickPart(c, st, elapsed))
    {
      if c.heartbeat && elapsed > 0 && elapsed % 30 == 0 && elapsed != st.lastHeartbeat {
        TickClean(elapsed, st.ticks + 1);
        AppendEvent(stamp, TickEntry(elapsed, st.ticks + 1));
      }
    }

    method LogWgCheck(c: Config, st: LoopState, elapsed: int, stamp: string)
      requires Written() && CleanField(stamp)
      modifies this`timeline, this`rows
      ensures Written() && rows == old(rows) + Stamped(stamp, WgPart(c, st, elapsed))
    {
      if c.wgCheck && elapsed > 0 && elapsed % 60 == 0 && elapsed != st.lastWg {
        WgClean(elapsed);
        AppendEvent(stamp, WgEntry(elapsed));
      }
    }

    method LogBgpBfd(c: Config, elapsed: int, stamp: string)
      requires Written() && CleanField(stamp)
      modifies this`timeline, this`rows
      ensures Written() && rows == old(rows) + Stamped(stamp, BgpBfdPart(c, elapsed))
    {
      if c.bgpBfd && elapsed > 0 && elapsed % 10 == 0 {
        BgpClean(elapsed);
        BfdClean(elapsed);
        AppendEvent(stamp, BgpEntry(elapsed));
        AppendEvent(stamp, BfdEntry(elapsed));
      }
    }

    // The events of one turn, after its sample was taken.
    method LogTurn(c: Config, st: LoopState, elapsed: int, stamp: string)
      requires Written() && CleanField(stamp)
      modifies this`timeline, this`rows
      ensures Written() && rows == old(rows) + Stamped(stamp, TurnEntries(c, st, elapsed))
    {
      ghost var tick, wg, rest := TickPart(c, st, elapsed), WgPart(c, st, elapsed), BgpBfdPart(c, elapsed);
      LogTick(c, st, elapsed, stamp);
      LogWgCheck(c, st, elapsed, stamp);
      LogBgpBfd(c, elapsed, stamp);
      StampedParts(old(rows), stamp, tick, wg);
      StampedParts(old(rows), stamp, tick + wg, rest);
    }

    // The body of one turn up to the exit test; a failing turn leaves the logs alone.
    method TakeTurn(c: Config, world: World, turn: nat, st: LoopState, elapsed: int, stamp: string)
      returns (failure: Option<Outcome>)
      requires Written() && CleanField(stamp)
      modifies this
      ensures Written() && failure == TurnFailure(world, turn)
      ensures failure.Some? ==> rows == old(rows) && taken == old(taken)
      ensures failure.None? ==>
                && rows == old(rows) + Stamped(stamp, TurnEntries(c, st, elapsed))
                && taken == old(taken) + [SampleRow(stamp, elapsed, world.memory(turn).value)]
    {
      if !world.childRuns(turn) {
        return Some(ChildExited);
      }
      if !world.procThere(turn + 1) {
        return Some(ProcGone);
      }
      var memory := world.memory(turn);
      if memory.None? {
        return Some(SampleFailed);
      }
      AppendMemorySample(stamp, elapsed, memory.value);
      LogTurn(c, st, elapsed, stamp);
      return None;
    }

    // run_idle_loop; bound is some turn by which the clock has passed the duration.
    method RunIdleLoop(c: Config, world: World, stamp: string, ghost bound: nat)
      returns (outcome: Outcome, turns: nat)
      requires Written() && CleanField(stamp)
      requires world.seconds(bound) >= c.duration
      modifies this
      ensures Written() && turns <= bound + 1
      ensures Stops(c, world, outcome, turns) && Undisturbed(world, turns)
      ensures world.procThere(0) && c.interval >= 0 && (forall k: nat :: TurnFailure(world, k).None?) ==>
                outcome.Completed?
      ensures taken == old(taken) + Taken(world, stamp, turns)
      ensures rows == old(rows) + Stamped(stamp, RunLoop(c, Readings(world, turns)).entries)
    {
      ghost var part, sample := TurnRows(c, world, stamp), TurnSample(world, stamp);
      if world.procThere(0) {
        LoopParts(c, world, stamp);
        outcome, turns := SampleUntilDone(c, world, stamp, bound, States(c, world), part, sample);
        EndStops(c, world, 0, bound);
      } else {
        outcome, turns := ProcGone, 0;
      }
      CompletesUndisturbed(c, world, outcome, turns);
      LoopRows(c, world, stamp, turns);
      GatheredFrom(old(rows), part, turns);
      GatheredFrom(old(taken), sample, turns);
    }

    // The same turn with what it logs and samples as given.
    method TakeTurnAt(c: Config, world: World, turn: nat, st: LoopState, elapsed: int, stamp: string,
                      ghost state: nat -> LoopState, ghost part: nat -> seq<Row>, ghost sample: nat -> seq<SampleRow>)
      returns (failure: Option<Outcome>)
      requires Written() && CleanField(stamp) && st == state(turn) && elapsed == world.seconds(turn)
      requires Logs(c, world, stamp, state, part) && Samples(world, stamp, sample)
      modifies this
      ensures Written() && failure == TurnFailure(world, turn)
      ensures failure.Some? ==> rows == old(rows) && taken == old(taken)
      ensures failure.None? ==> rows == old(rows) + part(turn) && taken == old(taken) + sample(turn)
    {
      failure := TakeTurn(c, world, turn, st, elapsed, stamp);
    }

    // The loop proper. The states between turns, and what each turn logs and samples, are given.
    method SampleUntilDone(c: Config, world: World, stamp: string, ghost bound: nat, ghost state: nat -> LoopState,
                           ghost part: nat -> seq<Row>, ghost sample: nat -> seq<SampleRow>)
      returns (outcome: Outcome, turns: nat)
      requires Written() && CleanField(stamp)
      requires world.seconds(bound) >= c.duration
      requires Follows(c, world, state) && Logs(c, world, stamp, state, part) && Samples(world, stamp, sample)
      modifies this
      ensures Written() && (outcome, turns) == End(c, world, 0, bound)
      ensures taken == Gathered(old(taken), sample, turns) && rows == Gathered(old(rows), part, turns)
    {
      turns := 0;
      var st := LOOP_START;
      while true
        invariant Written() && turns <= bound
        invariant End(c, world, 0, bound) == End(c, world, turns, bound)
        invariant st == state(turns) && st.samples == turns
        invariant taken == Gathered(old(taken), sample, turns) && rows == Gathered(old(rows), part, turns)
        decreases bound - turns
      {
        var elapsed := world.seconds(turns);
        EndNext(c, world, turns, bound);
        var failure := TakeTurnAt(c, world, turns, st, elapsed, stamp, state, part, sample);
        if failure.Some? {
          outcome := failure.value;
          break;
        }
        st := LoopStep(c, st, elapsed);
        turns := turns + 1;
        if elapsed >= c.duration {
          outcome := Completed(st.samples);
          break;
        }
        if c.interval < 0 {
          outcome := SleepRejected;
          break;
        }
      }
    }

    method RunStatusBurst(burst: Burst, stamp: string)
      requires Written() && CleanField(stamp)
      modifies this
      ensures Written() && rows == old(rows) + Stamped(stamp, BurstEntries(burst))
      ensures taken == old(taken) + [SampleRow(stamp, burst.end, burst.memory)]
    {
      BurstStartClean(burst);
      BurstEndClean(burst);
      AppendEvent(stamp, BurstStart(burst));
      AppendMemorySample(stamp, burst.end, burst.memory);
      AppendEvent(stamp, BurstEnd(burst));
    }

    method OpenLab(c: Config, pid: nat, stamp: string)
      requires Written() && rows == [] && CleanField(stamp)
      modifies this`timeline, this`rows
      ensures Written() && rows == Stamped(stamp, Opening(c, pid))
    {
      StartedClean(pid);
      SubsystemConfigClean(c);
      NativeConfigClean(c);
      AppendEvent(stamp, Started(pid));
      AppendEvent(stamp, SubsystemConfig(c));
      if c.nativeEvents {
        AppendEvent(stamp, NativeConfig(c));
      }
    }

    method CloseLab(c: Config, turns: nat, stamp: string)
      requires Written() && CleanField(stamp)
      modifies this`timeline, this`rows
      ensures Written() && rows == old(rows) + Stamped(stamp, [IdleComplete(c, turns)] + [Shutdown(c)])
    {
      ClosingClean(c, turns);
      AppendEvent(stamp, IdleComplete(c, turns));
      AppendEvent(stamp, Shutdown(c));
    }

    // main, from the child being ready to the last row. Only a completed loop is followed by
    // the closing rows.
    method RunLab(c: Config, pid: nat, world: World, burst: Burst, stamp: string, ghost bound: nat)
      returns (outcome: Outcome, turns: nat)
      requires Valid() && rows == [] && taken == [] && CleanField(stamp)
      requires world.seconds(bound) >= c.duration
      modifies this
      ensures Valid() && turns <= bound + 1
      ensures Stops(c, world, outcome, turns)
      ensures rows == Stamped(stamp, LoggedEntries(c, pid, world, burst, outcome, turns))
      ensures taken == RunSamples(c, world, stamp, burst, outcome, turns)
      ensures world.procThere(0) && c.interval >= 0 && (forall k: nat :: TurnFailure(world, k).None?) ==>
                outcome.Completed?
      ensures outcome.Completed? ==> CheckTimeline(timeline) == None && ShellSynthetic(timeline)
      ensures outcome.Completed? ==> (CheckSamples(samples) == None <==> NonNegative(taken))
      ensures outcome.Completed? ==> SamplesIn(samples) == Map(taken, SampleOf)
    {
      outcome, turns := LogRun(c, pid, world, burst, stamp, bound);
      CompletesUndisturbed(c, world, outcome, turns);
      if outcome.Completed? {
        TakenCount(world, stamp, turns);
        RunArtifacts(timelineLayout, sampleLayout, rows, taken, c, pid, Readings(world, turns), burst, stamp);
      }
    }

    // The same run, as far as its records go.
    method LogRun(c: Config, pid: nat, world: World, burst: Burst, stamp: string, ghost bound: nat)
      returns (outcome: Outcome, turns: nat)
      requires Written() && rows == [] && taken == [] && CleanField(stamp)
      requires world.seconds(bound) >= c.duration
      modifies this
      ensures Written() && turns <= bound + 1
      ensures Stops(c, world, outcome, turns) && Undisturbed(world, turns)
      ensures rows == Stamped(stamp, LoggedEntries(c, pid, world, burst, outcome, turns))
      ensures taken == RunSamples(c, world, stamp, burst, outcome, turns)
    {
      OpenLab(c, pid, stamp);
      outcome, turns := RunIdleLoop(c, world, stamp, bound);
      ghost var before := Opening(c, pid) + RunLoop(c, Readings(world, turns)).entries;
      StampedAppend(stamp, Opening(c, pid), RunLoop(c, Readings(world, turns)).entries);
      NothingBefore(Taken(world, stamp, turns));
      if outcome.Completed? {
        EndRun(c, turns, burst, stamp);
        StampedAppend(stamp, before, Ending(c, turns, burst));
      }
    }

    // What main does once the loop has completed.
    method EndRun(c: Config, turns: nat, burst: Burst, stamp: string)
      requires Written() && CleanField(stamp)
      modifies this
      ensures Written() && rows == old(rows) + Stamped(stamp, Ending(c, turns, burst))
      ensures taken == old(taken) + BurstSamples(c, burst, stamp)
    {
      if c.statusBurst {
        RunStatusBurst(burst, stamp);
      }
      CloseLab(c, turns, stamp);
      StampedParts(old(rows), stamp, if c.statusBurst then BurstEntries(burst) else [],
                   [IdleComplete(c, turns)] + [Shutdown(c)]);
    }
  }

  // The samples of a run, and the entries of its timeline.
  function RunSamples(c: Config, world: World, stamp: string, burst: Burst, outcome: Outcome, turns: nat)
    : seq<SampleRow>
  {
    if outcome.Completed? then Taken(world, stamp, turns) + BurstSamples(c, burst, stamp)
    else Taken(world, stamp, turns)
  }

  function BurstSamples(c: Config, burst: Burst, stamp: string): seq<SampleRow> {
    if c.statusBurst then [SampleRow(stamp, burst.end, burst.memory)] else []
  }

  function LoggedEntries(c: Config, pid: nat, world: World, burst: Burst, outcome: Outcome, turns: nat)
    : seq<Entry>
  {
    if outcome.Completed? then RunEntries(c, pid, Readings(world, turns), burst)
    else Opening(c, pid) + RunLoop(c, Readings(world, turns)).entries
  }

  lemma NothingBefore<T>(s: seq<T>)
    ensures [] + s == s
  {}

  // Entries with the time of day at which they were appended.
  function Stamped(stamp: string, es: seq<Entry>): (rows: seq<Row>)
    ensures |rows| == |es| && forall i | 0 <= i < |es| :: rows[i] == Row(stamp, es[i])
  {
    seq(|es|, i requires 0 <= i < |es| => Row(stamp, es[i]))
  }

  lemma StampedAppend(stamp: string, first: seq<Entry>, second: seq<Entry>)
    ensures Stamped(stamp, first) + Stamped(stamp, second) == Stamped(stamp, first + second)
  {}

  lemma StampedParts(before: seq<Row>, stamp: string, first: seq<Entry>, second: seq<Entry>)
    ensures before + Stamped(stamp, first) + Stamped(stamp, second) == before + Stamped(stamp, first + second)
  {}

  lemma {:induction false} TakenCount(world: World, stamp: string, turns: nat)
    requires Undisturbed(world, turns)
    ensures |Taken(world, stamp, turns)| == turns
    ensures forall k | 0 <= k < turns :: [Taken(world, stamp, turns)[k]] == TurnSample(world, stamp)(k)
  {
    if turns > 0 {
      assert TurnFailure(world, turns - 1).None?;
      TakenCount(world, stamp, turns - 1);
    }
  }

  // The world leaves no choice: the outcome and the number of turns are determined.
  lemma StopsOnce(c: Config, world: World, o1: Outcome, n1: nat, o2: Outcome, n2: nat)
    requires Stops(c, world, o1, n1) && Stops(c, world, o2, n2)
    ensures o1 == o2 && n1 == n2
  {
    if n1 < n2 {
      StopsFirst(c, world, o1, n1, o2, n2);
    } else if n2 < n1 {
      StopsFirst(c, world, o2, n2, o1, n1);
    }
  }

  // Where the loop has stopped it does not go on.
  lemma StopsFirst(c: Config, world: World, o1: Outcome, n1: nat, o2: Outcome, n2: nat)
    requires Stops(c, world, o1, n1) && Stops(c, world, o2, n2)
    ensures !(n1 < n2)
  {}

  lemma CompletesUndisturbed(c: Config, world: World, outcome: Outcome, turns: nat)
    requires Stops(c, world, outcome, turns)
    ensures world.procThere(0) && c.interval >= 0 && (forall k: nat :: TurnFailure(world, k).None?) ==>
              outcome.Completed?
  {}

  // The loop completes exactly when some turn reaches the duration with no failure before, and
  // the pauses before it are allowed.
  lemma CompletesIff(c: Config, world: World, outcome: Outcome, turns: nat)
    requires Stops(c, world, outcome, turns)
    ensures outcome.Completed? <==>
            exists n: nat :: Finished(c, world, n) && Undisturbed(world, n) && world.procThere(0)
                             && (c.interval >= 0 || n == 1)
  {
    if n: nat :| Finished(c, world, n) && Undisturbed(world, n) && world.procThere(0)
                 && (c.interval >= 0 || n == 1)
    {
      StopsOnce(c, world, outcome, turns, Completed(n), n);
    }
  }

  // How the loop ends from some turn on, and after how many turns in all.
  function End(c: Config, world: World, turn: nat, bound: nat): (Outcome, nat)
    requires turn <= bound && world.seconds(bound) >= c.duration
    decreases bound - turn
  {
    if TurnFailure(world, turn).Some? then (TurnFailure(world, turn).value, turn)
    else if world.seconds(turn) >= c.duration then (Completed(turn + 1), turn + 1)
    else if c.interval < 0 then (SleepRejected, turn + 1)
    else End(c, world, turn + 1, bound)
  }

  // Where the loop goes on the bound is still ahead.
  lemma EndNext(c: Config, world: World, turn: nat, bound: nat)
    requires turn <= bound && world.seconds(bound) >= c.duration
    ensures End(c, world, turn, bound) ==
            if TurnFailure(world, turn).Some? then (TurnFailure(world, turn).value, turn)
            else if world.seconds(turn) >= c.duration then (Completed(turn + 1), turn + 1)
            else if c.interval < 0 then (SleepRejected, turn + 1)
            else End(c, world, turn + 1, bound)
    ensures world.seconds(turn) < c.duration ==> turn < bound
  {}

  lemma {:induction false} EndStops(c: Config, world: World, turn: nat, bound: nat)
    requires turn <= bound && world.seconds(bound) >= c.duration && world.procThere(0)
    requires Undisturbed(world, turn) && Below(c, world, turn) && (c.interval < 0 ==> turn == 0)
    ensures var (outcome, turns) := End(c, world, turn, bound);
            Stops(c, world, outcome, turns) && Undisturbed(world, turns) && turns <= bound + 1
    decreases bound - turn
  {
    if TurnFailure(world, turn).None? && world.seconds(turn) < c.duration && c.interval >= 0 {
      EndStops(c, world, turn + 1, bound);
    }
  }

  // ----- the loop turn by turn -----

  function StateAt(c: Config, world: World, turns: nat): LoopState {
    if turns == 0 then LOOP_START else LoopStep(c, StateAt(c, world, turns - 1), world.seconds(turns - 1))
  }

  ghost function States(c: Config, world: World): nat -> LoopState { (turns: nat) => StateAt(c, world, turns) }

  // The rows a turn logs.
  ghost function TurnRows(c: Config, world: World, stamp: string): nat -> seq<Row> {
    (turn: nat) => Stamped(stamp, TurnEntries(c, StateAt(c, world, turn), world.seconds(turn)))
  }

  ghost predicate Follows(c: Config, world: World, state: nat -> LoopState) {
    state(0) == LOOP_START && forall k: nat :: state(k + 1) == LoopStep(c, state(k), world.seconds(k))
  }

  ghost predicate Logs(c: Config, world: World, stamp: string, state: nat -> LoopState, part: nat -> seq<Row>) {
    forall k: nat :: part(k) == Stamped(stamp, TurnEntries(c, state(k), world.seconds(k)))
  }

  ghost predicate Samples(world: World, stamp: string, sample: nat -> seq<SampleRow>) {
    forall k: nat | world.memory(k).Some? ::
      sample(k) == [SampleRow(stamp, world.seconds(k), world.memory(k).value)]
  }

  lemma LoopParts(c: Config, world: World, stamp: string)
    ensures Follows(c, world, States(c, world))
    ensures Logs(c, world, stamp, States(c, world), TurnRows(c, world, stamp))
    ensures Samples(world, stamp, TurnSample(world, stamp))
  {}

  lemma LoopNext(c: Config, world: World, turns: nat)
    ensures RunLoop(c, Readings(world, turns + 1)) ==
            LoopStep(c, RunLoop(c, Readings(world, turns)), world.seconds(turns))
  {
    var rs := Readings(world, turns + 1);
    assert rs[..turns] == Readings(world, turns);
  }

  lemma {:induction false} StateAtLoop(c: Config, world: World, turns: nat)
    ensures StateAt(c, world, turns) == RunLoop(c, Readings(world, turns))
  {
    if turns > 0 {
      StateAtLoop(c, world, turns - 1);
      LoopNext(c, world, turns - 1);
    }
  }

  lemma LoopRows(c: Config, world: World, stamp: string, turns: nat)
    ensures Gathered([], TurnRows(c, world, stamp), turns) ==
            Stamped(stamp, RunLoop(c, Readings(world, turns)).entries)
  {
    StateAtLoop(c, world, turns);
    LoopParts(c, world, stamp);
    StateRows(c, world, stamp, States(c, world), TurnRows(c, world, stamp), turns);
  }

  lemma {:induction false} StateRows(c: Config, world: World, stamp: string, state: nat -> LoopState,
                                     part: nat -> seq<Row>, turns: nat)
    requires Follows(c, world, state) && Logs(c, world, stamp, state, part)
    ensures Gathered([], part, turns) == Stamped(stamp, state(turns).entries)
  {
    if turns > 0 {
      StateRows(c, world, stamp, state, part, turns - 1);
      var before, log := state(turns - 1).entries, TurnEntries(c, state(turns - 1), world.seconds(turns - 1));
      assert state(turns - 1 + 1) == LoopStep(c, state(turns - 1), world.seconds(turns - 1));
      assert part(turns - 1) == Stamped(stamp, log);
      StampedAppend(stamp, before, log);
    }
  }

  // ----- the rows of a run -----

  function PyBool(b: bool): string { if b then "True" else "False" }

  function Started(pid: nat): Entry { Entry(0, "lab_started", "lab", "PID=" + Decimal(pid)) }

  function SubsystemConfig(c: Config): Entry {
    Entry(0, "subsystem_config", "lab",
          "heartbeat=" + PyBool(c.heartbeat) + ",wg=" + PyBool(c.wgCheck) + ",bgp_bfd=" + PyBool(c.bgpBfd))
  }

  function NativeConfig(c: Config): Entry {
    Entry(0, "native_config", "lab",
          "events=" + PyBool(c.nativeEvents) + ",heartbeat=" + PyBool(c.disableHeartbeat)
          + ",wg=" + PyBool(c.disableWg) + ",bgp=" + PyBool(c.disableBgp) + ",bfd=" + PyBool(c.disableBfd))
  }

  function Opening(c: Config, pid: nat): seq<Entry> {
    [Started(pid), SubsystemConfig(c)] + (if c.nativeEvents then [NativeConfig(c)] else [])
  }

  function BurstStart(b: Burst): Entry { Entry(b.start, "status_burst_start", "status", "5000 requests") }

  function BurstEnd(b: Burst): Entry {
    Entry(b.end, "status_burst_complete", "status", "duration=" + IntText(b.took) + "s")
  }

  function BurstEntries(b: Burst): seq<Entry> { [BurstStart(b), BurstEnd(b)] }

  function IdleComplete(c: Config, samples: nat): Entry {
    Entry(c.duration, "idle_complete", "lab", "sampled=" + IntText(samples) + " times")
  }

  function Shutdown(c: Config): Entry { Entry(c.duration, "shutdown", "lab", "stopping") }

  function Ending(c: Config, samples: nat, burst: Burst): seq<Entry> {
    (if c.statusBurst then BurstEntries(burst) else []) + ([IdleComplete(c, samples)] + [Shutdown(c)])
  }

  function RunEntries(c: Config, pid: nat, readings: seq<int>, burst: Burst): seq<Entry> {
    Opening(c, pid) + RunLoop(c, readings).entries + Ending(c, |readings|, burst)
  }

  // How the rows of a completed run begin; then come those of the loop.
  lemma RunOpens(c: Config, pid: nat, readings: seq<int>, burst: Burst)
    ensures var es, loop := RunEntries(c, pid, readings, burst), RunLoop(c, readings).entries;
            var front := if c.nativeEvents then 3 else 2;
            && |es| == front + |loop| + (if c.statusBurst then 4 else 2)
            && es[0] == Entry(0, "lab_started", "lab", "PID=" + Decimal(pid))
            && es[1].event == "subsystem_config" && es[1].subsystem == "lab" && es[1].elapsed == 0
            && (c.nativeEvents ==> es[2].event == "native_config" && es[2].subsystem == "lab" && es[2].elapsed == 0)
            && es[front..front + |loop|] == loop
  {
    var opening, ending := Opening(c, pid), Ending(c, |readings|, burst);
    ThreeParts(opening, RunLoop(c, readings).entries, ending);
    assert forall i | 0 <= i < |opening| :: RunEntries(c, pid, readings, burst)[i] == opening[i];
  }

  // And how they end.
  lemma RunCloses(c: Config, pid: nat, readings: seq<int>, burst: Burst)
    ensures var es := RunEntries(c, pid, readings, burst);
            var n := |es|;
            && n >= 4
            && (c.statusBurst ==>
                && es[n - 4] == Entry(burst.start, "status_burst_start", "status", "5000 requests")
                && es[n - 3] == Entry(burst.end, "status_burst_complete", "status",
                                      "duration=" + IntText(burst.took) + "s"))
            && es[n - 2] == Entry(c.duration, "idle_complete", "lab", "sampled=" + IntText(|readings|) + " times")
            && es[n - 1] == Entry(c.duration, "shutdown", "lab", "stopping")
  {
    var before, last := Opening(c, pid) + RunLoop(c, readings).entries, IdleComplete(c, |readings|);
    BehindAll(before, if c.statusBurst then BurstEntries(burst) else [], last, Shutdown(c));
  }

  lemma BehindAll<T>(before: seq<T>, part: seq<T>, x: T, y: T)
    ensures var s := before + (part + ([x] + [y]));
            && |s| == |before| + |part| + 2 && s[|s| - 1] == y && s[|s| - 2] == x
            && (|part| == 2 ==> s[|s| - 4] == part[0] && s[|s| - 3] == part[1])
  {}

  lemma CleanAppend(s: string, t: string)
    requires CleanField(s) && CleanField(t)
    ensures CleanField(s + t)
  {}

  lemma TickDetailClean(elapsed: int, tick: nat)
    ensures CleanField(TickDetail(elapsed, tick))
  {
    IntTextClean(elapsed);
    IntTextClean(tick);
    assert IntText(tick) == Decimal(tick);
    CleanAppend("uptime=", IntText(elapsed));
    CleanAppend("uptime=" + IntText(elapsed), "s,tick=");
    CleanAppend("uptime=" + IntText(elapsed) + "s,tick=", Decimal(tick));
  }

  lemma TickClean(elapsed: int, tick: nat)
    ensures CleanEntry(TickEntry(elapsed, tick))
  {
    TickDetailClean(elapsed, tick);
  }

  lemma WgClean(elapsed: int)
    ensures CleanEntry(WgEntry(elapsed))
  {}

  lemma BgpClean(elapsed: int)
    ensures CleanEntry(BgpEntry(elapsed))
  {}

  lemma BfdClean(elapsed: int)
    ensures CleanEntry(BfdEntry(elapsed))
  {}

  lemma BurstDetailClean(took: int)
    ensures CleanField("duration=" + IntText(took) + "s")
  {
    IntTextClean(took);
    CleanAppend("duration=", IntText(took));
    CleanAppend("duration=" + IntText(took), "s");
  }

  lemma BurstStartClean(b: Burst)
    ensures CleanEntry(BurstStart(b))
  {}

  lemma BurstEndClean(b: Burst)
    ensures CleanEntry(BurstEnd(b))
  {
    BurstDetailClean(b.took);
  }

  lemma ClosingClean(c: Config, samples: nat)
    ensures CleanEntry(IdleComplete(c, samples)) && CleanEntry(Shutdown(c))
  {
    IntTextClean(samples);
    CleanAppend("sampled=", IntText(samples));
    CleanAppend("sampled=" + IntText(samples), " times");
  }

  lemma SettingClean(key: string, b: bool)
    requires CleanField(key)
    ensures CleanField(key + PyBool(b))
  {}

  lemma StartedClean(pid: nat)
    ensures CleanEntry(Started(pid))
  {
    IntTextClean(pid);
    assert IntText(pid) == Decimal(pid);
    CleanAppend("PID=", Decimal(pid));
  }

  lemma SubsystemConfigClean(c: Config)
    ensures CleanEntry(SubsystemConfig(c))
  {
    SubsystemDetailClean(c);
  }

  lemma SubsystemDetailClean(c: Config)
    ensures CleanField(SubsystemConfig(c).detail)
  {
    var a := "heartbeat=" + PyBool(c.heartbeat);
    SettingClean("heartbeat=", c.heartbeat);
    CleanAppend(a, ",wg=");
    SettingClean(a + ",wg=", c.wgCheck);
    var b := a + ",wg=" + PyBool(c.wgCheck);
    CleanAppend(b, ",bgp_bfd=");
    SettingClean(b + ",bgp_bfd=", c.bgpBfd);
  }

  lemma NativeConfigClean(c: Config)
    ensures CleanEntry(NativeConfig(c))
  {
    NativeDetailClean(c);
  }

  lemma NativeDetailClean(c: Config)
    ensures CleanField(NativeConfig(c).detail)
  {
    SettingClean("events=", c.nativeEvents);
    var a := "events=" + PyBool(c.nativeEvents);
    CleanAppend(a, ",heartbeat=");
    SettingClean(a + ",heartbeat=", c.disableHeartbeat);
    var b := a + ",heartbeat=" + PyBool(c.disableHeartbeat);
    CleanAppend(b, ",wg=");
    SettingClean(b + ",wg=", c.disableWg);
    var d := b + ",wg=" + PyBool(c.disableWg);
    CleanAppend(d, ",bgp=");
    SettingClean(d + ",bgp=", c.disableBgp);
    var e := d + ",bgp=" + PyBool(c.disableBgp);
    CleanAppend(e, ",bfd=");
    SettingClean(e + ",bfd=", c.disableBfd);
  }

  // ----- what a completed run leaves -----

  // Main result. The timeline of every completed run passes the verifier's timeline check, and
  // every such timeline carries the shell-synthetic marker.
  lemma CompletedRunTimeline(rows: seq<Row>, c: Config, pid: nat, readings: seq<int>, burst: Burst, stamp: string)
    requires CleanRows(rows) && rows == Stamped(stamp, RunEntries(c, pid, readings, burst))
    ensures CheckTimeline(TimelineText(rows)) == None
    ensures ShellSynthetic(TimelineText(rows))
  {
    var es, n := RunEntries(c, pid, readings, burst), |rows|;
    assert es[n - 1] == Shutdown(c);
    assert es[0] == Started(pid) && es[1] == SubsystemConfig(c);
    assert rows[0].entry.event in ["lab_started"];
    assert rows[n - 1].entry.event in TERMINAL_EVENTS by { assert TERMINAL_EVENTS[1] == "shutdown"; }
    assert HasEvent(rows, ["lab_started"]) && HasEvent(rows, TERMINAL_EVENTS);
    assert "stopping"[|"stopping"| - 1] == 'g';
    WrittenTimeline(rows);
    ConfigRowIsSynthetic(rows, 1);
  }

  // What the files of a completed run say.
  lemma RunArtifacts(timelineLayout: Layout<Row>, sampleLayout: Layout<SampleRow>, rows: seq<Row>,
                     taken: seq<SampleRow>, c: Config, pid: nat, readings: seq<int>, burst: Burst, stamp: string)
    requires timelineLayout == TIMELINE && sampleLayout == SAMPLES
    requires CleanRows(rows) && rows == Stamped(stamp, RunEntries(c, pid, readings, burst))
    requires CleanSamples(taken) && taken != []
    ensures CheckTimeline(TableText(timelineLayout, rows)) == None && ShellSynthetic(TableText(timelineLayout, rows))
    ensures CheckSamples(TableText(sampleLayout, taken)) == None <==> NonNegative(taken)
    ensures SamplesIn(TableText(sampleLayout, taken)) == Map(taken, SampleOf)
  {
    CompletedRunTimeline(rows, c, pid, readings, burst, stamp);
    SamplesRoundTrip(taken);
    WrittenSamples(taken);
  }
}
