/** The staircase analyzer: memory steps, native events near them, and the verdict. */
module LabAnalyzer {
  import opened Sequences
  import opened Text
  import opened LabTables
  import opened LabSamples
  import opened LabNatives

  const STEP_THRESHOLD_KIB := 50
  const CONFIRMED_LEAK_MIN_STEPS := 3
  const CONFIRMED_LEAK_MIN_GROWTH_KIB := 500

  const SUBSYSTEMS: seq<string> := ["heartbeat", "wireguard", "bgp", "bfd", "health", "status"]

  // ----- samples -----

  // Rows without a positive resident set are left out.
  function Extract(rows: seq<Sample>): (v: seq<Sample>)
    ensures forall i | 0 <= i < |v| :: v[i].1 > 0
  {
    if rows == [] then [] else (if rows[0].1 > 0 then [rows[0]] else []) + Extract(rows[1..])
  }

  lemma {:induction false} ExtractAppend(rows: seq<Sample>, more: seq<Sample>)
    ensures Extract(rows + more) == Extract(rows) + Extract(more)
  {
    if rows == [] {
      assert rows + more == more;
    } else {
      HeadTail(rows, more);
      ExtractAppend(rows[1..], more);
      Assoc(if rows[0].1 > 0 then [rows[0]] else [], Extract(rows[1..]), Extract(more));
    }
  }

  lemma ExtractNext(lines: seq<string>, i: nat)
    requires i < |lines|
    ensures var next := SampleOfLine(lines[i]);
            Extract(ReadLines(lines[..i + 1], SampleOfLine)) ==
            Extract(ReadLines(lines[..i], SampleOfLine))
            + (if next.Some? && next.value.1 > 0 then [next.value] else [])
  {
    var before, next := ReadLines(lines[..i], SampleOfLine), SampleOfLine(lines[i]);
    ReadNext(lines, SampleOfLine, i);
    if next.Some? {
      ExtractAppend(before, [next.value]);
    } else {
      assert before + [] == before;
    }
  }

  method ExtractRssValues(content: string) returns (results: seq<Sample>)
    ensures results == Extract(SamplesIn(content))
  {
    results := [];
    var lines := LinesOf(content);
    for i := 1 to |lines|
      invariant results == Extract(ReadLines(lines[1..][..i - 1], SampleOfLine))
    {
      ExtractNext(lines[1..], i - 1);
      var sample := ReadSample(lines[i]);
      if sample.Some? && sample.value.1 > 0 {
        results := results + [sample.value];
      }
    }
    assert lines[1..][..|lines| - 1] == lines[1..];
  }

  method ReadSample(line: string) returns (sample: Option<Sample>)
    ensures sample == SampleOfLine(line)
  {
    var cols := Split(line, '\t');
    if |cols| < 3 {
      return None;
    }
    var elapsed := IntColumn(cols[1]);
    if elapsed.None? {
      return None;
    }
    var rss := IntColumn(cols[2]);
    if rss.None? {
      return None;
    }
    return Some((elapsed.value, rss.value));
  }

  predicate Rise(v: seq<Sample>, i: int)
    requires 0 < i < |v|
  {
    v[i - 1].1 > 0 && v[i].1 - v[i - 1].1 > STEP_THRESHOLD_KIB
  }

  // The samples that rise by more than the threshold over the one before.
  function RiseIndices(v: seq<Sample>): (idx: seq<int>)
    ensures forall k | 0 <= k < |idx| :: 0 < idx[k] < |v| && Rise(v, idx[k])
  {
    if |v| <= 1 then []
    else RiseIndices(v[..|v| - 1]) + (if Rise(v, |v| - 1) then [|v| - 1] else [])
  }

  function StepTimes(v: seq<Sample>): (times: seq<int>)
    ensures |times| == |RiseIndices(v)|
  {
    seq(|RiseIndices(v)|, k requires 0 <= k < |RiseIndices(v)| => v[RiseIndices(v)[k]].0)
  }

  function Growth(v: seq<Sample>): int {
    if |v| >= 2 then v[|v| - 1].1 - v[0].1 else 0
  }

  lemma {:induction false} RiseIndicesExact(v: seq<Sample>)
    ensures forall i, j | 0 <= i < j < |RiseIndices(v)| :: RiseIndices(v)[i] < RiseIndices(v)[j]
    ensures forall i | 0 < i < |v| :: Rise(v, i) <==> i in RiseIndices(v)
  {
    if |v| > 1 {
      var w := v[..|v| - 1];
      RiseIndicesExact(w);
      forall i | 0 < i < |v| ensures Rise(v, i) <==> i in RiseIndices(v) {
        if i < |w| { assert Rise(v, i) <==> Rise(w, i); }
      }
    }
  }

  // The times of the steps: those of the samples more than 50 KiB above the one before.
  lemma StepTimesIff(v: seq<Sample>, t: int)
    requires forall i | 0 <= i < |v| :: v[i].1 > 0
    ensures t in StepTimes(v) <==> exists i | 0 < i < |v| :: v[i].1 - v[i - 1].1 > 50 && v[i].0 == t
  {
    RiseIndicesExact(v);
    var idx := RiseIndices(v);
    if t in StepTimes(v) {
      var k :| 0 <= k < |StepTimes(v)| && StepTimes(v)[k] == t;
      assert Rise(v, idx[k]) && v[idx[k]].0 == t;
    }
    if i :| 0 < i < |v| && v[i].1 - v[i - 1].1 > 50 && v[i].0 == t {
      assert Rise(v, i) && i in idx;
      var k :| 0 <= k < |idx| && idx[k] == i;
      assert StepTimes(v)[k] == t;
    }
  }

  method DetectMemorySteps(v: seq<Sample>) returns (steps: nat, timestamps: seq<int>)
    ensures timestamps == StepTimes(v) && steps == |RiseIndices(v)|
  {
    steps, timestamps := 0, [];
    var prevRss := 0;
    for i := 0 to |v|
      invariant prevRss == if i == 0 then 0 else v[i - 1].1
      invariant timestamps == StepTimes(v[..i]) && steps == |RiseIndices(v[..i])|
    {
      StepTimesNext(v, i);
      var (elapsed, rss) := v[i];
      if prevRss > 0 {
        var delta := rss - prevRss;
        if delta > STEP_THRESHOLD_KIB {
          steps := steps + 1;
          timestamps := timestamps + [elapsed];
        }
      }
      prevRss := rss;
    }
    assert v[..|v|] == v;
  }

  lemma StepTimesNext(v: seq<Sample>, i: nat)
    requires i < |v|
    ensures RiseIndices(v[..i + 1]) == RiseIndices(v[..i]) + (if i > 0 && Rise(v, i) then [i] else [])
    ensures StepTimes(v[..i + 1]) == StepTimes(v[..i]) + (if i > 0 && Rise(v, i) then [v[i].0] else [])
  {
    assert v[..i + 1][..i] == v[..i];
  }

  // ----- native events -----

  predicate Tagged(e: Native, subsystem: string) { Lower(e.subsystem) == subsystem }

  function Abs(x: int): int { if x < 0 then -x else x }

  // The analyzer's window: the event's whole seconds against the step's.
  predicate SecondsWindow(millis: int, step: int) { Abs(millis / 1000 - step) <= 30 }

  predicate NearStep(e: Native, steps: seq<int>) {
    exists t | t in steps :: SecondsWindow(e.elapsedMillis, t)
  }

  function CountOf(events: seq<Native>, subsystem: string): nat {
    if events == [] then 0
    else CountOf(events[..|events| - 1], subsystem) + (if Tagged(events[|events| - 1], subsystem) then 1 else 0)
  }

  function CorrelatedOf(events: seq<Native>, steps: seq<int>, subsystem: string): nat {
    if events == [] then 0
    else
      var e := events[|events| - 1];
      CorrelatedOf(events[..|events| - 1], steps, subsystem)
      + (if Tagged(e, subsystem) && NearStep(e, steps) then 1 else 0)
  }

  ghost predicate CountsFor(m: map<string, nat>, f: string -> nat) {
    (forall s :: s in m <==> s in SUBSYSTEMS) && forall s | s in m :: m[s] == f(s)
  }

  const ZERO_COUNTS: map<string, nat> :=
    map["heartbeat" := 0, "wireguard" := 0, "bgp" := 0, "bfd" := 0, "health" := 0, "status" := 0]

  method CountNativeEventsBySubsystem(events: seq<Native>) returns (counts: map<string, nat>)
    ensures CountsFor(counts, s => CountOf(events, s))
  {
    counts := ZERO_COUNTS;
    for i := 0 to |events|
      invariant CountsFor(counts, s => CountOf(events[..i], s))
    {
      assert events[..i + 1][..i] == events[..i];
      var subsystem := Lower(events[i].subsystem);
      if subsystem in counts {
        counts := counts[subsystem := counts[subsystem] + 1];
      }
    }
    assert events[..|events|] == events;
  }

  method CorrelateNativeEventsWithSteps(events: seq<Native>, steps: seq<int>) returns (correlated: map<string, nat>)
    ensures CountsFor(correlated, s => CorrelatedOf(events, steps, s))
  {
    correlated := ZERO_COUNTS;
    if steps == [] {
      NoStepsNoCorrelation(events);
      return;
    }
    for i := 0 to |events|
      invariant CountsFor(correlated, s => CorrelatedOf(events[..i], steps, s))
    {
      assert events[..i + 1][..i] == events[..i];
      var subsystem := Lower(events[i].subsystem);
      var near := false;
      for k := 0 to |steps|
        invariant !near
        invariant forall t | t in steps[..k] :: !SecondsWindow(events[i].elapsedMillis, t)
      {
        assert steps[..k + 1] == steps[..k] + [steps[k]];
        if Abs(events[i].elapsedMillis / 1000 - steps[k]) <= 30 {
          near := true;
          assert steps[k] in steps && SecondsWindow(events[i].elapsedMillis, steps[k]);
          break;
        }
      }
      assert steps[..|steps|] == steps;
      assert near == NearStep(events[i], steps);
      if near && subsystem in correlated {
        correlated := correlated[subsystem := correlated[subsystem] + 1];
      }
    }
    assert events[..|events|] == events;
  }

  lemma {:induction false} NoStepsNoCorrelation(events: seq<Native>)
    ensures forall s :: CorrelatedOf(events, [], s) == 0
  {
    if events != [] { NoStepsNoCorrelation(events[..|events| - 1]); }
  }

  // No subsystem has more correlated events than events.
  lemma {:induction false} CorrelatedAtMostCount(events: seq<Native>, steps: seq<int>, subsystem: string)
    ensures CorrelatedOf(events, steps, subsystem) <= CountOf(events, subsystem)
  {
    if events != [] { CorrelatedAtMostCount(events[..|events| - 1], steps, subsystem); }
  }

  lemma {:induction false} CorrelatedPositive(events: seq<Native>, steps: seq<int>, subsystem: string)
    ensures CorrelatedOf(events, steps, subsystem) > 0 <==>
            exists e | e in events :: Tagged(e, subsystem) && NearStep(e, steps)
  {
    if events != [] {
      var init, last := events[..|events| - 1], events[|events| - 1];
      CorrelatedPositive(init, steps, subsystem);
      assert events == init + [last];
    }
  }

  // max() over the counts: the first subsystem with the largest one.
  function Dominant(events: seq<Native>, steps: seq<int>, names: seq<string>): (best: string)
    requires names != []
    ensures best in names
  {
    if |names| == 1 then names[0]
    else
      var best, last := Dominant(events, steps, names[..|names| - 1]), names[|names| - 1];
      if CorrelatedOf(events, steps, last) > CorrelatedOf(events, steps, best) then last else best
  }

  lemma {:induction false} DominantIsMax(events: seq<Native>, steps: seq<int>, names: seq<string>)
    requires names != []
    ensures var best := Dominant(events, steps, names);
            forall s | s in names :: CorrelatedOf(events, steps, s) <= CorrelatedOf(events, steps, best)
  {
    if |names| > 1 {
      var init := names[..|names| - 1];
      DominantIsMax(events, steps, init);
      assert names == init + [names[|names| - 1]];
    }
  }

  method FindDominant(events: seq<Native>, steps: seq<int>, names: seq<string>, correlated: map<string, nat>)
    returns (best: string)
    requires names != []
    requires forall name | name in names :: name in correlated && correlated[name] == CorrelatedOf(events, steps, name)
    ensures best == Dominant(events, steps, names)
  {
    best := names[0];
    for i := 1 to |names|
      invariant best in names && best == Dominant(events, steps, names[..i])
    {
      WithinPrefix(names, i + 1, 0, i);
      assert names[i] in names;
      if correlated[names[i]] > correlated[best] {
        best := names[i];
      }
    }
    assert names[..|names|] == names;
  }

  // ----- verdict -----

  datatype Verdict = ConfirmedLeak | Bounded | Inconclusive

  // What analyze writes into verdict.txt, as far as the verifier looks at it.
  datatype Report = Report(
    verdict: Verdict, owner: string, ownerEvidence: string, reason: string, steps: nat, growth: int)

  function Rate(v: seq<Sample>, duration: int): int {
    if |v| >= 2 && duration > 0 then (Growth(v) * 60) / duration else 0
  }

  // How the reasons are worded. The verdict chain is stated for any wording; SourceWording is
  // the analyzer's own.
  datatype Wording = Wording(
    unattributed: (nat, int, int) -> string,
    evidence: (string, nat, nat, nat, int) -> string,
    insufficient: (string, nat, nat, nat, int) -> string,
    uncorrelated: (nat, int) -> string,
    possible: (nat, int) -> string,
    bounded: int -> string,
    unclear: (int, int, nat) -> string)

  predicate Staircase(steps: nat, growth: int) {
    steps >= CONFIRMED_LEAK_MIN_STEPS && growth > CONFIRMED_LEAK_MIN_GROWTH_KIB
  }

  function Unattributed(steps: nat, growth: int, rate: int, w: Wording): Report {
    Report(Inconclusive, "", "", w.unattributed(steps, growth, rate), steps, growth)
  }

  // The verdict of a staircase when there are native events.
  function Attributed(v: seq<Sample>, natives: seq<Native>, w: Wording): Report {
    var steps, growth := |RiseIndices(v)|, Growth(v);
    var name := Dominant(natives, StepTimes(v), SUBSYSTEMS);
    var correlated, total := CorrelatedOf(natives, StepTimes(v), name), CountOf(natives, name);
    if correlated == 0 then Report(Inconclusive, "", "", w.uncorrelated(steps, growth), steps, growth)
    else if total < CONFIRMED_LEAK_MIN_STEPS then
      Report(Inconclusive, "", "", w.insufficient(name, correlated, total, steps, growth), steps, growth)
    else
      var evidence := w.evidence(name, correlated, total, steps, growth);
      Report(ConfirmedLeak, name, evidence, evidence, steps, growth)
  }

  function Analysis(rows: seq<Sample>, duration: int, natives: seq<Native>, w: Wording): Report {
    var v := Extract(rows);
    var steps, growth := |RiseIndices(v)|, Growth(v);
    if Staircase(steps, growth) then
      if natives == [] then Unattributed(steps, growth, Rate(v, duration), w) else Attributed(v, natives, w)
    else NoStaircase(steps, growth, duration, w)
  }

  function NoStaircase(steps: nat, growth: int, duration: int, w: Wording): Report {
    if steps >= 5 && growth > 200 then Report(Inconclusive, "", "", w.possible(steps, growth), steps, growth)
    else if growth > 1000 || growth < 200 then Report(Bounded, "", "", w.bounded(growth), steps, growth)
    else Report(Inconclusive, "", "", w.unclear(growth, duration, steps), steps, growth)
  }

  method MeasureGrowth(v: seq<Sample>, duration: int) returns (growth: int, rate: int)
    ensures growth == Growth(v) && rate == Rate(v, duration)
  {
    growth, rate := 0, 0;
    if |v| >= 2 {
      growth := v[|v| - 1].1 - v[0].1;
      if duration > 0 {
        rate := (growth * 60) / duration;
      }
    }
  }

  // The native events that count: none unless they were enabled and a timeline is there.
  function UsedNatives(enabled: bool, natives: Option<string>): seq<Native> {
    if enabled && natives.Some? then NativesIn(natives.value) else []
  }

  method Analyze(samples: string, nativeTimeline: Option<string>, nativeEvents: bool, duration: int, w: Wording)
    returns (report: Report)
    ensures report == Analysis(SamplesIn(samples), duration, UsedNatives(nativeEvents, nativeTimeline), w)
  {
    var v := ExtractRssValues(samples);
    var steps, times := DetectMemorySteps(v);
    var growth, rate := MeasureGrowth(v, duration);
    var natives := [];
    if nativeEvents {
      natives := ParseNativeEvents(nativeTimeline);
    }
    if steps >= CONFIRMED_LEAK_MIN_STEPS && growth > CONFIRMED_LEAK_MIN_GROWTH_KIB {
      if natives == [] {
        report := Unattributed(steps, growth, rate, w);
      } else {
        report := AttributeLeak(v, natives, steps, times, growth, w);
      }
    } else {
      report := JudgeGrowth(steps, growth, duration, w);
    }
  }

  // The part of the verdict chain after the staircase test.
  method JudgeGrowth(steps: nat, growth: int, duration: int, w: Wording) returns (report: Report)
    ensures report == NoStaircase(steps, growth, duration, w)
  {
    var verdict, reason := Inconclusive, "";
    if steps >= 5 && growth > 200 {
      reason := w.possible(steps, growth);
    } else if growth > 1000 {
      verdict, reason := Bounded, w.bounded(growth);
    } else if growth < 200 {
      verdict, reason := Bounded, w.bounded(growth);
    } else {
      reason := w.unclear(growth, duration, steps);
    }
    report := Report(verdict, "", "", reason, steps, growth);
  }

  method AttributeLeak(v: seq<Sample>, natives: seq<Native>, steps: nat, times: seq<int>, growth: int, w: Wording)
    returns (report: Report)
    requires times == StepTimes(v) && steps == |RiseIndices(v)| && growth == Growth(v)
    ensures report == Attributed(v, natives, w)
  {
    var eventCounts := CountNativeEventsBySubsystem(natives);
    var correlated := CorrelateNativeEventsWithSteps(natives, times);
    var name := FindDominant(natives, times, SUBSYSTEMS, correlated);
    var verdict, owner, evidence, reason := Inconclusive, "", "", "";
    if correlated[name] > 0 {
      if eventCounts[name] >= CONFIRMED_LEAK_MIN_STEPS {
        verdict, owner := ConfirmedLeak, name;
        evidence := w.evidence(name, correlated[name], eventCounts[name], steps, growth);
        reason := evidence;
      } else {
        reason := w.insufficient(name, correlated[name], eventCounts[name], steps, growth);
      }
    } else {
      reason := w.uncorrelated(steps, growth);
    }
    report := Report(verdict, owner, evidence, reason, steps, growth);
  }

  // ----- the analyzer's own wording -----

  datatype Counts = Counts(heartbeat: nat, wg: nat, bgp: nat, bfd: nat, health: nat, status: nat)

  function NativeCounts(natives: seq<Native>): Counts {
    Counts(CountOf(natives, "heartbeat"), CountOf(natives, "wireguard"), CountOf(natives, "bgp"),
           CountOf(natives, "bfd"), CountOf(natives, "health"), CountOf(natives, "status"))
  }

  function CountsText(c: Counts): string {
    "heartbeat=" + Decimal(c.heartbeat) + ", wg=" + Decimal(c.wg) + ", bgp=" + Decimal(c.bgp)
    + ", bfd=" + Decimal(c.bfd)
  }

  function UnattributedParts(steps: nat, growth: int, rate: int): seq<string> {
    ["Staircase growth detected (", IntText(steps), " steps, ", IntText(growth), " KiB total, ", IntText(rate),
     " KiB/min) but ", "owner is unattributed", ". Events are shell-side synthetic ",
     "and cannot be used for attribution. ", "Need tovarisch-native event emission to ",
     "identify the periodic background owner."]
  }

  function UnattributedReason(steps: nat, growth: int, rate: int): string {
    Concat(UnattributedParts(steps, growth, rate))
  }

  function EvidenceParts(owner: string, correlated: nat, total: nat, steps: nat, growth: int): seq<string> {
    ["Native events from ", owner, " subsystem correlate with ", IntText(correlated), " memory steps. Total ", owner,
     " native events: ", IntText(total), ". Growth pattern: ", IntText(steps), " steps, ", IntText(growth),
     " KiB total."]
  }

  function EvidenceText(owner: string, correlated: nat, total: nat, steps: nat, growth: int): string {
    Concat(EvidenceParts(owner, correlated, total, steps, growth))
  }

  function InsufficientParts(name: string, correlated: nat, total: nat, steps: nat, growth: int): seq<string> {
    ["Native events present ", "but insufficient ", "for attribution. ", "Correlated ", name, " events: ",
     IntText(correlated), ", total ", name, " events: ", IntText(total), " (need >= 3). Growth: ", IntText(steps),
     " steps, ", IntText(growth), " KiB."]
  }

  function InsufficientReason(name: string, correlated: nat, total: nat, steps: nat, growth: int): string {
    Concat(InsufficientParts(name, correlated, total, steps, growth))
  }

  function UncorrelatedParts(steps: nat, growth: int): seq<string> {
    ["Native events present ", "but none correlate ", "with memory steps. ", "Growth: ", IntText(steps), " steps, ",
     IntText(growth), " KiB. ", "Need native events ", "near memory step ", "timestamps for ", "attribution."]
  }

  function UncorrelatedReason(steps: nat, growth: int): string { Concat(UncorrelatedParts(steps, growth)) }

  function PossibleParts(steps: nat, growth: int, source: string, c: Counts): seq<string> {
    ["Possible staircase pattern: ", IntText(steps), " steps, ", IntText(growth), " KiB. ", source, CountsText(c),
     ". Need longer observation ", "or targeted testing."]
  }

  function PossibleReason(steps: nat, growth: int, source: string, c: Counts): string {
    Concat(PossibleParts(steps, growth, source, c))
  }

  function GrowthParts(growth: int, c: Counts): seq<string> {
    ["Detected ", IntText(growth), " KiB growth but no clear ", "staircase pattern ",
     "(may be normal warmup or allocator ", "high water mark settling). ", "Event counts: ", CountsText(c), "."]
  }

  function GrowthReason(growth: int, c: Counts): string { Concat(GrowthParts(growth, c)) }

  function MinimalParts(growth: int, c: Counts): seq<string> {
    ["Minimal growth detected (", IntText(growth), " KiB) - likely bounded by ", "allocator high water mark ",
     "or normal warmup. ", "Event counts: ", CountsText(c), "."]
  }

  function MinimalReason(growth: int, c: Counts): string { Concat(MinimalParts(growth, c)) }

  function UnclearParts(growth: int, duration: int, steps: nat, c: Counts): seq<string> {
    ["Growth pattern unclear: ", IntText(growth), " KiB over ", IntText(duration), "s with ", IntText(steps),
     " steps. ", "Event counts: ", CountsText(c), "."]
  }

  function UnclearReason(growth: int, duration: int, steps: nat, c: Counts): string {
    Concat(UnclearParts(growth, duration, steps, c))
  }

  function PossibleWording(shell: Counts, natives: seq<Native>): (nat, int) -> string {
    (steps: nat, growth: int) =>
      if natives == [] then PossibleReason(steps, growth, "Event counts: ", shell)
      else PossibleReason(steps, growth, "Native events: ", NativeCounts(natives))
  }

  function BoundedWording(shell: Counts): int -> string {
    (growth: int) => if growth > 1000 then GrowthReason(growth, shell) else MinimalReason(growth, shell)
  }

  function UnclearWording(shell: Counts): (int, int, nat) -> string {
    (growth: int, duration: int, steps: nat) => UnclearReason(growth, duration, steps, shell)
  }

  // The reasons as written for the event counts of the shell timeline and the native events.
  function SourceWording(shell: Counts, natives: seq<Native>): Wording {
    Wording(UnattributedReason, EvidenceText, InsufficientReason, UncorrelatedReason,
            PossibleWording(shell, natives), BoundedWording(shell), UnclearWording(shell))
  }

  // ----- what is counted -----

  ghost predicate RisesAt(v: seq<Sample>, i: int)
    requires 0 < i < |v|
  {
    v[i].1 - v[i - 1].1 > 50
  }

  ghost function RisePlaces(v: seq<Sample>): set<int> { set i | 0 < i < |v| && RisesAt(v, i) }

  lemma RisePlacesLast(v: seq<Sample>)
    requires |v| > 1
    ensures var n := |v| - 1; |RisePlaces(v)| == |RisePlaces(v[..n])| + if RisesAt(v, n) then 1 else 0
  {
    var n := |v| - 1;
    var w := v[..n];
    assert forall i | 0 < i < n :: RisesAt(v, i) <==> RisesAt(w, i);
    assert RisePlaces(v) == RisePlaces(w) + if RisesAt(v, n) then {n} else {};
  }

  // The steps are counted by the samples more than 50 KiB above the one before.
  lemma {:induction false} StepsCounted(v: seq<Sample>)
    requires forall i | 0 <= i < |v| :: v[i].1 > 0
    ensures |RiseIndices(v)| == |RisePlaces(v)|
  {
    if |v| > 1 {
      StepsCounted(v[..|v| - 1]);
      RisePlacesLast(v);
    }
  }

  ghost function OfSubsystem(subsystem: string): Native -> bool { (e: Native) => Lower(e.subsystem) == subsystem }

  // The event's whole seconds lie within 30 of a step.
  ghost predicate NearSeconds(e: Native, steps: seq<int>) {
    exists t | t in steps :: -30 <= e.elapsedMillis / 1000 - t <= 30
  }

  ghost function OfSubsystemNear(subsystem: string, steps: seq<int>): Native -> bool {
    (e: Native) => Lower(e.subsystem) == subsystem && NearSeconds(e, steps)
  }

  lemma NearSecondsIff(e: Native, steps: seq<int>)
    ensures NearStep(e, steps) <==> NearSeconds(e, steps)
  {
    if t :| t in steps && SecondsWindow(e.elapsedMillis, t) { assert -30 <= e.elapsedMillis / 1000 - t <= 30; }
    if t :| t in steps && -30 <= e.elapsedMillis / 1000 - t <= 30 { assert SecondsWindow(e.elapsedMillis, t); }
  }

  ghost function TaggedCount(events: seq<Native>, subsystem: string): nat { |Places(events, OfSubsystem(subsystem))| }

  ghost function NearCount(events: seq<Native>, steps: seq<int>, subsystem: string): nat {
    |Places(events, OfSubsystemNear(subsystem, steps))|
  }

  // Each event counts once, for the subsystem it is tagged with.
  lemma {:induction false} EventsCounted(events: seq<Native>, steps: seq<int>, subsystem: string)
    ensures CountOf(events, subsystem) == TaggedCount(events, subsystem)
    ensures CorrelatedOf(events, steps, subsystem) == NearCount(events, steps, subsystem)
  {
    if events != [] {
      var n := |events| - 1;
      EventsCounted(events[..n], steps, subsystem);
      PlacesLast(events, OfSubsystem(subsystem));
      PlacesLast(events, OfSubsystemNear(subsystem, steps));
      NearSecondsIff(events[n], steps);
    }
  }

  // Of subsystems with as many correlated events the first one is chosen.
  lemma {:induction false} DominantIsFirst(events: seq<Native>, steps: seq<int>, names: seq<string>) returns (k: nat)
    requires names != []
    ensures var best := Dominant(events, steps, names);
            && k < |names| && names[k] == best
            && forall j | 0 <= j < k :: CorrelatedOf(events, steps, names[j]) < CorrelatedOf(events, steps, best)
  {
    k := 0;
    if |names| > 1 {
      var init, last := names[..|names| - 1], names[|names| - 1];
      k := DominantIsFirst(events, steps, init);
      var best := Dominant(events, steps, init);
      if CorrelatedOf(events, steps, last) > CorrelatedOf(events, steps, best) {
        DominantIsMax(events, steps, init);
        k := |names| - 1;
        assert forall j | 0 <= j < k :: names[j] in init;
      }
    }
  }

  // The rate is the growth in a minute, rounded down; without two samples and a duration it is zero.
  lemma RateExact(v: seq<Sample>, duration: int)
    ensures if |v| >= 2 && duration > 0
            then Rate(v, duration) * duration <= (v[|v| - 1].1 - v[0].1) * 60 < (Rate(v, duration) + 1) * duration
            else Rate(v, duration) == 0
  {
    if |v| >= 2 && duration > 0 {
      var g := (v[|v| - 1].1 - v[0].1) * 60;
      assert g == duration * (g / duration) + g % duration;
    }
  }

  // ----- which verdict is given -----

  // The growth from the first sample to the last.
  ghost function LastMinusFirst(v: seq<Sample>): int {
    if |v| < 2 then 0 else v[|v| - 1].1 - v[0].1
  }

  // Main result. For all samples and native events: exactly when the verdict is bounded, and with
  // ConfirmedLeakIff so exactly when it is inconclusive; only a leak has an owner and evidence.
  lemma BoundedIff(rows: seq<Sample>, duration: int, natives: seq<Native>, w: Wording)
    ensures var v, r := Extract(rows), Analysis(rows, duration, natives, w);
            var steps, growth := |RisePlaces(v)|, LastMinusFirst(v);
            && r.steps == steps && r.growth == growth
            && (r.verdict == Bounded <==>
                && !(steps >= 3 && growth > 500) && !(steps >= 5 && growth > 200)
                && (growth > 1000 || growth < 200))
            && (r.verdict != ConfirmedLeak ==> r.owner == "" && r.ownerEvidence == "")
  {
    StepsCounted(Extract(rows));
  }

  // And which of the reasons is given.
  lemma ReasonExactly(rows: seq<Sample>, duration: int, natives: seq<Native>, w: Wording)
    ensures var v, r := Extract(rows), Analysis(rows, duration, natives, w);
            var steps, growth, times := |RisePlaces(v)|, LastMinusFirst(v), StepTimes(v);
            var name := Dominant(natives, times, SUBSYSTEMS);
            var near, total := NearCount(natives, times, name), TaggedCount(natives, name);
            && (steps >= 3 && growth > 500 && natives == [] ==>
                r.reason == w.unattributed(steps, growth, Rate(v, duration)))
            && (steps >= 3 && growth > 500 && natives != [] && near == 0 ==> r.reason == w.uncorrelated(steps, growth))
            && (steps >= 3 && growth > 500 && natives != [] && near > 0 && total < 3 ==>
                r.reason == w.insufficient(name, near, total, steps, growth))
            && (r.verdict == ConfirmedLeak ==>
                r.reason == w.evidence(name, near, total, steps, growth) && r.ownerEvidence == r.reason)
            && (r.verdict == Bounded ==> r.reason == w.bounded(growth))
            && (r.verdict == Inconclusive && !(steps >= 3 && growth > 500) ==>
                r.reason == if steps >= 5 && growth > 200 then w.possible(steps, growth)
                            else w.unclear(growth, duration, steps))
  {
    StepsCounted(Extract(rows));
    var times := StepTimes(Extract(rows));
    EventsCounted(natives, times, Dominant(natives, times, SUBSYSTEMS));
  }

  // Without native events, or with them switched off, nothing is confirmed.
  lemma NoNativesNoLeak(rows: seq<Sample>, duration: int, enabled: bool, natives: Option<string>, w: Wording)
    requires !enabled || natives.None? || NativesIn(natives.value) == []
    ensures Analysis(rows, duration, UsedNatives(enabled, natives), w).verdict != ConfirmedLeak
  {}

  // ----- what a confirmed leak means -----

  // The verdict is given exactly for three steps, more than 500 KiB of growth and a dominant
  // subsystem with three native events and one near a step; that subsystem is then the owner.
  lemma ConfirmedLeakIff(rows: seq<Sample>, duration: int, natives: seq<Native>, w: Wording)
    ensures var v, r := Extract(rows), Analysis(rows, duration, natives, w);
            var times, owner := StepTimes(v), Dominant(natives, StepTimes(v), SUBSYSTEMS);
            && (r.verdict == ConfirmedLeak <==>
                && |RiseIndices(v)| >= 3 && Growth(v) > 500
                && CorrelatedOf(natives, times, owner) > 0 && CountOf(natives, owner) >= 3)
            && (r.verdict == ConfirmedLeak ==> r.owner == owner && owner in SUBSYSTEMS)
  {
    var owner := Dominant(natives, StepTimes(Extract(rows)), SUBSYSTEMS);
    CorrelatedAtMostCount(natives, StepTimes(Extract(rows)), owner);
  }

  // Steps are rises of adjacent samples, in order.
  lemma StepsAreRises(v: seq<Sample>)
    ensures var idx := RiseIndices(v);
            && (forall i, j | 0 <= i < j < |idx| :: idx[i] < idx[j])
            && (forall k | 0 <= k < |idx| :: 0 < idx[k] < |v| && v[idx[k]].1 - v[idx[k] - 1].1 > 50)
  {
    RiseIndicesExact(v);
  }

  // The chosen subsystem is one no other exceeds.
  lemma DominantOwner(natives: seq<Native>, times: seq<int>)
    ensures var owner := Dominant(natives, times, SUBSYSTEMS);
            && (forall s | s in SUBSYSTEMS :: CorrelatedOf(natives, times, s) <= CorrelatedOf(natives, times, owner))
            && (forall s :: CorrelatedOf(natives, times, s) <= CountOf(natives, s))
            && (CorrelatedOf(natives, times, owner) > 0 <==>
                exists e | e in natives :: Tagged(e, owner) && NearStep(e, times))
  {
    DominantIsMax(natives, times, SUBSYSTEMS);
    CorrelatedPositive(natives, times, Dominant(natives, times, SUBSYSTEMS));
    forall s ensures CorrelatedOf(natives, times, s) <= CountOf(natives, s) {
      CorrelatedAtMostCount(natives, times, s);
    }
  }

  // Main result. A confirmed leak means: at least three samples each more than 50 KiB above the
  // one before, more than 500 KiB net growth, and an owner with at least three native events,
  // one of them within 30 s of a step, that no other subsystem exceeds in correlated events.
  lemma ConfirmedLeakSound(rows: seq<Sample>, duration: int, natives: seq<Native>, w: Wording)
    requires Analysis(rows, duration, natives, w).verdict == ConfirmedLeak
    ensures var v, owner := Extract(rows), Analysis(rows, duration, natives, w).owner;
            var idx, times := RiseIndices(v), StepTimes(v);
            && |idx| >= 3 && Growth(v) > 500 && owner in SUBSYSTEMS && CountOf(natives, owner) >= 3
            && (forall i, j | 0 <= i < j < |idx| :: idx[i] < idx[j])
            && (forall k | 0 <= k < |idx| :: 0 < idx[k] < |v| && v[idx[k]].1 - v[idx[k] - 1].1 > 50)
            && (exists e | e in natives :: Tagged(e, owner) && NearStep(e, times))
            && (forall s | s in SUBSYSTEMS :: CorrelatedOf(natives, times, s) <= CorrelatedOf(natives, times, owner))
            && (forall s :: CorrelatedOf(natives, times, s) <= CountOf(natives, s))
  {
    ConfirmedLeakIff(rows, duration, natives, w);
    StepsAreRises(Extract(rows));
    DominantOwner(natives, StepTimes(Extract(rows)));
  }
}
