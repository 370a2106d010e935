/**
 Whole lab artifacts: the files a run and the analyzer leave, the verifier over them, and when it
 accepts them.
 */
module LabArtifact {
  import opened Sequences
  import opened Text
  import opened LabTables
  import opened LabSamples
  import opened LabNatives
  import opened LabTimeline
  import opened LabRun
  import opened LabManifest
  import opened LabAnalyzer
  import opened LabVerifier
  import opened LabVerdictFile

  // The texts of the files; None is a missing file.
  datatype Artifact = Artifact(
    manifest: Option<string>, samples: Option<string>, timeline: Option<string>, verdict: Option<string>,
    natives: Option<string>)

  datatype ArtifactError =
    | FileMissing(name: string)
    | BadNatives(native: NativeError)
    | BadManifest(manifest: ManifestError)
    | BadSamples(samples: SamplesError)
    | BadTimeline(timeline: TimelineError)
    | BadVerdict(verdict: VerdictError)

  // What the verdict check reads besides the verdict.
  function EvidenceOf(a: Artifact): Evidence {
    Evidence(a.timeline,
             if a.natives.None? then None else Some(NativesIn(a.natives.value)),
             if a.samples.None? then [] else SamplesIn(a.samples.value))
  }

  ghost predicate Complete(a: Artifact) {
    a.manifest.Some? && a.samples.Some? && a.timeline.Some? && a.verdict.Some?
  }

  // verify_artifact: the first thing that is wrong.
  function Fault(a: Artifact): Option<ArtifactError> {
    if a.manifest.None? then Some(FileMissing("manifest.yaml"))
    else if a.samples.None? then Some(FileMissing("memory_samples.tsv"))
    else if a.timeline.None? then Some(FileMissing("event_timeline.tsv"))
    else if a.verdict.None? then Some(FileMissing("verdict.txt"))
    else if NativeRequired(a.manifest.value) && CheckNatives(a.natives).Some? then
      Some(BadNatives(CheckNatives(a.natives).value))
    else
      FailedCheck(CheckManifest(a.manifest.value), CheckSamples(a.samples.value), CheckTimeline(a.timeline.value),
                  CheckVerdictFile(a.verdict, EvidenceOf(a)))
  }

  function FailedCheck(manifest: Option<ManifestError>, samples: Option<SamplesError>,
                       timeline: Option<TimelineError>, verdict: Option<VerdictError>): Option<ArtifactError> {
    if manifest.Some? then Some(BadManifest(manifest.value))
    else if samples.Some? then Some(BadSamples(samples.value))
    else if timeline.Some? then Some(BadTimeline(timeline.value))
    else if verdict.Some? then Some(BadVerdict(verdict.value))
    else None
  }

  method VerifyArtifact(a: Artifact) returns (error: Option<ArtifactError>)
    ensures error == Fault(a)
  {
    if a.manifest.None? {
      return Some(FileMissing("manifest.yaml"));
    }
    if a.samples.None? {
      return Some(FileMissing("memory_samples.tsv"));
    }
    if a.timeline.None? {
      return Some(FileMissing("event_timeline.tsv"));
    }
    if a.verdict.None? {
      return Some(FileMissing("verdict.txt"));
    }
    if NativeRequired(a.manifest.value) {
      var nativeError := VerifyNativeEventTimeline(a.natives);
      if nativeError.Some? {
        return Some(BadNatives(nativeError.value));
      }
    }
    error := RunChecks(a);
  }

  // The checks of the required files, in order.
  method RunChecks(a: Artifact) returns (error: Option<ArtifactError>)
    requires a.manifest.Some? && a.samples.Some? && a.timeline.Some? && a.verdict.Some?
    requires NativeRequired(a.manifest.value) ==> CheckNatives(a.natives).None?
    ensures error == Fault(a)
  {
    var manifestError := VerifyManifest(a.manifest.value);
    if manifestError.Some? {
      return Some(BadManifest(manifestError.value));
    }
    var samplesError := VerifyMemorySamples(a.samples.value);
    if samplesError.Some? {
      return Some(BadSamples(samplesError.value));
    }
    var timelineError := VerifyEventTimeline(a.timeline.value);
    if timelineError.Some? {
      return Some(BadTimeline(timelineError.value));
    }
    var verdictError := VerifyVerdict(Some(FoundOf(a.verdict.value)), EvidenceOf(a));
    if verdictError.Some? {
      return Some(BadVerdict(verdictError.value));
    }
    return None;
  }

  // An artifact is accepted exactly when its files are there and pass their checks.
  lemma AcceptedIff(a: Artifact)
    ensures Fault(a).None? <==>
            && Complete(a)
            && (NativeRequired(a.manifest.value) ==> CheckNatives(a.natives).None?)
            && CheckManifest(a.manifest.value).None? && CheckSamples(a.samples.value).None?
            && CheckTimeline(a.timeline.value).None? && CheckVerdictFile(a.verdict, EvidenceOf(a)).None?
  {}

  // Main result. For the texts of any artifact, whoever made it: it is accepted exactly when the
  // required files are there and good, the native timeline is if the manifest asks for it, and the
  // verdict is one that its own figures and the evidence bear out.
  lemma ArtifactExactly(a: Artifact)
    ensures Fault(a).None? <==>
            && Complete(a)
            && (NativeRequired(a.manifest.value) ==> a.natives.Some? && GoodNatives(a.natives.value))
            && GoodManifest(a.manifest.value) && GoodSamples(a.samples.value) && GoodTimeline(a.timeline.value)
            && GoodVerdict(FoundOf(a.verdict.value), EvidenceOf(a))
  {
    AcceptedIff(a);
    if Complete(a) {
      NativesExactly(a.natives);
      ManifestExactly(a.manifest.value);
      SamplesExactly(a.samples.value);
      TimelineExactly(a.timeline.value);
      VerdictExactly(Some(FoundOf(a.verdict.value)), EvidenceOf(a));
    }
  }

  // ----- the artifact of a run -----

  // What a completed run leaves, with the rows and samples it logged.
  ghost predicate LeftByRun(a: Artifact, c: Config, pid: nat, readings: seq<int>, burst: Burst, stamp: string,
                            m: ManifestInfo, rows: seq<Row>, taken: seq<SampleRow>) {
    && a.manifest == Some(ManifestText(c, m))
    && a.timeline == Some(TimelineText(rows)) && CleanRows(rows)
    && rows == Stamped(stamp, RunEntries(c, pid, readings, burst))
    && a.samples == Some(SamplesText(taken)) && CleanSamples(taken) && taken != []
  }

  // The report of the analyzer over these files.
  function ReportOf(a: Artifact, c: Config, w: Wording): Report
    requires a.samples.Some?
  {
    Analysis(SamplesIn(a.samples.value), c.duration, UsedNatives(c.nativeEvents, a.natives), w)
  }

  ghost predicate AnalyzedBy(a: Artifact, c: Config, w: Wording, u: RunInfo) {
    a.samples.Some? && a.verdict == Some(VerdictFile(ReportOf(a, c, w), u))
  }

  // The files before the analyzer has run.
  function Unanalyzed(manifest: string, samples: string, timeline: string, natives: Option<string>): Artifact {
    Artifact(Some(manifest), Some(samples), Some(timeline), None, natives)
  }

  // main: the run, and the analyzer over what it left. The native timeline is what the child
  // wrote, and the manifest was written before the run.
  method LabMain(lab: Lab, c: Config, pid: nat, world: World, burst: Burst, stamp: string, m: ManifestInfo,
                 natives: Option<string>, w: Wording, u: RunInfo, ghost bound: nat)
    returns (outcome: Outcome, turns: nat, a: Artifact)
    requires lab.Valid() && lab.rows == [] && lab.taken == []
    requires CleanField(stamp) && world.seconds(bound) >= c.duration
    modifies lab
    ensures Stops(c, world, outcome, turns) && turns <= bound + 1 && a.natives == natives
    ensures outcome.Completed? ==>
              && LeftByRun(a, c, pid, Readings(world, turns), burst, stamp, m, lab.rows, lab.taken)
              && AnalyzedBy(a, c, w, u)
    ensures !outcome.Completed? ==> a.verdict.None?
  {
    outcome, turns, a := RunAndCollect(lab, c, pid, world, burst, stamp, m, natives, bound);
    if outcome.Completed? {
      a := RunAnalyzer(a, c, w, u);
    }
  }

  // The run and the files it leaves.
  method RunAndCollect(lab: Lab, c: Config, pid: nat, world: World, burst: Burst, stamp: string, m: ManifestInfo,
                       natives: Option<string>, ghost bound: nat)
    returns (outcome: Outcome, turns: nat, a: Artifact)
    requires lab.Valid() && lab.rows == [] && lab.taken == []
    requires CleanField(stamp) && world.seconds(bound) >= c.duration
    modifies lab
    ensures Stops(c, world, outcome, turns) && turns <= bound + 1
    ensures a.natives == natives && a.verdict.None? && a.samples.Some?
    ensures outcome.Completed? ==>
              LeftByRun(a, c, pid, Readings(world, turns), burst, stamp, m, lab.rows, lab.taken)
  {
    outcome, turns := lab.RunLab(c, pid, world, burst, stamp, bound);
    a := Unanalyzed(ManifestText(c, m), lab.samples, lab.timeline, natives);
    if outcome.Completed? {
      TakenCount(world, stamp, turns);
      RunLeaves(lab.timelineLayout, lab.sampleLayout, lab.rows, lab.taken, a, c, pid, Readings(world, turns), burst,
                stamp, m);
    }
  }

  method RunAnalyzer(a: Artifact, c: Config, w: Wording, u: RunInfo) returns (analyzed: Artifact)
    requires a.samples.Some?
    ensures analyzed == a.(verdict := analyzed.verdict) && AnalyzedBy(analyzed, c, w, u)
  {
    var report := Analyze(a.samples.value, a.natives, c.nativeEvents, c.duration, w);
    analyzed := a.(verdict := Some(VerdictFile(report, u)));
  }

  lemma RunLeaves(timelineLayout: Layout<Row>, sampleLayout: Layout<SampleRow>, rows: seq<Row>,
                  taken: seq<SampleRow>, a: Artifact, c: Config, pid: nat, readings: seq<int>, burst: Burst,
                  stamp: string, m: ManifestInfo)
    requires timelineLayout == TIMELINE && sampleLayout == SAMPLES
    requires a.manifest == Some(ManifestText(c, m))
    requires a.timeline == Some(TableText(timelineLayout, rows)) && a.samples == Some(TableText(sampleLayout, taken))
    requires CleanRows(rows) && rows == Stamped(stamp, RunEntries(c, pid, readings, burst))
    requires CleanSamples(taken) && taken != []
    ensures LeftByRun(a, c, pid, readings, burst, stamp, m, rows, taken)
  {}

  // Main result. The artifact of every completed run with the analyzer's verdict: it is accepted
  // exactly when no sample has a negative resident set, the native timeline is in order if the
  // manifest's flag asks for one, and the verdict is inconclusive or bounded within the verifier's
  // limits. A confirmed leak is never accepted.
  lemma RunArtifactIff(a: Artifact, c: Config, pid: nat, readings: seq<int>, burst: Burst, stamp: string,
                       m: ManifestInfo, rows: seq<Row>, taken: seq<SampleRow>, w: Wording, u: RunInfo)
    requires LeftByRun(a, c, pid, readings, burst, stamp, m, rows, taken) && AnalyzedBy(a, c, w, u)
    requires QuietWording(w)
    ensures var r := Analysis(Map(taken, SampleOf), c.duration, UsedNatives(c.nativeEvents, a.natives), w);
            Fault(a).None? <==>
            && NonNegative(taken)
            && (NativeRequired(ManifestText(c, m)) ==> CheckNatives(a.natives).None?)
            && (r.verdict == Inconclusive || (r.verdict == Bounded && r.growth <= 2000 && r.steps <= 10))
  {
    WrittenManifest(c, m);
    CompletedRunTimeline(rows, c, pid, readings, burst, stamp);
    SamplesRoundTrip(taken);
    WrittenSamples(taken);
    MarkedVerdictIff(a, c, w, u);
    AcceptedIff(a);
  }

  // The verdict check over a marked timeline.
  lemma MarkedVerdictIff(a: Artifact, c: Config, w: Wording, u: RunInfo)
    requires AnalyzedBy(a, c, w, u) && QuietWording(w) && a.timeline.Some? && ShellSynthetic(a.timeline.value)
    ensures var r := ReportOf(a, c, w);
            CheckVerdictFile(a.verdict, EvidenceOf(a)).None? <==>
            r.verdict == Inconclusive || (r.verdict == Bounded && r.growth <= 2000 && r.steps <= 10)
  {
    AnalysisFileIff(SamplesIn(a.samples.value), c.duration, UsedNatives(c.nativeEvents, a.natives), w, u,
                    EvidenceOf(a));
  }

  // A run without native events whose run id reads as the flag is refused for want of a native
  // timeline, whatever else it left.
  lemma RunIdRefused(a: Artifact, c: Config, m: ManifestInfo)
    requires Complete(a) && a.manifest == Some(ManifestText(c, m)) && a.natives == None
    requires !c.nativeEvents && m.runId == RUN_ID_FLAG && Unmistakable(m.generated)
    ensures Fault(a) == Some(BadNatives(NativeFileMissing))
  {
    RunIdTurnsFlag(c, m);
  }

  // Whatever else the artifact holds: with a completed run's timeline, which passes its own check,
  // no verdict file that says confirmed_leak is accepted.
  lemma RunNeverConfirmed(a: Artifact, c: Config, pid: nat, readings: seq<int>, burst: Burst, stamp: string,
                          rows: seq<Row>)
    requires a.timeline == Some(TimelineText(rows)) && CleanRows(rows)
    requires rows == Stamped(stamp, RunEntries(c, pid, readings, burst))
    ensures CheckTimeline(a.timeline.value) == None
    ensures a.verdict.Some? && FoundOf(a.verdict.value).verdict == Some("confirmed_leak") ==> Fault(a).Some?
  {
    CompletedRunTimeline(rows, c, pid, readings, burst, stamp);
    if a.verdict.Some? && FoundOf(a.verdict.value).verdict == Some("confirmed_leak") {
      MarkedNeverConfirmed(a, a.verdict.value);
    }
  }

  lemma MarkedNeverConfirmed(a: Artifact, content: string)
    requires a.timeline.Some? && ShellSynthetic(a.timeline.value)
    requires a.verdict == Some(content) && FoundOf(content).verdict == Some("confirmed_leak")
    ensures Fault(a).Some?
  {
    SyntheticNeverConfirmed(Some(FoundOf(content)), EvidenceOf(a));
    AcceptedIff(a);
  }
}
