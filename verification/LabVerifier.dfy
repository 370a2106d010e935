/**
 The independent verifier's verdict check, and how far it agrees with what the analyzer writes.
 The verdict file is kept here as what the verifier's patterns find in it.
 */
module LabVerifier {
  import opened Text
  import opened LabSamples
  import opened LabNatives
  import opened LabTimeline
  import opened LabAnalyzer

  const BOUNDED_MAX_GROWTH_KIB := 2000
  const BOUNDED_MAX_STEPS := 10

  // What the patterns find: None where a pattern does not match. The three flags say whether
  // the field labels occur at all.
  datatype Found = Found(
    verdict: Option<string>, owner: Option<string>, ownerEvidence: string, correlatedEvents: string,
    stepsLabel: bool, growthLabel: bool, rateLabel: bool,
    steps: Option<nat>, growth: Option<nat>, reason: Option<string>)

  // The files of the artifact that the verdict check looks at; None is a missing file.
  datatype Evidence = Evidence(timeline: Option<string>, natives: Option<seq<Native>>, samples: seq<Sample>)

  datatype VerdictError =
    | VerdictFileMissing | NoVerdict | UnknownVerdict | NoOwner | BadOwner | MissingLabel | NoSteps | NoGrowth
    | TooFewSteps | TooLittleGrowth | NoOwnerEvidence | NoCorrelatedEvents | SyntheticEvents
    | NoNativeTimeline | NoNativeCorrelation
    | NoBoundedEvidence | BoundedGrowth | BoundedSteps | ReasonUnexplained | ReasonMissing

  function VerdictText(v: Verdict): string {
    match v
    case ConfirmedLeak => "confirmed_leak"
    case Bounded => "bounded_warmup_or_allocator_highwater"
    case Inconclusive => "inconclusive"
  }

  const VALID_VERDICTS := ["confirmed_leak", "bounded_warmup_or_allocator_highwater", "inconclusive"]

  // ----- correlation in milliseconds -----

  function OwnerPrefixes(owner: string): seq<string> {
    var o := Lower(owner);
    if o == "heartbeat" then ["heartbeat_", "heartbeat"]
    else if o == "wireguard" then ["wg_", "wg"]
    else if o == "bgp" then ["bgp_", "bgp"]
    else if o == "bfd" then ["bfd_", "bfd"]
    else []
  }

  predicate MillisWindow(millis: int, step: int) { Abs(millis - step * 1000) <= 30000 }

  predicate NearStepMillis(e: Native, steps: seq<int>) {
    exists t | t in steps :: MillisWindow(e.elapsedMillis, t)
  }

  predicate Owned(e: Native, owner: string) { StartsWithAny(e.event, OwnerPrefixes(owner)) }

  // Whether find_correlated_native_events finds anything.
  predicate NativeCorrelation(natives: Option<seq<Native>>, samples: seq<Sample>, owner: string) {
    var steps := StepTimes(Extract(samples));
    && steps != [] && OwnerPrefixes(owner) != [] && natives.Some?
    && exists e | e in natives.value :: Owned(e, owner) && NearStepMillis(e, steps)
  }

  method FindCorrelatedNativeEvents(natives: Option<seq<Native>>, samples: seq<Sample>, owner: string)
    returns (correlated: seq<Native>)
    ensures correlated != [] <==> NativeCorrelation(natives, samples, owner)
    ensures forall e | e in correlated ::
              natives.Some? && e in natives.value && Owned(e, owner) && NearStepMillis(e, StepTimes(Extract(samples)))
  {
    correlated := [];
    var _, steps := DetectMemorySteps(Extract(samples));
    if steps == [] {
      return;
    }
    var prefixes := OwnerPrefixes(owner);
    if prefixes == [] {
      return;
    }
    if natives.None? {
      return;
    }
    var events := natives.value;
    for i := 0 to |events|
      invariant forall e | e in correlated :: e in events && Owned(e, owner) && NearStepMillis(e, steps)
      invariant correlated == [] ==>
                  forall k | 0 <= k < i :: !(Owned(events[k], owner) && NearStepMillis(events[k], steps))
    {
      if StartsWithAny(events[i].event, prefixes) {
        for k := 0 to |steps|
          invariant forall e | e in correlated :: e in events && Owned(e, owner) && NearStepMillis(e, steps)
          invariant correlated == [] ==>
                      forall j | 0 <= j < i :: !(Owned(events[j], owner) && NearStepMillis(events[j], steps))
          invariant correlated == [] ==> forall t | t in steps[..k] :: !MillisWindow(events[i].elapsedMillis, t)
        {
          assert steps[..k + 1] == steps[..k] + [steps[k]];
          if Abs(events[i].elapsedMillis - steps[k] * 1000) <= 30000 {
            assert steps[k] in steps && MillisWindow(events[i].elapsedMillis, steps[k]);
            correlated := correlated + [events[i]];
            break;
          }
        }
        assert steps[..|steps|] == steps;
      }
    }
    if correlated == [] {
      forall e | e in events ensures !(Owned(e, owner) && NearStepMillis(e, steps)) {
        var k :| 0 <= k < |events| && events[k] == e;
      }
    } else {
      assert correlated[0] in correlated;
    }
  }

  // ----- the verdict check -----

  function OwnerOf(f: Found): string { if f.owner.Some? then f.owner.value else "" }

  function CheckConfirmed(f: Found, ev: Evidence): Option<VerdictError> {
    if f.owner.None? then Some(NoOwner)
    else if OwnerOf(f) == "unknown" || OwnerOf(f) == "" then Some(BadOwner)
    else if !f.stepsLabel || !f.growthLabel || !f.rateLabel then Some(MissingLabel)
    else if f.steps.None? then Some(NoSteps)
    else if f.growth.None? then Some(NoGrowth)
    else if f.steps.value < CONFIRMED_LEAK_MIN_STEPS then Some(TooFewSteps)
    else if f.growth.value <= CONFIRMED_LEAK_MIN_GROWTH_KIB then Some(TooLittleGrowth)
    else if f.ownerEvidence == "" then Some(NoOwnerEvidence)
    else if f.correlatedEvents == "" then Some(NoCorrelatedEvents)
    else if ev.timeline.Some? && ShellSynthetic(ev.timeline.value) then Some(SyntheticEvents)
    else if ev.natives.None? then Some(NoNativeTimeline)
    else if !NativeCorrelation(ev.natives, ev.samples, OwnerOf(f)) then Some(NoNativeCorrelation)
    else None
  }

  function CheckBounded(f: Found): Option<VerdictError> {
    if !f.growthLabel && !f.stepsLabel then Some(NoBoundedEvidence)
    else if f.growth.Some? && f.growth.value > BOUNDED_MAX_GROWTH_KIB then Some(BoundedGrowth)
    else if f.steps.Some? && f.steps.value > BOUNDED_MAX_STEPS then Some(BoundedSteps)
    else None
  }

  // An inconclusive staircase must say that its owner is open, unless some owner is named.
  function CheckInconclusive(f: Found): Option<VerdictError> {
    if f.steps.None? || f.growth.None? || !Staircase(f.steps.value, f.growth.value) then None
    else if OwnerOf(f) != "" && OwnerOf(f) != "unknown" then None
    else if f.reason.None? then Some(ReasonMissing)
    else if !Contains(Lower(f.reason.value), "unattributed") && !Contains(Lower(f.reason.value), "owner") then
      Some(ReasonUnexplained)
    else None
  }

  function CheckVerdict(file: Option<Found>, ev: Evidence): Option<VerdictError> {
    if file.None? then Some(VerdictFileMissing)
    else
      var f := file.value;
      if f.verdict.None? then Some(NoVerdict)
      else if f.verdict.value == "confirmed_leak" then CheckConfirmed(f, ev)
      else if f.verdict.value == "bounded_warmup_or_allocator_highwater" then CheckBounded(f)
      else if f.verdict.value == "inconclusive" then CheckInconclusive(f)
      else Some(UnknownVerdict)
  }

  method VerifyVerdict(file: Option<Found>, ev: Evidence) returns (error: Option<VerdictError>)
    ensures error == CheckVerdict(file, ev)
  {
    if file.None? {
      return Some(VerdictFileMissing);
    }
    var f := file.value;
    if f.verdict.None? {
      return Some(NoVerdict);
    }
    var verdict := f.verdict.value;
    if verdict !in VALID_VERDICTS {
      assert "confirmed_leak" in VALID_VERDICTS && "bounded_warmup_or_allocator_highwater" in VALID_VERDICTS
             && "inconclusive" in VALID_VERDICTS;
      return Some(UnknownVerdict);
    }
    if verdict == "confirmed_leak" {
      error := VerifyConfirmed(f, ev);
      return;
    }
    if verdict == "bounded_warmup_or_allocator_highwater" {
      error := VerifyBounded(f);
      return;
    }
    error := VerifyInconclusive(f);
  }

  method VerifyBounded(f: Found) returns (error: Option<VerdictError>)
    ensures error == CheckBounded(f)
  {
    if !f.growthLabel && !f.stepsLabel {
      return Some(NoBoundedEvidence);
    }
    if f.growth.Some? {
      if f.growth.value > BOUNDED_MAX_GROWTH_KIB {
        return Some(BoundedGrowth);
      }
    }
    if f.steps.Some? {
      if f.steps.value > BOUNDED_MAX_STEPS {
        return Some(BoundedSteps);
      }
    }
    return None;
  }

  method VerifyInconclusive(f: Found) returns (error: Option<VerdictError>)
    ensures error == CheckInconclusive(f)
  {
    if f.steps.Some? && f.growth.Some? {
      var owner := OwnerOf(f);
      if f.steps.value >= CONFIRMED_LEAK_MIN_STEPS && f.growth.value > CONFIRMED_LEAK_MIN_GROWTH_KIB
         && (owner == "" || owner == "unknown") {
        if f.reason.None? {
          return Some(ReasonMissing);
        }
        var reason := Lower(f.reason.value);
        if !Contains(reason, "unattributed") && !Contains(reason, "owner") {
          return Some(ReasonUnexplained);
        }
      }
    }
    return None;
  }

  method VerifyConfirmed(f: Found, ev: Evidence) returns (error: Option<VerdictError>)
    ensures error == CheckConfirmed(f, ev)
  {
    if f.owner.None? {
      return Some(NoOwner);
    }
    var owner := f.owner.value;
    if owner == "unknown" || owner == "" {
      return Some(BadOwner);
    }
    if !f.stepsLabel || !f.growthLabel || !f.rateLabel {
      return Some(MissingLabel);
    }
    if f.steps.None? {
      return Some(NoSteps);
    }
    if f.growth.None? {
      return Some(NoGrowth);
    }
    if f.steps.value < CONFIRMED_LEAK_MIN_STEPS {
      return Some(TooFewSteps);
    }
    if f.growth.value <= CONFIRMED_LEAK_MIN_GROWTH_KIB {
      return Some(TooLittleGrowth);
    }
    if f.ownerEvidence == "" {
      return Some(NoOwnerEvidence);
    }
    if f.correlatedEvents == "" {
      return Some(NoCorrelatedEvents);
    }
    if ev.timeline.Some? {
      var synthetic := IsShellSyntheticArtifact(ev.timeline.value);
      if synthetic {
        return Some(SyntheticEvents);
      }
    }
    if ev.natives.None? {
      return Some(NoNativeTimeline);
    }
    var correlated := FindCorrelatedNativeEvents(ev.natives, ev.samples, owner);
    if correlated == [] {
      return Some(NoNativeCorrelation);
    }
    return None;
  }

  // ----- which verdicts are accepted -----

  // An event of the owner by its name; the verifier knows four owners.
  ghost predicate OwnerEvent(event: string, owner: string) {
    var o := Lower(owner);
    || (o == "heartbeat" && "heartbeat" <= event) || (o == "wireguard" && "wg" <= event)
    || (o == "bgp" && "bgp" <= event) || (o == "bfd" && "bfd" <= event)
  }

  lemma EitherPrefix(s: string, long: string, short: string)
    requires short <= long
    ensures StartsWithAny(s, [long, short]) <==> short <= s
  {
    assert short in [long, short];
  }

  lemma OwnedIff(e: Native, owner: string)
    ensures Owned(e, owner) <==> OwnerEvent(e.event, owner)
  {
    EitherPrefix(e.event, "heartbeat_", "heartbeat");
    EitherPrefix(e.event, "wg_", "wg");
    EitherPrefix(e.event, "bgp_", "bgp");
    EitherPrefix(e.event, "bfd_", "bfd");
  }

  // The event lies within 30000 ms of a sample more than 50 KiB above the one before.
  ghost predicate AtStep(e: Native, v: seq<Sample>) {
    exists i | 0 < i < |v| :: v[i].1 - v[i - 1].1 > 50 && -30000 <= e.elapsedMillis - v[i].0 * 1000 <= 30000
  }

  lemma AtStepIff(e: Native, v: seq<Sample>)
    requires forall i | 0 <= i < |v| :: v[i].1 > 0
    ensures NearStepMillis(e, StepTimes(v)) <==> AtStep(e, v)
  {
    if t :| t in StepTimes(v) && MillisWindow(e.elapsedMillis, t) { StepTimesIff(v, t); }
    if i :| 0 < i < |v| && v[i].1 - v[i - 1].1 > 50 && -30000 <= e.elapsedMillis - v[i].0 * 1000 <= 30000 {
      StepTimesIff(v, v[i].0);
      assert MillisWindow(e.elapsedMillis, v[i].0);
    }
  }

  lemma CorrelationIff(natives: Option<seq<Native>>, samples: seq<Sample>, owner: string)
    ensures NativeCorrelation(natives, samples, owner) <==>
            natives.Some? && exists e | e in natives.value :: OwnerEvent(e.event, owner) && AtStep(e, Extract(samples))
  {
    if natives.Some? {
      forall e | e in natives.value
        ensures Owned(e, owner) <==> OwnerEvent(e.event, owner)
        ensures NearStepMillis(e, StepTimes(Extract(samples))) <==> AtStep(e, Extract(samples))
      {
        OwnedIff(e, owner);
        AtStepIff(e, Extract(samples));
      }
    }
  }

  ghost predicate GoodConfirmed(f: Found, ev: Evidence) {
    && f.owner.Some? && f.owner.value != "" && f.owner.value != "unknown"
    && f.stepsLabel && f.growthLabel && f.rateLabel
    && f.steps.Some? && f.steps.value >= 3 && f.growth.Some? && f.growth.value > 500
    && f.ownerEvidence != "" && f.correlatedEvents != ""
    && (ev.timeline.Some? ==> !Marked(ev.timeline.value))
    && ev.natives.Some?
    && exists e | e in ev.natives.value :: OwnerEvent(e.event, f.owner.value) && AtStep(e, Extract(ev.samples))
  }

  ghost predicate GoodBounded(f: Found) {
    && (f.growthLabel || f.stepsLabel)
    && (f.growth.Some? ==> f.growth.value <= 2000)
    && (f.steps.Some? ==> f.steps.value <= 10)
  }

  // A staircase without an owner must have a reason that says so.
  ghost predicate GoodInconclusive(f: Found) {
    && f.steps.Some? && f.steps.value >= 3 && f.growth.Some? && f.growth.value > 500
    && (f.owner.None? || f.owner.value == "" || f.owner.value == "unknown")
    ==>
    && f.reason.Some?
    && (Contains(Lower(f.reason.value), "unattributed") || Contains(Lower(f.reason.value), "owner"))
  }

  ghost predicate GoodVerdict(f: Found, ev: Evidence) {
    || (f.verdict == Some("confirmed_leak") && GoodConfirmed(f, ev))
    || (f.verdict == Some("bounded_warmup_or_allocator_highwater") && GoodBounded(f))
    || (f.verdict == Some("inconclusive") && GoodInconclusive(f))
  }

  lemma ConfirmedExactly(f: Found, ev: Evidence)
    ensures CheckConfirmed(f, ev).None? <==> GoodConfirmed(f, ev)
  {
    CorrelationIff(ev.natives, ev.samples, OwnerOf(f));
    if ev.timeline.Some? { ShellSyntheticIff(ev.timeline.value); }
  }

  lemma OthersExactly(f: Found)
    ensures CheckBounded(f).None? <==> GoodBounded(f)
    ensures CheckInconclusive(f).None? <==> GoodInconclusive(f)
  {}

  // Main result. For every file, whoever wrote it, and all evidence: which verdicts are accepted.
  lemma VerdictExactly(file: Option<Found>, ev: Evidence)
    ensures CheckVerdict(file, ev).None? <==> file.Some? && GoodVerdict(file.value, ev)
  {
    if file.Some? {
      ConfirmedExactly(file.value, ev);
      OthersExactly(file.value);
      assert "confirmed_leak"[0] == 'c' && "inconclusive"[0] == 'i'
             && "bounded_warmup_or_allocator_highwater"[0] == 'b';
    }
  }

  // What the patterns find in a file that analyze wrote. A negative growth is not matched. Of an
  // empty owner nothing is said: there the pattern runs on to the next line.
  ghost predicate FoundIn(r: Report, f: Found) {
    && f.verdict == Some(VerdictText(r.verdict))
    && f.stepsLabel && f.growthLabel && f.rateLabel
    && f.steps == Some(r.steps)
    && f.growth == (if r.growth >= 0 then Some(r.growth) else None)
    && f.reason == Some(r.reason)
    && f.correlatedEvents != ""
    && (r.owner != "" ==> f.owner == Some(r.owner))
    && (r.ownerEvidence != "" ==> f.ownerEvidence != "")
  }

  // ----- agreement without native events -----

  // What the verifier needs of the wording: an unattributed staircase says that its owner is
  // open, and the evidence of a leak is not empty.
  ghost predicate Explains(w: Wording) {
    forall steps, growth, rate :: Contains(Lower(w.unattributed(steps, growth, rate)), "owner")
  }

  ghost predicate GivesEvidence(w: Wording) {
    forall owner, correlated, total, steps, growth | owner in SUBSYSTEMS ::
      w.evidence(owner, correlated, total, steps, growth) != ""
  }

  lemma UnattributedSaysSo(steps: nat, growth: int, rate: int)
    ensures Contains(Lower(UnattributedReason(steps, growth, rate)), "owner")
  {
    var parts := UnattributedParts(steps, growth, rate);
    OwnerSaid();
    assert parts[7] == "owner is unattributed";
    ConcatContains(parts, 7, "owner");
  }

  lemma OwnerSaid()
    ensures Contains(Lower("owner is unattributed"), "owner")
  {
    var s := Lower("owner is unattributed");
    assert s[0..5] == "owner";
    assert OccursAt(s, "owner", 0);
  }

  lemma EvidenceNotEmpty(owner: string, correlated: nat, total: nat, steps: nat, growth: int)
    ensures EvidenceText(owner, correlated, total, steps, growth) != ""
  {
    var parts := EvidenceParts(owner, correlated, total, steps, growth);
    assert parts[0] == "Native events from ";
  }

  // The analyzer's own wording is as required.
  lemma SourceWordingExplains(shell: Counts, natives: seq<Native>)
    ensures Explains(SourceWording(shell, natives)) && GivesEvidence(SourceWording(shell, natives))
  {
    var w := SourceWording(shell, natives);
    forall steps, growth, rate ensures Contains(Lower(w.unattributed(steps, growth, rate)), "owner") {
      UnattributedSaysSo(steps, growth, rate);
    }
    forall owner, correlated, total, steps, growth | owner in SUBSYSTEMS
      ensures w.evidence(owner, correlated, total, steps, growth) != ""
    {
      EvidenceNotEmpty(owner, correlated, total, steps, growth);
    }
  }

  lemma InconclusiveAccepted(f: Found, r: Report)
    requires FoundIn(r, f) && r.verdict == Inconclusive
    requires !Staircase(r.steps, r.growth) || Contains(Lower(r.reason), "owner")
    ensures CheckInconclusive(f) == None
  {}

  // Whatever is read as the owner answers the demand for an explanation.
  lemma NamedOwnerAccepted(f: Found, ev: Evidence)
    requires f.verdict == Some("inconclusive") && OwnerOf(f) != "" && OwnerOf(f) != "unknown"
    ensures CheckVerdict(Some(f), ev) == None
  {}

  lemma BoundedAccepted(f: Found, r: Report)
    requires FoundIn(r, f) && r.verdict == Bounded
    ensures CheckBounded(f) == None <==> r.growth <= 2000 && r.steps <= 10
    ensures forall ev :: CheckVerdict(Some(f), ev) == CheckBounded(f)
  {}

  // The analyzer's verdict without native events.
  lemma ShellOnlyReport(rows: seq<Sample>, duration: int, w: Wording)
    requires Explains(w)
    ensures var r := Analysis(rows, duration, [], w);
            && r.verdict != ConfirmedLeak
            && (r.verdict == Inconclusive ==> !Staircase(r.steps, r.growth) || Contains(Lower(r.reason), "owner"))
  {}

  // Main result. For every sample series without native events the verifier accepts what the
  // analyzer wrote, whatever the owner pattern runs on to, except exactly when a bounded
  // verdict comes with more than 2000 KiB of growth or more than 10 steps.
  lemma ShellOnlyAgreement(rows: seq<Sample>, duration: int, w: Wording, f: Found, ev: Evidence)
    requires Explains(w) && FoundIn(Analysis(rows, duration, [], w), f)
    ensures var r := Analysis(rows, duration, [], w);
            CheckVerdict(Some(f), ev) == None <==> !(r.verdict == Bounded && (r.growth > 2000 || r.steps > 10))
  {
    var r := Analysis(rows, duration, [], w);
    ShellOnlyReport(rows, duration, w);
    if r.verdict == Inconclusive {
      InconclusiveAccepted(f, r);
    } else {
      BoundedAccepted(f, r);
    }
  }

  // In terms of the samples: what is written and refused is growth over 2000 KiB in at most two
  // steps, or more than ten steps that come to less than 200 KiB.
  lemma RefusedBounded(rows: seq<Sample>, duration: int, w: Wording)
    ensures var r := Analysis(rows, duration, [], w);
            var steps, growth := |RiseIndices(Extract(rows))|, Growth(Extract(rows));
            (r.verdict == Bounded && (r.growth > 2000 || r.steps > 10)) <==>
            (steps <= 2 && growth > 2000) || (steps > 10 && growth < 200)
  {}

  // Such a series exists: one jump of more than 2000 KiB.
  lemma RefusedBoundedExample(duration: int, w: Wording, f: Found, ev: Evidence)
    requires FoundIn(Analysis([(0, 1000), (5, 4000)], duration, [], w), f)
    ensures CheckVerdict(Some(f), ev) == Some(BoundedGrowth)
  {
    TwoSamples((0, 1000), (5, 4000));
    RefusedBounded([(0, 1000), (5, 4000)], duration, w);
  }

  lemma TwoSamples(a: Sample, b: Sample)
    requires a.1 > 0 && b.1 > 0
    ensures Extract([a, b]) == [a, b]
    ensures |RiseIndices([a, b])| <= 1 && Growth([a, b]) == b.1 - a.1
  {
    var v := [a, b];
    ExtractAll(v);
    assert v[..1] == [a];
    assert RiseIndices(v[..1]) == [];
  }

  // ----- agreement on a confirmed leak -----

  // What the verifier says of a confirmed leak the analyzer wrote.
  lemma ConfirmedOutcome(rows: seq<Sample>, duration: int, natives: seq<Native>, w: Wording, f: Found, ev: Evidence)
    requires GivesEvidence(w) && Analysis(rows, duration, natives, w).verdict == ConfirmedLeak
    requires FoundIn(Analysis(rows, duration, natives, w), f)
    requires ev.samples == rows && ev.natives == Some(natives)
    ensures var owner := Analysis(rows, duration, natives, w).owner;
            CheckVerdict(Some(f), ev) ==
            if ev.timeline.Some? && ShellSynthetic(ev.timeline.value) then Some(SyntheticEvents)
            else if !NativeCorrelation(ev.natives, ev.samples, owner) then Some(NoNativeCorrelation)
            else None
  {
    var r := Analysis(rows, duration, natives, w);
    ConfirmedReport(rows, duration, natives, w);
    KnownOwners(r.owner);
  }

  // Main result. A confirmed leak of the analyzer is accepted exactly when the artifact's shell
  // timeline is not synthetic, the native timeline is there, the owner is one the verifier
  // knows, and one of its events lies within 30000 ms of a step.
  lemma ConfirmedAgreement(rows: seq<Sample>, duration: int, natives: seq<Native>, w: Wording, f: Found, ev: Evidence)
    requires GivesEvidence(w) && Analysis(rows, duration, natives, w).verdict == ConfirmedLeak
    requires FoundIn(Analysis(rows, duration, natives, w), f)
    requires ev.samples == rows && ev.natives == Some(natives)
    ensures CheckVerdict(Some(f), ev) == None <==>
            Provable(rows, natives, Analysis(rows, duration, natives, w).owner, ev)
  {
    var r := Analysis(rows, duration, natives, w);
    ConfirmedOutcome(rows, duration, natives, w, f, ev);
    ConfirmedLeakIff(rows, duration, natives, w);
    KnownOwners(r.owner);
    assert |StepTimes(Extract(rows))| >= 3;
  }

  // What the verifier asks of the evidence for a leak of some owner.
  ghost predicate Provable(rows: seq<Sample>, natives: seq<Native>, owner: string, ev: Evidence) {
    && !(ev.timeline.Some? && ShellSynthetic(ev.timeline.value))
    && owner in ["heartbeat", "wireguard", "bgp", "bfd"]
    && exists e | e in natives :: Owned(e, owner) && NearStepMillis(e, StepTimes(Extract(rows)))
  }

  lemma ConfirmedReport(rows: seq<Sample>, duration: int, natives: seq<Native>, w: Wording)
    requires GivesEvidence(w) && Analysis(rows, duration, natives, w).verdict == ConfirmedLeak
    ensures var r := Analysis(rows, duration, natives, w);
            r.owner in SUBSYSTEMS && r.owner != "" && r.ownerEvidence != "" && r.steps >= 3 && r.growth > 500
  {
    ConfirmedLeakIff(rows, duration, natives, w);
  }

  lemma KnownOwners(owner: string)
    requires owner in SUBSYSTEMS
    ensures OwnerPrefixes(owner) != [] <==> owner in ["heartbeat", "wireguard", "bgp", "bfd"]
    ensures owner != "unknown"
  {
    LowerNames(owner);
  }

  // ----- the two windows -----

  // Per event and step the windows differ exactly when the event falls 30001 to 30999 ms after
  // the step; the verifier's window is the smaller one.
  lemma WindowsDiffer(millis: int, step: int)
    ensures MillisWindow(millis, step) ==> SecondsWindow(millis, step)
    ensures (SecondsWindow(millis, step) && !MillisWindow(millis, step)) <==> 30001 <= millis - step * 1000 <= 30999
  {}

  // The event name's prefix and the subsystem tag say the same.
  ghost predicate TagsAgree(natives: seq<Native>, owner: string) {
    forall e | e in natives && Owned(e, owner) :: Tagged(e, owner)
  }

  // On timelines whose tags agree, an owner the verifier correlates has a positive count in the
  // analyzer.
  lemma VerifierRefinesAnalyzer(natives: seq<Native>, rows: seq<Sample>, owner: string)
    requires TagsAgree(natives, owner) && NativeCorrelation(Some(natives), rows, owner)
    ensures CorrelatedOf(natives, StepTimes(Extract(rows)), owner) > 0
  {
    var steps := StepTimes(Extract(rows));
    var e :| e in natives && Owned(e, owner) && NearStepMillis(e, steps);
    var t :| t in steps && MillisWindow(e.elapsedMillis, t);
    WindowsDiffer(e.elapsedMillis, t);
    assert NearStep(e, steps);
    CorrelatedPositive(natives, steps, owner);
  }

  lemma SyntheticNeverConfirmed(file: Option<Found>, ev: Evidence)
    requires ev.timeline.Some? && ShellSynthetic(ev.timeline.value)
    requires file.Some? && file.value.verdict == Some("confirmed_leak")
    ensures CheckVerdict(file, ev).Some?
  {}

  // ----- a leak of any subsystem -----

  const STAIRS: seq<Sample> := [(0, 1000), (10, 1200), (20, 1400), (30, 1600)]

  function OneEvent(subsystem: string): Native { Native(10000, subsystem + "_tick", subsystem) }

  function ThreeOf(e: Native): seq<Native> { [e, e, e] }

  lemma StairSteps()
    ensures Extract(STAIRS) == STAIRS && 10 in StepTimes(STAIRS)
    ensures |RiseIndices(STAIRS)| == 3 && Growth(STAIRS) == 600
  {
    FourSamples((0, 1000), (10, 1200), (20, 1400), (30, 1600));
  }

  // Four rising samples and three events of any subsystem make a confirmed leak, with that
  // subsystem as the owner.
  lemma LeakOf(subsystem: string, duration: int, w: Wording)
    requires subsystem in SUBSYSTEMS
    ensures var r := Analysis(STAIRS, duration, ThreeOf(OneEvent(subsystem)), w);
            r.verdict == ConfirmedLeak && r.owner == subsystem
  {
    var e := OneEvent(subsystem);
    StairSteps();
    LowerNames(subsystem);
    assert SecondsWindow(10000, 10);
    ThreeEvents(e, StepTimes(STAIRS), subsystem);
    ThreeEventsLeak(STAIRS, e, subsystem, duration, w);
  }

  lemma LowerNames(name: string)
    requires name in SUBSYSTEMS
    ensures Lower(name) == name
  {
    assert Lower("heartbeat") == "heartbeat" && Lower("wireguard") == "wireguard" && Lower("bgp") == "bgp";
    assert Lower("bfd") == "bfd" && Lower("health") == "health" && Lower("status") == "status";
  }

  lemma CountLast(es: seq<Native>, e: Native, times: seq<int>, subsystem: string)
    requires Tagged(e, subsystem) && NearStep(e, times)
    ensures CountOf(es + [e], subsystem) == CountOf(es, subsystem) + 1
    ensures CorrelatedOf(es + [e], times, subsystem) == CorrelatedOf(es, times, subsystem) + 1
  {
    assert (es + [e])[..|es|] == es;
  }

  lemma ThreeEvents(e: Native, times: seq<int>, subsystem: string)
    requires Tagged(e, subsystem) && NearStep(e, times)
    ensures CountOf([e, e, e], subsystem) == 3 && CorrelatedOf([e, e, e], times, subsystem) == 3
  {
    CountLast([], e, times, subsystem);
    CountLast([e], e, times, subsystem);
    CountLast([e, e], e, times, subsystem);
    assert [] + [e] == [e] && [e] + [e] == [e, e] && [e, e] + [e] == [e, e, e];
  }

  // Only the subsystem of the events has any that are correlated.
  lemma OnlyOne(e: Native, times: seq<int>, subsystem: string, other: string)
    requires Tagged(e, subsystem) && other != subsystem
    ensures CorrelatedOf([e, e, e], times, other) == 0
  {
    CorrelatedPositive([e, e, e], times, other);
  }

  lemma ThreeEventsLeak(v: seq<Sample>, e: Native, subsystem: string, duration: int, w: Wording)
    requires Extract(v) == v && |RiseIndices(v)| >= 3 && Growth(v) > 500 && Tagged(e, subsystem)
    requires subsystem in SUBSYSTEMS && CorrelatedOf([e, e, e], StepTimes(v), subsystem) == 3
    ensures var r := Analysis(v, duration, [e, e, e], w); r.verdict == ConfirmedLeak && r.owner == subsystem
  {
    var owner := Dominant([e, e, e], StepTimes(v), SUBSYSTEMS);
    DominantIsMax([e, e, e], StepTimes(v), SUBSYSTEMS);
    if owner != subsystem { OnlyOne(e, StepTimes(v), subsystem, owner); }
    CorrelatedAtMostCount([e, e, e], StepTimes(v), owner);
    ConfirmedLeakIff(v, duration, [e, e, e], w);
  }

  lemma {:induction false} ExtractAll(v: seq<Sample>)
    requires forall i | 0 <= i < |v| :: v[i].1 > 0
    ensures Extract(v) == v
  {
    if v != [] { ExtractAll(v[1..]); }
  }

  lemma RisesLast(v: seq<Sample>, x: Sample)
    requires v != [] && v[|v| - 1].1 > 0 && x.1 - v[|v| - 1].1 > 50
    ensures RiseIndices(v + [x]) == RiseIndices(v) + [|v|]
  {
    assert (v + [x])[..|v|] == v && Rise(v + [x], |v|);
  }

  // Four samples that each rise by more than the threshold.
  lemma FourSamples(a: Sample, b: Sample, c: Sample, d: Sample)
    requires a.1 > 0 && b.1 - a.1 > 50 && c.1 - b.1 > 50 && d.1 - c.1 > 50
    ensures var v := [a, b, c, d];
            Extract(v) == v && |RiseIndices(v)| == 3 && b.0 in StepTimes(v) && Growth(v) == d.1 - a.1
  {
    var v := [a, b, c, d];
    ExtractAll(v);
    RisesLast([a], b);
    RisesLast([a, b], c);
    RisesLast([a, b, c], d);
    assert [a] + [b] == [a, b] && [a, b] + [c] == [a, b, c] && [a, b, c] + [d] == v;
    assert RiseIndices(v)[0] == 1;
    assert StepTimes(v)[0] == b.0;
  }
}
