/**
 The verdict file as text: what the analyzer writes, what the verifier's patterns find in it, and
 the agreement of the two stated for the file itself.
 */
module LabVerdictFile {
  import opened Text
  import opened LabSamples
  import opened LabNatives
  import opened LabTimeline
  import opened LabAnalyzer
  import opened LabVerifier
  import opened LabPatterns

  // ----- what the verifier reads -----

  // Everything the verdict check looks for.
  function FoundOf(content: string): Found {
    Found(
      Search(content, "verdict", SpacedWord),
      Search(content, "owner", SpacedWord),
      Trimmed(Search(content, "owner_evidence", SpacedLine)),
      Trimmed(Search(content, "correlated_events", SpacedLine)),
      Contains(content, "steps_detected:"), Contains(content, "total_growth_kib:"),
      Contains(content, "growth_rate_kib_per_min:"),
      Search(content, "steps_detected", SpacedNumber),
      Search(content, "total_growth_kib", SpacedNumber),
      Search(content, "reason", SpacedLine))
  }

  // verify_verdict on the text of the file.
  function CheckVerdictFile(content: Option<string>, ev: Evidence): Option<VerdictError> {
    CheckVerdict(if content.None? then None else Some(FoundOf(content.value)), ev)
  }

  // ----- what the analyzer writes -----

  datatype NativeInfo = NativeInfo(events: nat, counts: Counts, correlated: Counts)

  // What the file says besides the report.
  datatype RunInfo = RunInfo(
    rate: int, samples: nat, shell: Counts, heartbeat: bool, wgCheck: bool, bgpBfd: bool,
    native: Option<NativeInfo>)

  function SixCounts(c: Counts): string {
    FourCounts(c) + (",health=" + Decimal(c.health) + ",status=" + Decimal(c.status))
  }

  function FourCounts(c: Counts): string {
    "heartbeat=" + Decimal(c.heartbeat) + ",wg=" + Decimal(c.wg) + ",bgp=" + Decimal(c.bgp)
    + ",bfd=" + Decimal(c.bfd)
  }

  function EnabledText(u: RunInfo): string {
    "heartbeat=" + LowerBool(u.heartbeat) + ",wg=" + LowerBool(u.wgCheck) + ",bgp_bfd=" + LowerBool(u.bgpBfd)
  }

  function DisabledText(u: RunInfo): string {
    Join((if u.heartbeat then [] else ["heartbeat"]) + (if u.wgCheck then [] else ["wg"])
         + (if u.bgpBfd then [] else ["bgp_bfd"]), ',')
  }

  function HeadFields(r: Report, u: RunInfo): (fs: seq<Field>)
    ensures |fs| == 10
  {
    [Field("verdict", VerdictText(r.verdict)),
     Field("owner", r.owner),
     Field("reason", r.reason),
     Field("steps_detected", Decimal(r.steps)),
     Field("total_growth_kib", IntText(r.growth)),
     Field("growth_rate_kib_per_min", IntText(u.rate)),
     Field("samples_count", Decimal(u.samples)),
     Field("suspected_owner", r.owner),
     Field("owner_evidence", r.ownerEvidence),
     Field("correlated_events", SixCounts(u.shell))]
  }

  function TailFields(u: RunInfo): seq<Field> {
    [Field("enabled_subsystems", EnabledText(u)), Field("disabled_subsystems", DisabledText(u))]
    + NativeFields(u.native)
  }

  function NativeFields(native: Option<NativeInfo>): seq<Field> {
    match native
    case None => [Field("native_events_enabled", "false"), Field("native_event_count", "0")]
    case Some(n) =>
      [Field("native_events_enabled", "true"), Field("native_event_count", Decimal(n.events)),
       Field("native_event_counts", FourCounts(n.counts)), Field("native_correlated", FourCounts(n.correlated))]
  }

  function VerdictFields(r: Report, u: RunInfo): seq<Field> { HeadFields(r, u) + TailFields(u) }

  function VerdictFile(r: Report, u: RunInfo): string { FileText(VerdictFields(r, u)) }

  // ----- values that stay on their line -----

  // One line, without the underscores of the longer labels, that does not start with a blank.
  ghost predicate Quiet(s: string) { s != "" && !PySpace(s[0]) && Smooth(s) }

  // One line without underscores.
  ghost predicate Smooth(s: string) { forall i | 0 <= i < |s| :: s[i] != '\n' && s[i] != '_' }

  ghost predicate Reportable(r: Report) {
    && Quiet(r.reason)
    && (r.owner == "" || r.owner in SUBSYSTEMS)
    && (r.ownerEvidence == "" || Quiet(r.ownerEvidence))
  }

  ghost predicate Plain(s: string) { forall i | 0 <= i < |s| :: s[i] != '\n' && s[i] != ':' }

  lemma DecimalPlain(n: nat)
    ensures Plain(Decimal(n))
  {
    var d := Decimal(n);
    forall i | 0 <= i < |d| ensures IsDigit(d[i]) { assert d[i] in d; }
  }

  lemma IntPlain(n: int)
    ensures Plain(IntText(n))
  {
    DecimalPlain(if n < 0 then -n else n);
  }

  lemma FourCountsPlain(c: Counts)
    ensures Plain(FourCounts(c)) && FourCounts(c) != "" && FourCounts(c)[0] == 'h'
  {
    DecimalPlain(c.heartbeat);
    DecimalPlain(c.wg);
    DecimalPlain(c.bgp);
    DecimalPlain(c.bfd);
  }

  lemma SixCountsPlain(c: Counts)
    ensures Plain(SixCounts(c)) && SixCounts(c) != "" && SixCounts(c)[0] == 'h'
    ensures TightLine(SixCounts(c))
  {
    FourCountsPlain(c);
    DecimalPlain(c.health);
    DecimalPlain(c.status);
    var s, d := SixCounts(c), Decimal(c.status);
    assert IsDigit(d[|d| - 1]) by { assert d[|d| - 1] in d; }
    assert s[|s| - 1] == d[|d| - 1];
  }

  lemma BoolPlain(b: bool)
    ensures Plain(LowerBool(b))
  {}

  lemma PlainJoined(a: string, b: string)
    requires Plain(a) && Plain(b)
    ensures Plain(a + b)
  {}

  lemma SettingPlain(key: string, b: bool)
    requires Plain(key)
    ensures Plain(key + LowerBool(b))
  {
    BoolPlain(b);
    PlainJoined(key, LowerBool(b));
  }

  lemma EnabledPlain(u: RunInfo)
    ensures Plain(EnabledText(u))
  {
    SettingPlain("heartbeat=", u.heartbeat);
    PlainJoined("heartbeat=" + LowerBool(u.heartbeat), ",wg=");
    SettingPlain("heartbeat=" + LowerBool(u.heartbeat) + ",wg=", u.wgCheck);
    PlainJoined("heartbeat=" + LowerBool(u.heartbeat) + ",wg=" + LowerBool(u.wgCheck), ",bgp_bfd=");
    SettingPlain("heartbeat=" + LowerBool(u.heartbeat) + ",wg=" + LowerBool(u.wgCheck) + ",bgp_bfd=", u.bgpBfd);
  }

  lemma DisabledPlain(u: RunInfo)
    ensures Plain(DisabledText(u))
  {
    var parts := (if u.heartbeat then [] else ["heartbeat"]) + (if u.wgCheck then [] else ["wg"])
                 + (if u.bgpBfd then [] else ["bgp_bfd"]);
    JoinFree(parts, ',', '\n');
    JoinFree(parts, ',', ':');
  }

  // Lower-case letters and underscores.
  ghost predicate Wordy(s: string) { forall i | 0 <= i < |s| :: 'a' <= s[i] <= 'z' || s[i] == '_' }

  lemma WordyPlain(s: string)
    requires Wordy(s)
    ensures Plain(s) && forall c | c in s :: !PySpace(c)
  {
    forall c | c in s ensures !PySpace(c) {
      var i :| 0 <= i < |s| && s[i] == c;
    }
  }

  lemma VerdictWordy(v: Verdict)
    ensures Wordy(VerdictText(v)) && VerdictText(v) != ""
  {
    assert Wordy("confirmed_leak") && Wordy("inconclusive");
    assert Wordy("bounded_warmup_or_allocator_highwater");
  }

  lemma OwnerWordy(owner: string)
    requires owner in SUBSYSTEMS
    ensures Wordy(owner) && owner != ""
  {}

  // ----- the fields -----

  lemma HeadWords()
    ensures Wordy("verdict") && Wordy("owner") && Wordy("reason") && Wordy("steps_detected")
    ensures Wordy("total_growth_kib") && Wordy("growth_rate_kib_per_min") && Wordy("samples_count")
    ensures Wordy("suspected_owner") && Wordy("owner_evidence") && Wordy("correlated_events")
  {}

  lemma TailWords()
    ensures Wordy("enabled_subsystems") && Wordy("disabled_subsystems") && Wordy("native_events_enabled")
    ensures Wordy("native_event_count") && Wordy("native_event_counts") && Wordy("native_correlated")
  {}

  lemma HeadKeys(r: Report, u: RunInfo, j: nat)
    requires j < 10
    ensures Wordy(HeadFields(r, u)[j].key)
  {
    HeadWords();
  }

  lemma HeadValues(r: Report, u: RunInfo, j: nat)
    requires Reportable(r) && j < 10
    ensures var v := HeadFields(r, u)[j].value;
            '\n' !in v && if j == 2 || j == 8 then '_' !in v else ':' !in v
  {
    VerdictWordy(r.verdict);
    WordyPlain(VerdictText(r.verdict));
    if r.owner != "" {
      OwnerWordy(r.owner);
      WordyPlain(r.owner);
    }
    IntPlain(r.growth);
    IntPlain(u.rate);
    DecimalPlain(r.steps);
    DecimalPlain(u.samples);
    SixCountsPlain(u.shell);
  }

  // The last letters of the first ten keys.
  const HEAD_ENDS := "trndbntres"

  lemma HeadEnds(r: Report, u: RunInfo, j: nat)
    requires j < 10
    ensures var k := HeadFields(r, u)[j].key; k != "" && k[|k| - 1] == HEAD_ENDS[j]
  {}

  // Ten leading fields on lines of their own, with the last letters of their keys, and with
  // underscores only where there are no colons.
  ghost predicate Tame(fs: seq<Field>) {
    && |fs| >= 10
    && forall j | 0 <= j < 10 ::
         && Calm(fs[j]) && fs[j].key[|fs[j].key| - 1] == HEAD_ENDS[j]
         && if j == 2 || j == 8 then '_' !in fs[j].value else ':' !in fs[j].value
  }

  lemma HeadTame(r: Report, u: RunInfo)
    requires Reportable(r)
    ensures Tame(HeadFields(r, u))
  {
    forall j | 0 <= j < 10
      ensures var f := HeadFields(r, u)[j];
              && Calm(f) && f.key[|f.key| - 1] == HEAD_ENDS[j]
              && if j == 2 || j == 8 then '_' !in f.value else ':' !in f.value
    {
      HeadKeys(r, u, j);
      WordyPlain(HeadFields(r, u)[j].key);
      HeadValues(r, u, j);
      HeadEnds(r, u, j);
    }
  }

  lemma TameAppend(head: seq<Field>, tail: seq<Field>)
    requires Tame(head)
    ensures Tame(head + tail)
  {}

  ghost predicate Named(name: string, end: char) { LabelName(name) && name[|name| - 1] == end }

  lemma TameSilent(fs: seq<Field>, j: nat, name: string, end: char)
    requires Tame(fs) && j < 10 && Named(name, end) && end != HEAD_ENDS[j]
    requires '_' in name || (j != 2 && j != 8)
    ensures Silent(fs[j], name)
  {
    ApartSilent(fs[j], name);
  }

  lemma TameFirst(fs: seq<Field>, k: nat, name: string, end: char)
    requires Tame(fs) && k < 10 && fs[k].key == name && Named(name, end)
    requires '_' in name || k <= 2
    requires forall j | 0 <= j < k :: HEAD_ENDS[j] != end
    ensures FirstOf(fs, k, name, fs[k].value)
  {
    forall j | 0 <= j < k ensures Silent(fs[j], name) { TameSilent(fs, j, name, end); }
  }

  lemma TailEnds(u: RunInfo, j: nat)
    requires j < |TailFields(u)|
    ensures var k := TailFields(u)[j].key; k != "" && k[|k| - 1] != 'b'
  {}

  lemma TailKeys(u: RunInfo, j: nat)
    requires j < |TailFields(u)|
    ensures Wordy(TailFields(u)[j].key)
  {
    TailWords();
  }

  lemma TailValues(u: RunInfo, j: nat)
    requires j < |TailFields(u)|
    ensures Plain(TailFields(u)[j].value)
  {
    EnabledPlain(u);
    DisabledPlain(u);
    BoolPlain(u.native.Some?);
    if u.native.Some? {
      DecimalPlain(u.native.value.events);
      FourCountsPlain(u.native.value.counts);
      FourCountsPlain(u.native.value.correlated);
    }
  }

  lemma TailSilent(u: RunInfo, j: nat)
    requires j < |TailFields(u)|
    ensures Silent(TailFields(u)[j], "total_growth_kib")
  {
    TailKeys(u, j);
    TailEnds(u, j);
    WordyPlain(TailFields(u)[j].key);
    TailValues(u, j);
    GrowthName();
    ApartSilent(TailFields(u)[j], "total_growth_kib");
  }

  lemma ShortNames()
    ensures Named("verdict", 't') && Named("owner", 'r') && Named("reason", 'n')
  {
    HeadWords();
    WordyPlain("verdict");
    WordyPlain("owner");
    WordyPlain("reason");
  }

  lemma StepsName()
    ensures Named("steps_detected", 'd') && '_' in "steps_detected"
  {
    HeadWords();
    WordyPlain("steps_detected");
    assert "steps_detected"[5] == '_';
  }

  lemma GrowthName()
    ensures Named("total_growth_kib", 'b') && '_' in "total_growth_kib"
  {
    HeadWords();
    WordyPlain("total_growth_kib");
    assert "total_growth_kib"[5] == '_';
  }

  lemma EvidenceName()
    ensures Named("owner_evidence", 'e') && '_' in "owner_evidence"
  {
    HeadWords();
    WordyPlain("owner_evidence");
    assert "owner_evidence"[5] == '_';
  }

  lemma EventsName()
    ensures Named("correlated_events", 's') && '_' in "correlated_events"
  {
    HeadWords();
    WordyPlain("correlated_events");
    assert "correlated_events"[10] == '_';
  }

  // ----- what the patterns find in the analyzer's file -----

  // The searched fields in their places.
  ghost predicate Keyed(fs: seq<Field>, r: Report, events: string) {
    && |fs| >= 10
    && fs[0] == Field("verdict", VerdictText(r.verdict)) && fs[1] == Field("owner", r.owner)
    && fs[2] == Field("reason", r.reason) && fs[3] == Field("steps_detected", Decimal(r.steps))
    && fs[4] == Field("total_growth_kib", IntText(r.growth)) && fs[5].key == "growth_rate_kib_per_min"
    && fs[8] == Field("owner_evidence", r.ownerEvidence) && fs[9] == Field("correlated_events", events)
  }

  lemma HeadKeyed(r: Report, u: RunInfo)
    ensures Keyed(HeadFields(r, u), r, SixCounts(u.shell))
  {}

  lemma KeyedAppend(head: seq<Field>, tail: seq<Field>, r: Report, events: string)
    requires Keyed(head, r, events)
    ensures Keyed(head + tail, r, events)
  {}

  // Each searched field is the first on whose line its label occurs.
  ghost predicate ShortLaid(fs: seq<Field>, r: Report) {
    && FirstOf(fs, 0, "verdict", VerdictText(r.verdict)) && FirstOf(fs, 1, "owner", r.owner)
    && FirstOf(fs, 2, "reason", r.reason)
  }

  ghost predicate NumbersLaid(fs: seq<Field>, r: Report) {
    FirstOf(fs, 3, "steps_detected", Decimal(r.steps)) && FirstOf(fs, 4, "total_growth_kib", IntText(r.growth))
  }

  ghost predicate LinesLaid(fs: seq<Field>, r: Report, events: string) {
    FirstOf(fs, 8, "owner_evidence", r.ownerEvidence) && FirstOf(fs, 9, "correlated_events", events)
  }

  lemma KeyedShort(fs: seq<Field>, r: Report, events: string)
    requires Keyed(fs, r, events) && Tame(fs)
    ensures ShortLaid(fs, r)
  {
    ShortNames();
    TameFirst(fs, 0, "verdict", 't');
    TameFirst(fs, 1, "owner", 'r');
    TameFirst(fs, 2, "reason", 'n');
  }

  lemma KeyedNumbers(fs: seq<Field>, r: Report, events: string)
    requires Keyed(fs, r, events) && Tame(fs)
    ensures NumbersLaid(fs, r)
  {
    TameSteps(fs);
    TameGrowth(fs);
  }

  lemma TameSteps(fs: seq<Field>)
    requires Tame(fs) && fs[3].key == "steps_detected"
    ensures FirstOf(fs, 3, "steps_detected", fs[3].value)
  {
    StepsName();
    TameFirst(fs, 3, "steps_detected", 'd');
  }

  lemma TameGrowth(fs: seq<Field>)
    requires Tame(fs) && fs[4].key == "total_growth_kib"
    ensures FirstOf(fs, 4, "total_growth_kib", fs[4].value)
  {
    GrowthName();
    TameFirst(fs, 4, "total_growth_kib", 'b');
  }

  lemma KeyedLines(fs: seq<Field>, r: Report, events: string)
    requires Keyed(fs, r, events) && Tame(fs)
    ensures LinesLaid(fs, r, events)
  {
    TameEvidence(fs);
    TameEvents(fs);
  }

  lemma TameEvidence(fs: seq<Field>)
    requires Tame(fs) && fs[8].key == "owner_evidence"
    ensures FirstOf(fs, 8, "owner_evidence", fs[8].value)
  {
    EvidenceName();
    TameFirst(fs, 8, "owner_evidence", 'e');
  }

  lemma TameEvents(fs: seq<Field>)
    requires Tame(fs) && fs[9].key == "correlated_events"
    ensures FirstOf(fs, 9, "correlated_events", fs[9].value)
  {
    EventsName();
    TameFirst(fs, 9, "correlated_events", 's');
  }

  // No later line holds the growth label.
  ghost predicate GrowthAlone(fs: seq<Field>) {
    |fs| > 4 && Calm(fs[4]) && forall j | 4 < j < |fs| :: Silent(fs[j], "total_growth_kib")
  }

  lemma TameGrowthAlone(fs: seq<Field>, tail: seq<Field>)
    requires Tame(fs) && |fs| == 10 && forall j | 0 <= j < |tail| :: Silent(tail[j], "total_growth_kib")
    ensures GrowthAlone(fs + tail)
  {
    var all := fs + tail;
    GrowthName();
    forall j | 4 < j < |all| ensures Silent(all[j], "total_growth_kib") {
      if j < 10 { TameSilent(fs, j, "total_growth_kib", 'b'); } else { assert all[j] == tail[j - 10]; }
    }
  }

  lemma FindsVerdict(fs: seq<Field>, v: Verdict)
    requires FirstOf(fs, 0, "verdict", VerdictText(v))
    ensures Search(FileText(fs), "verdict", SpacedWord) == Some(VerdictText(v))
  {
    VerdictWordy(v);
    WordyPlain(VerdictText(v));
    WordFound(fs, 0, "verdict", VerdictText(v));
  }

  lemma FindsOwner(fs: seq<Field>, owner: string)
    requires FirstOf(fs, 1, "owner", owner) && owner in SUBSYSTEMS
    ensures Search(FileText(fs), "owner", SpacedWord) == Some(owner)
  {
    OwnerWordy(owner);
    WordyPlain(owner);
    WordFound(fs, 1, "owner", owner);
  }

  // Behind an empty owner the pattern runs on to the label of the next line.
  lemma OwnerRunsOn(fs: seq<Field>)
    requires FirstOf(fs, 1, "owner", "") && |fs| > 2 && fs[2].key == "reason"
    ensures Search(FileText(fs), "owner", SpacedWord) == Some("reason:")
  {
    HeadWords();
    WordyPlain("reason");
    NextLabelFound(fs, 1, "owner");
    assert "reason" + ":" == "reason:";
  }

  // A negative growth is matched nowhere in the file.
  lemma FindsGrowth(fs: seq<Field>, growth: int)
    requires FirstOf(fs, 4, "total_growth_kib", IntText(growth)) && GrowthAlone(fs)
    ensures Search(FileText(fs), "total_growth_kib", SpacedNumber) == if growth >= 0 then Some(growth) else None
  {
    if growth >= 0 {
      NumberFound(fs, 4, "total_growth_kib", growth);
    } else {
      DecimalPlain(-growth);
      NegativeNotFound(fs, 4, "total_growth_kib", Decimal(-growth));
    }
  }

  lemma FindsLabels(fs: seq<Field>, r: Report, events: string)
    requires Keyed(fs, r, events)
    ensures Contains(FileText(fs), "steps_detected:") && Contains(FileText(fs), "total_growth_kib:")
    ensures Contains(FileText(fs), "growth_rate_kib_per_min:")
  {
    LabelContained(fs, 3);
    LabelContained(fs, 4);
    LabelContained(fs, 5);
    assert "steps_detected" + ":" == "steps_detected:" && "total_growth_kib" + ":" == "total_growth_kib:";
    assert "growth_rate_kib_per_min" + ":" == "growth_rate_kib_per_min:";
  }

  lemma TrimKeepsStart(s: string)
    requires s != "" && !PySpace(s[0])
    ensures Strip(s, PySpace) != ""
  {
    assert LStrip(s, PySpace) == s;
    RStripPrefix(s, [s[0]], PySpace);
  }

  ghost predicate TightLine(s: string) { s != "" && !PySpace(s[0]) && !PySpace(s[|s| - 1]) && '\n' !in s }

  lemma TrimsTight(start: string, events: string)
    requires start == "correlated_events: " && TightLine(events)
    ensures Strip(start + events, PySpace) == start + events
  {
    assert start[0] == 'c';
    StripTight(start + events, PySpace);
  }

  lemma FindsEvidence(fs: seq<Field>, r: Report, events: string)
    requires Reportable(r) && LinesLaid(fs, r, events) && TightLine(events)
    ensures Trimmed(Search(FileText(fs), "owner_evidence", SpacedLine)) ==
            if r.ownerEvidence != "" then Strip(r.ownerEvidence, PySpace) else "correlated_events: " + events
  {
    if r.ownerEvidence != "" {
      LineFound(fs, 8, "owner_evidence", r.ownerEvidence);
    } else {
      EventsLine(fs[9], events);
      NextLineFound(fs, 8, "owner_evidence");
      TrimsTight("correlated_events: ", events);
    }
  }

  lemma EventsLine(f: Field, events: string)
    requires f == Field("correlated_events", events) && TightLine(events)
    ensures FieldText(f) == "correlated_events: " + events && '\n' !in FieldText(f)
    ensures f.key != "" && !PySpace(f.key[0])
  {
    HeadWords();
    WordyPlain("correlated_events");
    assert "correlated_events" + (": " + events) == "correlated_events: " + events;
  }

  lemma FindsEvents(fs: seq<Field>, r: Report, events: string)
    requires LinesLaid(fs, r, events) && TightLine(events)
    ensures Trimmed(Search(FileText(fs), "correlated_events", SpacedLine)) == events
  {
    LineFound(fs, 9, "correlated_events", events);
    StripTight(events, PySpace);
  }

  lemma FindsAll(fs: seq<Field>, r: Report, events: string)
    requires Reportable(r) && Keyed(fs, r, events) && Tame(fs) && GrowthAlone(fs) && TightLine(events)
    ensures FoundIn(r, FoundOf(FileText(fs))) && FoundOf(FileText(fs)).correlatedEvents == events
    ensures FoundOf(FileText(fs)).ownerEvidence ==
            if r.ownerEvidence != "" then Strip(r.ownerEvidence, PySpace) else "correlated_events: " + events
    ensures r.owner == "" ==> FoundOf(FileText(fs)).owner == Some("reason:")
  {
    KeyedShort(fs, r, events);
    KeyedNumbers(fs, r, events);
    KeyedLines(fs, r, events);
    FindsVerdict(fs, r.verdict);
    if r.owner == "" { OwnerRunsOn(fs); } else { FindsOwner(fs, r.owner); }
    NumberFound(fs, 3, "steps_detected", r.steps);
    FindsGrowth(fs, r.growth);
    FindsLabels(fs, r, events);
    LineFound(fs, 2, "reason", r.reason);
    FindsEvidence(fs, r, events);
    FindsEvents(fs, r, events);
    if r.ownerEvidence != "" { TrimKeepsStart(r.ownerEvidence); }
  }

  // Main result. In the file the analyzer writes for a report the verifier's patterns find
  // exactly the report's fields, whatever else the run adds to it. Behind an empty owner they find
  // the word "reason:", and behind empty evidence the whole next line.
  lemma VerdictFileFound(r: Report, u: RunInfo)
    requires Reportable(r)
    ensures FoundIn(r, FoundOf(VerdictFile(r, u)))
    ensures FoundOf(VerdictFile(r, u)).correlatedEvents == SixCounts(u.shell)
    ensures FoundOf(VerdictFile(r, u)).ownerEvidence ==
            if r.ownerEvidence != "" then Strip(r.ownerEvidence, PySpace)
            else "correlated_events: " + SixCounts(u.shell)
    ensures r.owner == "" ==> FoundOf(VerdictFile(r, u)).owner == Some("reason:")
  {
    var head, tail := HeadFields(r, u), TailFields(u);
    HeadTame(r, u);
    HeadKeyed(r, u);
    forall j | 0 <= j < |tail| ensures Silent(tail[j], "total_growth_kib") { TailSilent(u, j); }
    TameGrowthAlone(head, tail);
    TameAppend(head, tail);
    SixCountsPlain(u.shell);
    KeyedAppend(head, tail, r, SixCounts(u.shell));
    FindsAll(head + tail, r, SixCounts(u.shell));
  }

  // ----- the analyzer's reasons are quiet -----

  ghost predicate QuietWording(w: Wording) {
    && (forall steps, growth, rate :: Quiet(w.unattributed(steps, growth, rate)))
    && (forall owner, correlated, total, steps, growth | owner in SUBSYSTEMS ::
          Quiet(w.evidence(owner, correlated, total, steps, growth)))
    && (forall name, correlated, total, steps, growth | name in SUBSYSTEMS ::
          Quiet(w.insufficient(name, correlated, total, steps, growth)))
    && (forall steps, growth :: Quiet(w.uncorrelated(steps, growth)) && Quiet(w.possible(steps, growth)))
    && (forall growth :: Quiet(w.bounded(growth)))
    && (forall growth, duration, steps :: Quiet(w.unclear(growth, duration, steps)))
  }

  // So every report of the analyzer is one whose file reads back.
  lemma AnalysisReportable(rows: seq<Sample>, duration: int, natives: seq<Native>, w: Wording)
    requires QuietWording(w)
    ensures var r := Analysis(rows, duration, natives, w);
            Reportable(r) && (r.verdict == ConfirmedLeak <==> r.owner != "")
  {
    var v := Extract(rows);
    assert Dominant(natives, StepTimes(v), SUBSYSTEMS) in SUBSYSTEMS;
    SubsystemsNamed();
  }

  lemma SubsystemsNamed()
    ensures "" !in SUBSYSTEMS
  {}

  lemma DecimalSmooth(n: nat)
    ensures Smooth(Decimal(n))
  {
    var d := Decimal(n);
    forall i | 0 <= i < |d| ensures IsDigit(d[i]) { assert d[i] in d; }
  }

  lemma IntSmooth(n: int)
    ensures Smooth(IntText(n))
  {
    DecimalSmooth(if n < 0 then -n else n);
  }

  lemma CountsSmooth(c: Counts)
    ensures Smooth(CountsText(c))
  {
    DecimalSmooth(c.heartbeat);
    DecimalSmooth(c.wg);
    DecimalSmooth(c.bgp);
    DecimalSmooth(c.bfd);
  }

  lemma OwnerSmooth(owner: string)
    requires owner in SUBSYSTEMS
    ensures Smooth(owner)
  {}

  lemma QuietParts(parts: seq<string>)
    requires parts != [] && parts[0] != "" && !PySpace(parts[0][0])
    requires forall k | 0 <= k < |parts| :: Smooth(parts[k])
    ensures Quiet(Concat(parts))
  {
    ConcatKeeps(parts, Smooth);
  }

  // The texts between the values of each reason.
  lemma UnattributedStart()
    ensures Smooth("Staircase growth detected (") && Smooth(" steps, ") && Smooth(" KiB total, ")
    ensures Smooth(" KiB/min) but ") && Smooth("owner is unattributed")
  {}

  lemma UnattributedRest()
    ensures Smooth(". Events are shell-side synthetic ") && Smooth("and cannot be used for attribution. ")
    ensures Smooth("Need tovarisch-native event emission to ")
    ensures Smooth("identify the periodic background owner.")
  {}

  lemma UnattributedReasonQuiet(steps: nat, growth: int, rate: int)
    ensures Quiet(UnattributedReason(steps, growth, rate))
  {
    UnattributedStart();
    UnattributedRest();
    IntSmooth(steps);
    IntSmooth(growth);
    IntSmooth(rate);
    QuietParts(UnattributedParts(steps, growth, rate));
  }

  lemma EvidencePieces()
    ensures Smooth("Native events from ") && Smooth(" subsystem correlate with ")
    ensures Smooth(" memory steps. Total ") && Smooth(" native events: ") && Smooth(". Growth pattern: ")
    ensures Smooth(" steps, ") && Smooth(" KiB total.")
  {}

  lemma EvidenceTextQuiet(owner: string, correlated: nat, total: nat, steps: nat, growth: int)
    requires owner in SUBSYSTEMS
    ensures Quiet(EvidenceText(owner, correlated, total, steps, growth))
  {
    EvidencePieces();
    OwnerSmooth(owner);
    IntSmooth(correlated);
    IntSmooth(total);
    IntSmooth(steps);
    IntSmooth(growth);
    QuietParts(EvidenceParts(owner, correlated, total, steps, growth));
  }

  lemma InsufficientPieces()
    ensures Smooth("Native events present ") && Smooth("but insufficient ") && Smooth("for attribution. ")
    ensures Smooth("Correlated ") && Smooth(" events: ") && Smooth(", total ") && Smooth(" (need >= 3). Growth: ")
    ensures Smooth(" steps, ") && Smooth(" KiB.")
  {}

  lemma InsufficientReasonQuiet(name: string, correlated: nat, total: nat, steps: nat, growth: int)
    requires name in SUBSYSTEMS
    ensures Quiet(InsufficientReason(name, correlated, total, steps, growth))
  {
    InsufficientPieces();
    OwnerSmooth(name);
    IntSmooth(correlated);
    IntSmooth(total);
    IntSmooth(steps);
    IntSmooth(growth);
    QuietParts(InsufficientParts(name, correlated, total, steps, growth));
  }

  lemma UncorrelatedPieces()
    ensures Smooth("Native events present ") && Smooth("but none correlate ") && Smooth("with memory steps. ")
    ensures Smooth("Growth: ") && Smooth(" steps, ") && Smooth(" KiB. ") && Smooth("Need native events ")
    ensures Smooth("near memory step ") && Smooth("timestamps for ") && Smooth("attribution.")
  {}

  lemma UncorrelatedReasonQuiet(steps: nat, growth: int)
    ensures Quiet(UncorrelatedReason(steps, growth))
  {
    UncorrelatedPieces();
    IntSmooth(steps);
    IntSmooth(growth);
    QuietParts(UncorrelatedParts(steps, growth));
  }

  lemma PossiblePieces()
    ensures Smooth("Possible staircase pattern: ") && Smooth(" steps, ") && Smooth(" KiB. ")
    ensures Smooth(". Need longer observation ") && Smooth("or targeted testing.")
  {}

  lemma PossibleReasonQuiet(steps: nat, growth: int, source: string, c: Counts)
    requires Smooth(source)
    ensures Quiet(PossibleReason(steps, growth, source, c))
  {
    PossiblePieces();
    IntSmooth(steps);
    IntSmooth(growth);
    CountsSmooth(c);
    QuietParts(PossibleParts(steps, growth, source, c));
  }

  lemma GrowthPieces()
    ensures Smooth("Detected ") && Smooth(" KiB growth but no clear ") && Smooth("staircase pattern ")
    ensures Smooth("(may be normal warmup or allocator ") && Smooth("high water mark settling). ")
    ensures Smooth("Event counts: ") && Smooth(".")
  {}

  lemma GrowthReasonQuiet(growth: int, c: Counts)
    ensures Quiet(GrowthReason(growth, c))
  {
    GrowthPieces();
    IntSmooth(growth);
    CountsSmooth(c);
    QuietParts(GrowthParts(growth, c));
  }

  lemma MinimalPieces()
    ensures Smooth("Minimal growth detected (") && Smooth(" KiB) - likely bounded by ")
    ensures Smooth("allocator high water mark ") && Smooth("or normal warmup. ") && Smooth("Event counts: ")
    ensures Smooth(".")
  {}

  lemma MinimalReasonQuiet(growth: int, c: Counts)
    ensures Quiet(MinimalReason(growth, c))
  {
    MinimalPieces();
    IntSmooth(growth);
    CountsSmooth(c);
    QuietParts(MinimalParts(growth, c));
  }

  lemma UnclearPieces()
    ensures Smooth("Growth pattern unclear: ") && Smooth(" KiB over ") && Smooth("s with ")
    ensures Smooth(" steps. ") && Smooth("Event counts: ") && Smooth(".")
  {}

  lemma UnclearReasonQuiet(growth: int, duration: int, steps: nat, c: Counts)
    ensures Quiet(UnclearReason(growth, duration, steps, c))
  {
    UnclearPieces();
    IntSmooth(growth);
    IntSmooth(duration);
    IntSmooth(steps);
    CountsSmooth(c);
    QuietParts(UnclearParts(growth, duration, steps, c));
  }

  lemma SourceNames()
    ensures Smooth("Event counts: ") && Smooth("Native events: ")
  {}

  lemma PossibleWordingQuiet(shell: Counts, natives: seq<Native>)
    ensures forall steps, growth :: Quiet(PossibleWording(shell, natives)(steps, growth))
  {
    SourceNames();
    forall steps, growth ensures Quiet(PossibleWording(shell, natives)(steps, growth)) {
      PossibleReasonQuiet(steps, growth, "Event counts: ", shell);
      PossibleReasonQuiet(steps, growth, "Native events: ", NativeCounts(natives));
    }
  }

  lemma BoundedWordingQuiet(shell: Counts)
    ensures forall growth :: Quiet(BoundedWording(shell)(growth))
  {
    forall growth ensures Quiet(BoundedWording(shell)(growth)) {
      GrowthReasonQuiet(growth, shell);
      MinimalReasonQuiet(growth, shell);
    }
  }

  lemma UnclearWordingQuiet(shell: Counts)
    ensures forall growth, duration, steps :: Quiet(UnclearWording(shell)(growth, duration, steps))
  {
    forall growth, duration, steps ensures Quiet(UnclearWording(shell)(growth, duration, steps)) {
      UnclearReasonQuiet(growth, duration, steps, shell);
    }
  }

  lemma OwnerWordingQuiet(owner: string, correlated: nat, total: nat, steps: nat, growth: int)
    requires owner in SUBSYSTEMS
    ensures Quiet(EvidenceText(owner, correlated, total, steps, growth))
    ensures Quiet(InsufficientReason(owner, correlated, total, steps, growth))
  {
    EvidenceTextQuiet(owner, correlated, total, steps, growth);
    InsufficientReasonQuiet(owner, correlated, total, steps, growth);
  }

  // The analyzer's own reasons are on one line and without underscores.
  lemma SourceWordingQuiet(shell: Counts, natives: seq<Native>)
    ensures QuietWording(SourceWording(shell, natives))
  {
    var w := SourceWording(shell, natives);
    PossibleWordingQuiet(shell, natives);
    BoundedWordingQuiet(shell);
    UnclearWordingQuiet(shell);
    forall steps, growth, rate ensures Quiet(w.unattributed(steps, growth, rate)) {
      UnattributedReasonQuiet(steps, growth, rate);
    }
    forall owner, correlated, total, steps, growth | owner in SUBSYSTEMS
      ensures Quiet(w.evidence(owner, correlated, total, steps, growth))
      ensures Quiet(w.insufficient(owner, correlated, total, steps, growth))
    {
      OwnerWordingQuiet(owner, correlated, total, steps, growth);
    }
    forall steps, growth ensures Quiet(w.uncorrelated(steps, growth)) { UncorrelatedReasonQuiet(steps, growth); }
  }

  // ----- the agreement, stated for the file -----

  // Behind an empty owner the verifier reads the word "reason:" as the owner, so its demand that
  // an inconclusive staircase explain itself is never made of a file the analyzer wrote.
  lemma ExplanationNeverAsked(r: Report, u: RunInfo, ev: Evidence)
    requires Reportable(r) && r.verdict == Inconclusive && r.owner == ""
    ensures CheckVerdictFile(Some(VerdictFile(r, u)), ev) == None
  {
    VerdictFileFound(r, u);
    NamedOwnerAccepted(FoundOf(VerdictFile(r, u)), ev);
  }

  // Main result. For every sample series and all native events, any wording on one line without
  // underscores, and whatever else the run adds, the verifier accepts the analyzer's file exactly
  // when it is inconclusive, or bounded within the verifier's limits, or a leak that the evidence
  // proves to the verifier.
  lemma AnalysisFileIff(rows: seq<Sample>, duration: int, natives: seq<Native>, w: Wording, u: RunInfo, ev: Evidence)
    requires QuietWording(w) && ev.samples == rows && (natives != [] ==> ev.natives == Some(natives))
    ensures var r := Analysis(rows, duration, natives, w);
            CheckVerdictFile(Some(VerdictFile(r, u)), ev) == None <==>
            match r.verdict
            case Inconclusive => true
            case Bounded => r.growth <= 2000 && r.steps <= 10
            case ConfirmedLeak => Provable(rows, natives, r.owner, ev)
  {
    var r := Analysis(rows, duration, natives, w);
    AnalysisReportable(rows, duration, natives, w);
    VerdictFileFound(r, u);
    var f := FoundOf(VerdictFile(r, u));
    if r.verdict == Inconclusive {
      ExplanationNeverAsked(r, u, ev);
    } else if r.verdict == Bounded {
      BoundedAccepted(f, r);
    } else {
      LeakHasEvents(rows, duration, natives, w);
      ConfirmedAgreement(rows, duration, natives, w, f, ev);
    }
  }

  lemma LeakHasEvents(rows: seq<Sample>, duration: int, natives: seq<Native>, w: Wording)
    requires Analysis(rows, duration, natives, w).verdict == ConfirmedLeak
    ensures natives != []
  {}

  lemma NeverConfirmed(rows: seq<Sample>, duration: int, w: Wording)
    ensures Analysis(rows, duration, [], w).verdict != ConfirmedLeak
  {}

  // So without native events everything is accepted, except exactly a bounded verdict with more
  // than 2000 KiB of growth or more than 10 steps.
  lemma ShellOnlyFile(rows: seq<Sample>, duration: int, w: Wording, u: RunInfo, ev: Evidence)
    requires QuietWording(w) && ev.samples == rows
    ensures var r := Analysis(rows, duration, [], w);
            CheckVerdictFile(Some(VerdictFile(r, u)), ev) == None <==>
            !(r.verdict == Bounded && (r.growth > 2000 || r.steps > 10))
  {
    AnalysisFileIff(rows, duration, [], w, u, ev);
    NeverConfirmed(rows, duration, w);
  }

  // ----- disagreements, by example -----

  // A leak of heartbeat: the analyzer never looks at the shell timeline, and the marker in it
  // alone decides whether the verifier accepts the file.
  lemma AnalyzerIgnoresMarker(duration: int, w: Wording, u: RunInfo, ev: Evidence)
    requires QuietWording(w) && ev.samples == STAIRS && ev.natives == Some(ThreeOf(OneEvent("heartbeat")))
    ensures var r := Analysis(STAIRS, duration, ThreeOf(OneEvent("heartbeat")), w);
            && r.verdict == ConfirmedLeak
            && CheckVerdictFile(Some(VerdictFile(r, u)), ev) ==
               if ev.timeline.Some? && ShellSynthetic(ev.timeline.value) then Some(SyntheticEvents) else None
  {
    LeakFile("heartbeat", duration, w, u, ev);
    HeartbeatProven();
  }

  lemma HeartbeatProven()
    ensures "heartbeat" in SUBSYSTEMS
    ensures NativeCorrelation(Some(ThreeOf(OneEvent("heartbeat"))), STAIRS, "heartbeat")
  {
    var e := OneEvent("heartbeat");
    LowerNames("heartbeat");
    StairSteps();
    OwnsTick(e);
    assert e in ThreeOf(e) && MillisWindow(10000, 10);
  }

  lemma OwnsTick(e: Native)
    requires e == OneEvent("heartbeat")
    ensures Owned(e, "heartbeat") && OwnerPrefixes("heartbeat") != []
  {
    LowerNames("heartbeat");
    assert "heartbeat" in OwnerPrefixes("heartbeat") && "heartbeat" <= e.event;
  }

  lemma LeakFile(subsystem: string, duration: int, w: Wording, u: RunInfo, ev: Evidence)
    requires QuietWording(w) && subsystem in SUBSYSTEMS
    requires ev.samples == STAIRS && ev.natives == Some(ThreeOf(OneEvent(subsystem)))
    ensures var r := Analysis(STAIRS, duration, ThreeOf(OneEvent(subsystem)), w);
            && r.verdict == ConfirmedLeak && r.owner == subsystem
            && CheckVerdictFile(Some(VerdictFile(r, u)), ev) ==
               if ev.timeline.Some? && ShellSynthetic(ev.timeline.value) then Some(SyntheticEvents)
               else if !NativeCorrelation(ev.natives, ev.samples, subsystem) then Some(NoNativeCorrelation)
               else None
  {
    var natives := ThreeOf(OneEvent(subsystem));
    LeakOf(subsystem, duration, w);
    AnalysisReportable(STAIRS, duration, natives, w);
    VerdictFileFound(Analysis(STAIRS, duration, natives, w), u);
    ConfirmedOutcome(STAIRS, duration, natives, w, FoundOf(VerdictFile(Analysis(STAIRS, duration, natives, w), u)), ev);
  }

  // Health and status events can be named the owner of a leak, of which the verifier then knows
  // no event, even if the shell timeline is clean.
  lemma UnknownOwner(subsystem: string, duration: int, w: Wording, u: RunInfo, ev: Evidence)
    requires QuietWording(w) && (subsystem == "health" || subsystem == "status")
    requires ev.samples == STAIRS && ev.natives == Some(ThreeOf(OneEvent(subsystem)))
    requires ev.timeline.Some? ==> !ShellSynthetic(ev.timeline.value)
    ensures var r := Analysis(STAIRS, duration, ThreeOf(OneEvent(subsystem)), w);
            && r.verdict == ConfirmedLeak && r.owner == subsystem
            && CheckVerdictFile(Some(VerdictFile(r, u)), ev) == Some(NoNativeCorrelation)
  {
    Unprefixed(subsystem);
    LeakFile(subsystem, duration, w, u, ev);
  }

  lemma Unprefixed(subsystem: string)
    requires subsystem == "health" || subsystem == "status"
    ensures subsystem in SUBSYSTEMS && OwnerPrefixes(subsystem) == []
  {
    assert "health" in SUBSYSTEMS && "status" in SUBSYSTEMS;
    KnownOwners(subsystem);
  }

  // ----- the demand that is never made -----

  // The file with nothing read as its owner.
  function WithoutOwner(f: Found): Found { f.(owner := None) }

  predicate UOrW(c: char) { c == 'u' || c == 'U' || c == 'w' || c == 'W' }

  // Neither "unattributed" nor "owner" can be in such a text, nor arise where two of them meet.
  ghost predicate Unclaimed(s: string) {
    && (s != "" ==> !UOrW(s[|s| - 1]))
    && forall j | 0 < j < |s| && UOrW(s[j - 1]) :: s[j] != 'n' && s[j] != 'N'
  }

  lemma UnclaimedSilent(s: string)
    requires Unclaimed(s)
    ensures !Contains(Lower(s), "unattributed") && !Contains(Lower(s), "owner")
  {
    MissingPair(Lower(s), "unattributed", 0);
    MissingPair(Lower(s), "owner", 1);
  }

  lemma UnclaimedParts(parts: seq<string>)
    requires forall k | 0 <= k < |parts| :: Unclaimed(parts[k])
    ensures Unclaimed(Concat(parts))
  {
    forall a: string, b: string | Unclaimed(a) && Unclaimed(b) ensures Unclaimed(a + b) { UnclaimedJoined(a, b); }
    ConcatKeeps(parts, Unclaimed);
  }

  lemma UnclaimedJoined(a: string, b: string)
    requires Unclaimed(a) && Unclaimed(b)
    ensures Unclaimed(a + b)
  {
    var s := a + b;
    forall j | 0 < j < |s| && UOrW(s[j - 1]) ensures s[j] != 'n' && s[j] != 'N' {
      if j > |a| { assert s[j] == b[j - |a|] && s[j - 1] == b[j - |a| - 1]; }
    }
  }

  lemma NumberUnclaimed(n: int)
    ensures Unclaimed(IntText(n))
  {
    var d := Decimal(if n < 0 then -n else n);
    forall i | 0 <= i < |d| ensures IsDigit(d[i]) { assert d[i] in d; }
  }

  lemma NameUnclaimed(name: string)
    requires name in SUBSYSTEMS
    ensures Unclaimed(name)
  {}

  // A text in which such a letter stands at one place at most, and not before an n.
  lemma OnePlace(s: string, k: nat)
    requires k + 1 < |s| && s[k + 1] != 'n' && s[k + 1] != 'N'
    requires forall j | 0 <= j < |s| && UOrW(s[j]) :: j == k
    ensures Unclaimed(s)
  {}

  // The texts between the values of the two reasons.
  lemma PresentWords()
    ensures Unclaimed("Native events present ") && Unclaimed("Growth: ") && Unclaimed(" steps, ")
  {
    OnePlace("Native events present ", 0);
    OnePlace("Growth: ", 3);
    OnePlace(" steps, ", 0);
  }

  lemma UncorrelatedWords()
    ensures Unclaimed("but none correlate ") && Unclaimed("with memory steps. ") && Unclaimed(" KiB. ")
  {
    OnePlace("but none correlate ", 1);
    OnePlace("with memory steps. ", 0);
    OnePlace(" KiB. ", 0);
  }

  lemma DemandWords()
    ensures Unclaimed("Need native events ") && Unclaimed("near memory step ") && Unclaimed("timestamps for ")
    ensures Unclaimed("attribution.")
  {
    OnePlace("Need native events ", 0);
    OnePlace("near memory step ", 0);
    OnePlace("timestamps for ", 0);
    OnePlace("attribution.", 6);
  }

  lemma UncorrelatedUnclaimed(steps: nat, growth: int)
    ensures Unclaimed(UncorrelatedReason(steps, growth))
  {
    PresentWords();
    UncorrelatedWords();
    DemandWords();
    NumberUnclaimed(steps);
    NumberUnclaimed(growth);
    UnclaimedParts(UncorrelatedParts(steps, growth));
  }

  lemma InsufficientWords()
    ensures Unclaimed("but insufficient ") && Unclaimed("for attribution. ") && Unclaimed("Correlated ")
  {
    OnePlace("but ", 1);
    OnePlace("insufficient ", 3);
    UnclaimedJoined("but ", "insufficient ");
    assert "but " + "insufficient " == "but insufficient ";
    OnePlace("for attribution. ", 10);
    OnePlace("Correlated ", 0);
  }

  lemma CountWords()
    ensures Unclaimed(" events: ") && Unclaimed(", total ") && Unclaimed(" (need >= 3). Growth: ") && Unclaimed(" KiB.")
  {
    OnePlace(" events: ", 0);
    OnePlace(", total ", 0);
    OnePlace(" (need >= 3). Growth: ", 17);
    OnePlace(" KiB.", 0);
  }

  lemma InsufficientValues(name: string, correlated: nat, total: nat, steps: nat, growth: int)
    requires name in SUBSYSTEMS
    ensures Unclaimed(name) && Unclaimed(IntText(correlated)) && Unclaimed(IntText(total))
    ensures Unclaimed(IntText(steps)) && Unclaimed(IntText(growth))
  {
    NameUnclaimed(name);
    NumberUnclaimed(correlated);
    NumberUnclaimed(total);
    NumberUnclaimed(steps);
    NumberUnclaimed(growth);
  }

  lemma InsufficientPart(name: string, correlated: nat, total: nat, steps: nat, growth: int, k: nat)
    requires name in SUBSYSTEMS && k < |InsufficientParts(name, correlated, total, steps, growth)|
    ensures Unclaimed(InsufficientParts(name, correlated, total, steps, growth)[k])
  {
    if k < 4 {
      PresentWords();
      InsufficientWords();
    } else if k == 4 || k == 6 || k == 8 || k == 10 || k == 12 || k == 14 {
      InsufficientValues(name, correlated, total, steps, growth);
    } else {
      PresentWords();
      CountWords();
    }
  }

  lemma InsufficientUnclaimed(name: string, correlated: nat, total: nat, steps: nat, growth: int)
    requires name in SUBSYSTEMS
    ensures Unclaimed(InsufficientReason(name, correlated, total, steps, growth))
  {
    var parts := InsufficientParts(name, correlated, total, steps, growth);
    forall k | 0 <= k < |parts| ensures Unclaimed(parts[k]) {
      InsufficientPart(name, correlated, total, steps, growth, k);
    }
    UnclaimedParts(parts);
  }

  // The reason of a staircase with native events that is not confirmed says nothing of its owner.
  lemma AttributedUnclaimed(v: seq<Sample>, natives: seq<Native>, shell: Counts)
    ensures var r := Attributed(v, natives, SourceWording(shell, natives));
            r.verdict != ConfirmedLeak ==> Unclaimed(r.reason)
  {
    var steps, growth, name := |RiseIndices(v)|, Growth(v), Dominant(natives, StepTimes(v), SUBSYSTEMS);
    UncorrelatedUnclaimed(steps, growth);
    InsufficientUnclaimed(name, CorrelatedOf(natives, StepTimes(v), name), CountOf(natives, name), steps, growth);
  }

  // Were an empty owner read as none, the demand for an explanation would refuse exactly the
  // inconclusive staircases with native events: only their reasons do not give one.
  lemma DemandWouldRefuse(rows: seq<Sample>, duration: int, natives: seq<Native>, shell: Counts, u: RunInfo,
                          ev: Evidence)
    ensures var r := Analysis(rows, duration, natives, SourceWording(shell, natives));
            CheckVerdict(Some(WithoutOwner(FoundOf(VerdictFile(r, u)))), ev) == Some(ReasonUnexplained) <==>
            r.verdict == Inconclusive && Staircase(r.steps, r.growth) && natives != []
  {
    var w := SourceWording(shell, natives);
    var r := Analysis(rows, duration, natives, w);
    SourceWordingQuiet(shell, natives);
    AnalysisReportable(rows, duration, natives, w);
    VerdictFileFound(r, u);
    StaircaseReason(rows, duration, natives, shell);
    DemandOutcome(r, FoundOf(VerdictFile(r, u)), ev);
  }

  // Of an inconclusive staircase's reasons only the one without native events names the owner.
  lemma StaircaseReason(rows: seq<Sample>, duration: int, natives: seq<Native>, shell: Counts)
    ensures var r := Analysis(rows, duration, natives, SourceWording(shell, natives));
            r.verdict == Inconclusive && Staircase(r.steps, r.growth) ==>
              if natives == [] then Contains(Lower(r.reason), "owner")
              else !Contains(Lower(r.reason), "unattributed") && !Contains(Lower(r.reason), "owner")
  {
    var r := Analysis(rows, duration, natives, SourceWording(shell, natives));
    if r.verdict == Inconclusive && Staircase(r.steps, r.growth) {
      if natives == [] {
        SourceWordingExplains(shell, natives);
      } else {
        AttributedUnclaimed(Extract(rows), natives, shell);
        UnclaimedSilent(r.reason);
      }
    }
  }

  lemma DemandOutcome(r: Report, f: Found, ev: Evidence)
    requires FoundIn(r, f)
    ensures CheckVerdict(Some(WithoutOwner(f)), ev) == Some(ReasonUnexplained) <==>
            && r.verdict == Inconclusive && Staircase(r.steps, r.growth)
            && !Contains(Lower(r.reason), "unattributed") && !Contains(Lower(r.reason), "owner")
  {}

  // A late event, near no step.
  function LateEvent(): Native { Native(100000, "heartbeat_tick", "heartbeat") }

  // Such a file: it is accepted, and would be refused.
  lemma DemandNotMade(duration: int, shell: Counts, u: RunInfo, ev: Evidence)
    ensures var natives := [LateEvent()];
            var r := Analysis(STAIRS, duration, natives, SourceWording(shell, natives));
            && CheckVerdictFile(Some(VerdictFile(r, u)), ev) == None
            && CheckVerdict(Some(WithoutOwner(FoundOf(VerdictFile(r, u)))), ev) == Some(ReasonUnexplained)
  {
    var natives := [LateEvent()];
    var w := SourceWording(shell, natives);
    var r := Analysis(STAIRS, duration, natives, w);
    LateReport(duration, w);
    SourceWordingQuiet(shell, natives);
    AnalysisReportable(STAIRS, duration, natives, w);
    ExplanationNeverAsked(r, u, ev);
    DemandWouldRefuse(STAIRS, duration, natives, shell, u, ev);
  }

  lemma LateReport(duration: int, w: Wording)
    ensures var r := Analysis(STAIRS, duration, [LateEvent()], w);
            r.verdict == Inconclusive && r.owner == "" && Staircase(r.steps, r.growth)
  {
    StairSteps();
    StairTimes();
    CorrelatedPositive([LateEvent()], StepTimes(STAIRS), Dominant([LateEvent()], StepTimes(STAIRS), SUBSYSTEMS));
  }

  lemma StairTimes()
    ensures forall t | t in StepTimes(STAIRS) :: t <= 30
  {
    var idx, times := RiseIndices(STAIRS), StepTimes(STAIRS);
    forall t | t in times ensures t <= 30 {
      var k :| 0 <= k < |times| && times[k] == t;
      assert STAIRS[idx[k]].0 <= 30;
    }
  }
}
