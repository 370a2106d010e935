/** The manifest of a lab run: its text, the check of it, and the flag the verifier reads in it. */
module LabManifest {
  import opened Sequences
  import opened Text
  import opened LabTables
  import opened LabRun
  import opened LabPatterns

  // What the manifest says besides the configuration of the run.
  datatype ManifestInfo = ManifestInfo(
    generated: string, runId: string, platform: string, kernel: string, architecture: string, strace: bool,
    port: int, bind: string, nativePath: string, binary: string, binaryExists: bool, commit: string, dirty: int,
    start: string)

  function Quoted(s: string): string { "\"" + s + "\"" }

  function RunFields(c: Config, m: ManifestInfo): (fs: seq<Field>)
    ensures |fs| == 9
  {
    [Field("# Generated", m.generated),
     Field("run_id", Quoted(m.runId)),
     Field("platform", m.platform),
     Field("kernel", m.kernel),
     Field("architecture", m.architecture),
     Field("duration_seconds", IntText(c.duration)),
     Field("sample_interval_seconds", IntText(c.interval)),
     Field("status_burst", LowerBool(c.statusBurst)),
     Field("strace_enabled", LowerBool(m.strace))]
  }

  function ShellFields(c: Config, m: ManifestInfo): (fs: seq<Field>)
    ensures |fs| == 7
  {
    [Field("lab_port", IntText(m.port)),
     Field("lab_bind", m.bind),
     Field("# CRITICAL", "Shell-side synthetic events " + "CANNOT produce confirmed_leak verdicts"),
     Field("event_source", "shell_synthetic"),
     Field("heartbeat_enabled", LowerBool(c.heartbeat)),
     Field("wg_check_enabled", LowerBool(c.wgCheck)),
     Field("bgp_bfd_enabled", LowerBool(c.bgpBfd))]
  }

  const TITLE := "# Idle Staircase Memory Lab Manifest"

  function NativeComment(): string { "# Native event source (tovarisch-native, " + "can be used for confirmed_leak)" }

  // The lines in front of the flag, and the lines behind it.
  function LinesBefore(c: Config, m: ManifestInfo): seq<string> {
    [TITLE] + Map(RunFields(c, m) + ShellFields(c, m), FieldText) + [NativeComment()]
  }

  function FlagField(c: Config): Field { Field("native_events_enabled", LowerBool(c.nativeEvents)) }

  function FieldsBehind(c: Config, m: ManifestInfo): seq<Field> {
    [Field("native_events_path", Quoted(m.nativePath)),
     Field("native_disable_heartbeat", LowerBool(c.disableHeartbeat)),
     Field("native_disable_wg_checks", LowerBool(c.disableWg)),
     Field("native_disable_bgp", LowerBool(c.disableBgp)),
     Field("native_disable_bfd", LowerBool(c.disableBfd)),
     Field("tovarisch_binary", Quoted(m.binary)),
     Field("binary_exists", LowerBool(m.binaryExists)),
     Field("commit_sha", m.commit),
     Field("git_dirty", IntText(m.dirty)),
     Field("lab_start_iso", m.start)]
  }

  function LinesBehind(c: Config, m: ManifestInfo): seq<string> { Map(FieldsBehind(c, m), FieldText) + [""] }

  function TextBefore(c: Config, m: ManifestInfo): string { Join(LinesBefore(c, m), '\n') }

  function ManifestText(c: Config, m: ManifestInfo): string {
    Join(LinesBefore(c, m) + ([FieldText(FlagField(c))] + LinesBehind(c, m)), '\n')
  }

  // ----- verify_manifest -----

  datatype ManifestError = ManifestTooSmall | NoManifestField(field: string)

  const REQUIRED_FIELDS := ["run_id:", "platform:", "commit_sha:"]

  function CheckManifest(content: string): Option<ManifestError> {
    var absent := FirstAbsent(REQUIRED_FIELDS, content);
    if |Strip(content, PySpace)| < 10 then Some(ManifestTooSmall)
    else if absent.Some? then Some(NoManifestField(absent.value))
    else None
  }

  method VerifyManifest(content: string) returns (error: Option<ManifestError>)
    ensures error == CheckManifest(content)
  {
    if |Strip(content, PySpace)| < 10 {
      return Some(ManifestTooSmall);
    }
    var absent := FindAbsent(REQUIRED_FIELDS, content);
    if absent.Some? {
      return Some(NoManifestField(absent.value));
    }
    return None;
  }

  // What any text must be for the manifest to be accepted.
  ghost predicate GoodManifest(content: string) {
    && |Strip(content, PySpace)| >= 10
    && Contains(content, "run_id:") && Contains(content, "platform:") && Contains(content, "commit_sha:")
  }

  lemma ManifestExactly(content: string)
    ensures CheckManifest(content).None? <==> GoodManifest(content)
  {
    assert forall t :: t in REQUIRED_FIELDS <==> t == "run_id:" || t == "platform:" || t == "commit_sha:";
  }

  lemma FieldLabel(f: Field)
    ensures Contains(FieldText(f), f.key + ":")
  {
    assert FieldText(f) == "" + (f.key + ":") + (" " + f.value);
    assert OccursAt(f.key + ":", f.key + ":", 0);
    ContainsWithin("", f.key + ":", " " + f.value, f.key + ":");
  }

  lemma LabelInManifest(c: Config, m: ManifestInfo, k: nat, f: Field)
    requires var lines := LinesBefore(c, m) + ([FieldText(FlagField(c))] + LinesBehind(c, m));
             k < |lines| && lines[k] == FieldText(f)
    ensures Contains(ManifestText(c, m), f.key + ":")
  {
    FieldLabel(f);
    JoinContains(LinesBefore(c, m) + ([FieldText(FlagField(c))] + LinesBehind(c, m)), '\n', k, f.key + ":");
  }

  lemma RequiredLines(c: Config, m: ManifestInfo)
    ensures var lines := LinesBefore(c, m) + ([FieldText(FlagField(c))] + LinesBehind(c, m));
            && |lines| == 30 && lines[0] == TITLE
            && lines[2] == FieldText(Field("run_id", Quoted(m.runId)))
            && lines[3] == FieldText(Field("platform", m.platform))
            && lines[26] == FieldText(Field("commit_sha", m.commit))
  {
    assert |LinesBefore(c, m)| == 18;
    assert (RunFields(c, m) + ShellFields(c, m))[1] == RunFields(c, m)[1];
    assert (RunFields(c, m) + ShellFields(c, m))[2] == RunFields(c, m)[2];
    assert LinesBehind(c, m)[7] == FieldText(FieldsBehind(c, m)[7]);
  }

  // Main result. Whatever the values are, the verifier accepts the written manifest.
  lemma WrittenManifest(c: Config, m: ManifestInfo)
    ensures CheckManifest(ManifestText(c, m)).None?
  {
    RequiredLines(c, m);
    LabelInManifest(c, m, 2, Field("run_id", Quoted(m.runId)));
    LabelInManifest(c, m, 3, Field("platform", m.platform));
    LabelInManifest(c, m, 26, Field("commit_sha", m.commit));
    assert "run_id" + ":" == "run_id:" && "platform" + ":" == "platform:" && "commit_sha" + ":" == "commit_sha:";
    LongEnough(c, m);
  }

  lemma LongEnough(c: Config, m: ManifestInfo)
    ensures |Strip(ManifestText(c, m), PySpace)| >= 10
  {
    var lines := LinesBefore(c, m) + ([FieldText(FlagField(c))] + LinesBehind(c, m));
    RequiredLines(c, m);
    assert lines == [TITLE] + lines[1..];
    JoinCons(TITLE, lines[1..], '\n');
    TitleStays(Join(lines[1..], '\n'));
  }

  lemma TitleStays(rest: string)
    ensures |Strip(TITLE + ['\n'] + rest, PySpace)| >= 10
  {
    var s := TITLE + ['\n'] + rest;
    assert TITLE[0] == '#' && TITLE[|TITLE| - 1] == 't' && |TITLE| >= 10 && TITLE <= s;
    assert LStrip(s, PySpace) == s;
    RStripPrefix(s, TITLE, PySpace);
  }

  // ----- check_native_events_enabled -----

  // \s*(true|false)
  function SpacedFlag(s: string): Option<bool> {
    var t := LStrip(s, PySpace);
    if "true" <= t then Some(true) else if "false" <= t then Some(false) else None
  }

  const FLAG := "native_events_enabled"

  // The search ignores letter case.
  predicate NativeRequired(content: string) { Search(Lower(content), FLAG, SpacedFlag) == Some(true) }

  // Blanks and a truth value.
  ghost predicate FlagForm(s: string, blank: string, word: string, rest: string) {
    Blank(blank) && s == blank + (word + rest)
  }

  lemma SpacedFlagIff(s: string, b: bool)
    ensures SpacedFlag(s) == Some(b) <==>
            var word := if b then "true" else "false"; exists blank, rest :: FlagForm(s, blank, word, rest)
  {
    var word := if b then "true" else "false";
    if SpacedFlag(s) == Some(b) {
      var t := LStrip(s, PySpace);
      var blank := LStripSplits(s);
      assert FlagForm(s, blank, word, t[|word|..]);
    }
    forall blank, rest | FlagForm(s, blank, word, rest) ensures SpacedFlag(s) == Some(b) {
      LStripBlank(blank, word + rest);
      FlagWords(word + rest);
    }
  }

  lemma FlagWords(t: string)
    ensures !("true" <= t && "false" <= t)
  {
    assert "true"[0] == 't' && "false"[0] == 'f';
  }

  // For any text: a native timeline is asked for exactly when the first label with a truth value behind
  // it, in whatever letter case, has true.
  lemma NativeRequiredIff(content: string)
    ensures var low := Lower(content);
            NativeRequired(content) <==>
            exists k | 0 <= k <= |low| ::
              FirstAt(low, "native_events_enabled", SpacedFlag, k) && SpacedFlag(low[k..][22..]) == Some(true)
  {
    var low := Lower(content);
    SearchFirst(low, FLAG, SpacedFlag);
    FlagName();
    forall j, k | 0 <= j <= |low| && 0 <= k <= |low|
                  && FirstAt(low, FLAG, SpacedFlag, j) && FirstAt(low, FLAG, SpacedFlag, k)
      ensures j == k
    {
      assert !(j < k) && !(k < j);
    }
  }

  lemma FlagReads(b: bool, rest: string)
    ensures SpacedFlag(" " + LowerBool(b) + ("\n" + rest)) == Some(b)
  {
    StripsBlank(LowerBool(b), "\n" + rest);
    var t := LowerBool(b) + ("\n" + rest);
    assert LowerBool(b) <= t;
    assert !b ==> t[0] == 'f';
  }

  lemma FlagName()
    ensures LabelName(FLAG) && Lower(FLAG) == FLAG
    ensures |FLAG| == 21 && (FLAG + ":")[21] == ':' && (FLAG + ":")[20] == 'd' && FLAG[0] == 'n' && FLAG[1] == 'a'
  {}

  lemma FlagLower(c: Config)
    ensures Lower(FieldText(FlagField(c))) == FieldText(FlagField(c)) && LabelName(FLAG)
  {
    var v := LowerBool(c.nativeEvents);
    FlagName();
    LowerAppend(FLAG, ": " + v);
    LowerAppend(": ", v);
    assert Lower(": ") == ": " && Lower(v) == v;
  }

  lemma FlagLine(c: Config, rest: string)
    ensures Search(FieldText(FlagField(c)) + ("\n" + rest), FLAG, SpacedFlag) == Some(c.nativeEvents)
  {
    FieldStarts(FlagField(c), rest);
    FlagReads(c.nativeEvents, rest);
  }

  lemma LineBetween(before: seq<string>, line: string, behind: seq<string>)
    requires before != [] && behind != []
    ensures Join(before + ([line] + behind), '\n') ==
            Join(before, '\n') + ("\n" + (line + ("\n" + Join(behind, '\n'))))
  {
    JoinSplitAt(before, [line] + behind, '\n');
    JoinCons(line, behind, '\n');
    var a, b := Join(before, '\n'), Join(behind, '\n');
    assert a + ['\n'] + (line + ['\n'] + b) == a + ("\n" + (line + ("\n" + b)));
  }

  // Of blanks the pattern makes no more if a line with an n in front follows, and of words neither.
  lemma {:induction false} FlagEnds(x: string, t: string)
    requires t != "" && t[0] == 'n'
    ensures SpacedFlag(x + ("\n" + t)) == SpacedFlag(x)
  {
    var w := x + ("\n" + t);
    if x == "" {
      assert w[1..] == t && LStrip(t, PySpace) == t;
      assert LStrip(w, PySpace) == t;
    } else if PySpace(x[0]) {
      assert w[1..] == x[1..] + ("\n" + t);
      FlagEnds(x[1..], t);
    } else {
      BreakEnds("true", x, t);
      BreakEnds("false", x, t);
    }
  }

  lemma BreakEnds(p: string, x: string, t: string)
    requires '\n' !in p
    ensures p <= x + ("\n" + t) <==> p <= x
  {
    var w := x + ("\n" + t);
    if p <= w {
      assert w[|x|] == '\n';
      PrefixStopsBefore(p, w, |x|);
    }
  }

  // What the search meets in the lines before the flag.
  function EarlyFlag(c: Config, m: ManifestInfo): Option<bool> { Search(Lower(TextBefore(c, m)), FLAG, SpacedFlag) }

  // The manifest in small letters, up to its flag and from there.
  lemma LowerManifest(c: Config, m: ManifestInfo) returns (rest: string)
    ensures Lower(ManifestText(c, m)) == Lower(TextBefore(c, m)) + ("\n" + (FieldText(FlagField(c)) + ("\n" + rest)))
  {
    var before, flag, behind := TextBefore(c, m), FieldText(FlagField(c)), Join(LinesBehind(c, m), '\n');
    LineBetween(LinesBefore(c, m), flag, LinesBehind(c, m));
    FlagLower(c);
    LowerAppend(before, "\n" + (flag + ("\n" + behind)));
    LowerAppend("\n", flag + ("\n" + behind));
    LowerAppend(flag, "\n" + behind);
    LowerAppend("\n", behind);
    assert Lower("\n") == "\n";
    rest := Lower(behind);
  }

  // Main result. For every manifest: the verifier reads the flag from the lines before it if they
  // hold its label with a truth value behind it, and as the run was configured otherwise.
  lemma FlagExactly(c: Config, m: ManifestInfo)
    ensures var early := EarlyFlag(c, m);
            NativeRequired(ManifestText(c, m)) <==> if early.Some? then early.value else c.nativeEvents
  {
    var rest := LowerManifest(c, m);
    var s, t := Lower(TextBefore(c, m)), FieldText(FlagField(c)) + ("\n" + rest);
    FlagName();
    assert t[0] == FLAG[0];
    forall x ensures SpacedFlag(x + ("\n" + t)) == SpacedFlag(x) { FlagEnds(x, t); }
    SearchAcross(s, t, FLAG, SpacedFlag, 0);
    assert s[0..] == s && (s + ("\n" + t))[0..] == s + ("\n" + t);
    FlagLine(c, rest);
  }

  // So it is read as configured exactly unless an earlier line says otherwise.
  lemma FlagAsConfigured(c: Config, m: ManifestInfo)
    ensures var early := EarlyFlag(c, m);
            (NativeRequired(ManifestText(c, m)) <==> c.nativeEvents) <==> early.None? || early.value == c.nativeEvents
  {
    FlagExactly(c, m);
  }

  lemma {:induction false} NoLabelNoFlag(s: string)
    requires !Contains(s, FLAG + ":")
    ensures Search(s, FLAG, SpacedFlag) == None
  {
    var tag := FLAG + ":";
    assert tag <= s ==> OccursAt(s, tag, 0);
    if s != "" {
      forall i | 0 <= i <= |s[1..]| ensures !OccursAt(s[1..], tag, i) {
        if OccursAt(s[1..], tag, i) {
          WithinSuffix(s, 1, i, i + |tag|);
          assert OccursAt(s, tag, i + 1);
        }
      }
      NoLabelNoFlag(s[1..]);
    }
  }

  // ----- where the label cannot occur -----

  // No colon behind the letter d, in whatever case: so far from the start the label, which ends
  // like that, would need one.
  ghost predicate Unflagged(s: string) {
    forall p | 21 <= p < |s| && s[p] == ':' :: LowerChar(s[p - 1]) != 'd'
  }

  ghost predicate Unmistakable(s: string) {
    forall p | 0 < p < |s| && s[p] == ':' :: LowerChar(s[p - 1]) != 'd'
  }

  lemma UnflaggedSilent(s: string)
    requires Unflagged(s)
    ensures !Contains(Lower(s), FLAG + ":")
  {
    FlagName();
    forall i | 0 <= i <= |s| ensures !OccursAt(Lower(s), FLAG + ":", i) {
      if OccursAt(Lower(s), FLAG + ":", i) {
        FlagPlace(s, i);
      }
    }
  }

  lemma FlagPlace(s: string, i: nat)
    requires OccursAt(Lower(s), FLAG + ":", i)
    ensures !Unflagged(s)
  {
    FlagName();
    OccursChars(Lower(s), FLAG + ":", i);
    assert Lower(s)[i + 21] == ':' && Lower(s)[i + 20] == 'd';
    assert s[i + 21] == ':' && LowerChar(s[i + 20]) == 'd';
  }

  ghost predicate NoColon(s: string) { forall i | 0 <= i < |s| :: s[i] != ':' }

  // A key that does not end like the label, or is too short to.
  ghost predicate PlainKey(key: string) {
    NoColon(key) && (|key| < 21 || (key[|key| - 1] != 'd' && key[|key| - 1] != 'D'))
  }

  lemma FieldUnflagged(f: Field)
    requires PlainKey(f.key) && Unmistakable(f.value)
    ensures Unflagged(FieldText(f))
  {
    var s := FieldText(f);
    assert forall p | 0 <= p < |f.key| :: s[p] == f.key[p];
    forall p | 21 <= p < |s| && s[p] == ':' ensures LowerChar(s[p - 1]) != 'd' {
      if p == |f.key| {
        assert s[p - 1] == f.key[|f.key| - 1];
      } else if p > |f.key| + 2 {
        assert s[p] == f.value[p - |f.key| - 2] && s[p - 1] == f.value[p - |f.key| - 3];
      }
    }
  }

  lemma {:induction false} JoinSilent(lines: seq<string>, t: string)
    requires '\n' !in t && t != "" && forall k | 0 <= k < |lines| :: !Contains(lines[k], t)
    ensures !Contains(Join(lines, '\n'), t)
  {
    if |lines| > 1 {
      assert lines == [lines[0]] + lines[1..];
      JoinCons(lines[0], lines[1..], '\n');
      JoinSilent(lines[1..], t);
      NotAcross(lines[0], Join(lines[1..], '\n'), t);
    } else if lines == [] {
      NothingInside(t);
    }
  }

  lemma NothingInside(t: string)
    requires t != ""
    ensures !Contains("", t)
  {}

  lemma NotAcross(a: string, b: string, t: string)
    requires '\n' !in t && !Contains(a, t) && !Contains(b, t)
    ensures !Contains(a + ['\n'] + b, t)
  {
    var s := a + ['\n'] + b;
    forall i | 0 <= i <= |s| ensures !OccursAt(s, t, i) {
      if OccursAt(s, t, i) { AcrossPlace(a, b, t, i); }
    }
  }

  lemma AcrossPlace(a: string, b: string, t: string, i: nat)
    requires '\n' !in t && OccursAt(a + ['\n'] + b, t, i)
    ensures Contains(a, t) || Contains(b, t)
  {
    var s, n := a + ['\n'] + b, |a|;
    OccursChars(s, t, i);
    assert s[n] == '\n' && s[n + 1..] == b;
    if i + |t| <= n {
      InFront(a, ['\n'] + b, n);
      assert s[i..i + |t|] == a[i..i + |t|];
      assert OccursAt(a, t, i);
    } else {
      assert !(i <= n < i + |t|);
      WithinSuffix(s, n + 1, i - n - 1, i - n - 1 + |t|);
      assert OccursAt(b, t, i - n - 1);
    }
  }

  // ----- usual values -----

  ghost predicate UsualValues(m: ManifestInfo) {
    && Unmistakable(m.generated) && Unmistakable(m.runId) && Unmistakable(m.platform) && Unmistakable(m.kernel)
    && Unmistakable(m.architecture) && Unmistakable(m.bind)
  }

  ghost predicate PlainField(f: Field) { PlainKey(f.key) && Unmistakable(f.value) }

  lemma QuotedUnmistakable(s: string)
    requires Unmistakable(s)
    ensures Unmistakable(Quoted(s))
  {
    var q := Quoted(s);
    forall p | 0 < p < |q| && q[p] == ':' ensures LowerChar(q[p - 1]) != 'd' {
      if p > 1 { assert q[p] == s[p - 1] && q[p - 1] == s[p - 2]; }
    }
  }

  lemma NumberUnmistakable(n: int)
    ensures Unmistakable(IntText(n))
  {
    IntTextClean(n);
    var d := Decimal(if n < 0 then -n else n);
    forall p | 0 <= p < |d| ensures d[p] != ':' { assert IsDigit(d[p]) by { assert d[p] in d; } }
  }

  lemma BoolUnmistakable(b: bool)
    ensures Unmistakable(LowerBool(b))
  {}

  lemma NoColonUnmistakable(s: string)
    requires NoColon(s)
    ensures Unmistakable(s) && Unflagged(s)
  {}

  lemma RunKeys()
    ensures PlainKey("# Generated") && PlainKey("run_id") && PlainKey("platform") && PlainKey("kernel")
    ensures PlainKey("architecture") && PlainKey("duration_seconds") && PlainKey("sample_interval_seconds")
    ensures PlainKey("status_burst") && PlainKey("strace_enabled")
  {}

  lemma RunPlain(c: Config, m: ManifestInfo, k: nat)
    requires UsualValues(m) && k < 9
    ensures PlainField(RunFields(c, m)[k])
  {
    RunKeys();
    QuotedUnmistakable(m.runId);
    NumberUnmistakable(c.duration);
    NumberUnmistakable(c.interval);
    BoolUnmistakable(c.statusBurst);
    BoolUnmistakable(m.strace);
  }

  lemma ShellKeys()
    ensures PlainKey("lab_port") && PlainKey("lab_bind") && PlainKey("# CRITICAL") && PlainKey("event_source")
    ensures PlainKey("heartbeat_enabled") && PlainKey("wg_check_enabled") && PlainKey("bgp_bfd_enabled")
  {}

  // The texts without values.
  lemma TextsNoColon()
    ensures NoColon("Shell-side synthetic events ") && NoColon("CANNOT produce confirmed_leak verdicts")
    ensures NoColon("shell_synthetic") && NoColon(TITLE)
    ensures NoColon("# Native event source (tovarisch-native, ") && NoColon("can be used for confirmed_leak)")
  {}

  lemma ShellTexts()
    ensures Unmistakable("Shell-side synthetic events " + "CANNOT produce confirmed_leak verdicts")
    ensures Unmistakable("shell_synthetic")
  {
    TextsNoColon();
    NoColonUnmistakable("Shell-side synthetic events " + "CANNOT produce confirmed_leak verdicts");
    NoColonUnmistakable("shell_synthetic");
  }

  lemma ShellPlain(c: Config, m: ManifestInfo, k: nat)
    requires UsualValues(m) && k < 7
    ensures PlainField(ShellFields(c, m)[k])
  {
    ShellKeys();
    ShellTexts();
    NumberUnmistakable(m.port);
    BoolUnmistakable(c.heartbeat);
    BoolUnmistakable(c.wgCheck);
    BoolUnmistakable(c.bgpBfd);
  }

  lemma CommentsUnflagged()
    ensures Unflagged(TITLE) && Unflagged(NativeComment())
  {
    TextsNoColon();
    NoColonUnmistakable(TITLE);
    NoColonUnmistakable(NativeComment());
  }

  lemma LinesSilent(lines: seq<string>)
    requires forall k | 0 <= k < |lines| :: Unflagged(lines[k])
    ensures !Contains(Lower(Join(lines, '\n')), FLAG + ":")
  {
    var low := Map(lines, Lower);
    forall k | 0 <= k < |low| ensures !Contains(low[k], FLAG + ":") { UnflaggedSilent(lines[k]); }
    FlagName();
    JoinSilent(low, FLAG + ":");
    LowerJoin(lines, '\n');
  }

  // No value with a colon behind the letter d before the flag, as is usual: then nothing is met.
  lemma UsualManifest(c: Config, m: ManifestInfo)
    requires UsualValues(m)
    ensures EarlyFlag(c, m) == None
  {
    var fields, lines := RunFields(c, m) + ShellFields(c, m), LinesBefore(c, m);
    CommentsUnflagged();
    forall k | 0 <= k < |fields| ensures Unflagged(FieldText(fields[k])) {
      if k < 9 { RunPlain(c, m, k); } else { ShellPlain(c, m, k - 9); }
      FieldUnflagged(fields[k]);
    }
    forall k | 0 <= k < |lines| ensures Unflagged(lines[k]) {
      assert k == 0 || k == |lines| - 1 || lines[k] == FieldText(fields[k - 1]);
    }
    LinesSilent(lines);
    NoLabelNoFlag(Lower(TextBefore(c, m)));
  }

  lemma {:induction false} LowerJoin(parts: seq<string>, c: char)
    requires LowerChar(c) == c
    ensures Lower(Join(parts, c)) == Join(Map(parts, Lower), c)
  {
    if |parts| > 1 {
      assert parts == [parts[0]] + parts[1..] && parts[1..] != [];
      JoinCons(parts[0], parts[1..], c);
      LowerJoin(parts[1..], c);
      assert Map(parts, Lower) == [Lower(parts[0])] + Map(parts[1..], Lower);
      assert Lower([c]) == [c];
      JoinCons(Lower(parts[0]), Map(parts[1..], Lower), c);
      LowerAppend(parts[0] + [c], Join(parts[1..], c));
      LowerAppend(parts[0], [c]);
    }
  }

  // ----- a run id that is read as the flag -----

  const RUN_ID_FLAG := FLAG + ": true"

  lemma RunIdLine()
    ensures var line := FieldText(Field("run_id", Quoted(RUN_ID_FLAG)));
            line == "run_id: \"" + (FLAG + (": true\"")) && Lower(line) == line
  {
    var line, tail := FieldText(Field("run_id", Quoted(RUN_ID_FLAG))), ": true\"";
    assert line == "run_id: \"" + (FLAG + tail);
    FlagName();
    LowerAppend("run_id: \"", FLAG + tail);
    LowerAppend(FLAG, tail);
    assert Lower("run_id: \"") == "run_id: \"" && Lower(tail) == tail;
  }

  lemma RunIdKey()
    ensures var p := "run_id: \""; |p| == 9 && p[3] == '_' && forall i | 0 <= i < |p| && p[i] == 'n' :: i == 2
  {}

  lemma FlagNotAt(p: string, s: string, i: nat)
    requires i < |p| && (p[i] != 'n' || (i + 1 < |p| && p[i + 1] != 'a'))
    ensures !(FLAG + ":" <= (p + s)[i..])
  {
    FlagName();
    var tag, w := FLAG + ":", (p + s)[i..];
    assert w[0] == p[i] && (i + 1 < |p| ==> w[1] == p[i + 1]);
    OtherChar(tag, w, if p[i] != 'n' then 0 else 1);
  }

  lemma OtherChar(t: string, s: string, k: nat)
    requires k < |t| && k < |s| && t[k] != s[k]
    ensures !(t <= s)
  {}

  lemma TrueReads(t: string)
    ensures SpacedFlag(" true\"" + t) == Some(true)
  {
    assert " true\"" + t == " " + "true" + ("\"" + t);
    StripsBlank("true", "\"" + t);
  }

  lemma RunIdFound(t: string)
    ensures Search("run_id: \"" + (FLAG + (": true\"" + t)), FLAG, SpacedFlag) == Some(true)
  {
    var p, s := "run_id: \"", FLAG + (": true\"" + t);
    RunIdKey();
    forall i | 0 <= i < |p| ensures !(FLAG + ":" <= (p + s)[i..]) { FlagNotAt(p, s, i); }
    SearchMoves(p, s, FLAG, SpacedFlag);
    assert s == (FLAG + ":") + (" true\"" + t);
    TrueReads(t);
    FlagHere(" true\"" + t);
  }

  lemma FlagHere(x: string)
    requires SpacedFlag(x).Some?
    ensures Search((FLAG + ":") + x, FLAG, SpacedFlag) == SpacedFlag(x)
  {
    assert ((FLAG + ":") + x)[|FLAG + ":"|..] == x;
  }

  // A run without native events and with this run id is asked for a native timeline all the same.
  lemma RunIdTurnsFlag(c: Config, m: ManifestInfo)
    requires m.runId == RUN_ID_FLAG && Unmistakable(m.generated)
    ensures EarlyFlag(c, m) == Some(true) && NativeRequired(ManifestText(c, m))
  {
    var lines := LinesBefore(c, m);
    var head, line, more := lines[..2], lines[2], lines[3..];
    assert head == [TITLE, FieldText(Field("# Generated", m.generated))];
    assert line == FieldText(Field("run_id", Quoted(RUN_ID_FLAG)));
    assert lines == head + ([line] + more);
    RunKeys();
    CommentsUnflagged();
    FieldUnflagged(Field("# Generated", m.generated));
    LinesSilent(head);
    LineBetween(head, line, more);
    SearchBetween(Join(head, '\n'), line, Join(more, '\n'));
    FlagExactly(c, m);
  }

  lemma SearchBetween(head: string, line: string, more: string)
    requires !Contains(Lower(head), FLAG + ":") && line == FieldText(Field("run_id", Quoted(RUN_ID_FLAG)))
    ensures Search(Lower(head + ("\n" + (line + ("\n" + more)))), FLAG, SpacedFlag) == Some(true)
  {
    RunIdLine();
    LowerAppend(head, "\n" + (line + ("\n" + more)));
    LowerAppend("\n", line + ("\n" + more));
    LowerAppend(line, "\n" + more);
    assert Lower("\n") == "\n";
    var s, t := Lower(head), line + Lower("\n" + more);
    assert t == "run_id: \"" + (FLAG + (": true\"" + Lower("\n" + more)));
    RunIdFound(Lower("\n" + more));
    forall i | 0 <= i <= |s| ensures !OccursAt(s, FLAG + ":", i) {}
    FlagName();
    SearchSkips(s, t, FLAG, SpacedFlag, 0);
    assert (s + ("\n" + t))[0..] == s + ("\n" + t);
  }
}
